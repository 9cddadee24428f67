/** Which files of a level overlap a range of user keys (db/version_set.cc). An absent bound stands
    for a range open on that side. */
module Overlaps {
  import opened Keys
  import opened Contents
  import opened Versions

  predicate AfterFile(user: Option<Bytes>, f: File) {
    user.Some? && Less(f.largest.user, user.value)
  }

  predicate BeforeFile(user: Option<Bytes>, f: File) {
    user.Some? && Less(user.value, f.smallest.user)
  }

  predicate InRange(f: File, begin: Option<Bytes>, end: Option<Bytes>) {
    !AfterFile(begin, f) && !BeforeFile(end, f)
  }

  /** A file is in a range exactly when some user key lies between the file's bounds and in the range. */
  lemma InRangeMeets(f: File, begin: Option<Bytes>, end: Option<Bytes>)
    requires AtMost(f.smallest.user, f.largest.user) && (begin.Some? && end.Some? ==> AtMost(begin.value, end.value))
    ensures InRange(f, begin, end) <==>
              exists k :: AtMost(f.smallest.user, k) && AtMost(k, f.largest.user)
                          && (begin.Some? ==> AtMost(begin.value, k)) && (end.Some? ==> AtMost(k, end.value))
  {
    UserOrder();
    if InRange(f, begin, end) {
      var k := if begin.Some? && Less(f.smallest.user, begin.value) then begin.value else f.smallest.user;
      assert AtMost(f.smallest.user, k) && AtMost(k, f.largest.user);
    }
  }

  // The order on range bounds: the absent bound lies outside every key.

  predicate BeginAtMost(a: Option<Bytes>, b: Option<Bytes>) {
    a.None? || (b.Some? && AtMost(a.value, b.value))
  }

  predicate EndAtLeast(a: Option<Bytes>, b: Option<Bytes>) {
    a.None? || (b.Some? && AtMost(b.value, a.value))
  }

  /** Every file that overlaps the range lies inside it. */
  ghost predicate ClosedRange(files: seq<File>, begin: Option<Bytes>, end: Option<Bytes>) {
    forall f :: f in files && InRange(f, begin, end) ==>
                  BeginAtMost(begin, Some(f.smallest.user)) && EndAtLeast(end, Some(f.largest.user))
  }

  ghost function FilesInRange(files: seq<File>, begin: Option<Bytes>, end: Option<Bytes>): seq<File> {
    if files == [] then [] else
      var n := |files| - 1;
      FilesInRange(files[..n], begin, end) + if InRange(files[n], begin, end) then [files[n]] else []
  }

  lemma {:induction false} FilesInRangeMembers(files: seq<File>, begin: Option<Bytes>, end: Option<Bytes>)
    ensures forall f :: f in FilesInRange(files, begin, end) <==> f in files && InRange(f, begin, end)
  {
    if files != [] {
      FilesInRangeMembers(files[..|files|-1], begin, end);
      assert files == files[..|files|-1] + [files[|files|-1]];
    }
  }

  /** Does some file overlap the range? Sorted, disjoint files are searched by bisection. */
  method SomeFileOverlapsRange(disjoint: bool, files: seq<File>, begin: Option<Bytes>, end: Option<Bytes>)
    returns (b: bool)
    requires ValidFiles(files) && (disjoint ==> Disjoint(files))
    ensures b <==> exists f :: f in files && InRange(f, begin, end)
  {
    if !disjoint {
      for i := 0 to |files|
        invariant forall j :: 0 <= j < i ==> !InRange(files[j], begin, end)
      {
        if AfterFile(begin, files[i]) || BeforeFile(end, files[i]) {
        } else {
          assert files[i] in files && InRange(files[i], begin, end);
          return true;
        }
      }
      return false;
    }
    UserOrder();
    var index := 0;
    if begin.Some? {
      // The earliest internal key of the begin user key.
      var small := LookupKey(begin.value, MAX_SEQUENCE);
      index := FindFile(files, small);
      forall f | f in files
        ensures KeyLess(f.largest, small) <==> AfterFile(begin, f)
      {
        if f.largest.user == begin.value {
          LookupKeySplits(f.largest, begin.value, MAX_SEQUENCE);
        }
      }
    }
    if index >= |files| {
      return false;
    }
    b := !BeforeFile(end, files[index]);
    if b {
      assert files[index] in files && InRange(files[index], begin, end);
    } else {
      forall i | 0 <= i < |files| ensures !InRange(files[i], begin, end) {
        if index < i {
          DisjointLargest(files, index, i);
          KeyOrder();
        }
      }
    }
  }

  predicate StartsBefore(f: File, begin: Option<Bytes>) {
    begin.Some? && Less(f.smallest.user, begin.value)
  }

  predicate EndsAfter(f: File, end: Option<Bytes>) {
    end.Some? && Less(end.value, f.largest.user)
  }

  // The ends of files that stick out of a level-0 search range; every restart leaves fewer.
  ghost function StickingOut(files: seq<File>, begin: Option<Bytes>, end: Option<Bytes>): set<(int, bool)> {
    (set i | 0 <= i < |files| && StartsBefore(files[i], begin) :: (i, false)) +
    (set i | 0 <= i < |files| && EndsAfter(files[i], end) :: (i, true))
  }

  lemma WideningShrinks(files: seq<File>, begin: Option<Bytes>, end: Option<Bytes>, i: int)
    requires 0 <= i < |files|
    ensures StartsBefore(files[i], begin) ==>
              StickingOut(files, Some(files[i].smallest.user), end) < StickingOut(files, begin, end)
    ensures EndsAfter(files[i], end) ==>
              StickingOut(files, begin, Some(files[i].largest.user)) < StickingOut(files, begin, end)
  {
    UserOrder();
    var before := StickingOut(files, begin, end);
    if StartsBefore(files[i], begin) {
      var after := StickingOut(files, Some(files[i].smallest.user), end);
      assert (i, false) in before && (i, false) !in after;
    }
    if EndsAfter(files[i], end) {
      var after := StickingOut(files, begin, Some(files[i].largest.user));
      assert (i, true) in before && (i, true) !in after;
    }
  }

  /** A range that every closed range containing the request contains. */
  ghost predicate WithinEveryClosed(files: seq<File>, begin: Option<Bytes>, end: Option<Bytes>,
                                    lo: Option<Bytes>, hi: Option<Bytes>) {
    forall b, e :: BeginAtMost(b, begin) && EndAtLeast(e, end) && ClosedRange(files, b, e) ==>
                     BeginAtMost(b, lo) && EndAtLeast(e, hi)
  }

  lemma WideningStaysWithin(files: seq<File>, begin: Option<Bytes>, end: Option<Bytes>,
                            lo: Option<Bytes>, hi: Option<Bytes>, f: File)
    requires f in files && ValidFile(f) && InRange(f, lo, hi) && WithinEveryClosed(files, begin, end, lo, hi)
    requires BeginAtMost(lo, begin) && EndAtLeast(hi, end)
    ensures StartsBefore(f, lo) ==> WithinEveryClosed(files, begin, end, Some(f.smallest.user), hi) &&
                                    BeginAtMost(Some(f.smallest.user), begin)
    ensures EndsAfter(f, hi) ==> WithinEveryClosed(files, begin, end, lo, Some(f.largest.user)) &&
                                 EndAtLeast(Some(f.largest.user), end)
  {
    UserOrder();
    forall b, e | BeginAtMost(b, begin) && EndAtLeast(e, end) && ClosedRange(files, b, e)
      ensures BeginAtMost(b, Some(f.smallest.user)) && EndAtLeast(e, Some(f.largest.user))
    {
      assert BeginAtMost(b, lo) && EndAtLeast(e, hi);
      assert InRange(f, b, e);
    }
  }

  lemma RangeWithinItself(files: seq<File>, begin: Option<Bytes>, end: Option<Bytes>)
    ensures BeginAtMost(begin, begin) && EndAtLeast(end, end) && WithinEveryClosed(files, begin, end, begin, end)
  {
    UserOrder();
  }

  ghost predicate NoneSticksOut(files: seq<File>, begin: Option<Bytes>, end: Option<Bytes>) {
    forall f :: f in files && InRange(f, begin, end) ==> !StartsBefore(f, begin) && !EndsAfter(f, end)
  }

  // The search has scanned a prefix of the files with the current range.
  ghost predicate Scanned(level: nat, files: seq<File>, scanned: seq<File>, inputs: seq<File>,
                          begin: Option<Bytes>, end: Option<Bytes>, lo: Option<Bytes>, hi: Option<Bytes>) {
    inputs == FilesInRange(scanned, lo, hi) &&
    BeginAtMost(lo, begin) && EndAtLeast(hi, end) &&
    (level > 0 ==> lo == begin && hi == end) &&
    (level == 0 ==> NoneSticksOut(scanned, lo, hi) && WithinEveryClosed(files, begin, end, lo, hi))
  }

  lemma ScanStep(level: nat, files: seq<File>, scanned: seq<File>, inputs: seq<File>,
                 begin: Option<Bytes>, end: Option<Bytes>, lo: Option<Bytes>, hi: Option<Bytes>, f: File)
    requires Scanned(level, files, scanned, inputs, begin, end, lo, hi) && f in files && ValidFile(f)
    ensures !InRange(f, lo, hi) ==> Scanned(level, files, scanned + [f], inputs, begin, end, lo, hi)
    ensures InRange(f, lo, hi) && (level == 0 ==> !StartsBefore(f, lo) && !EndsAfter(f, hi)) ==>
              Scanned(level, files, scanned + [f], inputs + [f], begin, end, lo, hi)
    ensures level == 0 && InRange(f, lo, hi) && StartsBefore(f, lo) ==>
              Scanned(level, files, [], [], begin, end, Some(f.smallest.user), hi)
    ensures level == 0 && InRange(f, lo, hi) && EndsAfter(f, hi) ==>
              Scanned(level, files, [], [], begin, end, lo, Some(f.largest.user))
  {
    assert (scanned + [f])[..|scanned|] == scanned;
    if level == 0 && InRange(f, lo, hi) {
      WideningStaysWithin(files, begin, end, lo, hi, f);
    }
  }

  /** The range a search ends with: the one asked for, and in level 0 the least one around it that every overlapping
      file lies inside. */
  ghost predicate SearchRange(level: nat, files: seq<File>, begin: Option<Bytes>, end: Option<Bytes>,
                              lo: Option<Bytes>, hi: Option<Bytes>) {
    && BeginAtMost(lo, begin) && EndAtLeast(hi, end)
    && (level > 0 ==> lo == begin && hi == end)
    && (level == 0 ==> ClosedRange(files, lo, hi) && WithinEveryClosed(files, begin, end, lo, hi))
  }

  /** The files of that range. */
  ghost predicate OverlappingInputs(level: nat, files: seq<File>, begin: Option<Bytes>, end: Option<Bytes>, inputs: seq<File>) {
    exists lo, hi :: SearchRange(level, files, begin, end, lo, hi) && inputs == FilesInRange(files, lo, hi)
  }

  /** There is one such range only, so the answer of the search is determined. */
  lemma OneAnswer(level: nat, files: seq<File>, begin: Option<Bytes>, end: Option<Bytes>, a: seq<File>, b: seq<File>)
    requires OverlappingInputs(level, files, begin, end, a) && OverlappingInputs(level, files, begin, end, b)
    ensures a == b
  {
    UserOrder();
    var lo, hi :| SearchRange(level, files, begin, end, lo, hi) && a == FilesInRange(files, lo, hi);
    var lo', hi' :| SearchRange(level, files, begin, end, lo', hi') && b == FilesInRange(files, lo', hi');
    if level == 0 {
      assert BeginAtMost(lo, lo') && BeginAtMost(lo', lo) && EndAtLeast(hi, hi') && EndAtLeast(hi', hi);
    }
  }

  /** All files of a level that overlap the range. Level-0 files may overlap one another, so there
      the search restarts with a wider range whenever a file sticks out; it ends with the least
      range containing the request that every overlapping file lies inside. */
  method GetOverlappingInputs(level: nat, files: seq<File>, begin: Option<Bytes>, end: Option<Bytes>)
    returns (inputs: seq<File>, ghost lo: Option<Bytes>, ghost hi: Option<Bytes>)
    requires ValidFiles(files)
    ensures OverlappingInputs(level, files, begin, end, inputs)
    ensures SearchRange(level, files, begin, end, lo, hi) && inputs == FilesInRange(files, lo, hi)
  {
    RangeWithinItself(files, begin, end);
    var userBegin, userEnd := begin, end;
    inputs := [];
    var i := 0;
    while i < |files|
      invariant 0 <= i <= |files|
      invariant Scanned(level, files, files[..i], inputs, begin, end, userBegin, userEnd)
      decreases StickingOut(files, userBegin, userEnd), |files| - i
    {
      var f := files[i];
      assert f in files && files[..i+1] == files[..i] + [f];
      ScanStep(level, files, files[..i], inputs, begin, end, userBegin, userEnd, f);
      WideningShrinks(files, userBegin, userEnd, i);
      i := i + 1;
      if AfterFile(userBegin, f) {
      } else if BeforeFile(userEnd, f) {
      } else {
        inputs := inputs + [f];
        if level == 0 {
          if StartsBefore(f, userBegin) {
            userBegin := Some(f.smallest.user);
            inputs := [];
            i := 0;
          } else if EndsAfter(f, userEnd) {
            userEnd := Some(f.largest.user);
            inputs := [];
            i := 0;
          }
        }
      }
    }
    assert files[..|files|] == files;
    lo, hi := userBegin, userEnd;
  }
}
