/** Choosing the inputs of a compaction, merging them and the cursor that tells whether deeper
    levels can hold a key (db/version_set.cc, db/db_impl.cc). */
module Compactions {
  import opened Keys
  import opened Contents
  import opened Versions
  import opened Overlaps

  /** No user key lies in the ranges of both files. */
  ghost predicate Apart(f: File, g: File) {
    Less(f.largest.user, g.smallest.user) || Less(g.largest.user, f.smallest.user)
  }

  ghost predicate RangeOf(files: seq<File>, smallest: InternalKey, largest: InternalKey) {
    (forall f :: f in files ==> !KeyLess(f.smallest, smallest) && !KeyLess(largest, f.largest)) &&
    (exists f :: f in files && f.smallest == smallest) &&
    (exists f :: f in files && f.largest == largest)
  }

  ghost predicate DistinctFiles(files: seq<File>) {
    forall i, j :: 0 <= i < j < |files| ==> files[i] != files[j]
  }

  /** The inputs of a compaction at a level: some files of the level, which in level 0 no other
      level-0 file overlaps, and exactly the files of the next level that overlap their range. */
  ghost predicate ValidPick(levels: Levels, level: nat, in0: seq<File>, in1: seq<File>)
    requires |levels| == NUM_LEVELS && level + 1 < NUM_LEVELS
  {
    in0 != [] && DistinctFiles(in0) &&
    (forall f :: f in in0 ==> f in levels[level]) &&
    (level > 0 ==> Disjoint(in0)) &&
    (level == 0 ==> forall f, g :: f in levels[0] && f !in in0 && g in in0 ==> Apart(f, g)) &&
    exists smallest, largest ::
      RangeOf(in0, smallest, largest) && in1 == FilesInRange(levels[level+1], Some(smallest.user), Some(largest.user))
  }

  lemma RangeWidens(files: seq<File>, smallest: InternalKey, largest: InternalKey, f: File)
    requires files != [] ==> RangeOf(files, smallest, largest)
    requires files == [] ==> smallest == f.smallest && largest == f.largest
    ensures files == [] ==> RangeOf([f], smallest, largest)
    ensures files != [] ==> RangeOf(files + [f], if KeyLess(f.smallest, smallest) then f.smallest else smallest,
                    if KeyLess(largest, f.largest) then f.largest else largest)
  {
    KeyOrder();
    assert f in files + [f] && f in [f];
    assert forall g :: g in files ==> g in files + [f];
  }

  method GetRange(inputs: seq<File>) returns (smallest: InternalKey, largest: InternalKey)
    requires inputs != []
    ensures RangeOf(inputs, smallest, largest)
  {
    smallest, largest := inputs[0].smallest, inputs[0].largest;
    RangeWidens([], smallest, largest, inputs[0]);
    assert inputs[..1] == [inputs[0]];
    for i := 1 to |inputs|
      invariant RangeOf(inputs[..i], smallest, largest)
    {
      RangeWidens(inputs[..i], smallest, largest, inputs[i]);
      assert inputs[..i+1] == inputs[..i] + [inputs[i]];
      if KeyLess(inputs[i].smallest, smallest) {
        smallest := inputs[i].smallest;
      }
      if KeyLess(largest, inputs[i].largest) {
        largest := inputs[i].largest;
      }
    }
    assert inputs[..|inputs|] == inputs;
  }

  lemma {:induction false} FilesInRangeDisjoint(files: seq<File>, begin: Option<Bytes>, end: Option<Bytes>)
    requires Disjoint(files)
    ensures Disjoint(FilesInRange(files, begin, end))
  {
    if files != [] {
      var n := |files| - 1;
      FilesInRangeDisjoint(files[..n], begin, end);
      FilesInRangeMembers(files[..n], begin, end);
      var found := FilesInRange(files[..n], begin, end);
      forall i | 0 <= i < |found| ensures KeyLess(found[i].largest, files[n].smallest) {
        assert found[i] in found;
        var j :| 0 <= j < n && files[j] == found[i];
      }
    }
  }

  lemma {:induction false} FilesInRangeDistinct(files: seq<File>, begin: Option<Bytes>, end: Option<Bytes>)
    requires DistinctFiles(files)
    ensures DistinctFiles(FilesInRange(files, begin, end))
  {
    if files != [] {
      var n := |files| - 1;
      FilesInRangeDistinct(files[..n], begin, end);
      FilesInRangeMembers(files[..n], begin, end);
      var found := FilesInRange(files[..n], begin, end);
      forall i | 0 <= i < |found| ensures found[i] != files[n] {
        assert found[i] in files[..n];
      }
    }
  }

  function TotalFileSize(files: seq<File>): nat {
    if files == [] then 0 else TotalFileSize(files[..|files|-1]) + files[|files|-1].size
  }

  /** The size of some files is that of each of them, and of two lists the sum of theirs. */
  lemma {:induction false} TotalFileSizeAdds(a: seq<File>, b: seq<File>)
    ensures TotalFileSize([]) == 0 && (forall f :: TotalFileSize([f]) == f.size)
    ensures TotalFileSize(a + b) == TotalFileSize(a) + TotalFileSize(b)
  {
    assert forall f: File :: [f][..0] == [];
    if b == [] {
      assert a + b == a;
    } else {
      TotalFileSizeAdds(a, b[..|b| - 1]);
      assert (a + b)[..|a + b| - 1] == a + b[..|b| - 1];
    }
  }

  /** The sizes added up. */
  function Sum(ns: seq<nat>): nat {
    if ns == [] then 0 else ns[0] + Sum(ns[1..])
  }

  function Sizes(files: seq<File>): seq<nat> {
    seq(|files|, i requires 0 <= i < |files| => files[i].size)
  }

  lemma {:induction false} TotalIsSum(files: seq<File>)
    ensures TotalFileSize(files) == Sum(Sizes(files))
  {
    if files != [] {
      TotalIsSum(files[1..]);
      TotalFileSizeAdds([files[0]], files[1..]);
      assert [files[0]] + files[1..] == files;
      assert Sizes(files)[1..] == Sizes(files[1..]);
    }
  }

  // What is picked.

  /** The files a pick begins with: the one chosen, and in level 0 those of the least closed range around it. */
  ghost predicate FirstChoice(levels: Levels, level: nat, f: File, picked: seq<File>)
    requires level < |levels|
  {
    if level == 0 then OverlappingInputs(0, levels[0], Some(f.smallest.user), Some(f.largest.user), picked) else picked == [f]
  }

  /** The files of a level that the range of some files overlaps, in level 0 those of the least closed range around it. */
  ghost predicate Meets(levels: Levels, level: nat, files: seq<File>, met: seq<File>)
    requires level < |levels|
  {
    exists smallest, largest ::
      RangeOf(files, smallest, largest) && OverlappingInputs(level, levels[level], Some(smallest.user), Some(largest.user), met)
  }

  /** A choice may grow to the files that its own range and that of the files met below overlap together, when these are more,
      meet no more files below, and stay small. */
  ghost predicate Grows(levels: Levels, level: nat, picked: seq<File>, met: seq<File>, sizeLimit: nat, wide: seq<File>)
    requires level + 1 < |levels|
  {
    && met != [] && Meets(levels, level, picked + met, wide) && |wide| > |picked|
    && Sum(Sizes(met)) + Sum(Sizes(wide)) < sizeLimit && Meets(levels, level + 1, wide, met)
  }

  /** The inputs of a compaction around a file. */
  ghost predicate PickAround(levels: Levels, level: nat, f: File, sizeLimit: nat, in0: seq<File>, in1: seq<File>)
    requires level + 1 < |levels|
  {
    exists picked :: FirstChoice(levels, level, f, picked) && GrownFrom(levels, level, picked, sizeLimit, in0, in1)
  }

  ghost predicate GrownFrom(levels: Levels, level: nat, picked: seq<File>, sizeLimit: nat, in0: seq<File>, in1: seq<File>)
    requires level + 1 < |levels|
  {
    && Meets(levels, level + 1, picked, in1)
    && if exists wide :: Grows(levels, level, picked, in1, sizeLimit, wide) then Grows(levels, level, picked, in1, sizeLimit, in0) else in0 == picked
  }

  lemma OneRange(files: seq<File>, s: InternalKey, l: InternalKey, s': InternalKey, l': InternalKey)
    requires RangeOf(files, s, l) && RangeOf(files, s', l')
    ensures s == s' && l == l'
  {
    KeyOrder();
  }

  lemma OneMeeting(levels: Levels, level: nat, files: seq<File>, a: seq<File>, b: seq<File>)
    requires level < |levels| && Meets(levels, level, files, a) && Meets(levels, level, files, b)
    ensures a == b
  {
    hide RangeOf, OverlappingInputs;
    var s, l :| RangeOf(files, s, l) && OverlappingInputs(level, levels[level], Some(s.user), Some(l.user), a);
    var s', l' :| RangeOf(files, s', l') && OverlappingInputs(level, levels[level], Some(s'.user), Some(l'.user), b);
    OneRange(files, s, l, s', l');
    OneAnswer(level, levels[level], Some(s.user), Some(l.user), a, b);
  }

  /** There is one such choice only: level, file and limit determine what is compacted. */
  lemma OnePick(levels: Levels, level: nat, f: File, sizeLimit: nat, a0: seq<File>, a1: seq<File>, b0: seq<File>, b1: seq<File>)
    requires level + 1 < |levels| && PickAround(levels, level, f, sizeLimit, a0, a1) && PickAround(levels, level, f, sizeLimit, b0, b1)
    ensures a0 == b0 && a1 == b1
  {
    hide Meets, OverlappingInputs;
    var a :| FirstChoice(levels, level, f, a) && GrownFrom(levels, level, a, sizeLimit, a0, a1);
    var b :| FirstChoice(levels, level, f, b) && GrownFrom(levels, level, b, sizeLimit, b0, b1);
    if level == 0 {
      OneAnswer(0, levels[0], Some(f.smallest.user), Some(f.largest.user), a, b);
    }
    OneMeeting(levels, level + 1, a, a1, b1);
    if Grows(levels, level, a, a1, sizeLimit, a0) && Grows(levels, level, a, a1, sizeLimit, b0) {
      OneMeeting(levels, level, a + a1, a0, b0);
    }
  }

  // Files of a wider range are at least as many, and as many only if they are the same.
  lemma {:induction false} WiderMeetsMore(files: seq<File>, b: Option<Bytes>, e: Option<Bytes>, b': Option<Bytes>, e': Option<Bytes>)
    requires BeginAtMost(b', b) && EndAtLeast(e', e)
    ensures |FilesInRange(files, b, e)| <= |FilesInRange(files, b', e')|
    ensures |FilesInRange(files, b, e)| == |FilesInRange(files, b', e')| ==> FilesInRange(files, b, e) == FilesInRange(files, b', e')
  {
    if files != [] {
      UserOrder();
      WiderMeetsMore(files[..|files| - 1], b, e, b', e');
    }
  }

  lemma WiderRange(files: seq<File>, wide: seq<File>, s: InternalKey, l: InternalKey, s': InternalKey, l': InternalKey)
    requires RangeOf(files, s, l) && RangeOf(wide, s', l') && forall f :: f in files ==> f in wide
    ensures BeginAtMost(Some(s'.user), Some(s.user)) && EndAtLeast(Some(l'.user), Some(l.user))
  {
    UserOrder();
  }

  // A file whose keys lie inside a range of user keys overlaps it.
  lemma CoveredOverlaps(f: File, files: seq<File>, smallest: InternalKey, largest: InternalKey)
    requires ValidFile(f) && f in files && RangeOf(files, smallest, largest)
    ensures InRange(f, Some(smallest.user), Some(largest.user))
  {
    UserOrder();
    FileBounds(f, f.entries[0]);
  }

  lemma Level0Closed(files: seq<File>, inputs: seq<File>, lo: Option<Bytes>, hi: Option<Bytes>)
    requires ValidFiles(files) && ClosedRange(files, lo, hi) && inputs == FilesInRange(files, lo, hi)
    ensures forall f, g :: f in files && f !in inputs && g in inputs ==> Apart(f, g)
  {
    FilesInRangeMembers(files, lo, hi);
    UserOrder();
    forall f, g | f in files && f !in inputs && g in inputs ensures Apart(f, g) {
      assert !InRange(f, lo, hi) && InRange(g, lo, hi);
      FileBounds(f, f.entries[0]);
    }
  }

  /** The files of the next level to merge with, and a wider choice of files of this level when
      that costs no further file of the next level and stays small enough. Whether or not the
      choice grows, the second input is every file of the next level that overlaps the first. */
  method SetupOtherInputs(levels: Levels, level: nat, picked: seq<File>, sizeLimit: nat)
    returns (in0: seq<File>, in1: seq<File>)
    requires ValidLevels(levels) && level + 1 < NUM_LEVELS && picked != []
    requires DistinctFiles(picked) && DistinctFiles(levels[level])
    requires forall f :: f in picked ==> f in levels[level]
    requires level > 0 ==> Disjoint(picked)
    requires level == 0 ==> forall f, g :: f in levels[0] && f !in picked && g in picked ==> Apart(f, g)
    ensures ValidPick(levels, level, in0, in1)
    ensures forall f :: f in picked ==> f in in0
    ensures GrownFrom(levels, level, picked, sizeLimit, in0, in1)
  {
    hide ValidFile, ValidPick, RangeOf, OverlappingInputs, SearchRange, DistinctFiles, FilesInRange, TotalFileSize, Sum, Disjoint, Meets;
    in0 := picked;
    var smallest, largest := GetRange(in0);
    ghost var lo, hi;
    in1, lo, hi := GetOverlappingInputs(level + 1, levels[level+1], Some(smallest.user), Some(largest.user));
    MeetsIs(levels, level + 1, picked, smallest, largest, in1);
    MeetsValid(levels, level, picked, in1);
    var allStart, allLimit := GetRange(in0 + in1);
    if in1 != [] {
      var expanded0;
      expanded0, lo, hi := GetOverlappingInputs(level, levels[level], Some(allStart.user), Some(allLimit.user));
      TotalIsSum(in1);
      TotalIsSum(expanded0);
      MeetsIs(levels, level, picked + in1, allStart, allLimit, expanded0);
      if |expanded0| > |in0| && TotalFileSize(in1) + TotalFileSize(expanded0) < sizeLimit {
        Expanded(levels, level, picked, in1, allStart, allLimit, expanded0, lo, hi);
        var newStart, newLimit := GetRange(expanded0);
        var expanded1;
        ghost var lo1, hi1;
        expanded1, lo1, hi1 := GetOverlappingInputs(level + 1, levels[level+1], Some(newStart.user), Some(newLimit.user));
        MeetsIs(levels, level + 1, expanded0, newStart, newLimit, expanded1);
        Grown(levels, level, picked, in1, sizeLimit, expanded0, expanded1);
        if |expanded1| == |in1| {
          MeetsValid(levels, level, expanded0, expanded1);
          in0, in1 := expanded0, expanded1;
        }
      } else {
        NotGrown(levels, level, picked, in1, sizeLimit, expanded0);
      }
    }
  }

  lemma MeetsIs(levels: Levels, level: nat, files: seq<File>, smallest: InternalKey, largest: InternalKey, met: seq<File>)
    requires level < |levels| && RangeOf(files, smallest, largest)
    requires OverlappingInputs(level, levels[level], Some(smallest.user), Some(largest.user), met)
    ensures Meets(levels, level, files, met)
  {
    hide RangeOf, OverlappingInputs;
  }

  lemma MeetsInRange(levels: Levels, level: nat, files: seq<File>, met: seq<File>) returns (smallest: InternalKey, largest: InternalKey)
    requires 0 < level < |levels| && Meets(levels, level, files, met)
    ensures RangeOf(files, smallest, largest) && met == FilesInRange(levels[level], Some(smallest.user), Some(largest.user))
  {
    hide RangeOf, FilesInRange;
    smallest, largest :| RangeOf(files, smallest, largest) && OverlappingInputs(level, levels[level], Some(smallest.user), Some(largest.user), met);
  }

  // Some files of a level that no other overlaps, with those they meet below, are a valid pick.
  ghost predicate Pickable(levels: Levels, level: nat, in0: seq<File>)
    requires level < |levels|
  {
    && in0 != [] && DistinctFiles(in0) && (forall f :: f in in0 ==> f in levels[level])
    && (level > 0 ==> Disjoint(in0))
    && (level == 0 ==> forall f, g :: f in levels[0] && f !in in0 && g in in0 ==> Apart(f, g))
  }

  lemma MeetsValid(levels: Levels, level: nat, in0: seq<File>, in1: seq<File>)
    requires |levels| == NUM_LEVELS && level + 1 < NUM_LEVELS && Pickable(levels, level, in0) && Meets(levels, level + 1, in0, in1)
    ensures ValidPick(levels, level, in0, in1)
  {
    hide RangeOf, FilesInRange, Disjoint, DistinctFiles, Meets, Apart;
    var smallest, largest := MeetsInRange(levels, level + 1, in0, in1);
  }

  lemma Expanded(levels: Levels, level: nat, picked: seq<File>, in1: seq<File>, allStart: InternalKey, allLimit: InternalKey,
                 expanded0: seq<File>, lo: Option<Bytes>, hi: Option<Bytes>)
    requires ValidLevels(levels) && level + 1 < NUM_LEVELS && DistinctFiles(levels[level]) && Pickable(levels, level, picked)
    requires RangeOf(picked + in1, allStart, allLimit)
    requires SearchRange(level, levels[level], Some(allStart.user), Some(allLimit.user), lo, hi) && expanded0 == FilesInRange(levels[level], lo, hi)
    ensures Pickable(levels, level, expanded0) && forall f :: f in picked ==> f in expanded0
  {
    hide ValidFile, RangeOf, FilesInRange, Disjoint, DistinctFiles, ClosedRange, WithinEveryClosed;
    ExpansionIsPick(levels, level, picked, in1, allStart, allLimit, expanded0, lo, hi);
    FilesInRangeDistinct(levels[level], lo, hi);
    assert picked[0] in picked;
  }

  lemma SameOrMore(levels: Levels, level: nat, picked: seq<File>, met: seq<File>, wide: seq<File>, met': seq<File>)
    requires level + 1 < |levels| && Meets(levels, level + 1, picked, met) && Meets(levels, level + 1, wide, met')
    requires forall f :: f in picked ==> f in wide
    ensures |met'| == |met| ==> met' == met
  {
    var s, l := MeetsInRange(levels, level + 1, picked, met);
    var s', l' := MeetsInRange(levels, level + 1, wide, met');
    hide Meets, FilesInRange;
    WiderRange(picked, wide, s, l, s', l');
    WiderMeetsMore(levels[level+1], Some(s.user), Some(l.user), Some(s'.user), Some(l'.user));
  }

  lemma Grown(levels: Levels, level: nat, picked: seq<File>, met: seq<File>, sizeLimit: nat, wide: seq<File>, met': seq<File>)
    requires level + 1 < |levels| && Meets(levels, level + 1, picked, met) && met != [] && Meets(levels, level, picked + met, wide)
    requires |wide| > |picked| && Sum(Sizes(met)) + Sum(Sizes(wide)) < sizeLimit && forall f :: f in picked ==> f in wide
    requires Meets(levels, level + 1, wide, met')
    ensures if |met'| == |met| then met' == met && GrownFrom(levels, level, picked, sizeLimit, wide, met)
            else GrownFrom(levels, level, picked, sizeLimit, picked, met)
  {
    hide Meets, Sum, Sizes;
    SameOrMore(levels, level, picked, met, wide, met');
    if |met'| == |met| {
      assert Grows(levels, level, picked, met, sizeLimit, wide);
    } else {
      forall w ensures !Grows(levels, level, picked, met, sizeLimit, w) {
        if Meets(levels, level, picked + met, w) && Meets(levels, level + 1, w, met) {
          OneMeeting(levels, level, picked + met, w, wide);
          OneMeeting(levels, level + 1, wide, met, met');
        }
      }
    }
  }

  lemma NotGrown(levels: Levels, level: nat, picked: seq<File>, met: seq<File>, sizeLimit: nat, wide: seq<File>)
    requires level + 1 < |levels| && Meets(levels, level + 1, picked, met) && Meets(levels, level, picked + met, wide)
    requires !(|wide| > |picked| && Sum(Sizes(met)) + Sum(Sizes(wide)) < sizeLimit)
    ensures GrownFrom(levels, level, picked, sizeLimit, picked, met)
  {
    hide Meets, Sum;
    forall w ensures !Grows(levels, level, picked, met, sizeLimit, w) {
      if Meets(levels, level, picked + met, w) {
        OneMeeting(levels, level, picked + met, w, wide);
      }
    }
  }

  lemma ExpansionIsPick(levels: Levels, level: nat, picked: seq<File>, in1: seq<File>,
                        allStart: InternalKey, allLimit: InternalKey,
                        expanded0: seq<File>, lo: Option<Bytes>, hi: Option<Bytes>)
    requires ValidLevels(levels) && level + 1 < NUM_LEVELS
    requires forall f :: f in picked ==> f in levels[level]
    requires RangeOf(picked + in1, allStart, allLimit)
    requires expanded0 == FilesInRange(levels[level], lo, hi)
    requires BeginAtMost(lo, Some(allStart.user)) && EndAtLeast(hi, Some(allLimit.user))
    requires level == 0 ==> ClosedRange(levels[0], lo, hi)
    ensures forall f :: f in picked ==> f in expanded0
    ensures forall f :: f in expanded0 ==> f in levels[level]
    ensures level > 0 ==> Disjoint(expanded0)
    ensures level == 0 ==> forall f, g :: f in levels[0] && f !in expanded0 && g in expanded0 ==> Apart(f, g)
  {
    FilesInRangeMembers(levels[level], lo, hi);
    forall f | f in picked ensures f in expanded0 {
      assert ValidFile(f);
      CoveredOverlaps(f, picked + in1, allStart, allLimit);
      UserOrder();
    }
    if level > 0 {
      FilesInRangeDisjoint(levels[level], lo, hi);
    } else {
      Level0Closed(levels[0], expanded0, lo, hi);
    }
  }

  /** The inputs around one chosen file: in level 0 it brings every file it transitively overlaps. */
  method PickCompaction(levels: Levels, level: nat, f: File, sizeLimit: nat) returns (in0: seq<File>, in1: seq<File>)
    requires ValidLevels(levels) && level + 1 < NUM_LEVELS && f in levels[level] && DistinctFiles(levels[level])
    ensures ValidPick(levels, level, in0, in1) && f in in0 && PickAround(levels, level, f, sizeLimit, in0, in1)
  {
    var picked := [f];
    if level == 0 {
      var smallest, largest := GetRange(picked);
      ghost var lo, hi;
      picked, lo, hi := GetOverlappingInputs(0, levels[0], Some(smallest.user), Some(largest.user));
      FilesInRangeMembers(levels[0], lo, hi);
      FilesInRangeDistinct(levels[0], lo, hi);
      Level0Closed(levels[0], picked, lo, hi);
      CoveredOverlaps(f, [f], smallest, largest);
      UserOrder();
      assert f in picked;
    }
    in0, in1 := SetupOtherInputs(levels, level, picked, sizeLimit);
  }

  ghost predicate Overlapped(files: seq<File>, begin: Bytes, end: Bytes) {
    exists f :: f in files && InRange(f, Some(begin), Some(end))
  }

  /** A flushed memtable may go below a level: no file of the next level overlaps its range of user keys, and those of
      the level after that which do are not too big. */
  ghost predicate GoesBelow(levels: Levels, level: nat, begin: Bytes, end: Bytes, overlapLimit: nat)
    requires |levels| == NUM_LEVELS
  {
    && level < MAX_MEM_COMPACT_LEVEL && !Overlapped(levels[level+1], begin, end)
    && TotalFileSize(FilesInRange(levels[level+2], Some(begin), Some(end))) <= overlapLimit
  }

  /** The level a flushed memtable goes to: as deep as it may go without passing an overlapping file. */
  ghost predicate MemTableLevel(levels: Levels, begin: Bytes, end: Bytes, overlapLimit: nat, level: nat)
    requires |levels| == NUM_LEVELS
  {
    if Overlapped(levels[0], begin, end) then level == 0 else
    (forall l :: 0 <= l < level ==> GoesBelow(levels, l, begin, end, overlapLimit)) && !GoesBelow(levels, level, begin, end, overlapLimit)
  }

  lemma MemTableLevelBound(levels: Levels, begin: Bytes, end: Bytes, overlapLimit: nat, level: nat)
    requires |levels| == NUM_LEVELS && MemTableLevel(levels, begin, end, overlapLimit, level)
    ensures level <= MAX_MEM_COMPACT_LEVEL
    ensures level > 0 ==> forall l, f :: 0 <= l <= level && f in levels[l] ==> !InRange(f, Some(begin), Some(end))
  {
    hide FilesInRange, TotalFileSize;
    if level > 0 {
      assert GoesBelow(levels, level - 1, begin, end, overlapLimit);
      forall l, f | 0 <= l <= level && f in levels[l] ensures !InRange(f, Some(begin), Some(end)) {
        if l > 0 {
          assert GoesBelow(levels, l - 1, begin, end, overlapLimit);
        }
      }
    }
  }

  /** A trivial move: one input that meets no file of the next level, nor too much of the level after that. */
  ghost predicate MovesTrivially(levels: Levels, level: nat, in0: seq<File>, in1: seq<File>, overlapLimit: nat)
    requires |levels| == NUM_LEVELS && level + 1 < NUM_LEVELS
  {
    && |in0| == 1 && in1 == []
    && (level + 2 < NUM_LEVELS ==>
          TotalFileSize(FilesInRange(levels[level+2], Some(in0[0].smallest.user), Some(in0[0].largest.user))) <= overlapLimit)
  }

  method PickLevelForMemTableOutput(levels: Levels, begin: Bytes, end: Bytes, overlapLimit: nat) returns (level: nat)
    requires ValidLevels(levels)
    ensures MemTableLevel(levels, begin, end, overlapLimit, level)
  {
    hide FilesInRange, TotalFileSize, Disjoint;
    level := 0;
    var overlap := SomeFileOverlapsRange(false, levels[0], Some(begin), Some(end));
    if !overlap {
      while level < MAX_MEM_COMPACT_LEVEL
        invariant level <= MAX_MEM_COMPACT_LEVEL
        invariant forall l :: 0 <= l < level ==> GoesBelow(levels, l, begin, end, overlapLimit)
      {
        overlap := SomeFileOverlapsRange(true, levels[level+1], Some(begin), Some(end));
        if overlap {
          break;
        }
        if level + 2 < NUM_LEVELS {
          var overlaps, _, _ := GetOverlappingInputs(level + 2, levels[level+2], Some(begin), Some(end));
          if TotalFileSize(overlaps) > overlapLimit {
            break;
          }
        }
        level := level + 1;
      }
    }
  }

  method IsTrivialMove(levels: Levels, level: nat, in0: seq<File>, in1: seq<File>, overlapLimit: nat) returns (b: bool)
    requires ValidLevels(levels) && level + 1 < NUM_LEVELS
    ensures b <==> MovesTrivially(levels, level, in0, in1, overlapLimit)
  {
    if |in0| != 1 || |in1| != 0 {
      return false;
    }
    if level + 2 < NUM_LEVELS {
      var grandparents, _, _ := GetOverlappingInputs(level + 2, levels[level+2], Some(in0[0].smallest.user), Some(in0[0].largest.user));
      return TotalFileSize(grandparents) <= overlapLimit;
    }
    return true;
  }

  /** No file of a level from level + 2 on has the user key in its range. */
  ghost predicate BaseLevel(levels: Levels, level: nat, user: Bytes)
    requires |levels| == NUM_LEVELS
  {
    forall l, f :: level + 2 <= l < NUM_LEVELS && f in levels[l] ==>
                     Less(user, f.smallest.user) || Less(f.largest.user, user)
  }

  ghost function Base(levels: Levels, level: nat): Bytes -> bool
    requires |levels| == NUM_LEVELS
  {
    (user: Bytes) => BaseLevel(levels, level, user)
  }

  /** The part of a compaction's state that remembers how far each deeper level has been scanned. */
  class Compaction {
    const inputVersion: Levels
    const level: nat
    const levelPtrs: array<nat>

    ghost predicate Valid()
      reads levelPtrs
    {
      ValidLevels(inputVersion) && level + 1 < NUM_LEVELS && levelPtrs.Length == NUM_LEVELS
    }

    /** Every file a cursor has passed ends before the user key. */
    ghost predicate PassedOnlyBefore(user: Bytes)
      requires Valid()
      reads levelPtrs
    {
      forall l :: level + 2 <= l < NUM_LEVELS ==>
                    levelPtrs[l] <= |inputVersion[l]| &&
                    forall i :: 0 <= i < levelPtrs[l] ==> Less(inputVersion[l][i].largest.user, user)
    }

    constructor (version: Levels, level: nat)
      requires ValidLevels(version) && level + 1 < NUM_LEVELS
      ensures Valid() && fresh(levelPtrs) && inputVersion == version && this.level == level
      ensures forall user :: PassedOnlyBefore(user)
    {
      inputVersion, this.level := version, level;
      levelPtrs := new nat[NUM_LEVELS](_ => 0);
    }

    lemma LaterKeyAllowed(user: Bytes, later: Bytes)
      requires Valid() && PassedOnlyBefore(user) && AtMost(user, later)
      ensures PassedOnlyBefore(later)
    {
      UserOrder();
    }

    /** Asked for user keys in non-decreasing order, the cursors give the answer of a scan of every
        file of every deeper level. */
    method IsBaseLevelForKey(user: Bytes) returns (b: bool)
      requires Valid() && PassedOnlyBefore(user)
      modifies levelPtrs
      ensures Valid() && PassedOnlyBefore(user)
      ensures b == BaseLevel(inputVersion, level, user)
    {
      for lvl := level + 2 to NUM_LEVELS
        invariant PassedOnlyBefore(user)
        invariant forall l, f :: level + 2 <= l < lvl && f in inputVersion[l] ==>
                                   Less(user, f.smallest.user) || Less(f.largest.user, user)
      {
        var files := inputVersion[lvl];
        while levelPtrs[lvl] < |files|
          invariant PassedOnlyBefore(user)
          decreases |files| - levelPtrs[lvl]
        {
          var f := files[levelPtrs[lvl]];
          if !Less(f.largest.user, user) {
            if !Less(user, f.smallest.user) {
              assert f in inputVersion[lvl];
              return false;
            }
            break;
          }
          levelPtrs[lvl] := levelPtrs[lvl] + 1;
        }
        FilesAfterCursor(files, levelPtrs[lvl], user);
      }
      return true;
    }
  }

  // Past the cursor every file starts after the key, if the file at the cursor does.
  lemma FilesAfterCursor(files: seq<File>, at: nat, user: Bytes)
    requires ValidFiles(files) && Disjoint(files) && at <= |files|
    requires forall i :: 0 <= i < at ==> Less(files[i].largest.user, user)
    requires at < |files| ==> Less(user, files[at].smallest.user)
    ensures forall f :: f in files ==> Less(user, f.smallest.user) || Less(f.largest.user, user)
  {
    UserOrder();
    KeyOrder();
    forall f | f in files ensures Less(user, f.smallest.user) || Less(f.largest.user, user) {
      var i :| 0 <= i < |files| && files[i] == f;
      if at < i {
        DisjointLargest(files, at, i);
      }
    }
  }

  /** The entries of some files, one file after another. */
  function Flatten(files: seq<File>): seq<Entry> {
    if files == [] then [] else Flatten(files[..|files|-1]) + files[|files|-1].entries
  }

  /** Output tables: well formed, numbered consecutively and in key order. */
  ghost predicate Outputs(files: seq<File>, firstNumber: nat) {
    forall i :: 0 <= i < |files| ==> ValidFile(files[i]) && files[i].number == firstNumber + i
  }

  /** Finished tables and the one being built together hold the entries kept so far. */
  ghost predicate Building(outputs: seq<File>, builder: seq<Entry>, firstNumber: nat, kept: seq<Entry>) {
    Outputs(outputs, firstNumber) && Flatten(outputs) + builder == kept && Sorted(builder)
  }

  method FinishCompactionOutputFile(outputs: seq<File>, builder: seq<Entry>, size: nat, nextFile: nat,
                                    ghost kept: seq<Entry>)
    returns (outputs': seq<File>)
    requires Building(outputs, builder, nextFile, kept) && builder != []
    ensures Building(outputs', [], nextFile, kept)
  {
    var f := File(nextFile + |outputs|, size, builder[0].key, builder[|builder|-1].key, builder);
    outputs' := outputs + [f];
    assert outputs'[..|outputs|] == outputs;
  }

  lemma BuildingGrows(outputs: seq<File>, builder: seq<Entry>, nextFile: nat, es: seq<Entry>, i: nat,
                      smallest: nat, base: Bytes -> bool)
    requires Sorted(es) && i < |es|
    requires Building(outputs, builder, nextFile, Kept(es[..i], smallest, base))
    ensures Building(outputs, if Dropped(es, smallest, base, i) then builder else builder + [es[i]],
                     nextFile, Kept(es[..i+1], smallest, base))
  {
    assert es[..i+1][..i] == es[..i];
    assert Dropped(es, smallest, base, i) == Dropped(es[..i+1], smallest, base, i);
    if !Dropped(es, smallest, base, i) {
      var kept := Kept(es[..i+1], smallest, base);
      var builder' := builder + [es[i]];
      assert kept == Flatten(outputs) + builder';
      KeptSorted(es[..i+1], smallest, base);
      forall j, k | 0 <= j < k < |builder'| ensures KeyLess(builder'[j].key, builder'[k].key) {
        assert builder'[j] == kept[|Flatten(outputs)| + j] && builder'[k] == kept[|Flatten(outputs)| + k];
      }
    }
  }

  /** The merge loop over the merged inputs es. Where output tables are cut is left open, so the
      result holds for every cut the size limits could choose. */
  method DoCompactionWork(levels: Levels, level: nat, es: seq<Entry>, smallestSnapshot: SequenceNumber, nextFile: nat)
    returns (outputs: seq<File>)
    requires ValidLevels(levels) && level + 1 < NUM_LEVELS && Sorted(es) && smallestSnapshot < MAX_SEQUENCE
    ensures Outputs(outputs, nextFile)
    ensures Flatten(outputs) == Kept(es, smallestSnapshot, Base(levels, level))
  {
    hide Kept, Sorted, Building, Disjoint;
    ghost var base := Base(levels, level);
    NothingBuilt(es, smallestSnapshot, base, nextFile);
    var compaction := new Compaction(levels, level);
    var currentUserKey: Bytes := [];
    var hasCurrentUserKey := false;
    var lastSequenceForKey: SequenceNumber := MAX_SEQUENCE;
    var builder: seq<Entry> := [];
    var size: nat;
    outputs := [];
    for i := 0 to |es|
      invariant fresh(compaction.levelPtrs) && compaction.Valid()
      invariant compaction.inputVersion == levels && compaction.level == level
      invariant i < |es| ==> compaction.PassedOnlyBefore(es[i].key.user)
      invariant hasCurrentUserKey <==> i > 0
      invariant i > 0 ==> currentUserKey == es[i-1].key.user && lastSequenceForKey == es[i-1].key.seqno
      invariant Building(outputs, builder, nextFile, Kept(es[..i], smallestSnapshot, base))
    {
      var e := es[i];
      if builder != [] {
        if * {  // ShouldStopBefore
          size := *;
          outputs := FinishCompactionOutputFile(outputs, builder, size, nextFile, Kept(es[..i], smallestSnapshot, base));
          builder := [];
        }
      }
      var drop := false;
      if !hasCurrentUserKey || e.key.user != currentUserKey {
        currentUserKey := e.key.user;
        hasCurrentUserKey := true;
        lastSequenceForKey := MAX_SEQUENCE;
      }
      if lastSequenceForKey <= smallestSnapshot {
        drop := true;
      } else if e.key.kind == Deletion && e.key.seqno <= smallestSnapshot {
        drop := compaction.IsBaseLevelForKey(e.key.user);
      }
      lastSequenceForKey := e.key.seqno;
      BuildingGrows(outputs, builder, nextFile, es, i, smallestSnapshot, base);
      if !drop {
        builder := builder + [e];
        if * {  // the table is big enough
          size := *;
          outputs := FinishCompactionOutputFile(outputs, builder, size, nextFile, Kept(es[..i+1], smallestSnapshot, base));
          builder := [];
        }
      }
      if i + 1 < |es| {
        NextUserNotBefore(es, i);
        compaction.LaterKeyAllowed(e.key.user, es[i+1].key.user);
      }
    }
    assert es[..|es|] == es;
    if builder != [] {
      size := *;
      outputs := FinishCompactionOutputFile(outputs, builder, size, nextFile, Kept(es, smallestSnapshot, base));
    }
    AllBuilt(outputs, nextFile, Kept(es, smallestSnapshot, base));
  }

  lemma NothingBuilt(es: seq<Entry>, smallest: nat, base: Bytes -> bool, nextFile: nat)
    ensures Building([], [], nextFile, Kept(es[..0], smallest, base))
  {
  }

  lemma AllBuilt(outputs: seq<File>, nextFile: nat, kept: seq<Entry>)
    requires Building(outputs, [], nextFile, kept)
    ensures Outputs(outputs, nextFile) && Flatten(outputs) == kept
  {
  }

  lemma NextUserNotBefore(es: seq<Entry>, i: nat)
    requires Sorted(es) && i + 1 < |es|
    ensures AtMost(es[i].key.user, es[i+1].key.user)
  {
    KeyOrder();
    assert KeyLess(es[i].key, es[i+1].key);
  }
}
