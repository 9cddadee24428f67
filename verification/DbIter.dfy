/** The database iterator agrees, in both directions, with a cursor over the user keys' newest
    visible values (db/db_iter.cc). */
module DbIter {
  import opened Keys
  import opened Contents
  import opened Versions
  import opened Cursors

  predicate Seen(e: Entry, s: nat) {
    e.key.seqno <= s
  }

  /** Entry i is the newest visible entry of its user key, and a value. */
  ghost predicate Listed(es: seq<Entry>, s: nat, i: int)
    requires 0 <= i < |es|
  {
    Seen(es[i], s) && es[i].key.kind == Value &&
    forall j :: 0 <= j < i && es[j].key.user == es[i].key.user ==> !Seen(es[j], s)
  }

  /** What a reader at s sees: the newest visible value of each user key that has one. */
  ghost function View(es: seq<Entry>, s: nat): seq<Entry> {
    if es == [] then [] else
      var n := |es| - 1;
      View(es[..n], s) + if Listed(es, s, n) then [es[n]] else []
  }

  // How many entries of the view come from before index i.
  ghost function Before(es: seq<Entry>, s: nat, i: nat): nat
    requires i <= |es|
  {
    |View(es[..i], s)|
  }

  lemma BeforeStep(es: seq<Entry>, s: nat, i: nat)
    requires i < |es|
    ensures Before(es, s, i + 1) == Before(es, s, i) + if Listed(es, s, i) then 1 else 0
    ensures View(es[..i+1], s) == View(es[..i], s) + if Listed(es, s, i) then [es[i]] else []
  {
    assert es[..i+1][..i] == es[..i];
    assert Listed(es[..i+1], s, i) == Listed(es, s, i);
  }

  lemma {:induction false} ViewPrefix(es: seq<Entry>, s: nat, i: nat, j: nat)
    requires i <= j <= |es|
    ensures Before(es, s, i) <= Before(es, s, j)
    ensures View(es[..i], s) == View(es[..j], s)[..Before(es, s, i)]
    decreases j - i
  {
    if i < j {
      BeforeStep(es, s, j - 1);
      ViewPrefix(es, s, i, j - 1);
    }
  }

  lemma ViewAt(es: seq<Entry>, s: nat, i: nat)
    requires i < |es| && Listed(es, s, i)
    ensures Before(es, s, i) < |View(es, s)| && View(es, s)[Before(es, s, i)] == es[i]
  {
    BeforeStep(es, s, i);
    ViewPrefix(es, s, i + 1, |es|);
    assert es[..|es|] == es;
    assert View(es[..i+1], s)[Before(es, s, i)] == es[i];
  }

  lemma {:induction false} NoneListedBetween(es: seq<Entry>, s: nat, i: nat, j: nat)
    requires i <= j <= |es| && forall x :: i <= x < j ==> !Listed(es, s, x)
    ensures Before(es, s, j) == Before(es, s, i)
    decreases j - i
  {
    if i < j {
      NoneListedBetween(es, s, i, j - 1);
      BeforeStep(es, s, j - 1);
    }
  }

  // The view as a map: what it lists is what reads at s find.

  lemma {:induction false} ViewMembers(es: seq<Entry>, s: nat)
    ensures forall e :: e in View(es, s) <==> exists i :: 0 <= i < |es| && es[i] == e && Listed(es, s, i)
  {
    if es != [] {
      var n := |es| - 1;
      ViewMembers(es[..n], s);
      assert forall i :: 0 <= i < n ==> Listed(es[..n], s, i) == Listed(es, s, i);
      forall e ensures e in View(es, s) <==> exists i :: 0 <= i < |es| && es[i] == e && Listed(es, s, i) {
        if e in View(es[..n], s) {
          var i :| 0 <= i < n && es[..n][i] == e && Listed(es[..n], s, i);
          assert es[i] == e && Listed(es, s, i);
        }
        if i :| 0 <= i < |es| && es[i] == e && Listed(es, s, i) {
          if i < n {
            assert es[..n][i] == e && Listed(es[..n], s, i);
          }
        }
      }
    }
  }

  ghost predicate SortedByUser(es: seq<Entry>) {
    forall i, j :: 0 <= i < j < |es| ==> Less(es[i].key.user, es[j].key.user)
  }

  lemma ListedUsersIncrease(es: seq<Entry>, s: nat, i: nat, j: nat)
    requires Sorted(es) && i < j < |es| && Listed(es, s, i) && Listed(es, s, j)
    ensures Less(es[i].key.user, es[j].key.user)
  {
    KeyOrder();
    UserOrder();
    assert KeyLess(es[i].key, es[j].key);
  }

  lemma {:induction false} ViewSorted(es: seq<Entry>, s: nat)
    requires Sorted(es)
    ensures SortedByUser(View(es, s))
  {
    if es != [] {
      var n := |es| - 1;
      ViewSorted(es[..n], s);
      ViewMembers(es[..n], s);
      var init := View(es[..n], s);
      forall x | 0 <= x < |init| && Listed(es, s, n) ensures Less(init[x].key.user, es[n].key.user) {
        assert init[x] in init;
        var i :| 0 <= i < n && es[..n][i] == init[x] && Listed(es[..n], s, i);
        assert Listed(es, s, i);
        ListedUsersIncrease(es, s, i, n);
      }
    }
  }

  lemma ListedIsNewest(es: seq<Entry>, s: nat, i: nat)
    requires Sorted(es) && i < |es| && Coherent(Elems(es))
    ensures Listed(es, s, i) <==> IsNewest(Elems(es), es[i].key.user, s, es[i]) && es[i].key.kind == Value
  {
    KeyOrder();
    var user := es[i].key.user;
    if Listed(es, s, i) {
      forall o | o in Elems(es) && Visible(o, user, s) ensures o.key.seqno <= es[i].key.seqno {
        var j :| 0 <= j < |es| && es[j] == o;
        assert i < j ==> KeyLess(es[i].key, es[j].key);
      }
    }
    if IsNewest(Elems(es), user, s, es[i]) {
      forall j | 0 <= j < i && es[j].key.user == user ensures !Seen(es[j], s) {
        assert KeyLess(es[j].key, es[i].key) && es[j] in Elems(es) && es[j] != es[i];
      }
    }
  }

  /** The view lists a user key with a value exactly when a read at s finds that value, in order of
      user key and each key once. */
  lemma ViewIsWhatReadsFind(es: seq<Entry>, s: nat, user: Bytes, v: Bytes)
    requires Sorted(es) && Coherent(Elems(es))
    ensures SortedByUser(View(es, s))
    ensures ReadAt(Elems(es), user, s) == Some(v) <==> exists e :: e in View(es, s) && e.key.user == user && e.value == v
  {
    ViewSorted(es, s);
    ViewMembers(es, s);
    if e :| e in View(es, s) && e.key.user == user && e.value == v {
      var i :| 0 <= i < |es| && es[i] == e && Listed(es, s, i);
      ListedIsNewest(es, s, i);
      ReadNewest(Elems(es), user, s, e);
    }
    if ReadAt(Elems(es), user, s) == Some(v) {
      var e :| IsNewest(Elems(es), user, s, e) && e.key.kind == Value && e.value == v;
      var i :| 0 <= i < |es| && es[i] == e;
      ListedIsNewest(es, s, i);
    }
  }

  /** The number of listed user keys before a target. */
  ghost function UserLowerBound(view: seq<Entry>, target: Bytes): (r: nat)
    ensures r <= |view|
    ensures forall i :: 0 <= i < r ==> Less(view[i].key.user, target)
    ensures r < |view| ==> !Less(view[r].key.user, target)
  {
    if view == [] || !Less(view[0].key.user, target) then 0 else 1 + UserLowerBound(view[1..], target)
  }

  lemma SeekPosition(es: seq<Entry>, s: SequenceNumber, target: Bytes)
    requires Sorted(es)
    ensures Before(es, s, LowerBound(es, LookupKey(target, s))) == UserLowerBound(View(es, s), target)
  {
    var i0 := LowerBound(es, LookupKey(target, s));
    var view, at := View(es, s), Before(es, s, i0);
    assert es[..|es|] == es;
    ViewPrefix(es, s, i0, |es|);
    forall x | 0 <= x < at ensures Less(view[x].key.user, target) {
      var prefix := es[..i0];
      ViewMembers(prefix, s);
      assert view[x] == View(prefix, s)[x];
      assert view[x] in View(prefix, s);
      var i :| 0 <= i < |prefix| && prefix[i] == view[x] && Listed(prefix, s, i);
      if es[i].key.user == target {
        LookupKeySplits(es[i].key, target, s);
      }
    }
    ViewSorted(es, s);
    if at < |view| {
      FirstFrom(es, s, i0, target);
    }
  }

  lemma FirstFrom(es: seq<Entry>, s: SequenceNumber, i0: nat, target: Bytes)
    requires Sorted(es) && i0 == LowerBound(es, LookupKey(target, s)) && Before(es, s, i0) < |View(es, s)|
    ensures !Less(View(es, s)[Before(es, s, i0)].key.user, target)
  {
    KeyOrder();
    UserOrder();
    assert es[..|es|] == es;
    if forall x :: i0 <= x < |es| ==> !Listed(es, s, x) {
      NoneListedBetween(es, s, i0, |es|);
    } else {
      var i := FirstListed(es, s, i0);
      NoneListedBetween(es, s, i0, i);
      ViewAt(es, s, i);
      assert i0 == i || KeyLess(es[i0].key, es[i].key);
    }
  }

  lemma {:induction false} FirstListed(es: seq<Entry>, s: nat, i0: nat) returns (i: nat)
    requires i0 <= |es| && exists x :: i0 <= x < |es| && Listed(es, s, x)
    ensures i0 <= i < |es| && Listed(es, s, i) && forall x :: i0 <= x < i ==> !Listed(es, s, x)
    decreases |es| - i0
  {
    if Listed(es, s, i0) {
      i := i0;
    } else {
      i := FirstListed(es, s, i0 + 1);
    }
  }

  // Searching forward.

  predicate Passes(e: Entry, skipping: bool, skip: Bytes) {
    !skipping || Less(skip, e.key.user)
  }

  /** The first listed entry at or after i0 whose user key comes after the skipped one. */
  ghost predicate FirstListedFrom(es: seq<Entry>, s: nat, i0: nat, skipping: bool, skip: Bytes, r: Option<nat>) {
    match r
    case Some(i) => i0 <= i < |es| && Listed(es, s, i) && Passes(es[i], skipping, skip) &&
                    forall x :: i0 <= x < i && Listed(es, s, x) ==> !Passes(es[x], skipping, skip)
    case None => forall x :: i0 <= x < |es| && Listed(es, s, x) ==> !Passes(es[x], skipping, skip)
  }

  // Where a forward search may start: no entry from i0 on is hidden by a visible one before i0,
  // except for user keys that are skipped anyway, and no visible entry lies before the skipped key.
  ghost predicate CleanStart(es: seq<Entry>, s: nat, i0: nat, skipping: bool, skip: Bytes) {
    (forall x, y :: 0 <= x < i0 <= y < |es| && es[x].key.user == es[y].key.user && Seen(es[x], s) ==>
                      !Passes(es[y], skipping, skip)) &&
    (skipping ==> forall y :: i0 <= y < |es| && Seen(es[y], s) ==> AtMost(skip, es[y].key.user))
  }

  // The state of the search: every visible entry passed belongs to a skipped user key, and the key
  // skipped now is the first one or that of a visible entry passed.
  ghost predicate Skipped(es: seq<Entry>, s: nat, i0: nat, i: nat, skipping0: bool, skip0: Bytes,
                          skipping: bool, skip: Bytes) {
    i0 <= i <= |es| && (skipping0 ==> skipping && AtMost(skip0, skip)) &&
    (forall x :: i0 <= x < i && Seen(es[x], s) ==> !Passes(es[x], skipping, skip)) &&
    (forall x :: i0 <= x < i && Listed(es, s, x) ==> !Passes(es[x], skipping0, skip0)) &&
    (skipping ==> (skipping0 && skip == skip0) || exists d :: i0 <= d < i && Seen(es[d], s) && es[d].key.user == skip)
  }

  lemma SkipInvisible(es: seq<Entry>, s: nat, i0: nat, i: nat, skipping0: bool, skip0: Bytes, skipping: bool, skip: Bytes)
    requires Skipped(es, s, i0, i, skipping0, skip0, skipping, skip) && i < |es| && !Seen(es[i], s)
    ensures Skipped(es, s, i0, i + 1, skipping0, skip0, skipping, skip)
  {
  }

  lemma SkipDeleted(es: seq<Entry>, s: nat, i0: nat, i: nat, skipping0: bool, skip0: Bytes, skipping: bool, skip: Bytes)
    requires Sorted(es) && CleanStart(es, s, i0, skipping0, skip0)
    requires Skipped(es, s, i0, i, skipping0, skip0, skipping, skip)
    requires i < |es| && Seen(es[i], s) && es[i].key.kind == Deletion
    ensures Skipped(es, s, i0, i + 1, skipping0, skip0, true, es[i].key.user)
  {
    KeyOrder();
    UserOrder();
  }

  lemma SkipHidden(es: seq<Entry>, s: nat, i0: nat, i: nat, skipping0: bool, skip0: Bytes, skipping: bool, skip: Bytes)
    requires Sorted(es) && Skipped(es, s, i0, i, skipping0, skip0, skipping, skip)
    requires i < |es| && Seen(es[i], s) && !Passes(es[i], skipping, skip)
    ensures Skipped(es, s, i0, i + 1, skipping0, skip0, skipping, skip)
  {
    if !(skipping0 && skip == skip0) {
      var d :| i0 <= d < i && Seen(es[d], s) && es[d].key.user == skip;
      NotLaterUser(es, d, i);
      assert es[d].key.user == es[i].key.user;
      assert !Listed(es, s, i);
    }
  }

  lemma FoundListed(es: seq<Entry>, s: nat, i0: nat, i: nat, skipping0: bool, skip0: Bytes, skipping: bool, skip: Bytes)
    requires CleanStart(es, s, i0, skipping0, skip0) && Skipped(es, s, i0, i, skipping0, skip0, skipping, skip)
    requires i < |es| && Seen(es[i], s) && es[i].key.kind == Value && Passes(es[i], skipping, skip)
    ensures FirstListedFrom(es, s, i0, skipping0, skip0, Some(i))
  {
    UserOrder();
    assert Passes(es[i], skipping0, skip0);
    forall j | 0 <= j < i && es[j].key.user == es[i].key.user ensures !Seen(es[j], s) {
      assert Passes(es[j], skipping, skip);
    }
  }

  lemma FirstListedPosition(es: seq<Entry>, s: nat, i0: nat, skip: Bytes, r: Option<nat>)
    requires i0 <= |es| && FirstListedFrom(es, s, i0, false, skip, r)
    ensures Before(es, s, i0) == if r.Some? then Before(es, s, r.value) else |View(es, s)|
  {
    assert es[..|es|] == es;
    NoneListedBetween(es, s, i0, if r.Some? then r.value else |es|);
  }

  lemma SeekCleanStart(es: seq<Entry>, s: SequenceNumber, target: Bytes, skip: Bytes)
    requires Sorted(es)
    ensures CleanStart(es, s, LowerBound(es, LookupKey(target, s)), false, skip)
  {
    KeyOrder();
    UserOrder();
    var i0 := LowerBound(es, LookupKey(target, s));
    forall x, y | 0 <= x < i0 <= y < |es| && es[x].key.user == es[y].key.user ensures !Seen(es[x], s) {
      assert KeyLess(es[x].key, LookupKey(target, s));
      assert i0 == y || KeyLess(es[i0].key, es[y].key);
      SqueezedUser(es[x].key, LookupKey(target, s), es[y].key);
      LookupKeySplits(es[x].key, target, s);
    }
  }

  lemma SqueezedUser(a: InternalKey, b: InternalKey, c: InternalKey)
    requires KeyLess(a, b) && !KeyLess(c, b) && a.user == c.user
    ensures b.user == a.user
  {
    KeyOrder();
    UserOrder();
  }

  // Stepping on from listed entry c, the search starts at i0 <= c with nothing visible in between.

  lemma NextCleanStart(es: seq<Entry>, s: nat, i0: nat, c: nat)
    requires Sorted(es) && i0 <= c < |es| && Listed(es, s, c) && forall x :: i0 <= x < c ==> !Seen(es[x], s)
    ensures CleanStart(es, s, i0, true, es[c].key.user)
  {
    KeyOrder();
    UserOrder();
  }

  lemma NextPosition(es: seq<Entry>, s: nat, i0: nat, c: nat, r: Option<nat>)
    requires Sorted(es) && i0 <= c < |es| && Listed(es, s, c) && forall x :: i0 <= x < c ==> !Seen(es[x], s)
    requires FirstListedFrom(es, s, i0, true, es[c].key.user, r)
    ensures Before(es, s, c) + 1 == if r.Some? then Before(es, s, r.value) else |View(es, s)|
  {
    assert es[..|es|] == es;
    var end := if r.Some? then r.value else |es|;
    UserOrder();
    assert r.Some? ==> Seen(es[r.value], s) && r.value != c;
    assert end > c;
    forall x | c < x < end ensures !Listed(es, s, x) {
      if Listed(es, s, x) {
        ListedUsersIncrease(es, s, c, x);
      }
    }
    BeforeStep(es, s, c);
    NoneListedBetween(es, s, c + 1, end);
  }

  // Searching backward.

  ghost predicate InvisibleBetween(es: seq<Entry>, s: nat, lo: nat, hi: nat)
    requires hi <= |es|
  {
    forall x :: lo <= x < hi ==> !Seen(es[x], s)
  }

  /** The last listed entry before hi, reached with the underlying position at lo - 1. */
  ghost predicate LastListedBefore(es: seq<Entry>, s: nat, lo: nat, hi: nat, r: Option<nat>)
    requires hi <= |es|
  {
    match r
    case Some(c) => lo <= c < hi && Listed(es, s, c) && InvisibleBetween(es, s, lo, c) &&
                    forall x :: c < x < hi ==> !Listed(es, s, x)
    case None => forall x :: 0 <= x < hi ==> !Listed(es, s, x)
  }

  // The state of the backward search at lo: the candidate, if there is one, is the last visible
  // entry met, and no other entry met is listed.
  ghost predicate Candidate(es: seq<Entry>, s: nat, lo: nat, hi: nat, c: Option<nat>)
    requires hi <= |es|
  {
    lo <= hi &&
    match c
    case Some(c) => lo <= c < hi && Seen(es[c], s) && es[c].key.kind == Value && InvisibleBetween(es, s, lo, c) &&
                    forall x :: lo <= x < hi && x != c ==> !Listed(es, s, x)
    case None => forall x :: lo <= x < hi ==> !Listed(es, s, x)
  }

  lemma CandidateStep(es: seq<Entry>, s: nat, lo: nat, hi: nat, c: Option<nat>)
    requires Sorted(es) && 0 < lo <= hi <= |es| && Candidate(es, s, lo, hi, c)
    ensures !Seen(es[lo-1], s) ==> Candidate(es, s, lo - 1, hi, c)
    ensures Seen(es[lo-1], s) && c.Some? && Less(es[lo-1].key.user, es[c.value].key.user) ==>
              LastListedBefore(es, s, lo, hi, c)
    ensures Seen(es[lo-1], s) && !(c.Some? && Less(es[lo-1].key.user, es[c.value].key.user)) ==>
              Candidate(es, s, lo - 1, hi, if es[lo-1].key.kind == Value then Some(lo - 1) else None)
  {
    KeyOrder();
    UserOrder();
    forall j | 0 <= j <= lo - 1 ensures !Less(es[lo-1].key.user, es[j].key.user) {
      NotLaterUser(es, j, lo - 1);
    }
    if c.Some? {
      assert KeyLess(es[lo-1].key, es[c.value].key);
    }
  }

  lemma CandidateAtStart(es: seq<Entry>, s: nat, hi: nat, c: Option<nat>)
    requires hi <= |es| && Candidate(es, s, 0, hi, c)
    ensures LastListedBefore(es, s, 0, hi, c)
  {
  }

  lemma LastListedPosition(es: seq<Entry>, s: nat, lo: nat, hi: nat, r: Option<nat>)
    requires hi <= |es| && LastListedBefore(es, s, lo, hi, r)
    ensures Before(es, s, hi) == if r.Some? then Before(es, s, r.value) + 1 else 0
  {
    if r.Some? {
      BeforeStep(es, s, r.value);
      NoneListedBetween(es, s, r.value + 1, hi);
    } else {
      NoneListedBetween(es, s, 0, hi);
      assert es[..0] == [];
    }
  }

  // Between the entries of a listed key and that key's listed entry nothing is visible.
  lemma SameUserInvisible(es: seq<Entry>, s: nat, lo: nat, c: nat)
    requires lo <= c < |es| && Listed(es, s, c) && forall x :: lo <= x < c ==> es[x].key.user == es[c].key.user
    ensures InvisibleBetween(es, s, lo, c) && Before(es, s, lo) == Before(es, s, c)
  {
    NoneListedBetween(es, s, lo, c);
  }

  datatype Direction = Forward | Reverse

  class DBIter {
    var iter: Cursor
    const sequence: SequenceNumber
    var direction: Direction
    var valid: bool
    var savedKey: Bytes
    var savedValue: Bytes
    ghost const es: seq<Entry>
    ghost var at: nat    // position in the view; its length when not valid
    ghost var from: nat  // index of the entry listed at the current position

    ghost function ViewList(): seq<Entry> {
      View(es, sequence)
    }

    function Key(): Bytes
      requires valid && (direction == Forward ==> iter.Valid())
      reads this
    {
      if direction == Forward then iter.Entry().key.user else savedKey
    }

    function CurrentValue(): Bytes
      requires valid && (direction == Forward ==> iter.Valid())
      reads this
    {
      if direction == Forward then iter.Entry().value else savedValue
    }

    // One past the underlying position; an invalid position counts as before the first entry.
    ghost function Ahead(): nat
      reads this
    {
      if iter.Valid() then iter.pos + 1 else 0
    }

    /** Moving forward, the underlying iterator is at the entry listed at the current position. Moving
        backward, it is before that entry, and nothing in between is visible. */
    ghost predicate Valid()
      reads this
    {
      Sorted(es) && iter.list == es && iter.pos <= |es| &&
      if !valid then at == |ViewList()| else
        from < |es| && Listed(es, sequence, from) && at == Before(es, sequence, from) &&
        match direction
        case Forward => iter.pos == from
        case Reverse => savedKey == es[from].key.user && savedValue == es[from].value &&
                        Ahead() <= from && InvisibleBetween(es, sequence, Ahead(), from)
    }

    /** The current key and value are those listed at the current position of the view. */
    lemma CurrentIsListed()
      requires Valid() && valid
      ensures at < |ViewList()| && Key() == ViewList()[at].key.user && CurrentValue() == ViewList()[at].value
    {
      ViewAt(es, sequence, from);
    }

    constructor (list: seq<Entry>, s: SequenceNumber)
      requires Sorted(list)
      ensures Valid() && !valid && es == list && sequence == s
    {
      iter := Cursor(list, |list|);
      sequence := s;
      direction := Forward;
      valid := false;
      savedKey, savedValue := [], [];
      es := list;
      at := |View(list, s)|;
      from := 0;
    }

    method SeekToFirst()
      requires Valid()
      modifies this
      ensures Valid() && at == 0 && (valid <==> ViewList() != [])
    {
      direction := Forward;
      savedValue := [];
      iter := iter.SeekToFirst();
      if iter.Valid() {
        FindNextUserEntry(false, savedKey);
      } else {
        valid := false;
      }
      SettleForward();
      FirstListedPosition(es, sequence, 0, savedKey, if valid then Some(iter.pos) else None);
      assert es[..0] == [];
      if valid { ViewAt(es, sequence, from); }
    }

    method SeekToLast()
      requires Valid()
      modifies this
      ensures Valid() && (valid <==> ViewList() != [])
      ensures at == if ViewList() == [] then 0 else |ViewList()| - 1
    {
      direction := Reverse;
      savedValue := [];
      iter := iter.SeekToLast();
      FindPrevUserEntry();
      assert es[..|es|] == es;
    }

    method Seek(target: Bytes)
      requires Valid()
      modifies this
      ensures Valid() && at == UserLowerBound(ViewList(), target) && (valid <==> at < |ViewList()|)
    {
      direction := Forward;
      savedValue := [];
      savedKey := [];
      iter := iter.Seek(LookupKey(target, sequence));
      ghost var i0 := iter.pos;
      SeekCleanStart(es, sequence, target, savedKey);
      if iter.Valid() {
        FindNextUserEntry(false, savedKey);
      } else {
        valid := false;
      }
      SettleForward();
      FirstListedPosition(es, sequence, i0, savedKey, if valid then Some(iter.pos) else None);
      SeekPosition(es, sequence, target);
      if valid { ViewAt(es, sequence, from); }
    }

    method Next()
      requires Valid() && valid
      modifies this
      ensures Valid() && at == old(at) + 1 && (valid <==> at < |ViewList()|)
    {
      if direction == Reverse {
        direction := Forward;
        if !iter.Valid() {
          iter := iter.SeekToFirst();
        } else {
          iter := iter.Next();
        }
        if !iter.Valid() {
          assert false;  // the entries of the current key are still ahead
        }
      } else {
        savedKey := iter.Entry().key.user;
      }
      ghost var i0 := iter.pos;
      NextCleanStart(es, sequence, i0, from);
      FindNextUserEntry(true, savedKey);
      NextPosition(es, sequence, i0, from, if valid then Some(iter.pos) else None);
      SettleForward();
      if valid { ViewAt(es, sequence, from); }
    }

    // Ghost bookkeeping after a forward search.
    ghost method SettleForward()
      requires Sorted(es) && iter.list == es && iter.pos <= |es| && direction == Forward
      requires valid ==> iter.pos < |es| && Listed(es, sequence, iter.pos)
      modifies this`at, this`from
      ensures Valid() && (valid ==> from == iter.pos)
    {
      if valid {
        from := iter.pos;
        at := Before(es, sequence, from);
      } else {
        at := |ViewList()|;
      }
    }

    // Loops until an acceptable entry is found.
    method FindNextUserEntry(skipping0: bool, skip0: Bytes)
      requires Sorted(es) && iter.list == es && iter.Valid()
      requires CleanStart(es, sequence, iter.pos, skipping0, skip0)
      modifies this`iter, this`valid, this`savedKey
      ensures iter.list == es && iter.pos <= |es|
      ensures valid ==> iter.pos < |es|
      ensures FirstListedFrom(es, sequence, old(iter.pos), skipping0, skip0, if valid then Some(iter.pos) else None)
    {
      var skipping, skip := skipping0, skip0;
      ghost var i0 := iter.pos;
      UserOrder();
      while iter.Valid()
        invariant iter.list == es && iter.pos <= |es|
        invariant Skipped(es, sequence, i0, iter.pos, skipping0, skip0, skipping, skip)
        decreases |es| - iter.pos
      {
        var e := iter.Entry();
        if Seen(e, sequence) {
          match e.key.kind {
            case Deletion =>
              SkipDeleted(es, sequence, i0, iter.pos, skipping0, skip0, skipping, skip);
              skip := e.key.user;
              skipping := true;
            case Value =>
              if skipping && !Less(skip, e.key.user) {
                SkipHidden(es, sequence, i0, iter.pos, skipping0, skip0, skipping, skip);
              } else {
                FoundListed(es, sequence, i0, iter.pos, skipping0, skip0, skipping, skip);
                valid := true;
                savedKey := [];
                return;
              }
          }
        } else {
          SkipInvisible(es, sequence, i0, iter.pos, skipping0, skip0, skipping, skip);
        }
        iter := iter.Next();
      }
      savedKey := [];
      valid := false;
    }

    method Prev()
      requires Valid() && valid
      modifies this
      ensures Valid() && at == (if old(at) == 0 then |ViewList()| else old(at) - 1)
      ensures valid <==> at < |ViewList()|
    {
      ghost var c := from;
      ViewAt(es, sequence, c);
      if direction == Forward {
        ScanBackToSmallerUser();
        if !iter.Valid() {
          valid := false;
          savedKey, savedValue := [], [];
          at := |ViewList()|;
          assert es[..0] == [];
          return;
        }
        direction := Reverse;
      }
      NoneListedBetween(es, sequence, Ahead(), c);
      FindPrevUserEntry();
    }

    // From the entry listed at the current position, scans back until the user key changes.
    method ScanBackToSmallerUser()
      requires Valid() && valid && direction == Forward
      modifies this`iter, this`savedKey
      ensures iter.list == es && iter.pos <= |es| && Ahead() <= from
      ensures InvisibleBetween(es, sequence, Ahead(), from) && Before(es, sequence, Ahead()) == Before(es, sequence, from)
    {
      savedKey := iter.Entry().key.user;
      while true
        invariant iter.list == es && iter.pos <= from
        invariant savedKey == es[from].key.user == es[iter.pos].key.user
        invariant forall x :: iter.pos <= x < from ==> es[x].key.user == savedKey
        decreases iter.pos
      {
        ghost var p := iter.pos;
        iter := iter.Prev();
        if !iter.Valid() {
          break;
        }
        NotLaterUser(es, iter.pos, p);
        if Less(iter.Entry().key.user, savedKey) {
          break;
        }
      }
      SameUserInvisible(es, sequence, Ahead(), from);
    }

    // Steps back to the last listed entry before the underlying position, passing every entry of its key.
    method FindPrevUserEntry()
      requires Sorted(es) && iter.list == es && iter.pos <= |es| && direction == Reverse
      modifies this
      ensures Valid()
      ensures valid <==> Before(es, sequence, old(Ahead())) > 0
      ensures at == if valid then Before(es, sequence, old(Ahead())) - 1 else |ViewList()|
    {
      ghost var hi := Ahead();
      ghost var c: Option<nat> := None;
      ghost var done := false;
      var kind := Deletion;
      while iter.Valid()
        invariant iter.list == es && iter.pos <= |es| && direction == Reverse && Ahead() <= hi
        invariant Candidate(es, sequence, Ahead(), hi, c) && (kind == Value <==> c.Some?)
        invariant c.Some? ==> savedKey == es[c.value].key.user && savedValue == es[c.value].value
        decreases Ahead()
      {
        var e := iter.Entry();
        CandidateStep(es, sequence, Ahead(), hi, c);
        if Seen(e, sequence) {
          if kind != Deletion && Less(e.key.user, savedKey) {
            done := true;
            break;
          }
          kind := e.key.kind;
          if kind == Deletion {
            savedKey, savedValue := [], [];
            c := None;
          } else {
            savedKey, savedValue := e.key.user, e.value;
            c := Some(iter.pos);
          }
        }
        iter := iter.Prev();
      }
      if !done {
        CandidateAtStart(es, sequence, hi, c);
      }
      LastListedPosition(es, sequence, Ahead(), hi, c);
      if kind == Deletion {
        valid := false;
        savedKey, savedValue := [], [];
        direction := Forward;
        at := |ViewList()|;
      } else {
        valid := true;
        from := c.value;
        at := Before(es, sequence, from);
      }
    }
  }

  lemma NotLaterUser(es: seq<Entry>, i: nat, j: nat)
    requires Sorted(es) && i <= j < |es|
    ensures !Less(es[j].key.user, es[i].key.user)
    ensures es[i].key.user == es[j].key.user || Less(es[i].key.user, es[j].key.user)
  {
    KeyOrder();
    UserOrder();
    assert i == j || KeyLess(es[i].key, es[j].key);
  }
}
