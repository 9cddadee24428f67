/** The merging iterator over any number of sorted children stays in step with a cursor on the one
    sorted merge of all of them, through every direction switch (table/merger.cc). */
module Merger {
  import opened Keys
  import opened Versions
  import opened Cursors

  ghost function KeySet(list: seq<Entry>): set<InternalKey> {
    set e | e in list :: e.key
  }

  /** Children are sorted and no key occurs in two of them. */
  ghost predicate DistinctLists(lists: seq<seq<Entry>>) {
    (forall i :: 0 <= i < |lists| ==> Sorted(lists[i])) &&
    forall i, j :: 0 <= i < j < |lists| ==> KeySet(lists[i]) !! KeySet(lists[j])
  }

  ghost predicate MergeOf(lists: seq<seq<Entry>>, merged: seq<Entry>) {
    Sorted(merged) && forall e :: e in merged <==> exists i :: 0 <= i < |lists| && e in lists[i]
  }

  lemma DistinctKeys(lists: seq<seq<Entry>>, a: Entry, i: nat, b: Entry, j: nat)
    requires DistinctLists(lists) && i < |lists| && j < |lists| && i != j && a in lists[i] && b in lists[j]
    ensures a.key != b.key
  {
    assert a.key in KeySet(lists[i]) && b.key in KeySet(lists[j]);
    assert KeySet(lists[i]) !! KeySet(lists[j]);
  }

  // The sorted merge exists.

  ghost function Merge2(a: seq<Entry>, b: seq<Entry>): seq<Entry> {
    if a == [] then b else if b == [] then a
    else if KeyLess(a[0].key, b[0].key) then [a[0]] + Merge2(a[1..], b)
    else [b[0]] + Merge2(a, b[1..])
  }

  lemma {:induction false} Merge2Members(a: seq<Entry>, b: seq<Entry>)
    ensures forall e :: e in Merge2(a, b) <==> e in a || e in b
  {
    if a != [] && b != [] {
      if KeyLess(a[0].key, b[0].key) {
        Merge2Members(a[1..], b);
        assert a == [a[0]] + a[1..];
      } else {
        Merge2Members(a, b[1..]);
        assert b == [b[0]] + b[1..];
      }
    }
  }

  lemma SortedCons(x: Entry, s: seq<Entry>)
    requires Sorted(s) && forall e :: e in s ==> KeyLess(x.key, e.key)
    ensures Sorted([x] + s)
  {
  }

  lemma {:induction false} Merge2Sorted(a: seq<Entry>, b: seq<Entry>)
    requires Sorted(a) && Sorted(b) && forall x, y :: x in a && y in b ==> x.key != y.key
    ensures Sorted(Merge2(a, b))
  {
    if a != [] && b != [] {
      KeyOrder();
      if KeyLess(a[0].key, b[0].key) {
        Merge2Sorted(a[1..], b);
        Merge2Members(a[1..], b);
        SortedCons(a[0], Merge2(a[1..], b));
      } else {
        Merge2Sorted(a, b[1..]);
        Merge2Members(a, b[1..]);
        assert a[0].key != b[0].key;
        SortedCons(b[0], Merge2(a, b[1..]));
      }
    }
  }

  lemma {:induction false} MergeExists(lists: seq<seq<Entry>>) returns (merged: seq<Entry>)
    requires DistinctLists(lists)
    ensures MergeOf(lists, merged)
  {
    if lists == [] {
      merged := [];
    } else {
      var n := |lists| - 1;
      assert forall i :: 0 <= i < n ==> lists[..n][i] == lists[i];
      var init := MergeExists(lists[..n]);
      merged := Merge2(init, lists[n]);
      Merge2Members(init, lists[n]);
      forall x, y | x in init && y in lists[n] ensures x.key != y.key {
        var i :| 0 <= i < n && x in lists[..n][i];
        DistinctKeys(lists, x, i, y, n);
      }
      Merge2Sorted(init, lists[n]);
    }
  }

  // How many entries of a child come before a position of the merge.

  ghost function Rank(list: seq<Entry>, merged: seq<Entry>, p: nat): nat {
    if p < |merged| then LowerBound(list, merged[p].key) else |list|
  }

  // One step back from a position of a list, in the manner of Cursor.Prev.
  ghost function Back(list: seq<Entry>, at: nat): nat {
    if at == 0 then |list| else at - 1
  }

  lemma RankZero(lists: seq<seq<Entry>>, merged: seq<Entry>, j: nat)
    requires MergeOf(lists, merged) && j < |lists|
    ensures Rank(lists[j], merged, 0) == 0
  {
    KeyOrder();
    if lists[j] != [] {
      assert lists[j][0] in merged;
      var m :| 0 <= m < |merged| && merged[m] == lists[j][0];
      LowerBoundIs(lists[j], merged[0].key, 0);
    }
  }

  lemma RankStep(lists: seq<seq<Entry>>, merged: seq<Entry>, p: nat, j: nat)
    requires DistinctLists(lists) && MergeOf(lists, merged) && p < |merged| && j < |lists|
    ensures var r := Rank(lists[j], merged, p);
            if merged[p] in lists[j] then
              r < |lists[j]| && lists[j][r] == merged[p] && Rank(lists[j], merged, p + 1) == r + 1
            else
              Rank(lists[j], merged, p + 1) == r
  {
    KeyOrder();
    var list := lists[j];
    var r := Rank(list, merged, p);
    forall x | r <= x < |list| && list[x] != merged[p] ensures p + 1 < |merged| && !KeyLess(list[x].key, merged[p+1].key) {
      assert list[x] in merged;
      var m :| 0 <= m < |merged| && merged[m] == list[x];
      assert p < m;
    }
    if merged[p] in list {
      var x :| 0 <= x < |list| && list[x] == merged[p];
      assert r == x;
      assert r + 1 < |list| ==> KeyLess(list[r].key, list[r+1].key);
    }
    var next := if merged[p] in list then r + 1 else r;
    if p + 1 < |merged| {
      LowerBoundIs(list, merged[p+1].key, next);
    }
  }

  lemma SeekRank(lists: seq<seq<Entry>>, merged: seq<Entry>, target: InternalKey, j: nat)
    requires MergeOf(lists, merged) && j < |lists| && Sorted(lists[j])
    ensures LowerBound(lists[j], target) == Rank(lists[j], merged, LowerBound(merged, target))
  {
    KeyOrder();
    var list, p, at := lists[j], LowerBound(merged, target), LowerBound(lists[j], target);
    forall x | 0 <= x < |list|
      ensures KeyLess(list[x].key, target) ==> p >= |merged| || KeyLess(list[x].key, merged[p].key)
      ensures !KeyLess(list[x].key, target) ==> p < |merged| && !KeyLess(list[x].key, merged[p].key)
    {
      assert list[x] in merged;
      var m :| 0 <= m < |merged| && merged[m] == list[x];
    }
    if p < |merged| {
      LowerBoundIs(list, merged[p].key, at);
    }
  }

  // Children at a position of the merge.

  ghost predicate AllOn(lists: seq<seq<Entry>>, children: seq<Cursor>) {
    |children| == |lists| && forall j :: 0 <= j < |lists| ==> children[j].list == lists[j]
  }

  /** Every child stands at its first entry not before position p of the merge. */
  ghost predicate AllAhead(lists: seq<seq<Entry>>, merged: seq<Entry>, children: seq<Cursor>, p: nat) {
    AllOn(lists, children) && forall j :: 0 <= j < |lists| ==> children[j].pos == Rank(lists[j], merged, p)
  }

  /** Every child stands at its last entry before position p of the merge. */
  ghost predicate AllBehind(lists: seq<seq<Entry>>, merged: seq<Entry>, children: seq<Cursor>, p: nat) {
    AllOn(lists, children) && forall j :: 0 <= j < |lists| ==> children[j].pos == Back(lists[j], Rank(lists[j], merged, p))
  }

  ghost predicate Smallest(children: seq<Cursor>, c: Option<nat>) {
    match c
    case None => forall j :: 0 <= j < |children| ==> !children[j].Valid()
    case Some(i) => i < |children| && children[i].Valid() &&
                    forall j :: 0 <= j < |children| && children[j].Valid() ==>
                                  !KeyLess(children[j].Entry().key, children[i].Entry().key)
  }

  ghost predicate Largest(children: seq<Cursor>, c: Option<nat>) {
    match c
    case None => forall j :: 0 <= j < |children| ==> !children[j].Valid()
    case Some(i) => i < |children| && children[i].Valid() &&
                    forall j :: 0 <= j < |children| && children[j].Valid() ==>
                                  !KeyLess(children[i].Entry().key, children[j].Entry().key)
  }

  ghost predicate Holds(merged: seq<Entry>, children: seq<Cursor>, p: nat, c: Option<nat>) {
    match c
    case None => p == |merged|
    case Some(i) => i < |children| && p < |merged| && children[i].Valid() && children[i].Entry() == merged[p]
  }

  ghost predicate Setup(lists: seq<seq<Entry>>, merged: seq<Entry>) {
    DistinctLists(lists) && MergeOf(lists, merged)
  }

  lemma SmallestHolds(lists: seq<seq<Entry>>, merged: seq<Entry>, children: seq<Cursor>, p: nat, c: Option<nat>)
    requires Setup(lists, merged) && AllAhead(lists, merged, children, p) && p <= |merged| && Smallest(children, c)
    ensures Holds(merged, children, p, c)
  {
    if p < |merged| {
      assert merged[p] in merged;
      var j :| 0 <= j < |lists| && merged[p] in lists[j];
      RankStep(lists, merged, p, j);
      assert children[j].Valid() && children[j].Entry() == merged[p];
      var i := c.value;
      assert children[i].Entry() in lists[i] && children[i].Entry() in merged;
      var m :| 0 <= m < |merged| && merged[m] == children[i].Entry();
      NotBefore(merged, p, m);
    }
  }

  lemma NotBefore(merged: seq<Entry>, p: nat, m: nat)
    requires Sorted(merged) && p < |merged| && m < |merged|
    ensures !KeyLess(merged[p].key, merged[m].key) ==> m <= p
    ensures !KeyLess(merged[m].key, merged[p].key) ==> p <= m
    ensures m <= p ==> !KeyLess(merged[p].key, merged[m].key)
  {
    KeyOrder();
  }

  // A child standing behind position p of the merge holds an entry before it.
  lemma BehindBefore(lists: seq<seq<Entry>>, merged: seq<Entry>, p: nat, i: nat) returns (m: nat)
    requires Setup(lists, merged) && 0 < p <= |merged| && i < |lists|
    requires Back(lists[i], Rank(lists[i], merged, p)) < |lists[i]|
    ensures m < p && merged[m] == lists[i][Back(lists[i], Rank(lists[i], merged, p))]
  {
    var b := Back(lists[i], Rank(lists[i], merged, p));
    assert lists[i][b] in merged;
    var x :| 0 <= x < |merged| && merged[x] == lists[i][b];
    m := x;
    if p < |merged| {
      assert KeyLess(lists[i][b].key, merged[p].key);
      KeyOrder();
    }
  }

  lemma LargestHolds(lists: seq<seq<Entry>>, merged: seq<Entry>, children: seq<Cursor>, p: nat, c: Option<nat>)
    requires Setup(lists, merged) && AllBehind(lists, merged, children, p) && p <= |merged| && Largest(children, c)
    ensures Holds(merged, children, Back(merged, p), c)
  {
    if p == 0 {
      forall j | 0 <= j < |children| ensures !children[j].Valid() {
        RankZero(lists, merged, j);
      }
    } else {
      var j := HolderBehind(lists, merged, children, p);
      var i := c.value;
      var m := BehindBefore(lists, merged, p, i);
      NotBefore(merged, m, p - 1);
    }
  }

  lemma HolderBehind(lists: seq<seq<Entry>>, merged: seq<Entry>, children: seq<Cursor>, p: nat) returns (j: nat)
    requires Setup(lists, merged) && AllBehind(lists, merged, children, p) && 0 < p <= |merged|
    ensures j < |children| && children[j].Valid() && children[j].Entry() == merged[p-1]
  {
    assert merged[p-1] in merged;
    j :| 0 <= j < |lists| && merged[p-1] in lists[j];
    RankStep(lists, merged, p - 1, j);
  }

  // Moving the child that holds the current entry moves all children to the neighbouring position.

  lemma OtherListsLack(lists: seq<seq<Entry>>, e: Entry, c: nat, j: nat)
    requires DistinctLists(lists) && c < |lists| && j < |lists| && j != c && e in lists[c]
    ensures e !in lists[j]
  {
    if e in lists[j] {
      DistinctKeys(lists, e, c, e, j);
    }
  }

  // A direction switch takes a child other than the current one to its first entry after key, or
  // to its last entry before it (merger.cc:67-79, 93-108).

  function SeekPast(child: Cursor, key: InternalKey): Cursor {
    var c := child.Seek(key);
    if c.Valid() && c.Entry().key == key then c.Next() else c
  }

  function SeekBehind(child: Cursor, key: InternalKey): Cursor {
    var c := child.Seek(key);
    if c.Valid() then c.Prev() else c.SeekToLast()
  }

  lemma SwitchedForward(lists: seq<seq<Entry>>, merged: seq<Entry>, before: seq<Cursor>, p: nat, c: nat, after: seq<Cursor>)
    requires Setup(lists, merged) && AllBehind(lists, merged, before, p + 1) && Holds(merged, before, p, Some(c))
    requires |after| == |before| && after[c] == before[c]
    requires forall j :: 0 <= j < |after| && j != c ==> after[j] == SeekPast(before[j], merged[p].key)
    ensures AllAhead(lists, merged, after, p)
  {
    assert merged[p] in lists[c];
    RankStep(lists, merged, p, c);
    forall j | 0 <= j < |lists| && j != c ensures after[j] == before[j].Seek(merged[p].key) {
      var child := before[j].Seek(merged[p].key);
      if child.Valid() {
        DistinctKeys(lists, merged[p], c, child.Entry(), j);
      }
    }
  }

  lemma SwitchedReverse(lists: seq<seq<Entry>>, merged: seq<Entry>, before: seq<Cursor>, p: nat, c: nat, after: seq<Cursor>)
    requires Setup(lists, merged) && AllAhead(lists, merged, before, p) && Holds(merged, before, p, Some(c))
    requires |after| == |before| && after[c] == before[c]
    requires forall j :: 0 <= j < |after| && j != c ==> after[j] == SeekBehind(before[j], merged[p].key)
    ensures AllBehind(lists, merged, after, p + 1)
  {
    assert merged[p] in lists[c];
    forall j | 0 <= j < |lists|
      ensures after[j] == Cursor(lists[j], Back(lists[j], Rank(lists[j], merged, p + 1)))
    {
      RankStep(lists, merged, p, j);
      if j != c {
        OtherListsLack(lists, merged[p], c, j);
      }
    }
  }

  lemma AheadNext(lists: seq<seq<Entry>>, merged: seq<Entry>, children: seq<Cursor>, p: nat, c: nat)
    requires Setup(lists, merged) && AllAhead(lists, merged, children, p) && Holds(merged, children, p, Some(c))
    ensures AllAhead(lists, merged, children[c := children[c].Next()], p + 1)
  {
    forall j | 0 <= j < |lists|
      ensures children[c := children[c].Next()][j].pos == Rank(lists[j], merged, p + 1)
    {
      RankStep(lists, merged, p, j);
      assert merged[p] in lists[c];
      if j != c {
        OtherListsLack(lists, merged[p], c, j);
      }
    }
  }

  lemma BehindPrev(lists: seq<seq<Entry>>, merged: seq<Entry>, children: seq<Cursor>, p: nat, c: nat)
    requires Setup(lists, merged) && AllBehind(lists, merged, children, p + 1) && Holds(merged, children, p, Some(c))
    ensures AllBehind(lists, merged, children[c := children[c].Prev()], p)
  {
    forall j | 0 <= j < |lists|
      ensures children[c := children[c].Prev()][j].pos == Back(lists[j], Rank(lists[j], merged, p))
    {
      RankStep(lists, merged, p, j);
      assert merged[p] in lists[c];
      if j != c {
        OtherListsLack(lists, merged[p], c, j);
      }
    }
  }

  datatype Direction = Forward | Reverse

  class MergingIterator {
    var children: seq<Cursor>
    var current: Option<nat>
    var direction: Direction
    ghost const lists: seq<seq<Entry>>
    ghost const merged: seq<Entry>
    ghost var at: nat

    /** The cursor on the merge that this iterator is in step with. */
    ghost function AsCursor(): Cursor
      reads this
    {
      Cursor(merged, at)
    }

    ghost predicate Valid()
      reads this
    {
      Setup(lists, merged) && AllOn(lists, children) && Holds(merged, children, at, current) &&
      (current.Some? && direction == Forward ==> AllAhead(lists, merged, children, at)) &&
      (current.Some? && direction == Reverse ==> AllBehind(lists, merged, children, at + 1))
    }

    constructor (lists: seq<seq<Entry>>)
      requires DistinctLists(lists)
      ensures Valid() && this.lists == lists && !AsCursor().Valid()
    {
      ghost var m := MergeExists(lists);
      children := seq(|lists|, i requires 0 <= i < |lists| => Cursor(lists[i], |lists[i]|));
      current := None;
      direction := Forward;
      this.lists := lists;
      merged := m;
      at := |m|;
    }

    method SeekToFirst()
      requires Valid()
      modifies this
      ensures Valid() && AsCursor() == old(AsCursor()).SeekToFirst()
    {
      for i := 0 to |children|
        invariant AllOn(lists, children)
        invariant forall j :: 0 <= j < i ==> children[j].pos == 0
      {
        children := children[i := children[i].SeekToFirst()];
      }
      forall j | 0 <= j < |lists| ensures children[j].pos == Rank(lists[j], merged, 0) {
        RankZero(lists, merged, j);
      }
      at := 0;
      FindSmallest();
      SmallestHolds(lists, merged, children, 0, current);
      direction := Forward;
    }

    method SeekToLast()
      requires Valid()
      modifies this
      ensures Valid() && AsCursor() == old(AsCursor()).SeekToLast()
    {
      for i := 0 to |children|
        invariant AllOn(lists, children)
        invariant forall j :: 0 <= j < i ==> children[j].pos == Back(lists[j], |lists[j]|)
      {
        children := children[i := children[i].SeekToLast()];
      }
      at := Back(merged, |merged|);
      FindLargest();
      LargestHolds(lists, merged, children, |merged|, current);
      direction := Reverse;
    }

    method Seek(target: InternalKey)
      requires Valid()
      modifies this
      ensures Valid() && AsCursor() == old(AsCursor()).Seek(target)
    {
      for i := 0 to |children|
        invariant AllOn(lists, children)
        invariant forall j :: 0 <= j < i ==> children[j].pos == LowerBound(lists[j], target)
      {
        children := children[i := children[i].Seek(target)];
      }
      at := LowerBound(merged, target);
      forall j | 0 <= j < |lists| ensures children[j].pos == Rank(lists[j], merged, at) {
        SeekRank(lists, merged, target, j);
      }
      FindSmallest();
      SmallestHolds(lists, merged, children, at, current);
      direction := Forward;
    }

    method Next()
      requires Valid() && AsCursor().Valid()
      modifies this
      ensures Valid() && AsCursor() == old(AsCursor()).Next()
    {
      var c := current.value;
      if direction != Forward {
        SwitchForward(c);
      }
      Advance(c);
    }

    method Advance(c: nat)
      requires Setup(lists, merged) && AllAhead(lists, merged, children, at) && Holds(merged, children, at, Some(c))
      modifies this`children, this`current, this`at
      ensures AllAhead(lists, merged, children, at) && Holds(merged, children, at, current)
      ensures at == old(at) + 1
    {
      AheadNext(lists, merged, children, at, c);
      children := children[c := children[c].Next()];
      at := at + 1;
      FindSmallest();
      SmallestHolds(lists, merged, children, at, current);
    }

    method Prev()
      requires Valid() && AsCursor().Valid()
      modifies this
      ensures Valid() && AsCursor() == old(AsCursor()).Prev()
    {
      hide Rank, Setup;
      var c := current.value;
      if direction != Reverse {
        SwitchReverse(c);
      }
      Retreat(c);
    }

    method Retreat(c: nat)
      requires Setup(lists, merged) && AllBehind(lists, merged, children, at + 1) && Holds(merged, children, at, Some(c))
      modifies this`children, this`current, this`at
      ensures AllOn(lists, children) && Holds(merged, children, at, current)
      ensures current.Some? ==> AllBehind(lists, merged, children, at + 1)
      ensures at == Back(merged, old(at))
    {
      hide Rank, Setup;
      ghost var p := at;
      BehindPrev(lists, merged, children, p, c);
      children := children[c := children[c].Prev()];
      FindLargest();
      LargestHolds(lists, merged, children, p, current);
      at := Back(merged, p);
      assert current.Some? ==> at + 1 == p;
    }

    // The non-current children were behind key(); bring them to their first entry after it.
    method SwitchForward(c: nat)
      requires Setup(lists, merged) && AllBehind(lists, merged, children, at + 1) && Holds(merged, children, at, Some(c))
      modifies this`children, this`direction
      ensures AllAhead(lists, merged, children, at) && Holds(merged, children, at, Some(c)) && direction == Forward
    {
      ghost var before := children;
      SeekOthersPast(c);
      SwitchedForward(lists, merged, before, at, c, children);
      direction := Forward;
    }

    method SeekOthersPast(c: nat)
      requires c < |children| && children[c].Valid()
      modifies this`children
      ensures |children| == |old(children)| && children[c] == old(children)[c]
      ensures forall j :: 0 <= j < |children| && j != c ==>
                            children[j] == SeekPast(old(children)[j], children[c].Entry().key)
    {
      for i := 0 to |children|
        invariant |children| == |old(children)| && children[c] == old(children)[c]
        invariant forall j :: i <= j < |children| ==> children[j] == old(children)[j]
        invariant forall j :: 0 <= j < i && j != c ==> children[j] == SeekPast(old(children)[j], children[c].Entry().key)
      {
        if i != c {
          children := children[i := SeekPast(children[i], children[c].Entry().key)];
        }
      }
    }

    // The non-current children were ahead of key(); bring them to their last entry before it.
    method SwitchReverse(c: nat)
      requires Setup(lists, merged) && AllAhead(lists, merged, children, at) && Holds(merged, children, at, Some(c))
      modifies this`children, this`direction
      ensures AllBehind(lists, merged, children, at + 1) && Holds(merged, children, at, Some(c)) && direction == Reverse
    {
      ghost var before := children;
      SeekOthersBehind(c);
      SwitchedReverse(lists, merged, before, at, c, children);
      direction := Reverse;
    }

    method SeekOthersBehind(c: nat)
      requires c < |children| && children[c].Valid()
      modifies this`children
      ensures |children| == |old(children)| && children[c] == old(children)[c]
      ensures forall j :: 0 <= j < |children| && j != c ==>
                            children[j] == SeekBehind(old(children)[j], children[c].Entry().key)
    {
      for i := 0 to |children|
        invariant |children| == |old(children)| && children[c] == old(children)[c]
        invariant forall j :: i <= j < |children| ==> children[j] == old(children)[j]
        invariant forall j :: 0 <= j < i && j != c ==> children[j] == SeekBehind(old(children)[j], children[c].Entry().key)
      {
        if i != c {
          children := children[i := SeekBehind(children[i], children[c].Entry().key)];
        }
      }
    }

    method FindSmallest()
      modifies this`current
      ensures Smallest(children, current)
    {
      KeyOrder();
      var smallest: Option<nat> := None;
      for i := 0 to |children|
        invariant Smallest(children[..i], smallest)
      {
        var child := children[i];
        if child.Valid() {
          if smallest.None? {
            smallest := Some(i);
          } else if KeyLess(child.Entry().key, children[smallest.value].Entry().key) {
            smallest := Some(i);
          }
        }
      }
      assert children[..|children|] == children;
      current := smallest;
    }

    method FindLargest()
      modifies this`current
      ensures Largest(children, current)
    {
      KeyOrder();
      var largest: Option<nat> := None;
      for i := |children| downto 0
        invariant largest.None? ==> forall j :: i <= j < |children| ==> !children[j].Valid()
        invariant largest.Some? ==> largest.value < |children| && children[largest.value].Valid()
        invariant largest.Some? ==> forall j :: i <= j < |children| && children[j].Valid() ==>
                                      !KeyLess(children[largest.value].Entry().key, children[j].Entry().key)
      {
        var child := children[i];
        if child.Valid() {
          if largest.None? {
            largest := Some(i);
          } else if KeyLess(children[largest.value].Entry().key, child.Entry().key) {
            largest := Some(i);
          }
        }
      }
      current := largest;
    }
  }
}
