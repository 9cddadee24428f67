/** What a collection of multi-version entries means to a reader, and the entries a compaction
    may leave out without changing that meaning (db/db_impl.cc). */
module Contents {
  import opened Keys

  ghost function Elems(es: seq<Entry>): set<Entry> {
    set e | e in es
  }

  /** No two different entries share a user key and a sequence number. */
  ghost predicate Coherent(E: set<Entry>) {
    forall a, b :: a in E && b in E && a.key.user == b.key.user && a.key.seqno == b.key.seqno ==> a == b
  }

  ghost predicate Visible(e: Entry, user: Bytes, s: nat) {
    e.key.user == user && e.key.seqno <= s
  }

  ghost predicate IsNewest(E: set<Entry>, user: Bytes, s: nat, e: Entry) {
    e in E && Visible(e, user, s) &&
    forall o :: o in E && Visible(o, user, s) ==> o.key.seqno <= e.key.seqno
  }

  ghost predicate Yields(E: set<Entry>, user: Bytes, s: nat, v: Bytes) {
    exists e :: IsNewest(E, user, s, e) && e.key.kind == Value && e.value == v
  }

  /** The value a reader at sequence number s finds for a user key: that of the newest visible
      entry, where a deletion marker counts as absent. */
  ghost function ReadAt(E: set<Entry>, user: Bytes, s: nat): Option<Bytes> {
    if exists v :: Yields(E, user, s, v) then
      var v :| Yields(E, user, s, v);
      Some(v)
    else
      None
  }

  lemma ReadNewest(E: set<Entry>, user: Bytes, s: nat, e: Entry)
    requires Coherent(E) && IsNewest(E, user, s, e)
    ensures ReadAt(E, user, s) == if e.key.kind == Value then Some(e.value) else None
  {
    if e.key.kind == Value {
      assert Yields(E, user, s, e.value);
    }
  }

  lemma ReadNothing(E: set<Entry>, user: Bytes, s: nat)
    requires forall e :: e in E ==> !Visible(e, user, s)
    ensures ReadAt(E, user, s) == None
  {
  }

  lemma {:induction false} NewestExists(E: set<Entry>, user: Bytes, s: nat, e: Entry) returns (newest: Entry)
    requires e in E && Visible(e, user, s)
    ensures IsNewest(E, user, s, newest)
  {
    newest := e;
    var rest := E - {e};
    if o :| o in rest && Visible(o, user, s) {
      var n := NewestExists(rest, user, s, o);
      newest := if n.key.seqno > e.key.seqno then n else e;
    }
  }

  /** Two readers get the same answer when each newest visible value of one is that of the other. */
  lemma SameAnswer(E: set<Entry>, s: nat, F: set<Entry>, t: nat, user: Bytes)
    requires Coherent(E) && Coherent(F)
    requires forall e :: IsNewest(E, user, s, e) && e.key.kind == Value ==> IsNewest(F, user, t, e)
    requires forall e :: IsNewest(F, user, t, e) && e.key.kind == Value ==> IsNewest(E, user, s, e)
    ensures ReadAt(E, user, s) == ReadAt(F, user, t)
  {
    if e :| IsNewest(E, user, s, e) && e.key.kind == Value {
      ReadNewest(E, user, s, e);
      ReadNewest(F, user, t, e);
    } else {
      assert forall v :: !Yields(E, user, s, v) && !Yields(F, user, t, v);
    }
  }

  /** Every entry of A is newer than every entry of B for the same user key. */
  ghost predicate Newer(A: set<Entry>, B: set<Entry>) {
    forall a, b :: a in A && b in B && a.key.user == b.key.user ==> a.key.seqno > b.key.seqno
  }

  /** The entries the merge loop leaves out (db_impl.cc:955-969): an entry with a newer entry for
      the same user key at or below the smallest snapshot, and a deletion marker at or below the
      smallest snapshot when no deeper level can hold the key. */
  ghost predicate Dropped(es: seq<Entry>, smallest: nat, base: Bytes -> bool, i: int)
    requires 0 <= i < |es|
  {
    || (i > 0 && es[i-1].key.user == es[i].key.user && es[i-1].key.seqno <= smallest)
    || (es[i].key.kind == Deletion && es[i].key.seqno <= smallest && base(es[i].key.user))
  }

  ghost function Kept(es: seq<Entry>, smallest: nat, base: Bytes -> bool): seq<Entry> {
    if es == [] then [] else
      var n := |es| - 1;
      Kept(es[..n], smallest, base) + if Dropped(es, smallest, base, n) then [] else [es[n]]
  }

  lemma {:induction false} KeptMembers(es: seq<Entry>, smallest: nat, base: Bytes -> bool)
    ensures forall e :: e in Kept(es, smallest, base) <==>
              exists i :: 0 <= i < |es| && es[i] == e && !Dropped(es, smallest, base, i)
  {
    if es != [] {
      var n := |es| - 1;
      KeptMembers(es[..n], smallest, base);
      forall i | 0 <= i < n
        ensures Dropped(es, smallest, base, i) == Dropped(es[..n], smallest, base, i)
      {
      }
      forall e ensures e in Kept(es, smallest, base) <==>
                         exists i :: 0 <= i < |es| && es[i] == e && !Dropped(es, smallest, base, i)
      {
        if e in Kept(es[..n], smallest, base) {
          var i :| 0 <= i < n && es[..n][i] == e && !Dropped(es[..n], smallest, base, i);
          assert es[i] == e && !Dropped(es, smallest, base, i);
        }
        if i :| 0 <= i < |es| && es[i] == e && !Dropped(es, smallest, base, i) {
          if i < n {
            assert es[..n][i] == e && !Dropped(es[..n], smallest, base, i);
          }
        }
      }
    }
  }

  lemma {:induction false} KeptSorted(es: seq<Entry>, smallest: nat, base: Bytes -> bool)
    requires Sorted(es)
    ensures Sorted(Kept(es, smallest, base))
  {
    if es != [] {
      var n := |es| - 1;
      KeptSorted(es[..n], smallest, base);
      KeptMembers(es[..n], smallest, base);
      var kept := Kept(es[..n], smallest, base);
      forall i | 0 <= i < |kept| ensures KeyLess(kept[i].key, es[n].key) {
        assert kept[i] in kept;
      }
    }
  }

  /** In sorted entries, whatever lies between two entries of a user key has that user key. */
  lemma SameUserBetween(es: seq<Entry>, i: int, j: int, k: int)
    requires Sorted(es) && 0 <= i <= j <= k < |es| && es[i].key.user == es[k].key.user
    ensures es[j].key.user == es[i].key.user && es[i].key.seqno >= es[j].key.seqno >= es[k].key.seqno
  {
    KeyOrder();
    UserOrder();
  }

  lemma OlderIsDropped(es: seq<Entry>, smallest: nat, base: Bytes -> bool, i: int, j: int)
    requires Sorted(es) && 0 <= i < j < |es| && es[i].key.user == es[j].key.user
    requires es[i].key.seqno <= smallest
    ensures Dropped(es, smallest, base, j)
  {
    SameUserBetween(es, i, j - 1, j);
  }

  /** The merge loop keeps at most one entry per user key when no snapshot is held, that is, when
      the smallest snapshot is at or above every sequence number present. */
  lemma OneKeptPerUser(es: seq<Entry>, smallest: nat, base: Bytes -> bool, a: Entry, b: Entry)
    requires Sorted(es) && forall e :: e in es ==> e.key.seqno <= smallest
    requires a in Kept(es, smallest, base) && b in Kept(es, smallest, base) && a.key.user == b.key.user
    ensures a == b
  {
    KeptMembers(es, smallest, base);
    var i :| 0 <= i < |es| && es[i] == a && !Dropped(es, smallest, base, i);
    var j :| 0 <= j < |es| && es[j] == b && !Dropped(es, smallest, base, j);
    if i < j {
      OlderIsDropped(es, smallest, base, i, j);
    } else if j < i {
      OlderIsDropped(es, smallest, base, j, i);
    }
  }

  lemma InOrder(es: seq<Entry>, i: nat, j: nat)
    requires Sorted(es) && i < |es| && j < |es| && KeyLess(es[i].key, es[j].key)
    ensures i < j
  {
    KeyOrder();
    assert forall x, y :: 0 <= x < y < |es| ==> KeyLess(es[x].key, es[y].key);
  }

  /** What is kept, whatever stands next to what: an entry goes if and only if a newer entry for its user key is at or below
      the smallest snapshot, or it is a deletion marker at or below it that has nothing deeper to cover. */
  lemma KeptExactly(es: seq<Entry>, smallest: nat, base: Bytes -> bool, e: Entry)
    requires Sorted(es) && e in es
    ensures e !in Kept(es, smallest, base) <==>
              || (exists a :: a in es && a.key.user == e.key.user && KeyLess(a.key, e.key) && a.key.seqno <= smallest)
              || (e.key.kind == Deletion && e.key.seqno <= smallest && base(e.key.user))
  {
    KeptMembers(es, smallest, base);
    KeyOrder();
    UserOrder();
    var j :| 0 <= j < |es| && es[j] == e;
    assert forall i :: 0 <= i < |es| && es[i] == e ==> i == j by {
      forall i | 0 <= i < |es| && i != j ensures es[i] != e {
        assert if i < j then KeyLess(es[i].key, es[j].key) else KeyLess(es[j].key, es[i].key);
      }
    }
    forall a | a in es && a.key.user == e.key.user && KeyLess(a.key, e.key) && a.key.seqno <= smallest ensures Dropped(es, smallest, base, j) {
      var i :| 0 <= i < |es| && es[i] == a;
      InOrder(es, i, j);
      OlderIsDropped(es, smallest, base, i, j);
    }
    if j > 0 && es[j - 1].key.user == e.key.user && es[j - 1].key.seqno <= smallest {
      assert KeyLess(es[j - 1].key, es[j].key) && es[j - 1] in es;
    }
  }

  /** What a reader at the smallest snapshot sees of a user key without deeper data is a deletion marker among the
      inputs, which the merge loop drops, and the newest entry the rest of the store has for it is a value. */
  ghost predicate Uncovers(es: seq<Entry>, smallest: nat, base: Bytes -> bool, others: set<Entry>, d: Entry, o: Entry) {
    && d in es && d.key.kind == Deletion && base(d.key.user)
    && IsNewest(Elems(es) + others, d.key.user, smallest, d)
    && o.key.kind == Value && IsNewest(others, d.key.user, smallest, o)
  }

  ghost predicate BringsBack(es: seq<Entry>, smallest: nat, base: Bytes -> bool, others: set<Entry>) {
    exists d, o :: Uncovers(es, smallest, base, others, d, o)
  }

  /** Compaction preserves meaning: whatever else the store holds, every reader at or above the smallest snapshot gets
      the same answer from the kept entries as from all inputs, if and only if no dropped deletion marker brings a
      value back. */
  lemma CompactionPreservesReadsIff(es: seq<Entry>, smallest: nat, base: Bytes -> bool, others: set<Entry>)
    requires Sorted(es) && Coherent(Elems(es) + others)
    ensures (forall user, s :: smallest <= s ==>
               ReadAt(Elems(Kept(es, smallest, base)) + others, user, s) == ReadAt(Elems(es) + others, user, s))
            <==> !BringsBack(es, smallest, base, others)
  {
    if d, o :| Uncovers(es, smallest, base, others, d, o) {
      ValueComesBack(es, smallest, base, others, d, o);
    } else {
      forall user, s: nat | smallest <= s
        ensures ReadAt(Elems(Kept(es, smallest, base)) + others, user, s) == ReadAt(Elems(es) + others, user, s)
      {
        SameReads(es, smallest, base, others, user, s);
      }
    }
  }

  lemma SameReads(es: seq<Entry>, smallest: nat, base: Bytes -> bool, others: set<Entry>, user: Bytes, s: nat)
    requires Sorted(es) && Coherent(Elems(es) + others) && smallest <= s && !BringsBack(es, smallest, base, others)
    ensures ReadAt(Elems(Kept(es, smallest, base)) + others, user, s) == ReadAt(Elems(es) + others, user, s)
  {
    var E, K := Elems(es) + others, Elems(Kept(es, smallest, base)) + others;
    KeptFewer(es, smallest, base);
    hide Kept;
    assert K <= E;
    forall e | IsNewest(E, user, s, e) && e.key.kind == Value ensures IsNewest(K, user, s, e) {
      NewestValueKept(es, smallest, base, others, user, s, e);
    }
    forall e | IsNewest(K, user, s, e) && e.key.kind == Value ensures IsNewest(E, user, s, e) {
      var n := NewestExists(E, user, s, e);
      if n in K {
        assert e.key.seqno == n.key.seqno;
      } else {
        BroughtBack(es, smallest, base, others, user, s, n, e);
        assert false;
      }
    }
    SameAnswer(E, s, K, s, user);
  }

  lemma KeptFewer(es: seq<Entry>, smallest: nat, base: Bytes -> bool)
    ensures Elems(Kept(es, smallest, base)) <= Elems(es)
  {
    KeptMembers(es, smallest, base);
  }

  lemma BroughtBack(es: seq<Entry>, smallest: nat, base: Bytes -> bool, others: set<Entry>, user: Bytes, s: nat, n: Entry, e: Entry)
    requires Sorted(es) && Coherent(Elems(es) + others) && smallest <= s
    requires IsNewest(Elems(es) + others, user, s, n) && n !in Elems(Kept(es, smallest, base)) + others
    requires IsNewest(Elems(Kept(es, smallest, base)) + others, user, s, e) && e.key.kind == Value
    ensures Uncovers(es, smallest, base, others, n, e)
  {
    DroppedNewest(es, smallest, base, others, user, s, n);
    hide Kept, Sorted;
  }

  lemma ValueComesBack(es: seq<Entry>, smallest: nat, base: Bytes -> bool, others: set<Entry>, d: Entry, o: Entry)
    requires Sorted(es) && Coherent(Elems(es) + others) && Uncovers(es, smallest, base, others, d, o)
    ensures ReadAt(Elems(es) + others, d.key.user, smallest) == None
    ensures ReadAt(Elems(Kept(es, smallest, base)) + others, d.key.user, smallest) == Some(o.value)
  {
    var user, K := d.key.user, Elems(Kept(es, smallest, base)) + others;
    KeptMembers(es, smallest, base);
    ReadNewest(Elems(es) + others, user, smallest, d);
    var i :| 0 <= i < |es| && es[i] == d;
    forall e | e in K && Visible(e, user, smallest) ensures e in others {
      if e !in others {
        var j :| 0 <= j < |es| && es[j] == e && !Dropped(es, smallest, base, j);
        OlderInputDropped(es, smallest, base, others, i, j);
      }
    }
    ReadNewest(K, user, smallest, o);
  }

  // An input the smallest snapshot sees behind the newest one, or that one itself if it is a marker to be dropped.
  lemma OlderInputDropped(es: seq<Entry>, smallest: nat, base: Bytes -> bool, others: set<Entry>, i: nat, j: nat)
    requires Sorted(es) && i < |es| && j < |es| && es[i].key.kind == Deletion && base(es[i].key.user) && es[i].key.seqno <= smallest
    requires es[j].key.user == es[i].key.user && es[j].key.seqno <= es[i].key.seqno && Coherent(Elems(es) + others)
    ensures Dropped(es, smallest, base, j)
  {
    OlderIsLater(es, others, i, j);
    if i < j {
      OlderIsDropped(es, smallest, base, i, j);
    }
  }

  lemma OlderIsLater(es: seq<Entry>, others: set<Entry>, i: nat, j: nat)
    requires Sorted(es) && i < |es| && j < |es| && Coherent(Elems(es) + others)
    requires es[j].key.user == es[i].key.user && es[j].key.seqno <= es[i].key.seqno
    ensures i <= j
  {
    KeyOrder();
    assert es[i] in Elems(es) + others && es[j] in Elems(es) + others;
  }

  /** In particular, reads stay the same where the rest of the store holds no entry older than an input for a key
      declared to have no deeper data. */
  lemma CompactionPreservesReads(es: seq<Entry>, smallest: nat, base: Bytes -> bool,
                                 others: set<Entry>, user: Bytes, s: nat)
    requires Sorted(es) && Coherent(Elems(es) + others) && smallest <= s
    requires forall e, o :: e in es && o in others && e.key.user == o.key.user && base(e.key.user) ==>
                              o.key.seqno > e.key.seqno
    ensures ReadAt(Elems(Kept(es, smallest, base)) + others, user, s) == ReadAt(Elems(es) + others, user, s)
  {
    SameReads(es, smallest, base, others, user, s);
  }

  lemma NewestValueKept(es: seq<Entry>, smallest: nat, base: Bytes -> bool,
                        others: set<Entry>, user: Bytes, s: nat, e: Entry)
    requires Sorted(es) && Coherent(Elems(es) + others) && smallest <= s
    requires IsNewest(Elems(es) + others, user, s, e) && e.key.kind == Value
    ensures e in Elems(Kept(es, smallest, base)) + others
  {
    KeptMembers(es, smallest, base);
    if e !in others {
      var i :| 0 <= i < |es| && es[i] == e;
      NewestNotShadowed(es, smallest, others, user, s, i);
    }
  }

  lemma NewestNotShadowed(es: seq<Entry>, smallest: nat, others: set<Entry>, user: Bytes, s: nat, i: int)
    requires Sorted(es) && Coherent(Elems(es) + others) && smallest <= s && 0 <= i < |es|
    requires IsNewest(Elems(es) + others, user, s, es[i])
    ensures !(i > 0 && es[i-1].key.user == es[i].key.user && es[i-1].key.seqno <= smallest)
  {
    if i > 0 && es[i-1].key.user == es[i].key.user && es[i-1].key.seqno <= smallest {
      KeyOrder();
      assert KeyLess(es[i-1].key, es[i].key) && es[i-1] in Elems(es) + others && Visible(es[i-1], user, s);
    }
  }

  // A newest entry that was dropped is a deletion marker the smallest snapshot sees, and then no input for its key
  // survives that a reader could see instead.
  lemma DroppedNewest(es: seq<Entry>, smallest: nat, base: Bytes -> bool,
                      others: set<Entry>, user: Bytes, s: nat, n: Entry)
    requires Sorted(es) && Coherent(Elems(es) + others) && smallest <= s
    requires IsNewest(Elems(es) + others, user, s, n)
    requires n !in Elems(Kept(es, smallest, base)) + others
    ensures n in es && n.key.kind == Deletion && n.key.seqno <= smallest && base(n.key.user) && n.key.user == user
    ensures forall e :: e in Elems(Kept(es, smallest, base)) + others && Visible(e, user, s) ==> e in others && e.key.seqno <= n.key.seqno
  {
    KeptMembers(es, smallest, base);
    var i :| 0 <= i < |es| && es[i] == n;
    assert Dropped(es, smallest, base, i);
    NewestNotShadowed(es, smallest, others, user, s, i);
    forall e | e in Elems(Kept(es, smallest, base)) + others && Visible(e, user, s)
      ensures e in others && e.key.seqno <= n.key.seqno
    {
      if e !in others {
        var j :| 0 <= j < |es| && es[j] == e && !Dropped(es, smallest, base, j);
        assert e in Elems(es) + others;
        OlderInputDropped(es, smallest, base, others, i, j);
      }
    }
  }
}
