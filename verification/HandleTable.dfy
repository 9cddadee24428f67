/** The hash table of a cache: chained buckets that are resized as entries come, against the plain set of
    entries it holds (util/cache.cc). */
module HandleTables {
  import opened Keys

  /** A cache entry, as the pointer to it: what never changes about it, and a number that tells it from all others. */
  datatype Handle = Handle(id: nat, key: Bytes, hash: nat, charge: nat)

  predicate SameKey(g: Handle, h: Handle) {
    g.hash == h.hash && g.key == h.key
  }

  predicate HasKey(h: Handle, key: Bytes, hash: nat) {
    h.hash == hash && h.key == key
  }

  predicate PowerOfTwo(n: nat)
  {
    n == 1 || (n > 0 && n % 2 == 0 && PowerOfTwo(n / 2))
  }

  type Buckets = seq<seq<Handle>>

  ghost predicate DistinctKeys(chain: seq<Handle>) {
    forall i, j :: 0 <= i < j < |chain| ==> !SameKey(chain[i], chain[j])
  }

  /** Every entry is in the bucket its hash selects, once, and in no other. */
  ghost predicate Holds(list: Buckets, members: set<Handle>) {
    && |list| > 0
    && (forall i :: 0 <= i < |list| ==> DistinctKeys(list[i]))
    && (forall i, h :: 0 <= i < |list| && h in list[i] ==> h in members && h.hash % |list| == i)
    && (forall h :: h in members ==> h in list[h.hash % |list|])
  }

  // The position of an entry in a chain, or the end of it.
  method FindPointer(chain: seq<Handle>, key: Bytes, hash: nat) returns (at: nat)
    ensures at <= |chain| && (at < |chain| ==> HasKey(chain[at], key, hash))
    ensures forall i :: 0 <= i < at ==> !HasKey(chain[i], key, hash)
  {
    at := 0;
    while at < |chain| && (chain[at].hash != hash || key != chain[at].key)
      invariant at <= |chain|
      invariant forall i :: 0 <= i < at ==> !HasKey(chain[i], key, hash)
    {
      at := at + 1;
    }
  }

  /** The entry with a key, if any. */
  ghost predicate Finds(members: set<Handle>, key: Bytes, hash: nat, r: Option<Handle>) {
    match r
    case None => forall h :: h in members ==> !HasKey(h, key, hash)
    case Some(h) => h in members && HasKey(h, key, hash)
  }

  lemma FoundInChain(list: Buckets, members: set<Handle>, key: Bytes, hash: nat, at: nat)
    requires Holds(list, members)
    requires var chain := list[hash % |list|];
             && at <= |chain| && (at < |chain| ==> HasKey(chain[at], key, hash))
             && forall i :: 0 <= i < at ==> !HasKey(chain[i], key, hash)
    ensures var chain := list[hash % |list|];
            Finds(members, key, hash, if at < |chain| then Some(chain[at]) else None)
  {
    var chain := list[hash % |list|];
    if at < |chain| {
      assert chain[at] in chain;
    } else {
      forall h | h in members ensures !HasKey(h, key, hash) {
        if h.hash == hash {
          assert h in chain;
        }
      }
    }
  }

  /** A table never holds two entries with one key. */
  lemma OneForKey(list: Buckets, members: set<Handle>, g: Handle, h: Handle)
    requires Holds(list, members) && g in members && h in members && SameKey(g, h)
    ensures g == h
  {
    var chain := list[g.hash % |list|];
    assert g in chain && h in chain;
    var i :| 0 <= i < |chain| && chain[i] == g;
    var j :| 0 <= j < |chain| && chain[j] == h;
    assert forall a, b :: 0 <= a < b < |chain| ==> !SameKey(chain[a], chain[b]);
  }

  // Replacing one bucket.

  lemma BucketReplaced(list: Buckets, members: set<Handle>, b: nat, chain: seq<Handle>, members': set<Handle>)
    requires Holds(list, members) && b < |list|
    requires DistinctKeys(chain)
    requires forall h: Handle :: h in chain <==> h in members' && h.hash % |list| == b
    requires forall h: Handle :: h.hash % |list| != b ==> (h in members <==> h in members')
    ensures Holds(list[b := chain], members')
  {
    hide DistinctKeys;
    var list' := list[b := chain];
    forall i, h | 0 <= i < |list'| && h in list'[i] ensures h in members' && h.hash % |list'| == i {
      if i != b {
        assert h in list[i];
      }
    }
  }

  class HandleTable {
    var elems: nat
    var list: Buckets
    ghost var members: set<Handle>

    ghost predicate Valid()
      reads this
    {
      Holds(list, members) && elems == |members| && PowerOfTwo(|list|) && elems <= |list|
    }

    constructor ()
      ensures Valid() && members == {}
    {
      elems := 0;
      list := [[], [], [], []];
      members := {};
    }

    method Lookup(key: Bytes, hash: nat) returns (r: Option<Handle>)
      requires Valid()
      ensures Finds(members, key, hash, r)
    {
      hide Holds;
      HasBuckets(list, members);
      var chain := list[hash % |list|];
      var at := FindPointer(chain, key, hash);
      FoundInChain(list, members, key, hash, at);
      r := if at < |chain| then Some(chain[at]) else None;
    }

    /** The new entry takes the place of the one with its key, which is handed back. */
    method Insert(h: Handle) returns (old_: Option<Handle>)
      requires Valid() && h !in members
      modifies this
      ensures Valid()
      ensures Finds(old(members), h.key, h.hash, old_)
      ensures members == old(members) - (if old_.Some? then {old_.value} else {}) + {h}
    {
      hide Holds;
      HasBuckets(list, members);
      var b := h.hash % |list|;
      var chain := list[b];
      var at := FindPointer(chain, h.key, h.hash);
      FoundInChain(list, members, h.key, h.hash, at);
      old_ := if at < |chain| then Some(chain[at]) else None;
      InsertHolds(list, members, h, at);
      list := list[b := chain[..at] + [h] + if at < |chain| then chain[at + 1..] else []];
      members := members - (if old_.Some? then {old_.value} else {}) + {h};
      if old_.None? {
        elems := elems + 1;
        if elems > |list| {
          Resize();
        }
      }
    }

    method Remove(key: Bytes, hash: nat) returns (r: Option<Handle>)
      requires Valid()
      modifies this
      ensures Valid()
      ensures Finds(old(members), key, hash, r)
      ensures members == old(members) - if r.Some? then {r.value} else {}
    {
      hide Holds;
      HasBuckets(list, members);
      var b := hash % |list|;
      var chain := list[b];
      var at := FindPointer(chain, key, hash);
      FoundInChain(list, members, key, hash, at);
      r := None;
      if at < |chain| {
        r := Some(chain[at]);
        RemoveHolds(list, members, b, at);
        list := list[b := chain[..at] + chain[at + 1..]];
        members := members - {chain[at]};
        elems := elems - 1;
      }
    }

    /** At least as many buckets as entries, and every entry moved to its new bucket. */
    method Resize()
      requires Holds(list, members) && elems == |members|
      modifies this
      ensures Valid() && members == old(members) && |list| >= elems
    {
      hide Holds;
      HasBuckets(list, members);
      var newLength := 4;
      assert PowerOfTwo(1) && PowerOfTwo(2) && PowerOfTwo(4);
      while newLength < elems
        invariant newLength > 0 && PowerOfTwo(newLength)
        decreases elems - newLength
      {
        assert newLength * 2 / 2 == newLength;
        newLength := newLength * 2;
      }
      var newList: Buckets := seq(newLength, _ => []);
      ghost var moved: set<Handle> := {};
      var count := 0;
      var source := list;
      NothingMoved(newList);
      for i := 0 to |source|
        invariant |newList| == newLength && unchanged(this) && Holds(newList, moved) && count == |moved|
        invariant forall h :: h in moved <==> h in members && h.hash % |source| < i
      {
        ghost var before := moved;
        for j := 0 to |source[i]|
          invariant |newList| == newLength && unchanged(this) && Holds(newList, moved) && count == |moved|
          invariant forall h :: h in moved <==> h in before || h in source[i][..j]
        {
          var h := source[i][j];
          NotMovedYet(source, members, i, j, before, moved);
          MoveHolds(newList, moved, h);
          newList := newList[h.hash % newLength := [h] + newList[h.hash % newLength]];
          moved := moved + {h};
          count := count + 1;
        }
        BucketMoved(source, members, i, before, moved);
      }
      assert forall h :: h in members ==> h.hash % |source| < |source|;
      assert moved == members;
      assert elems == count;
      list := newList;
    }
  }

  lemma NothingMoved(list: Buckets)
    requires |list| > 0 && forall i :: 0 <= i < |list| ==> list[i] == []
    ensures Holds(list, {})
  {
  }

  // The next entry of a bucket has no entry with its key among those moved before it.
  lemma NotMovedYet(list: Buckets, members: set<Handle>, i: nat, j: nat, before: set<Handle>, moved: set<Handle>)
    requires Holds(list, members) && i < |list| && j < |list[i]|
    requires forall h :: h in before <==> h in members && h.hash % |list| < i
    requires forall h :: h in moved <==> h in before || h in list[i][..j]
    ensures list[i][j] in members && list[i][j] !in moved && forall h :: h in moved ==> !SameKey(h, list[i][j])
    ensures forall h :: h in list[i][..j + 1] <==> h in list[i][..j] || h == list[i][j]
  {
    var h := list[i][j];
    assert h in list[i] && DistinctKeys(list[i]);
    forall g | g in moved ensures !SameKey(g, h) {
      if g in list[i][..j] {
        var k :| 0 <= k < j && list[i][k] == g;
      }
    }
  }

  lemma MoveHolds(list: Buckets, moved: set<Handle>, h: Handle)
    requires Holds(list, moved) && h !in moved && forall g :: g in moved ==> !SameKey(g, h)
    ensures Holds(list[h.hash % |list| := [h] + list[h.hash % |list|]], moved + {h})
  {
    var b := h.hash % |list|;
    var chain := list[b];
    assert DistinctKeys(chain);
    forall i | 0 <= i < |chain| ensures !SameKey(h, chain[i]) {
      assert chain[i] in chain;
    }
    BucketReplaced(list, moved, b, [h] + chain, moved + {h});
  }

  lemma BucketMoved(list: Buckets, members: set<Handle>, i: nat, before: set<Handle>, moved: set<Handle>)
    requires Holds(list, members) && i < |list|
    requires forall h :: h in before <==> h in members && h.hash % |list| < i
    requires forall h :: h in moved <==> h in before || h in list[i]
    ensures forall h :: h in moved <==> h in members && h.hash % |list| < i + 1
  {
  }

  lemma HasBuckets(list: Buckets, members: set<Handle>)
    requires Holds(list, members)
    ensures |list| > 0
  {
  }

  lemma InsertHolds(list: Buckets, members: set<Handle>, h: Handle, at: nat)
    requires Holds(list, members) && h !in members
    requires var chain := list[h.hash % |list|];
             && at <= |chain| && (at < |chain| ==> HasKey(chain[at], h.key, h.hash))
             && forall i :: 0 <= i < at ==> !HasKey(chain[i], h.key, h.hash)
    ensures var b := h.hash % |list|;
            var chain := list[b];
            Holds(list[b := chain[..at] + [h] + if at < |chain| then chain[at + 1..] else []],
                  members - (if at < |chain| then {chain[at]} else {}) + {h})
  {
    var b := h.hash % |list|;
    var chain := list[b];
    var rest := if at < |chain| then chain[at + 1..] else [];
    var chain' := chain[..at] + [h] + rest;
    var members' := members - (if at < |chain| then {chain[at]} else {}) + {h};
    assert DistinctKeys(chain);
    InsertedDistinct(chain, h, at);
    hide DistinctKeys;
    if at < |chain| {
      assert chain == chain[..at] + [chain[at]] + rest;
      OthersInChain(chain, at);
    } else {
      assert chain == chain[..at] + rest;
    }
    BucketReplaced(list, members, b, chain', members');
  }

  lemma InsertedDistinct(chain: seq<Handle>, h: Handle, at: nat)
    requires DistinctKeys(chain) && at <= |chain| && (at < |chain| ==> SameKey(chain[at], h))
    requires forall i :: 0 <= i < at ==> !SameKey(chain[i], h)
    ensures DistinctKeys(chain[..at] + [h] + if at < |chain| then chain[at + 1..] else [])
  {
    if at < |chain| {
      assert forall i :: at < i < |chain| ==> !SameKey(chain[at], chain[i]);
    }
  }

  // An entry is in its chain once.
  lemma OthersInChain(chain: seq<Handle>, at: nat)
    requires DistinctKeys(chain) && at < |chain|
    ensures forall g :: g in chain[..at] + chain[at + 1..] <==> g in chain && g != chain[at]
  {
    assert chain == chain[..at] + [chain[at]] + chain[at + 1..];
  }

  lemma RemoveHolds(list: Buckets, members: set<Handle>, b: nat, at: nat)
    requires Holds(list, members) && b < |list| && at < |list[b]|
    ensures Holds(list[b := list[b][..at] + list[b][at + 1..]], members - {list[b][at]})
    ensures list[b][at] in members
  {
    var chain := list[b];
    var chain' := chain[..at] + chain[at + 1..];
    assert DistinctKeys(chain) && chain[at] in chain;
    OthersInChain(chain, at);
    BucketReplaced(list, members, b, chain', members - {chain[at]});
  }
}
