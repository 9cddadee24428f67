/** A cache shard: reference counts, the list of entries in use, the list of the others from oldest to
    newest, and eviction (util/cache.cc). */
module LruCache {
  import opened Keys
  import opened HandleTables

  ghost predicate Distinct(list: seq<Handle>) {
    forall i, j :: 0 <= i < j < |list| ==> list[i] != list[j]
  }

  function Charge(list: seq<Handle>): nat {
    if list == [] then 0 else Charge(list[..|list| - 1]) + list[|list| - 1].charge
  }

  lemma {:induction false} ChargeConcat(a: seq<Handle>, b: seq<Handle>)
    ensures Charge(a + b) == Charge(a) + Charge(b)
  {
    if b == [] {
      assert a + b == a;
    } else {
      assert (a + b)[..|a + b| - 1] == a + b[..|b| - 1];
      ChargeConcat(a, b[..|b| - 1]);
    }
  }

  /** A list without one of its entries: what unlinking it leaves. */
  function Without(list: seq<Handle>, e: Handle): seq<Handle> {
    if list == [] then [] else if list[0] == e then list[1..] else [list[0]] + Without(list[1..], e)
  }

  lemma {:induction false} WithoutMembers(list: seq<Handle>, e: Handle)
    requires Distinct(list)
    ensures Distinct(Without(list, e))
    ensures forall h :: h in Without(list, e) <==> h in list && h != e
  {
    if list != [] {
      assert forall i :: 1 <= i < |list| ==> list[0] != list[i];
      assert list[0] !in list[1..];
      if list[0] != e {
        WithoutMembers(list[1..], e);
      }
    }
  }

  lemma {:induction false} WithoutCharge(list: seq<Handle>, e: Handle)
    requires e in list
    ensures Charge(Without(list, e)) + e.charge == Charge(list)
  {
    hide Charge;
    assert [list[0]] + list[1..] == list;
    ChargeConcat([list[0]], list[1..]);
    ChargeOne(list[0]);
    if list[0] != e {
      WithoutCharge(list[1..], e);
      ChargeConcat([list[0]], Without(list[1..], e));
    }
  }

  lemma ChargeOne(h: Handle)
    ensures Charge([h]) == h.charge
  {
    assert [h][..0] == [];
  }

  lemma WithoutHolds(list: seq<Handle>, e: Handle)
    requires Distinct(list)
    ensures Distinct(Without(list, e)) && forall h :: h in Without(list, e) <==> h in list && h != e
    ensures Charge(list) == Charge(Without(list, e)) + if e in list then e.charge else 0
  {
    WithoutMembers(list, e);
    if e in list {
      WithoutCharge(list, e);
    } else {
      WithoutAbsent(list, e);
    }
  }

  lemma {:induction false} WithoutAbsent(list: seq<Handle>, e: Handle)
    requires e !in list
    ensures Without(list, e) == list
  {
    if list != [] {
      WithoutAbsent(list[1..], e);
    }
  }

  lemma AppendHolds(list: seq<Handle>, e: Handle)
    requires Distinct(list) && e !in list
    ensures Distinct(list + [e]) && Charge(list + [e]) == Charge(list) + e.charge
  {
    assert (list + [e])[..|list|] == list;
  }

  // The invariant, part by part.

  /** Each cached entry is on exactly one list: the oldest-to-newest list when only the cache refers to it,
      the other when a client does too. The usage is the sum of the charges of the cached entries. */
  ghost predicate Lists(lru: seq<Handle>, inUse: seq<Handle>, refs: map<Handle, nat>, inCache: set<Handle>, usage: int) {
    && Distinct(lru) && Distinct(inUse)
    && (forall h :: h in lru ==> h in refs && refs[h] == 1 && h in inCache)
    && (forall h :: h in inUse ==> h in refs && refs[h] >= 2 && h in inCache)
    && (forall h :: h in inCache ==> h in lru || h in inUse)
    && usage == Charge(lru) + Charge(inUse)
  }

  /** A reference count counts the handles given out, the cache's own, and those on the point of being dropped. */
  ghost predicate Counts(refs: map<Handle, nat>, inCache: set<Handle>, clients: multiset<Handle>, dropped: multiset<Handle>) {
    && (forall h :: h in refs ==> refs[h] > 0 && refs[h] == clients[h] + dropped[h] + if h in inCache then 1 else 0)
    && (forall h :: h in clients || h in dropped || h in inCache ==> h in refs)
  }

  /** Every entry ever made exists still, or has had its deleter run: once, and after its last use. */
  ghost predicate Lifetimes(refs: map<Handle, nat>, deleted: seq<Handle>, made: seq<Handle>) {
    && Distinct(deleted) && Numbered(made)
    && (forall h :: h in refs || h in deleted ==> h in made)
    && (forall h :: h in made ==> (h in deleted <==> h !in refs))
  }

  ghost predicate Numbered(made: seq<Handle>) {
    forall i :: 0 <= i < |made| ==> made[i].id == i
  }

  // What each change of a reference count does to it.

  lemma ReferenceAdded(lru: seq<Handle>, inUse: seq<Handle>, refs: map<Handle, nat>, inCache: set<Handle>, usage: int, e: Handle)
    requires Lists(lru, inUse, refs, inCache, usage) && e in refs && refs[e] > 0
    ensures var moves := refs[e] == 1 && e in inCache;
            && Lists(if moves then Without(lru, e) else lru, if moves then inUse + [e] else inUse,
                     refs[e := refs[e] + 1], inCache, usage)
            && (!moves ==> Without(lru, e) == lru)
  {
    hide Charge, Distinct;
    WithoutHolds(lru, e);
    if refs[e] == 1 && e in inCache {
      AppendHolds(inUse, e);
    } else {
      assert e !in lru;
      WithoutAbsent(lru, e);
    }
  }

  lemma ReferenceDropped(lru: seq<Handle>, inUse: seq<Handle>, refs: map<Handle, nat>, inCache: set<Handle>, usage: int, e: Handle)
    requires Lists(lru, inUse, refs, inCache, usage) && e in refs && refs[e] >= 2
    requires e in inCache ==> e in inUse
    ensures var moves := refs[e] == 2 && e in inCache;
            Lists(if moves then lru + [e] else lru, if moves then Without(inUse, e) else inUse,
                  refs[e := refs[e] - 1], inCache, usage)
  {
    hide Charge, Distinct;
    WithoutHolds(inUse, e);
    if refs[e] == 2 && e in inCache {
      AppendHolds(lru, e);
    }
  }

  lemma Unlinked(lru: seq<Handle>, inUse: seq<Handle>, refs: map<Handle, nat>, inCache: set<Handle>, usage: int, e: Handle)
    requires Lists(lru, inUse, refs, inCache, usage) && e in inCache
    ensures Lists(Without(lru, e), Without(inUse, e), refs, inCache - {e}, usage - e.charge)
    ensures usage >= e.charge && e in refs
  {
    hide Charge, Distinct;
    WithoutHolds(lru, e);
    WithoutHolds(inUse, e);
  }

  lemma Forgotten(lru: seq<Handle>, inUse: seq<Handle>, refs: map<Handle, nat>, inCache: set<Handle>, usage: int, e: Handle)
    requires Lists(lru, inUse, refs, inCache, usage) && e !in inCache
    ensures Lists(lru, inUse, refs - {e}, inCache, usage)
  {
    hide Charge, Distinct;
  }

  lemma CountAdded(refs: map<Handle, nat>, inCache: set<Handle>, clients: multiset<Handle>, e: Handle)
    requires Counts(refs, inCache, clients, multiset{}) && e in refs
    ensures Counts(refs[e := refs[e] + 1], inCache, clients + multiset{e}, multiset{}) && refs[e] > 0
  {
  }

  lemma CountDropped(refs: map<Handle, nat>, inCache: set<Handle>, clients: multiset<Handle>, e: Handle)
    requires Counts(refs, inCache, clients, multiset{e})
    ensures e in refs && refs[e] >= 1
    ensures refs[e] == 1 ==> e !in inCache && Counts(refs - {e}, inCache, clients, multiset{})
    ensures refs[e] > 1 ==> Counts(refs[e := refs[e] - 1], inCache, clients, multiset{})
    ensures refs[e] > 1 <==> e in clients || e in inCache
  {
  }

  lemma CacheDrops(refs: map<Handle, nat>, inCache: set<Handle>, clients: multiset<Handle>, e: Handle)
    requires Counts(refs, inCache, clients, multiset{}) && e in inCache
    ensures Counts(refs, inCache - {e}, clients, multiset{e})
  {
  }

  lemma ClientDrops(refs: map<Handle, nat>, inCache: set<Handle>, clients: multiset<Handle>, e: Handle)
    requires Counts(refs, inCache, clients, multiset{}) && e in clients
    ensures Counts(refs, inCache, clients - multiset{e}, multiset{e})
    ensures e in refs && (e in inCache ==> refs[e] >= 2)
  {
  }

  lemma EntryDeleted(refs: map<Handle, nat>, deleted: seq<Handle>, made: seq<Handle>, e: Handle)
    requires Lifetimes(refs, deleted, made) && e in refs
    ensures Lifetimes(refs - {e}, deleted + [e], made)
  {
    hide Distinct, Numbered;
    DistinctAppend(deleted, e);
  }

  lemma SameEntries(refs: map<Handle, nat>, deleted: seq<Handle>, made: seq<Handle>, refs': map<Handle, nat>)
    requires Lifetimes(refs, deleted, made) && refs'.Keys == refs.Keys
    ensures Lifetimes(refs', deleted, made)
  {
    hide Distinct, Numbered;
    forall h | h in refs' ensures h in refs {
      assert h in refs'.Keys;
    }
    forall h | h in refs ensures h in refs' {
      assert h in refs.Keys;
    }
  }

  // With two references or more, a cached entry is on the list of those in use.
  lemma InUseListed(lru: seq<Handle>, inUse: seq<Handle>, refs: map<Handle, nat>, inCache: set<Handle>, usage: int, e: Handle)
    requires Lists(lru, inUse, refs, inCache, usage) && e in refs && refs[e] >= 2
    ensures e in inCache ==> e in inUse
  {
  }

  ghost function Members(list: seq<Handle>): set<Handle> {
    set h | h in list
  }

  /** Evicting n entries from the oldest on, and no more than needed to bring the usage down to the capacity. */
  ghost predicate Evicts(before: seq<Handle>, usageBefore: int, capacity: nat, n: nat, lru: seq<Handle>, usage: int) {
    && n <= |before| && lru == before[n..] && usage == usageBefore - Charge(before[..n])
    && (forall k :: 0 <= k < n ==> usageBefore - Charge(before[..k]) > capacity)
  }

  class LRUCache {
    var capacity: nat
    var usage: nat
    // From the oldest to the newest.
    var lru: seq<Handle>
    var inUse: seq<Handle>
    const table: HandleTable
    // The reference counts of the entries that exist, and those of them the cache itself refers to.
    var refs: map<Handle, nat>
    var inCache: set<Handle>
    var nextId: nat
    // The entries whose deleter has run, in order.
    var deleted: seq<Handle>
    // The handles given out and not released yet.
    ghost var clients: multiset<Handle>
    // Every entry there ever was, each at its number.
    ghost var made: seq<Handle>

    ghost predicate Entries(dropped: multiset<Handle>)
      reads this
    {
      && Lists(lru, inUse, refs, inCache, usage)
      && Counts(refs, inCache, clients, dropped)
      && Lifetimes(refs, deleted, made) && nextId == |made|
    }

    ghost predicate Valid()
      reads this, table
    {
      Entries(multiset{}) && table.Valid() && table.members == inCache
    }

    constructor (capacity: nat)
      ensures Valid() && fresh(table) && this.capacity == capacity
      ensures inCache == {} && clients == multiset{} && deleted == [] && made == [] && lru == [] && usage == 0
    {
      this.capacity := capacity;
      usage, lru, inUse, refs, inCache, nextId, deleted := 0, [], [], map[], {}, 0, [];
      clients, made := multiset{}, [];
      table := new HandleTable();
    }

    /** A client takes a reference; an entry that had none leaves the list of those that may be evicted. */
    method Ref(e: Handle)
      requires Entries(multiset{}) && e in refs
      modifies this`lru, this`inUse, this`refs, this`clients
      ensures Entries(multiset{}) && clients == old(clients) + multiset{e}
      ensures lru == Without(old(lru), e) && refs.Keys == old(refs.Keys)
    {
      hide Lists, Counts, Lifetimes;
      CountAdded(refs, inCache, clients, e);
      ReferenceAdded(lru, inUse, refs, inCache, usage, e);
      SameEntries(refs, deleted, made, refs[e := refs[e] + 1]);
      if refs[e] == 1 && e in inCache {
        lru := Without(lru, e);
        inUse := inUse + [e];
      }
      refs := refs[e := refs[e] + 1];
      clients := clients + multiset{e};
    }

    /** A reference goes; with the last one goes the entry, and an entry only the cache refers to becomes the
        newest of those that may be evicted. */
    method Unref(e: Handle)
      requires Entries(multiset{e})
      modifies this`lru, this`inUse, this`refs, this`deleted
      ensures Entries(multiset{}) && e in old(refs)
      ensures deleted == old(deleted) + if e in refs then [] else [e]
      ensures e in refs <==> e in clients || e in inCache
      ensures lru == old(lru) + if e in inCache && old(refs)[e] == 2 then [e] else []
    {
      hide Lists, Counts, Lifetimes;
      CountDropped(refs, inCache, clients, e);
      if refs[e] == 1 {
        Forgotten(lru, inUse, refs, inCache, usage, e);
        EntryDeleted(refs, deleted, made, e);
        refs := refs - {e};
        deleted := deleted + [e];
      } else {
        InUseListed(lru, inUse, refs, inCache, usage, e);
        ReferenceDropped(lru, inUse, refs, inCache, usage, e);
        SameEntries(refs, deleted, made, refs[e := refs[e] - 1]);
        refs := refs[e := refs[e] - 1];
        if e in inCache && refs[e] == 1 {
          inUse := Without(inUse, e);
          lru := lru + [e];
        }
      }
    }

    method Lookup(key: Bytes, hash: nat) returns (r: Option<Handle>)
      requires Valid()
      modifies this`lru, this`inUse, this`refs, this`clients
      ensures Valid() && Finds(inCache, key, hash, r)
      ensures clients == old(clients) + if r.Some? then multiset{r.value} else multiset{}
      ensures lru == if r.Some? then Without(old(lru), r.value) else old(lru)
    {
      hide Lists, Lifetimes;
      r := table.Lookup(key, hash);
      if r.Some? {
        Ref(r.value);
      }
    }

    method Release(e: Handle)
      requires Valid() && e in clients
      modifies this`lru, this`inUse, this`refs, this`deleted, this`clients
      ensures Valid() && clients == old(clients) - multiset{e} && e in old(refs)
      ensures lru == old(lru) + if e in inCache && old(refs)[e] == 2 then [e] else []
      ensures deleted == old(deleted) + if e in clients || e in inCache then [] else [e]
    {
      hide Lists, Counts, Lifetimes;
      ClientDrops(refs, inCache, clients, e);
      clients := clients - multiset{e};
      Unref(e);
    }

    /** The cache drops an entry that is no longer in the hash table. */
    method FinishErase(e: Handle)
      requires Entries(multiset{}) && e in inCache
      modifies this`lru, this`inUse, this`refs, this`deleted, this`inCache, this`usage
      ensures Entries(multiset{}) && inCache == old(inCache) - {e}
      ensures lru == Without(old(lru), e) && usage == old(usage) - e.charge
      ensures deleted == old(deleted) + Unheld(Some(e), old(clients))
    {
      hide Lists, Counts, Lifetimes;
      CacheDrops(refs, inCache, clients, e);
      Unlinked(lru, inUse, refs, inCache, usage, e);
      lru := Without(lru, e);
      inUse := Without(inUse, e);
      inCache := inCache - {e};
      usage := usage - e.charge;
      Unref(e);
    }

    /** The entry with the key leaves the cache; its deleter runs at once unless a client holds it. */
    method Erase(key: Bytes, hash: nat) returns (ghost erased: Option<Handle>)
      requires Valid()
      modifies this`lru, this`inUse, this`refs, this`deleted, this`inCache, this`usage, table
      ensures Valid()
      ensures Finds(old(inCache), key, hash, erased) && inCache == old(inCache) - Optional(erased)
      ensures forall h :: h in inCache <==> h in old(inCache) && !HasKey(h, key, hash)
      ensures deleted == old(deleted) + Unheld(erased, clients)
      ensures lru == (if erased.Some? then Without(old(lru), erased.value) else old(lru))
      ensures usage == old(usage) - if erased.Some? then erased.value.charge else 0
    {
      OneCachedForKey(key, hash);
      hide Lists, Counts, Lifetimes, HandleTable.Valid, HasKey, Charge, Without, OneWithKey, Unheld;
      NothingUnheld(deleted, clients);
      ghost var cached := inCache;
      var r := table.Remove(key, hash);
      AllWithKey(cached, key, hash, r);
      hide Finds;
      if r.Some? {
        FinishErase(r.value);
      }
      erased := r;
    }

    lemma AllWithKey(cached: set<Handle>, key: Bytes, hash: nat, r: Option<Handle>)
      requires Finds(cached, key, hash, r)
      requires OneWithKey(cached, key, hash)
      ensures forall h :: h in cached - Optional(r) <==> h in cached && !HasKey(h, key, hash)
      ensures r.Some? ==> r.value in cached
    {
      hide HasKey;
    }

    /** The deleter of an entry has run, and has run once, exactly when neither the cache nor a client has it. */
    lemma DeletedExactlyOnce()
      requires Valid()
      ensures forall h :: h in made ==> (h in deleted <==> h !in inCache && h !in clients)
      ensures forall h :: multiset(deleted)[h] <= 1
      ensures forall h :: h in deleted || h in inCache || h in clients ==> h in made
    {
      hide Lists;
      OnceEach(deleted);
    }

    /** The end of the cache, when the clients have released all they had: every deleter has run, each once. */
    method Close()
      requires Valid() && clients == multiset{}
      modifies this`lru, this`inUse, this`refs, this`deleted, this`inCache, this`usage
      ensures deleted == old(deleted) + old(lru)
      ensures multiset(deleted) == multiset(made)
    {
      hide Lists, Counts, Lifetimes, Charge, Members;
      ghost var n := 0;
      NothingGone(inCache, deleted, lru);
      while lru != []
        invariant Entries(multiset{}) && n <= |old(lru)| && lru == old(lru)[n..]
        invariant deleted == old(deleted) + old(lru)[..n]
        decreases |lru|
      {
        OldestUnused(lru, inUse, refs, inCache, usage, clients);
        OneMoreGone(old(inCache), old(deleted), old(lru), n);
        FinishErase(lru[0]);
        n := n + 1;
      }
      assert old(lru)[..n] == old(lru);
      NothingLeft(inUse, refs, inCache, usage, clients, deleted, made);
    }

    lemma OneCachedForKey(key: Bytes, hash: nat)
      requires Valid()
      ensures OneWithKey(inCache, key, hash)
    {
      forall g, h | g in inCache && h in inCache && HasKey(g, key, hash) && HasKey(h, key, hash) ensures g == h {
        OneForKey(table.list, table.members, g, h);
      }
    }

    // The eviction loop of Insert.
    method Evict() returns (ghost n: nat)
      requires Valid()
      modifies this`lru, this`inUse, this`refs, this`deleted, this`inCache, this`usage, table
      ensures Valid() && Evicts(old(lru), old(usage), capacity, n, lru, usage) && (usage <= capacity || lru == [])
      ensures inCache == old(inCache) - Members(old(lru)[..n])
      ensures deleted == old(deleted) + old(lru)[..n]
    {
      hide Lists, Counts, Lifetimes, Charge, Evicts, Members, HandleTable.Valid;
      ghost var before, usageBefore, cached, gone := lru, usage, inCache, deleted;
      n := 0;
      NothingEvicted(lru, usage, capacity);
      NothingGone(inCache, deleted, lru);
      while usage > capacity && lru != []
        invariant Valid() && n <= |before|
        invariant Evicts(before, usageBefore, capacity, n, lru, usage)
        invariant inCache == cached - Members(before[..n])
        invariant deleted == gone + before[..n]
        decreases |lru|
      {
        OneMoreEvicted(before, usageBefore, capacity, n, lru, usage);
        OneMoreGone(cached, gone, before, n);
        EvictOldest();
        n := n + 1;
      }
    }

    method EvictOldest()
      requires Valid() && lru != []
      modifies this`lru, this`inUse, this`refs, this`deleted, this`inCache, this`usage, table
      ensures Valid() && lru == old(lru)[1..] && usage == old(usage) - old(lru)[0].charge
      ensures inCache == old(inCache) - {old(lru)[0]} && deleted == old(deleted) + [old(lru)[0]]
    {
      var oldest := lru[0];
      OldestUnused(lru, inUse, refs, inCache, usage, clients);
      hide Lists, Counts, Lifetimes;
      OneCachedForKey(oldest.key, oldest.hash);
      assert HasKey(oldest, oldest.key, oldest.hash);
      var r := table.Remove(oldest.key, oldest.hash);
      assert r == Some(oldest);
      FinishErase(oldest);
    }

    /** Prune: every entry no client refers to goes. */
    method Prune()
      requires Valid()
      modifies this`lru, this`inUse, this`refs, this`deleted, this`inCache, this`usage, table
      ensures Valid() && lru == []
      ensures inCache == old(inCache) - Members(old(lru))
      ensures deleted == old(deleted) + old(lru)
    {
      hide Lists, Counts, Lifetimes, Charge, Members;
      ghost var n := 0;
      NothingGone(inCache, deleted, lru);
      while lru != []
        invariant Valid() && n <= |old(lru)| && lru == old(lru)[n..]
        invariant inCache == old(inCache) - Members(old(lru)[..n])
        invariant deleted == old(deleted) + old(lru)[..n]
        decreases |lru|
      {
        OneMoreGone(old(inCache), old(deleted), old(lru), n);
        EvictOldest();
        n := n + 1;
      }
      assert old(lru)[..n] == old(lru);
    }

    // The new entry joins the lists and the table, and the one with its key leaves them.
    method Attach(e: Handle) returns (displaced: Option<Handle>)
      requires Valid() && e.id == nextId
      modifies this`lru, this`inUse, this`refs, this`deleted, this`inCache, this`usage, this`nextId, this`clients, this`made, table
      ensures Valid() && clients == old(clients) + multiset{e}
      ensures made == old(made) + [e] && deleted == old(deleted) + Unheld(displaced, old(clients))
      ensures if capacity == 0 then displaced == None else Finds(old(inCache), e.key, e.hash, displaced)
      ensures lru == if displaced.Some? then Without(old(lru), displaced.value) else old(lru)
      ensures usage == old(usage) + (if capacity == 0 then 0 else e.charge) - if displaced.Some? then displaced.value.charge else 0
      ensures inCache == old(inCache) - Optional(displaced) + if capacity == 0 then {} else {e}
    {
      hide Lists, Counts, Lifetimes, Evicts, Members, HandleTable.Valid, Without, Charge, HasKey;
      displaced := None;
      Enlist(e);
      if capacity > 0 {
        displaced := table.Insert(e);
        if displaced.Some? {
          FinishErase(displaced.value);
        }
      }
    }

    // The new entry, with a reference for the client and one for the cache if it may hold anything.
    method Enlist(e: Handle)
      requires Entries(multiset{}) && e.id == nextId
      modifies this`inUse, this`refs, this`inCache, this`usage, this`nextId, this`clients, this`made
      ensures Entries(multiset{}) && clients == old(clients) + multiset{e} && made == old(made) + [e]
      ensures e !in old(inCache) && inCache == old(inCache) + if capacity == 0 then {} else {e}
      ensures usage == old(usage) + if capacity == 0 then 0 else e.charge
    {
      hide Lists, Counts, Lifetimes;
      EntryAdded(lru, inUse, refs, inCache, usage, clients, deleted, made, e, capacity > 0);
      if capacity > 0 {
        refs := refs[e := 2];
        inCache := inCache + {e};
        inUse := inUse + [e];
        usage := usage + e.charge;
      } else {
        refs := refs[e := 1];
      }
      nextId, clients, made := nextId + 1, clients + multiset{e}, made + [e];
    }

    /** A new entry, cached if the cache may hold anything: it takes the place of the one with its key, and the
        oldest entries nobody uses make room for it. */
    method Insert(key: Bytes, hash: nat, charge: nat) returns (e: Handle, ghost displaced: Option<Handle>, ghost n: nat)
      requires Valid()
      modifies this`lru, this`inUse, this`refs, this`deleted, this`inCache, this`usage, this`nextId, this`clients, this`made, table
      ensures Valid() && HasKey(e, key, hash) && e.charge == charge
      ensures clients == old(clients) + multiset{e} && made == old(made) + [e] && e !in old(made)
      ensures usage <= capacity || lru == []
      ensures if capacity == 0 then displaced == None else Finds(old(inCache), key, hash, displaced)
      ensures Replaced(old(lru), old(usage), old(inCache), capacity, e, displaced, n, lru, usage, inCache)
      ensures deleted == old(deleted) + Unheld(displaced, old(clients)) + Remaining(old(lru), displaced)[..n]
    {
      hide Lists, Counts, Lifetimes, Evicts, Members, HandleTable.Valid;
      e := Handle(nextId, key, hash, charge);
      NewIds(refs, deleted, made, e);
      displaced := Attach(e);
      ghost var list, used := lru, usage;
      n := Evict();
      EvictsSome(list, used, capacity, n, lru, usage);
    }
  }

  lemma EvictsSome(before: seq<Handle>, usageBefore: int, capacity: nat, n: nat, lru: seq<Handle>, usage: int)
    requires Evicts(before, usageBefore, capacity, n, lru, usage)
    ensures n <= |before|
  {
  }

  /** The effect of an insertion: the entry displaced goes, the new one comes, and then the oldest unused ones go. */
  ghost predicate Replaced(lru: seq<Handle>, usage: int, inCache: set<Handle>, capacity: nat, e: Handle,
                           displaced: Option<Handle>, n: nat, lru': seq<Handle>, usage': int, inCache': set<Handle>) {
    var list := Remaining(lru, displaced);
    var freed := if displaced.Some? then displaced.value.charge else 0;
    && n <= |list|
    && Evicts(list, usage - freed + if capacity == 0 then 0 else e.charge, capacity, n, lru', usage')
    && inCache' == inCache - Optional(displaced) + (if capacity == 0 then {} else {e}) - Members(list[..n])
  }

  // The list without the entry displaced.
  function Remaining(lru: seq<Handle>, displaced: Option<Handle>): seq<Handle> {
    if displaced.Some? then Without(lru, displaced.value) else lru
  }

  // An entry the cache has dropped goes at once when no client holds it.
  ghost function Unheld(r: Option<Handle>, clients: multiset<Handle>): seq<Handle> {
    if r.Some? && r.value !in clients then [r.value] else []
  }

  lemma NothingUnheld(deleted: seq<Handle>, clients: multiset<Handle>)
    ensures deleted + Unheld(None, clients) == deleted
  {
  }

  lemma {:induction false} OnceEach(list: seq<Handle>)
    requires Distinct(list)
    ensures forall h :: multiset(list)[h] == if h in list then 1 else 0
  {
    if list != [] {
      var n := |list| - 1;
      OnceEach(list[..n]);
      assert list == list[..n] + [list[n]];
      assert list[n] !in list[..n];
    }
  }

  lemma NothingLeft(inUse: seq<Handle>, refs: map<Handle, nat>, inCache: set<Handle>, usage: int, clients: multiset<Handle>,
                    deleted: seq<Handle>, made: seq<Handle>)
    requires Lists([], inUse, refs, inCache, usage) && Counts(refs, inCache, clients, multiset{}) && Lifetimes(refs, deleted, made)
    requires clients == multiset{}
    ensures multiset(deleted) == multiset(made)
  {
    assert inUse == [] || inUse[0] in inUse;
    assert forall h :: h !in refs;
    OnceEach(deleted);
    OnceEach(made);
    forall h ensures multiset(deleted)[h] == multiset(made)[h] {
      assert h in made <==> h in deleted;
    }
  }

  ghost predicate OneWithKey(cached: set<Handle>, key: Bytes, hash: nat) {
    forall g, h :: g in cached && h in cached && HasKey(g, key, hash) && HasKey(h, key, hash) ==> g == h
  }

  function Optional(r: Option<Handle>): set<Handle> {
    if r.Some? then {r.value} else {}
  }

  /** A new entry, with the cache's reference or without. */
  lemma EntryAdded(lru: seq<Handle>, inUse: seq<Handle>, refs: map<Handle, nat>, inCache: set<Handle>, usage: int,
                   clients: multiset<Handle>, deleted: seq<Handle>, made: seq<Handle>, e: Handle, cached: bool)
    requires Lists(lru, inUse, refs, inCache, usage) && Counts(refs, inCache, clients, multiset{})
    requires Lifetimes(refs, deleted, made) && e.id == |made|
    ensures e !in inCache
    ensures Lists(lru, if cached then inUse + [e] else inUse, refs[e := if cached then 2 else 1],
                  if cached then inCache + {e} else inCache, if cached then usage + e.charge else usage)
    ensures Counts(refs[e := if cached then 2 else 1], if cached then inCache + {e} else inCache, clients + multiset{e}, multiset{})
    ensures Lifetimes(refs[e := if cached then 2 else 1], deleted, made + [e])
  {
    hide Charge, Distinct;
    NewIds(refs, deleted, made, e);
    assert e !in inUse;
    AppendHolds(inUse, e);
  }

  lemma NewIds(refs: map<Handle, nat>, deleted: seq<Handle>, made: seq<Handle>, e: Handle)
    requires Lifetimes(refs, deleted, made) && e.id == |made|
    ensures e !in made && e !in refs && e !in deleted
  {
  }

  lemma NothingEvicted(lru: seq<Handle>, usage: int, capacity: nat)
    ensures Evicts(lru, usage, capacity, 0, lru, usage)
  {
  }

  // What going one entry further down the list takes from the cached entries and adds to the deleted ones.
  lemma OneMoreGone(cached: set<Handle>, deleted: seq<Handle>, before: seq<Handle>, n: nat)
    requires n < |before|
    ensures cached - Members(before[..n]) - {before[n]} == cached - Members(before[..n + 1])
    ensures deleted + before[..n] + [before[n]] == deleted + before[..n + 1]
    ensures before[n..] != [] && before[n..][0] == before[n] && before[n..][1..] == before[n + 1..]
  {
    assert before[..n + 1] == before[..n] + [before[n]];
  }

  lemma NothingGone(cached: set<Handle>, deleted: seq<Handle>, before: seq<Handle>)
    ensures cached - Members(before[..0]) == cached && deleted + before[..0] == deleted && before[0..] == before
  {
  }

  lemma OneMoreEvicted(before: seq<Handle>, usageBefore: int, capacity: nat, n: nat, lru: seq<Handle>, usage: int)
    requires Evicts(before, usageBefore, capacity, n, lru, usage) && lru != [] && usage > capacity
    ensures n < |before| && lru[0] == before[n]
    ensures Evicts(before, usageBefore, capacity, n + 1, lru[1..], usage - lru[0].charge)
  {
    assert before[..n + 1][..n] == before[..n];
  }

  /** The oldest entry on the list may go: nobody refers to it but the cache. */
  lemma OldestUnused(lru: seq<Handle>, inUse: seq<Handle>, refs: map<Handle, nat>, inCache: set<Handle>, usage: int, clients: multiset<Handle>)
    requires Lists(lru, inUse, refs, inCache, usage) && Counts(refs, inCache, clients, multiset{}) && lru != []
    ensures lru[0] in inCache && lru[0] !in clients && Without(lru, lru[0]) == lru[1..]
  {
    assert lru[0] in lru;
  }

  lemma DistinctAppend(list: seq<Handle>, e: Handle)
    requires Distinct(list) && e !in list
    ensures Distinct(list + [e])
  {
  }
}
