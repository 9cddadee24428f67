/** Iterating over the database: the children that are merged, and what the iterator over the merge shows
    (db/db_impl.cc, db/version_set.cc). */
module DbScan {
  import opened Keys
  import opened Contents
  import opened Versions
  import opened Compactions
  import opened VersionBuilder
  import opened Merger
  import opened Store
  import opened StoreCompaction
  import opened StoreRuns
  import opened DbImpl
  import DbIter

  // The children: the memtables, one for each file of level 0, and one for each deeper level that has files.

  function Level0Lists(files: seq<File>): seq<seq<Entry>> {
    seq(|files|, i requires 0 <= i < |files| => files[i].entries)
  }

  function DeeperLists(levels: Levels, l: nat): seq<seq<Entry>>
    requires l <= |levels|
    decreases |levels| - l
  {
    if l == |levels| then [] else
    (if levels[l] == [] then [] else [Flatten(levels[l])]) + DeeperLists(levels, l + 1)
  }

  function Children(db: Db): seq<seq<Entry>>
    requires |db.levels| == NUM_LEVELS
  {
    [db.mem] + (if db.imm.Some? then [db.imm.value] else []) + Level0Lists(db.levels[0]) + DeeperLists(db.levels, 1)
  }

  ghost function Union(lists: seq<seq<Entry>>): set<Entry> {
    set i, e | 0 <= i < |lists| && e in lists[i] :: e
  }

  lemma JoinDistinct(A: seq<seq<Entry>>, B: seq<seq<Entry>>)
    requires DistinctLists(A) && DistinctLists(B) && Newer(Union(A), Union(B))
    ensures DistinctLists(A + B) && Union(A + B) == Union(A) + Union(B)
  {
    UnionJoins(A, B);
    hide Sorted;
    var lists := A + B;
    forall i, j | 0 <= i < j < |lists| ensures KeySet(lists[i]) !! KeySet(lists[j]) {
      if i < |A| <= j {
        KeysApart(A, i, B, j - |A|);
      } else if j < |A| {
        assert lists[i] == A[i] && lists[j] == A[j];
      } else {
        assert lists[i] == B[i - |A|] && lists[j] == B[j - |A|];
      }
    }
  }

  lemma KeysApart(A: seq<seq<Entry>>, i: nat, B: seq<seq<Entry>>, j: nat)
    requires i < |A| && j < |B| && Newer(Union(A), Union(B))
    ensures KeySet(A[i]) !! KeySet(B[j])
  {
    forall a, b | a in A[i] && b in B[j] ensures a.key != b.key {
      assert a in Union(A) && b in Union(B);
    }
  }

  lemma UnionJoins(A: seq<seq<Entry>>, B: seq<seq<Entry>>)
    ensures Union(A + B) == Union(A) + Union(B)
  {
    forall i | 0 <= i < |A| ensures (A + B)[i] == A[i] {
    }
    forall i | 0 <= i < |B| ensures (A + B)[|A| + i] == B[i] {
    }
  }

  lemma OneList(list: seq<Entry>)
    requires Sorted(list)
    ensures DistinctLists([list]) && Union([list]) == Elems(list)
  {
    hide Sorted;
    forall e | e in list ensures e in Union([list]) {
      assert e in [list][0];
    }
  }

  ghost function From(levels: Levels, l: nat): set<Entry> {
    set m, e | l <= m < |levels| && e in FileContents(levels[m]) :: e
  }

  lemma {:induction false} DeeperDistinct(levels: Levels, l: nat)
    requires ValidLevels(levels) && Layered(levels) && 1 <= l <= NUM_LEVELS
    ensures DistinctLists(DeeperLists(levels, l)) && Union(DeeperLists(levels, l)) == From(levels, l)
    decreases NUM_LEVELS - l
  {
    if l < NUM_LEVELS {
      DeeperDistinct(levels, l + 1);
      NextLevel(levels, l);
      if levels[l] != [] {
        FlattenContents(levels[l]);
        FlattenSorted(levels[l]);
        OneList(Flatten(levels[l]));
        JoinDistinct([Flatten(levels[l])], DeeperLists(levels, l + 1));
      } else {
        assert [] + DeeperLists(levels, l + 1) == DeeperLists(levels, l + 1);
      }
    }
  }

  lemma NextLevel(levels: Levels, l: nat)
    requires |levels| == NUM_LEVELS && Layered(levels) && l < NUM_LEVELS
    ensures From(levels, l) == FileContents(levels[l]) + From(levels, l + 1)
    ensures Newer(FileContents(levels[l]), From(levels, l + 1))
  {
    hide FileContents, NewerByNumber;
  }

  lemma AllLevels(levels: Levels)
    ensures From(levels, 0) == LevelContents(levels)
  {
    forall e ensures e in From(levels, 0) <==> e in LevelContents(levels) {
      if e in LevelContents(levels) {
        var l, f :| 0 <= l < |levels| && f in levels[l] && e in f.entries;
        assert e in FileContents(levels[l]);
      }
      if e in From(levels, 0) {
        var l :| 0 <= l < |levels| && e in FileContents(levels[l]);
        var f :| f in levels[l] && e in f.entries;
      }
    }
  }

  lemma Level0Distinct(files: seq<File>)
    requires NewerByNumber(files) && ValidFiles(files) && DistinctFiles(files)
    ensures DistinctLists(Level0Lists(files)) && Union(Level0Lists(files)) == FileContents(files)
  {
    Level0Union(files);
    Level0ListsDistinct(files, files, []);
    FrontDistinct(Level0Lists(files), []);
  }

  lemma FrontDistinct(lists: seq<seq<Entry>>, last: seq<Entry>)
    requires DistinctLists(lists + [last])
    ensures DistinctLists(lists)
  {
    hide Sorted, KeySet;
    forall i | 0 <= i < |lists| ensures lists[i] == (lists + [last])[i] {
    }
  }

  lemma Level0Union(files: seq<File>)
    ensures Union(Level0Lists(files)) == FileContents(files)
  {
    var lists := Level0Lists(files);
    forall e ensures e in Union(lists) <==> e in FileContents(files) {
      if e in Union(lists) {
        var i :| 0 <= i < |lists| && e in lists[i];
        assert files[i] in files;
      }
      if e in FileContents(files) {
        var f :| f in files && e in f.entries;
        var i :| 0 <= i < |files| && files[i] == f;
        assert e in lists[i];
      }
    }
  }

  /** The children are sorted, share no key and hold just what the database does. */
  lemma ChildrenDistinct(db: Db)
    requires Shape(db) && NewestAbove(db)
    ensures DistinctLists(Children(db)) && Union(Children(db)) == All(db)
  {
    hide Sorted, DistinctLists, Union, Newer, Elems, FileContents, LevelContents, From, Disjoint, ValidFiles, UniqueNumbers, NewerByNumber,
         Level0Lists, DeeperLists;
    var levels := db.levels;
    var imm := if db.imm.Some? then [db.imm.value] else [];
    SortedDistinct(levels[0]);
    Level0Distinct(levels[0]);
    DeeperDistinct(levels, 1);
    NextLevel(levels, 0);
    AllLevels(levels);
    JoinDistinct(Level0Lists(levels[0]), DeeperLists(levels, 1));
    var files := Level0Lists(levels[0]) + DeeperLists(levels, 1);
    ImmChildren(db);
    JoinDistinct(imm, files);
    NewerThanBoth(Elems(db.mem), ImmElems(db), LevelContents(levels));
    OneList(db.mem);
    JoinDistinct([db.mem], imm + files);
    Regroup(db.mem, imm, Level0Lists(levels[0]), DeeperLists(levels, 1));
    AllParts(db);
  }

  lemma AllParts(db: Db)
    ensures Elems(db.mem) + (ImmElems(db) + LevelContents(db.levels)) == All(db)
  {
  }

  lemma NewerThanBoth(A: set<Entry>, B: set<Entry>, C: set<Entry>)
    requires Newer(A, B) && Newer(A, C)
    ensures Newer(A, B + C)
  {
  }

  lemma ImmChildren(db: Db)
    requires Shape(db)
    ensures var imm := if db.imm.Some? then [db.imm.value] else [];
            DistinctLists(imm) && Union(imm) == ImmElems(db)
  {
    if db.imm.Some? {
      OneList(db.imm.value);
    }
  }

  lemma Regroup(a: seq<Entry>, b: seq<seq<Entry>>, c: seq<seq<Entry>>, d: seq<seq<Entry>>)
    ensures [a] + b + c + d == [a] + (b + (c + d))
  {
  }

  /** A list of entries in order of user key that has a key with a value exactly where a map does. */
  ghost predicate Lists(view: seq<Entry>, m: map<Bytes, Bytes>) {
    && DbIter.SortedByUser(view)
    && forall user, v :: Lookup(m, user) == Some(v) <==> exists e :: e in view && e.key.user == user && e.value == v
  }

  /** What a reader that may still ask sees in the merge of all children is the plain map of the operations up to
      its sequence number. */
  lemma ViewIsMap(db: Db, history: seq<Op>, merged: seq<Entry>, s: nat)
    requires Inv(db, history) && (s == db.lastSequence || s in db.snapshots)
    requires MergeOf(Children(db), merged)
    ensures s <= |history| && Lists(DbIter.View(merged, s), Replay(history[..s]))
  {
    hide Sorted, Children, DbIter.View, Newer, ReadAt, Agrees, Replay, Lookup, DbIter.SortedByUser;
    ChildrenDistinct(db);
    assert Elems(merged) == All(db);
    RecordedCoherent(All(db), history);
    forall user, v
      ensures Lookup(Replay(history[..s]), user) == Some(v) <==> exists e :: e in DbIter.View(merged, s) && e.key.user == user && e.value == v
    {
      ReadersAgree(db, history, user, s);
      DbIter.ViewIsWhatReadsFind(merged, s, user, v);
    }
    DbIter.ViewIsWhatReadsFind(merged, s, [], []);
  }

  /** DBImpl::NewIterator: an iterator over the map as it was at a snapshot held, or as it is now. */
  method NewIterator(store: DBImpl, snapshot: Option<SequenceNumber>) returns (it: DbIter.DBIter)
    requires store.Valid() && (snapshot.Some? ==> snapshot.value in store.snapshots)
    ensures fresh(it) && it.Valid() && !it.valid
    ensures var s := if snapshot.Some? then snapshot.value else store.lastSequence;
            s <= |store.history| && Lists(it.ViewList(), Replay(store.history[..s]))
  {
    hide Sorted, Children, DbIter.View, Lists, Recorded, Agrees, Newer;
    ghost var db := store.State();
    var s := if snapshot.Some? then snapshot.value else store.lastSequence;
    ChildrenDistinct(db);
    var merged := ReadAll(Children(Db(store.mem, store.imm, store.levels, store.lastSequence, store.nextFile, store.snapshots)));
    ViewIsMap(db, store.history, merged, s);
    it := new DbIter.DBIter(merged, s);
  }
}
