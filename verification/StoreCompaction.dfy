/** Trivial moves and merges keep the store's invariant, and with it every run agrees with the
    plain map (db/db_impl.cc, db/version_set.cc). */
module StoreCompaction {
  import opened Keys
  import opened Contents
  import opened Versions
  import opened Overlaps
  import opened Compactions
  import opened VersionBuilder
  import opened Store

  function RemovedAt(level: nat, in0: set<File>, in1: set<File>): seq<set<File>> {
    seq(NUM_LEVELS, l => if l == level then in0 else if l == level + 1 then in1 else {})
  }

  ghost predicate InputsOf(levels: Levels, level: nat, in0: seq<File>, in1: seq<File>) {
    |levels| == NUM_LEVELS && level + 1 < NUM_LEVELS &&
    (forall f :: f in in0 ==> f in levels[level]) && (forall f :: f in in1 ==> f in levels[level+1])
  }

  lemma PickedInputs(levels: Levels, level: nat, in0: seq<File>, in1: seq<File>)
    requires |levels| == NUM_LEVELS && level + 1 < NUM_LEVELS && ValidPick(levels, level, in0, in1)
    ensures InputsOf(levels, level, in0, in1)
  {
    var smallest, largest :|
      RangeOf(in0, smallest, largest) && in1 == FilesInRange(levels[level+1], Some(smallest.user), Some(largest.user));
    FilesInRangeMembers(levels[level+1], Some(smallest.user), Some(largest.user));
  }

  /** Deleting the inputs by number removes exactly them. */
  lemma EditReplaces(db: Db, level: nat, in0: seq<File>, in1: seq<File>, outputs: seq<File>, levels': Levels)
    requires UniqueNumbers(db) && InputsOf(db.levels, level, in0, in1)
    requires LevelsEdited(db.levels, CompactionEdit(level, in0, in1, outputs), levels')
    ensures Replaced(db.levels, RemovedAt(level, Files(in0), Files(in1)), level + 1, Files(outputs), levels')
  {
    var edit := CompactionEdit(level, in0, in1, outputs);
    forall l | 0 <= l < NUM_LEVELS
      ensures Files(levels'[l]) ==
                Files(db.levels[l]) - RemovedAt(level, Files(in0), Files(in1))[l] +
                if l == level + 1 then Files(outputs) else {}
    {
      EditAdds(level, in0, in1, outputs, l);
      forall f | f in db.levels[l]
        ensures f.number in Deleted(edit, l) <==> f in RemovedAt(level, Files(in0), Files(in1))[l]
      {
        EditDeletes(level, in0, in1, outputs, l, f.number);
      }
    }
  }

  lemma EditAdds(level: nat, in0: seq<File>, in1: seq<File>, outputs: seq<File>, l: nat)
    ensures Added(CompactionEdit(level, in0, in1, outputs), l) == if l == level + 1 then Files(outputs) else {}
  {
    var pairs := AddPairs(level + 1, outputs);
    forall f | f in outputs ensures (level + 1, f) in pairs {
      var i :| 0 <= i < |outputs| && outputs[i] == f;
      assert pairs[i] == (level + 1, f);
    }
  }

  lemma EditDeletes(level: nat, in0: seq<File>, in1: seq<File>, outputs: seq<File>, l: nat, number: nat)
    ensures number in Deleted(CompactionEdit(level, in0, in1, outputs), l) <==>
              (l == level && exists f :: f in in0 && f.number == number) ||
              (l == level + 1 && exists f :: f in in1 && f.number == number)
  {
    var pairs0, pairs1 := DeletePairs(level, in0), DeletePairs(level + 1, in1);
    forall f | f in in0 ensures (level, f.number) in pairs0 {
      var i :| 0 <= i < |in0| && in0[i] == f;
      assert pairs0[i] == (level, f.number);
    }
    forall f | f in in1 ensures (level + 1, f.number) in pairs1 {
      var i :| 0 <= i < |in1| && in1[i] == f;
      assert pairs1[i] == (level + 1, f.number);
    }
  }

  /** A file of the next level that is not an input lies wholly before or wholly after every input. */
  lemma LeftBehindOneSided(levels: Levels, level: nat, in0: seq<File>, in1: seq<File>, h: File)
    requires ValidLevels(levels) && level + 1 < NUM_LEVELS && ValidPick(levels, level, in0, in1)
    requires h in levels[level+1] && h !in in1
    ensures (forall e :: e in FileContents(in0) + FileContents(in1) ==> KeyLess(h.largest, e.key)) ||
            (forall e :: e in FileContents(in0) + FileContents(in1) ==> KeyLess(e.key, h.smallest))
  {
    hide Disjoint;
    PickedInputs(levels, level, in0, in1);
    var smallest, largest :|
      RangeOf(in0, smallest, largest) && in1 == FilesInRange(levels[level+1], Some(smallest.user), Some(largest.user));
    FilesInRangeMembers(levels[level+1], Some(smallest.user), Some(largest.user));
    assert ValidFile(h);
    if Less(h.largest.user, smallest.user) {
      forall f, e | f in in0 && e in f.entries ensures KeyLess(h.largest, e.key) {
        BeforeRange(in0, smallest, largest, h, f, e);
      }
      forall g, e | g in in1 && e in g.entries ensures KeyLess(h.largest, e.key) {
        InputAfter(levels[level+1], smallest, largest, h, g, e);
      }
    } else {
      assert Less(largest.user, h.smallest.user);
      forall f, e | f in in0 && e in f.entries ensures KeyLess(e.key, h.smallest) {
        AfterRange(in0, smallest, largest, h, f, e);
      }
      forall g, e | g in in1 && e in g.entries ensures KeyLess(e.key, h.smallest) {
        InputBefore(levels[level+1], smallest, largest, h, g, e);
      }
    }
  }

  lemma BeforeRange(in0: seq<File>, smallest: InternalKey, largest: InternalKey, h: File, f: File, e: Entry)
    requires RangeOf(in0, smallest, largest) && f in in0 && ValidFile(f) && e in f.entries
    requires Less(h.largest.user, smallest.user)
    ensures KeyLess(h.largest, e.key)
  {
    UserOrder();
    FileBounds(f, e);
    assert !KeyLess(f.smallest, smallest);
  }

  lemma AfterRange(in0: seq<File>, smallest: InternalKey, largest: InternalKey, h: File, f: File, e: Entry)
    requires RangeOf(in0, smallest, largest) && f in in0 && ValidFile(f) && e in f.entries
    requires Less(largest.user, h.smallest.user)
    ensures KeyLess(e.key, h.smallest)
  {
    UserOrder();
    FileBounds(f, e);
    assert !KeyLess(largest, f.largest);
  }

  lemma InputAfter(files: seq<File>, smallest: InternalKey, largest: InternalKey, h: File, g: File, e: Entry)
    requires ValidFiles(files) && Disjoint(files) && h in files && g in files && e in g.entries
    requires Less(h.largest.user, smallest.user) && !Less(g.largest.user, smallest.user)
    ensures KeyLess(h.largest, e.key)
  {
    UserOrder();
    KeyOrder();
    assert ValidFile(g) && ValidFile(h);
    FileBounds(g, e);
    DisjointOrdered(files, g, h);
    SmallestNotAfterLargest(h);
  }

  lemma InputBefore(files: seq<File>, smallest: InternalKey, largest: InternalKey, h: File, g: File, e: Entry)
    requires ValidFiles(files) && Disjoint(files) && h in files && g in files && e in g.entries
    requires Less(largest.user, h.smallest.user) && !Less(largest.user, g.smallest.user)
    ensures KeyLess(e.key, h.smallest)
  {
    UserOrder();
    KeyOrder();
    assert ValidFile(g) && ValidFile(h);
    FileBounds(g, e);
    DisjointOrdered(files, g, h);
    SmallestNotAfterLargest(h);
  }

  /** Output files made of input entries fit between the files left in the next level. */
  lemma OutputsFit(levels: Levels, level: nat, in0: seq<File>, in1: seq<File>, o: File, h: File)
    requires ValidLevels(levels) && level + 1 < NUM_LEVELS && ValidPick(levels, level, in0, in1)
    requires h in levels[level+1] && h !in in1
    requires ValidFile(o) && Elems(o.entries) <= FileContents(in0) + FileContents(in1)
    ensures Ordered(o, h)
  {
    LeftBehindOneSided(levels, level, in0, in1, h);
    assert o.entries[0] in Elems(o.entries) && o.entries[|o.entries|-1] in Elems(o.entries);
  }

  // The entries of the files a compaction leaves in place, with those of the memtables.

  ghost function Rest(db: Db, removed: seq<set<File>>): set<Entry>
    requires |removed| == |db.levels|
  {
    Elems(db.mem) + ImmElems(db) + set l, f, e | 0 <= l < |db.levels| && f in db.levels[l] && f !in removed[l] && e in f.entries :: e
  }

  lemma AllSplits(db: Db, level: nat, in0: seq<File>, in1: seq<File>, outputs: seq<File>, db': Db)
    requires InputsOf(db.levels, level, in0, in1)
    requires Replaced(db.levels, RemovedAt(level, Files(in0), Files(in1)), level + 1, Files(outputs), db'.levels)
    requires db'.mem == db.mem && db'.imm == db.imm
    ensures All(db) == FileContents(in0) + FileContents(in1) + Rest(db, RemovedAt(level, Files(in0), Files(in1)))
    ensures All(db') == FileContents(outputs) + Rest(db, RemovedAt(level, Files(in0), Files(in1)))
  {
    var removed := RemovedAt(level, Files(in0), Files(in1));
    var rest := Rest(db, removed);
    forall e | e in LevelContents(db.levels) ensures e in FileContents(in0) + FileContents(in1) + rest {
      var l, f :| 0 <= l < |db.levels| && f in db.levels[l] && e in f.entries;
      assert f in removed[l] ==> f in in0 || f in in1;
    }
    forall e | e in FileContents(in0) + FileContents(in1) ensures e in LevelContents(db.levels) {
      assert exists l, f :: 0 <= l < |db.levels| && f in db.levels[l] && e in f.entries;
    }
    forall e | e in LevelContents(db'.levels) ensures e in FileContents(outputs) + rest {
      var l, f :| 0 <= l < |db'.levels| && f in db'.levels[l] && e in f.entries;
      ReplacedMembers(db.levels, removed, level + 1, Files(outputs), db'.levels, l, f);
    }
    forall e | e in rest ensures e in All(db') {
      if e !in Elems(db.mem) && e !in ImmElems(db) {
        var l, f :| 0 <= l < |db.levels| && f in db.levels[l] && f !in removed[l] && e in f.entries;
        ReplacedMembers(db.levels, removed, level + 1, Files(outputs), db'.levels, l, f);
      }
    }
    forall e | e in FileContents(outputs) ensures e in All(db') {
      var f :| f in outputs && e in f.entries;
      ReplacedMembers(db.levels, removed, level + 1, Files(outputs), db'.levels, level + 1, f);
    }
  }

  // The common part of a move and a merge: files made of input entries replace the inputs.

  ghost predicate MadeOfInputs(in0: seq<File>, in1: seq<File>, outputs: seq<File>) {
    (forall f :: f in outputs ==> ValidFile(f)) &&
    (forall f, g :: f in outputs && g in outputs && f != g ==> Ordered(f, g)) &&
    FileContents(outputs) <= FileContents(in0) + FileContents(in1)
  }

  lemma MergeLayers(db: Db, level: nat, in0: seq<File>, in1: seq<File>, outputs: seq<File>, levels': Levels)
    requires |db.levels| == NUM_LEVELS && Layered(db.levels) && InputsOf(db.levels, level, in0, in1)
    requires Newer(SetContents(Files(db.levels[level]) - Files(in0)), FileContents(outputs))
    requires FileContents(outputs) <= FileContents(in0) + FileContents(in1)
    requires Replaced(db.levels, RemovedAt(level, Files(in0), Files(in1)), level + 1, Files(outputs), levels')
    ensures Layered(levels')
  {
    var removed := RemovedAt(level, Files(in0), Files(in1));
    var K := SetContents(Files(outputs));
    assert K == FileContents(outputs);
    InputContents(db.levels, level, in0, in1);
    var C0, C1 := FileContents(db.levels[level]), FileContents(db.levels[level+1]);
    forall m | 0 <= m < level + 1 ensures Newer(SetContents(Files(db.levels[m]) - removed[m]), K) {
      if m < level {
        AboveNewerThanInputs(db.levels, level, in0, in1, m);
        var kept := SetContents(Files(db.levels[m]) - removed[m]);
        NewerSubsets(kept, FileContents(in0) + FileContents(in1), kept, K);
      }
    }
    forall m | level + 1 < m < NUM_LEVELS ensures Newer(K, FileContents(db.levels[m])) {
      NewerUnion(C0, C1, FileContents(db.levels[m]));
      NewerSubsets(C0 + C1, FileContents(db.levels[m]), K, FileContents(db.levels[m]));
    }
    forall f | f in levels'[0] ensures f in db.levels[0] {
      ReplacedMembers(db.levels, removed, level + 1, Files(outputs), levels', 0, f);
    }
    FewerNewerByNumber(db.levels[0], levels'[0]);
    ReplacedLayered(db.levels, removed, level + 1, Files(outputs), levels');
  }

  lemma AboveNewerThanInputs(levels: Levels, level: nat, in0: seq<File>, in1: seq<File>, m: nat)
    requires InputsOf(levels, level, in0, in1) && Layered(levels) && m < level
    ensures Newer(SetContents(Files(levels[m]) - RemovedAt(level, Files(in0), Files(in1))[m]),
                  FileContents(in0) + FileContents(in1))
  {
    InputContents(levels, level, in0, in1);
    var kept := SetContents(Files(levels[m]) - RemovedAt(level, Files(in0), Files(in1))[m]);
    var C := FileContents(levels[m]);
    assert kept <= C;
    assert Newer(C, FileContents(levels[level+1]));
    NewerSubsets(C, FileContents(levels[level+1]), kept, FileContents(in1));
    assert Newer(C, FileContents(levels[level]));
    NewerSubsets(C, FileContents(levels[level]), kept, FileContents(in0));
    NewerUnion(FileContents(in0), FileContents(in1), kept);
  }

  lemma InputContents(levels: Levels, level: nat, in0: seq<File>, in1: seq<File>)
    requires InputsOf(levels, level, in0, in1)
    ensures FileContents(in0) <= FileContents(levels[level]) && FileContents(in1) <= FileContents(levels[level+1])
  {
  }

  lemma MergeShape(db: Db, level: nat, in0: seq<File>, in1: seq<File>, outputs: seq<File>, db': Db)
    requires Shape(db) && level + 1 < NUM_LEVELS && ValidPick(db.levels, level, in0, in1) && MadeOfInputs(in0, in1, outputs)
    requires Replaced(db.levels, RemovedAt(level, Files(in0), Files(in1)), level + 1, Files(outputs), db'.levels)
    requires NumbersFree(db.levels, RemovedAt(level, Files(in0), Files(in1)), Files(outputs))
    requires db.nextFile <= db'.nextFile && forall f :: f in outputs ==> f.number < db'.nextFile
    requires db' == db.(levels := db'.levels, nextFile := db'.nextFile)
    ensures Shape(db')
  {
    hide UniqueNumbers, ValidPick, NumbersFree;
    var removed := RemovedAt(level, Files(in0), Files(in1));
    forall o, h | o in Files(outputs) && h in db.levels[level+1] && h !in removed[level+1] ensures Ordered(o, h) {
      assert h !in in1;
      assert Elems(o.entries) <= FileContents(outputs);
      OutputsFit(db.levels, level, in0, in1, o, h);
    }
    ReplacedShape(db.levels, removed, level + 1, Files(outputs), db'.levels);
    ReplacedNumbers(db, removed, level + 1, Files(outputs), db');
  }

  lemma MergeNewestAbove(db: Db, level: nat, in0: seq<File>, in1: seq<File>, outputs: seq<File>, db': Db)
    requires Shape(db) && NewestAbove(db) && InputsOf(db.levels, level, in0, in1)
    requires Newer(SetContents(Files(db.levels[level]) - Files(in0)), FileContents(outputs))
    requires FileContents(outputs) <= FileContents(in0) + FileContents(in1)
    requires Replaced(db.levels, RemovedAt(level, Files(in0), Files(in1)), level + 1, Files(outputs), db'.levels)
    requires db' == db.(levels := db'.levels, nextFile := db'.nextFile)
    ensures NewestAbove(db')
  {
    MergeLayers(db, level, in0, in1, outputs, db'.levels);
    FewerContents(db, level, in0, in1, outputs, db');
    NewerSubsets(Elems(db.mem), LevelContents(db.levels), Elems(db.mem), LevelContents(db'.levels));
    NewerSubsets(ImmElems(db), LevelContents(db.levels), ImmElems(db), LevelContents(db'.levels));
  }

  lemma FewerContents(db: Db, level: nat, in0: seq<File>, in1: seq<File>, outputs: seq<File>, db': Db)
    requires InputsOf(db.levels, level, in0, in1)
    requires FileContents(outputs) <= FileContents(in0) + FileContents(in1)
    requires Replaced(db.levels, RemovedAt(level, Files(in0), Files(in1)), level + 1, Files(outputs), db'.levels)
    ensures LevelContents(db'.levels) <= LevelContents(db.levels)
  {
    InputContents(db.levels, level, in0, in1);
    LevelContentsAbove(db.levels, level);
    LevelContentsAbove(db.levels, level + 1);
    forall e | e in LevelContents(db'.levels) ensures e in LevelContents(db.levels) {
      var l, f :| 0 <= l < |db'.levels| && f in db'.levels[l] && e in f.entries;
      ReplacedMembers(db.levels, RemovedAt(level, Files(in0), Files(in1)), level + 1, Files(outputs), db'.levels, l, f);
      assert f in outputs ==> e in FileContents(outputs);
    }
  }

  // Trivial moves.

  lemma MoveEdit(db: Db, level: nat, f: File, levels': Levels)
    requires UniqueNumbers(db) && InputsOf(db.levels, level, [f], [])
    requires LevelsEdited(db.levels, FileEdit([(level, f.number)], [(level + 1, f)]), levels')
    ensures Replaced(db.levels, RemovedAt(level, Files([f]), Files([])), level + 1, Files([f]), levels')
    ensures NumbersFree(db.levels, RemovedAt(level, Files([f]), Files([])), Files([f]))
    ensures f.number < db.nextFile
  {
    assert CompactionEdit(level, [f], [], [f]) == FileEdit([(level, f.number)], [(level + 1, f)]);
    EditReplaces(db, level, [f], [], [f], levels');
    assert f in [f] && f in db.levels[level];
  }

  lemma MoveMadeOfInputs(levels: Levels, level: nat, f: File)
    requires ValidLevels(levels) && InputsOf(levels, level, [f], [])
    ensures MadeOfInputs([f], [], [f])
  {
    assert f in [f] && f in levels[level];
  }

  lemma MoveShape(db: Db, level: nat, f: File, db': Db)
    requires Shape(db) && MoveStep(db, level, f, db')
    ensures Shape(db')
  {
    PickedInputs(db.levels, level, [f], []);
    MoveEdit(db, level, f, db'.levels);
    MoveMadeOfInputs(db.levels, level, f);
    MergeShape(db, level, [f], [], [f], db');
  }

  lemma MoveContents(db: Db, level: nat, f: File, db': Db)
    requires InputsOf(db.levels, level, [f], [])
    requires Replaced(db.levels, RemovedAt(level, Files([f]), Files([])), level + 1, Files([f]), db'.levels)
    requires db'.mem == db.mem && db'.imm == db.imm
    ensures All(db') == All(db)
  {
    AllSplits(db, level, [f], [], [f], db');
    assert FileContents([f]) + FileContents([]) == FileContents([f]);
  }

  lemma MoveKeepsInv(db: Db, history: seq<Op>, level: nat, f: File, db': Db)
    requires Inv(db, history) && MoveStep(db, level, f, db') && ClosedPick(db.levels, level, [f], [])
    ensures Inv(db', history)
  {
    MoveShape(db, level, f, db');
    PickedInputs(db.levels, level, [f], []);
    MoveEdit(db, level, f, db'.levels);
    MoveContents(db, level, f, db');
    MergeNewestAbove(db, level, [f], [], [f], db');
    SameContentsKeepInv(db, history, db');
  }

  // Merges.

  lemma {:induction false} FlattenContents(files: seq<File>)
    ensures Elems(Flatten(files)) == FileContents(files)
  {
    if files != [] {
      var n := |files| - 1;
      FlattenContents(files[..n]);
      assert files == files[..n] + [files[n]];
      assert FileContents(files) == FileContents(files[..n]) + Elems(files[n].entries);
      assert Elems(Flatten(files)) == Elems(Flatten(files[..n])) + Elems(files[n].entries);
    }
  }

  lemma {:induction false} FlattenOrdered(files: seq<File>)
    requires Sorted(Flatten(files)) && ValidFiles(files)
    ensures forall i, j :: 0 <= i < j < |files| ==> Ordered(files[i], files[j])
  {
    if files != [] {
      var n := |files| - 1;
      var all, init := Flatten(files), Flatten(files[..n]);
      assert init == all[..|init|];
      FlattenOrdered(files[..n]);
      assert files[n] in files;
      forall i, j | 0 <= i < j < n ensures Ordered(files[i], files[j]) {
        assert files[..n][i] == files[i] && files[..n][j] == files[j];
      }
      forall i | 0 <= i < n ensures Ordered(files[i], files[n]) {
        assert files[..n][i] == files[i] && files[i] in files && ValidFile(files[i]);
        FlattenContents(files[..n]);
        var last := files[i].entries[|files[i].entries|-1];
        assert files[i] in files[..n] && last in files[i].entries;
        assert last in FileContents(files[..n]) && last in Elems(init);
        var k :| 0 <= k < |init| && init[k] == last;
        assert all[k] == last && all[|init|] == files[n].entries[0];
      }
    }
  }

  lemma OutputsMadeOfInputs(db: Db, level: nat, in0: seq<File>, in1: seq<File>, merged: seq<Entry>, outputs: seq<File>)
    requires |db.levels| == NUM_LEVELS && MergedInputs(in0, in1, merged) && Outputs(outputs, db.nextFile)
    requires Flatten(outputs) == Kept(merged, Oldest(db), Base(db.levels, level))
    ensures MadeOfInputs(in0, in1, outputs) && FileContents(outputs) == Elems(Kept(merged, Oldest(db), Base(db.levels, level)))
  {
    KeptSorted(merged, Oldest(db), Base(db.levels, level));
    KeptMembers(merged, Oldest(db), Base(db.levels, level));
    FlattenContents(outputs);
    FlattenOrdered(outputs);
    forall f, g | f in outputs && g in outputs && f != g ensures Ordered(f, g) {
      var i :| 0 <= i < |outputs| && outputs[i] == f;
      var j :| 0 <= j < |outputs| && outputs[j] == g;
      assert i < j || j < i;
    }
  }

  lemma NoDeeperData(levels: Levels, level: nat, user: Bytes, e: Entry, l: nat)
    requires ValidLevels(levels) && BaseLevel(levels, level, user) && level + 2 <= l < NUM_LEVELS
    requires e in FileContents(levels[l])
    ensures e.key.user != user
  {
    var f :| f in levels[l] && e in f.entries;
    FileBounds(f, e);
  }

  // An entry of a file left in place, against an input for the same user key without deeper data.
  lemma LeftBehindNewer(levels: Levels, level: nat, in0: seq<File>, in1: seq<File>, e: Entry, o: Entry, l: nat)
    requires ValidLevels(levels) && Layered(levels) && InputsOf(levels, level, in0, in1) && ClosedPick(levels, level, in0, in1)
    requires e in FileContents(in0) + FileContents(in1) && l < NUM_LEVELS
    requires o in SetContents(Files(levels[l]) - RemovedAt(level, Files(in0), Files(in1))[l])
    requires e.key.user == o.key.user && BaseLevel(levels, level, e.key.user)
    ensures o.key.seqno > e.key.seqno
  {
    var at := if e in FileContents(in0) then level else level + 1;
    InputContents(levels, level, in0, in1);
    assert e in FileContents(levels[at]) && o in FileContents(levels[l]);
    if l >= level + 2 {
      NoDeeperData(levels, level, e.key.user, o, l);
    } else if l < at {
      assert Newer(FileContents(levels[l]), FileContents(levels[at]));
    } else if l == level {
      assert Newer(SetContents(Files(levels[level]) - Files(in0)), FileContents(in0));
    } else {
      assert Newer(SetContents(Files(levels[level+1]) - Files(in1)), FileContents(in0) + FileContents(in1));
    }
  }

  /** Where a key is declared to have no deeper data, everything else stored for it is newer than
      the inputs: this is what makes dropping its deletion marker safe. */
  lemma RestNewerAtBase(db: Db, level: nat, in0: seq<File>, in1: seq<File>, e: Entry, o: Entry)
    requires ValidLevels(db.levels) && NewestAbove(db) && InputsOf(db.levels, level, in0, in1)
    requires ClosedPick(db.levels, level, in0, in1)
    requires e in FileContents(in0) + FileContents(in1)
    requires o in Rest(db, RemovedAt(level, Files(in0), Files(in1)))
    requires e.key.user == o.key.user && BaseLevel(db.levels, level, e.key.user)
    ensures o.key.seqno > e.key.seqno
  {
    if o in Elems(db.mem) || o in ImmElems(db) {
      InputContents(db.levels, level, in0, in1);
      LevelContentsAbove(db.levels, level);
      LevelContentsAbove(db.levels, level + 1);
      assert e in LevelContents(db.levels);
    } else {
      var removed := RemovedAt(level, Files(in0), Files(in1));
      var l, f :| 0 <= l < |db.levels| && f in db.levels[l] && f !in removed[l] && o in f.entries;
      assert o in SetContents(Files(db.levels[l]) - removed[l]);
      LeftBehindNewer(db.levels, level, in0, in1, e, o, l);
    }
  }

  // What is left behind in the two levels a compaction takes its inputs from.
  ghost function LeftBehind(levels: Levels, level: nat, in0: seq<File>, in1: seq<File>): set<Entry>
    requires |levels| == NUM_LEVELS && level + 1 < NUM_LEVELS
  {
    SetContents(Files(levels[level]) - Files(in0)) + SetContents(Files(levels[level+1]) - Files(in1))
  }

  /** Of some user key without deeper data the newest entry at or below the smallest snapshot is a deletion marker
      among the inputs, and the newest entry left behind in the two levels is a value. */
  ghost predicate ReturnsDeleted(db: Db, level: nat, in0: seq<File>, in1: seq<File>, merged: seq<Entry>)
    requires |db.levels| == NUM_LEVELS && level + 1 < NUM_LEVELS
  {
    exists d, o :: MarkerOver(db, level, in0, in1, merged, d, o)
  }

  ghost predicate MarkerOver(db: Db, level: nat, in0: seq<File>, in1: seq<File>, merged: seq<Entry>, d: Entry, o: Entry)
    requires |db.levels| == NUM_LEVELS && level + 1 < NUM_LEVELS
  {
    && d in merged && d.key.kind == Deletion && BaseLevel(db.levels, level, d.key.user)
    && IsNewest(All(db), d.key.user, Oldest(db), d)
    && o.key.kind == Value && IsNewest(LeftBehind(db.levels, level, in0, in1), d.key.user, Oldest(db), o)
  }

  // Whatever else the store has for a key without deeper data is newer than the inputs or left behind beside them.
  lemma OlderRestLeftBehind(db: Db, level: nat, in0: seq<File>, in1: seq<File>, e: Entry, o: Entry)
    requires ValidLevels(db.levels) && NewestAbove(db) && InputsOf(db.levels, level, in0, in1)
    requires e in FileContents(in0) + FileContents(in1)
    requires o in Rest(db, RemovedAt(level, Files(in0), Files(in1)))
    requires e.key.user == o.key.user && BaseLevel(db.levels, level, e.key.user) && o.key.seqno <= e.key.seqno
    ensures o in LeftBehind(db.levels, level, in0, in1)
  {
    hide Layered, ValidLevels, BaseLevel;
    InputContents(db.levels, level, in0, in1);
    LevelContentsAbove(db.levels, level);
    LevelContentsAbove(db.levels, level + 1);
    assert e in LevelContents(db.levels);
    if o !in Elems(db.mem) && o !in ImmElems(db) {
      var removed := RemovedAt(level, Files(in0), Files(in1));
      var l, f :| 0 <= l < |db.levels| && f in db.levels[l] && f !in removed[l] && o in f.entries;
      assert o in SetContents(Files(db.levels[l]) - removed[l]) && o in FileContents(db.levels[l]);
      OlderSameLevels(db.levels, level, in0, in1, e, o, l);
    }
  }

  lemma OlderSameLevels(levels: Levels, level: nat, in0: seq<File>, in1: seq<File>, e: Entry, o: Entry, l: nat)
    requires ValidLevels(levels) && Layered(levels) && InputsOf(levels, level, in0, in1) && l < NUM_LEVELS
    requires e in FileContents(in0) + FileContents(in1) && o in FileContents(levels[l])
    requires e.key.user == o.key.user && BaseLevel(levels, level, e.key.user) && o.key.seqno <= e.key.seqno
    ensures l == level || l == level + 1
  {
    hide NewerByNumber, BaseLevel;
    InputContents(levels, level, in0, in1);
    var at := if e in FileContents(in0) then level else level + 1;
    assert e in FileContents(levels[at]);
    assert forall m :: 0 <= m < level ==> Newer(FileContents(levels[m]), FileContents(levels[at]));
    if l >= level + 2 {
      NoDeeperData(levels, level, e.key.user, o, l);
    }
  }

  lemma LeftBehindIsRest(db: Db, level: nat, in0: seq<File>, in1: seq<File>)
    requires |db.levels| == NUM_LEVELS && level + 1 < NUM_LEVELS
    ensures LeftBehind(db.levels, level, in0, in1) <= Rest(db, RemovedAt(level, Files(in0), Files(in1)))
  {
    var removed := RemovedAt(level, Files(in0), Files(in1));
    forall e | e in LeftBehind(db.levels, level, in0, in1) ensures e in Rest(db, removed) {
      var l := if e in SetContents(Files(db.levels[level]) - Files(in0)) then level else level + 1;
      var f :| f in Files(db.levels[l]) - removed[l] && e in f.entries;
    }
  }

  lemma DeletedReturns(db: Db, level: nat, in0: seq<File>, in1: seq<File>, merged: seq<Entry>)
    requires ValidLevels(db.levels) && NewestAbove(db) && InputsOf(db.levels, level, in0, in1) && MergedInputs(in0, in1, merged)
    requires All(db) == Elems(merged) + Rest(db, RemovedAt(level, Files(in0), Files(in1)))
    ensures ReturnsDeleted(db, level, in0, in1, merged) <==>
              BringsBack(merged, Oldest(db), Base(db.levels, level), Rest(db, RemovedAt(level, Files(in0), Files(in1))))
  {
    hide NewestAbove, ValidLevels, Rest, LeftBehind, BaseLevel, Oldest;
    var rest, left := Rest(db, RemovedAt(level, Files(in0), Files(in1))), LeftBehind(db.levels, level, in0, in1);
    var base := Base(db.levels, level);
    LeftBehindIsRest(db, level, in0, in1);
    forall d, o | d in merged && d.key.kind == Deletion && base(d.key.user) && IsNewest(All(db), d.key.user, Oldest(db), d)
      ensures IsNewest(left, d.key.user, Oldest(db), o) <==> IsNewest(rest, d.key.user, Oldest(db), o)
    {
      assert d in Elems(merged);
      forall x | x in rest && Visible(x, d.key.user, Oldest(db)) ensures x in left {
        OlderRestLeftBehind(db, level, in0, in1, d, x);
      }
    }
    if d, o :| MarkerOver(db, level, in0, in1, merged, d, o) {
      assert Uncovers(merged, Oldest(db), base, rest, d, o);
    }
    if d, o :| Uncovers(merged, Oldest(db), base, rest, d, o) {
      assert MarkerOver(db, level, in0, in1, merged, d, o);
    }
  }

  lemma MergeReads(db: Db, history: seq<Op>, level: nat, in0: seq<File>, in1: seq<File>, merged: seq<Entry>,
                   outputs: seq<File>, db': Db)
    requires Inv(db, history) && InputsOf(db.levels, level, in0, in1) && MergedInputs(in0, in1, merged)
    requires FileContents(outputs) == Elems(Kept(merged, Oldest(db), Base(db.levels, level)))
    requires All(db) == FileContents(in0) + FileContents(in1) + Rest(db, RemovedAt(level, Files(in0), Files(in1)))
    requires All(db') == FileContents(outputs) + Rest(db, RemovedAt(level, Files(in0), Files(in1)))
    ensures Recorded(All(db'), history)
    ensures Agrees(All(db'), history, Oldest(db)) <==> !ReturnsDeleted(db, level, in0, in1, merged)
  {
    hide Shape, NewestAbove, ReadAt, Rest, Kept, Replay, ReturnsDeleted, BringsBack;
    var rest := Rest(db, RemovedAt(level, Files(in0), Files(in1)));
    var base := Base(db.levels, level);
    ShapeLevels(db);
    RecordedCoherent(All(db), history);
    KeptFewer(merged, Oldest(db), base);
    assert Elems(merged) + rest == All(db);
    assert All(db') <= All(db);
    DeletedReturns(db, level, in0, in1, merged);
    CompactionPreservesReadsIff(merged, Oldest(db), base, rest);
    if Agrees(All(db'), history, Oldest(db)) && BringsBack(merged, Oldest(db), base, rest) {
      DeletedRead(merged, Oldest(db), base, rest, history);
    }
  }

  lemma ShapeLevels(db: Db)
    requires Shape(db)
    ensures ValidLevels(db.levels) && UniqueNumbers(db) && Oldest(db) <= db.lastSequence
  {
    OldestInRange(db);
  }

  // A value brought back is read at the smallest snapshot, where nothing should be.
  lemma DeletedRead(merged: seq<Entry>, oldest: nat, base: Bytes -> bool, rest: set<Entry>, history: seq<Op>)
    requires Sorted(merged) && Coherent(Elems(merged) + rest) && oldest <= |history|
    requires Agrees(Elems(merged) + rest, history, oldest) && BringsBack(merged, oldest, base, rest)
    ensures !Agrees(Elems(Kept(merged, oldest, base)) + rest, history, oldest)
  {
    hide ReadAt, Replay, Lookup, Kept;
    var d, o :| Uncovers(merged, oldest, base, rest, d, o);
    ValueComesBack(merged, oldest, base, rest, d, o);
  }

  lemma OutputNumbersFree(db: Db, level: nat, in0: seq<File>, in1: seq<File>, outputs: seq<File>)
    requires UniqueNumbers(db) && |db.levels| == NUM_LEVELS && Outputs(outputs, db.nextFile)
    ensures NumbersFree(db.levels, RemovedAt(level, Files(in0), Files(in1)), Files(outputs))
    ensures forall f :: f in outputs ==> f.number < db.nextFile + |outputs|
  {
    forall f, g | f in Files(outputs) && g in Files(outputs) && f.number == g.number ensures f == g {
      var i :| 0 <= i < |outputs| && outputs[i] == f;
      var j :| 0 <= j < |outputs| && outputs[j] == g;
    }
  }

  /** A merge keeps the invariant if and only if no file left behind in its level holds an entry older than a kept one
      of the same user key, and no dropped deletion marker returns a value left behind in one of the two levels. */
  lemma CompactKeepsInvIff(db: Db, history: seq<Op>, level: nat, in0: seq<File>, in1: seq<File>, merged: seq<Entry>,
                           outputs: seq<File>, db': Db)
    requires Inv(db, history) && CompactStep(db, level, in0, in1, merged, outputs, db')
    ensures Inv(db', history) <==>
              && Newer(SetContents(Files(db.levels[level]) - Files(in0)), Elems(Kept(merged, Oldest(db), Base(db.levels, level))))
              && !ReturnsDeleted(db, level, in0, in1, merged)
  {
    hide Kept, Base, Recorded, Agrees, UniqueNumbers, ValidPick, LevelsEdited, ReturnsDeleted, SortedBySmallest, ValidLevels, Flatten,
         NewestAbove, Newer, Replaced, Shape, All, MadeOfInputs, Outputs, MergedInputs, NumbersFree, InputsOf, Rest, FileContents,
         SetContents, CompactionEdit;
    ShapeLevels(db);
    PickedInputs(db.levels, level, in0, in1);
    EditReplaces(db, level, in0, in1, outputs, db'.levels);
    OutputsMadeOfInputs(db, level, in0, in1, merged, outputs);
    OutputNumbersFree(db, level, in0, in1, outputs);
    MergeShape(db, level, in0, in1, outputs, db');
    AllSplits(db, level, in0, in1, outputs, db');
    MergeReads(db, history, level, in0, in1, merged, outputs, db');
    if Newer(SetContents(Files(db.levels[level]) - Files(in0)), FileContents(outputs)) {
      MergeNewestAbove(db, level, in0, in1, outputs, db');
    }
    if NewestAbove(db') {
      AboveLayers(db');
      MergedLayers(db, level, in0, in1, outputs, db'.levels);
    }
  }

  lemma AboveLayers(db: Db)
    requires |db.levels| == NUM_LEVELS && NewestAbove(db)
    ensures Layered(db.levels)
  {
  }

  // After the step the outputs lie below what is left of the level.
  lemma MergedLayers(db: Db, level: nat, in0: seq<File>, in1: seq<File>, outputs: seq<File>, levels': Levels)
    requires InputsOf(db.levels, level, in0, in1) && |levels'| == NUM_LEVELS && Layered(levels')
    requires Replaced(db.levels, RemovedAt(level, Files(in0), Files(in1)), level + 1, Files(outputs), levels')
    ensures Newer(SetContents(Files(db.levels[level]) - Files(in0)), FileContents(outputs))
  {
    var removed := RemovedAt(level, Files(in0), Files(in1));
    ReplacedContents(db.levels, removed, level + 1, Files(outputs), levels', level);
    ReplacedContents(db.levels, removed, level + 1, Files(outputs), levels', level + 1);
    assert SetContents(Files(outputs)) == FileContents(outputs);
    assert Newer(FileContents(levels'[level]), FileContents(levels'[level+1]));
  }

  /** In particular a merge of a pick closed under user key keeps it. */
  lemma CompactKeepsInv(db: Db, history: seq<Op>, level: nat, in0: seq<File>, in1: seq<File>, merged: seq<Entry>,
                        outputs: seq<File>, db': Db)
    requires Inv(db, history) && CompactStep(db, level, in0, in1, merged, outputs, db')
    requires ClosedPick(db.levels, level, in0, in1)
    ensures Inv(db', history)
  {
    CompactKeepsInvIff(db, history, level, in0, in1, merged, outputs, db');
    PickedInputs(db.levels, level, in0, in1);
    ClosedKeepsOrder(db, level, in0, in1, merged);
    ClosedReturnsNothing(db, level, in0, in1, merged);
  }

  lemma ClosedKeepsOrder(db: Db, level: nat, in0: seq<File>, in1: seq<File>, merged: seq<Entry>)
    requires |db.levels| == NUM_LEVELS && Layered(db.levels) && InputsOf(db.levels, level, in0, in1)
    requires MergedInputs(in0, in1, merged) && ClosedPick(db.levels, level, in0, in1)
    ensures Newer(SetContents(Files(db.levels[level]) - Files(in0)), Elems(Kept(merged, Oldest(db), Base(db.levels, level))))
  {
    hide Kept, Base, NewerByNumber;
    var left := SetContents(Files(db.levels[level]) - Files(in0));
    InputContents(db.levels, level, in0, in1);
    assert left <= FileContents(db.levels[level]);
    assert Newer(FileContents(db.levels[level]), FileContents(db.levels[level+1]));
    NewerSubsets(FileContents(db.levels[level]), FileContents(db.levels[level+1]), left, FileContents(in1));
    NewerUnion(FileContents(in0), FileContents(in1), left);
    KeptFewer(merged, Oldest(db), Base(db.levels, level));
    NewerSubsets(left, FileContents(in0) + FileContents(in1), left, Elems(Kept(merged, Oldest(db), Base(db.levels, level))));
  }

  lemma ClosedReturnsNothing(db: Db, level: nat, in0: seq<File>, in1: seq<File>, merged: seq<Entry>)
    requires ValidLevels(db.levels) && NewestAbove(db) && InputsOf(db.levels, level, in0, in1)
    requires MergedInputs(in0, in1, merged) && ClosedPick(db.levels, level, in0, in1)
    ensures !ReturnsDeleted(db, level, in0, in1, merged)
  {
    hide Rest;
    LeftBehindIsRest(db, level, in0, in1);
    forall d, o | d in merged && BaseLevel(db.levels, level, d.key.user) && o in LeftBehind(db.levels, level, in0, in1) && o.key.user == d.key.user
      ensures o.key.seqno > d.key.seqno
    {
      assert d in Elems(merged);
      RestNewerAtBase(db, level, in0, in1, d, o);
    }
    forall o | o in LeftBehind(db.levels, level, in0, in1) ensures o in All(db) {
      LeftBehindStored(db, level, in0, in1, o);
    }
  }

  lemma LeftBehindStored(db: Db, level: nat, in0: seq<File>, in1: seq<File>, o: Entry)
    requires |db.levels| == NUM_LEVELS && level + 1 < NUM_LEVELS && o in LeftBehind(db.levels, level, in0, in1)
    ensures o in All(db)
  {
    var l := if o in SetContents(Files(db.levels[level]) - Files(in0)) then level else level + 1;
    var f :| f in Files(db.levels[l]) && o in f.entries;
    assert f in db.levels[l];
  }

  lemma StepKeepsInv(db: Db, history: seq<Op>, a: Action, db': Db)
    requires Inv(db, history) && Step(db, a, db') && Closed(db, a)
    ensures Inv(db', Extended(history, a))
  {
    match a
    case Write(batch) => WriteKeepsInv(db, history, batch, db');
    case SwitchMemTable => SwitchKeepsInv(db, history, db');
    case FlushMemTable(level) => FlushKeepsInv(db, history, level, db');
    case MoveFile(level, f) => MoveKeepsInv(db, history, level, f, db');
    case Compact(level, in0, in1, merged, outputs) =>
      CompactKeepsInv(db, history, level, in0, in1, merged, outputs, db');
    case TakeSnapshot =>
      TakeShape(db, db');
      SnapshotStepKeepsInv(db, history, db');
    case DropSnapshot(i) =>
      DropShape(db, i, db');
      SnapshotStepKeepsInv(db, history, db');
  }
}
