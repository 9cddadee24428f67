/** Whole runs of the store: every run whose picks are closed under user key agrees with the plain
    map, and runs that merge only while no snapshot is held never need that hypothesis. */
module StoreRuns {
  import opened Keys
  import opened Contents
  import opened Versions
  import opened Overlaps
  import opened Compactions
  import opened VersionBuilder
  import opened Store
  import opened StoreCompaction

  ghost predicate Initial(db: Db) {
    db.mem == [] && db.imm.None? && db.levels == seq(NUM_LEVELS, _ => []) &&
    db.lastSequence == 0 && db.snapshots == []
  }

  ghost predicate Run(states: seq<Db>, actions: seq<Action>) {
    |states| == |actions| + 1 && Initial(states[0]) &&
    forall i :: 0 <= i < |actions| ==> Step(states[i], actions[i], states[i+1])
  }

  function History(actions: seq<Action>): seq<Op> {
    if actions == [] then [] else Extended(History(actions[..|actions|-1]), actions[|actions|-1])
  }

  lemma InitialAnswers(db: Db)
    requires Initial(db)
    ensures All(db) == {} && Agrees(All(db), [], 0)
  {
    assert LevelContents(db.levels) == {} && All(db) == {};
    forall user ensures ReadAt({}, user, 0) == None {
      ReadNothing({}, user, 0);
    }
  }

  lemma InitialNewestAbove(db: Db)
    requires Initial(db)
    ensures NewestAbove(db)
  {
    assert LevelContents(db.levels) == {} && Elems(db.mem) == {} && ImmElems(db) == {};
    assert forall l :: 0 <= l < NUM_LEVELS ==> FileContents(db.levels[l]) == {};
  }

  lemma InitialInv(db: Db)
    requires Initial(db)
    ensures Inv(db, []) && UserDisjoint(db.levels)
  {
    hide Agrees, NewestAbove;
    InitialAnswers(db);
    InitialNewestAbove(db);
  }

  /** Store refinement: after any run of writes, memtable switches, flushes, moves, merges and
      snapshots whose picks are closed under user key, the invariant holds for the history of the
      run's writes. */
  lemma {:induction false} RunKeepsInv(states: seq<Db>, actions: seq<Action>)
    requires Run(states, actions)
    requires forall i :: 0 <= i < |actions| ==> |states[i].levels| == NUM_LEVELS && Closed(states[i], actions[i])
    ensures Inv(states[|actions|], History(actions))
  {
    if actions == [] {
      InitialInv(states[0]);
    } else {
      var n := |actions| - 1;
      RunKeepsInv(states[..n+1], actions[..n]);
      StepKeepsInv(states[n], History(actions[..n]), actions[n], states[n+1]);
    }
  }

  /** A reader at the current sequence number, or at any snapshot held, finds in the stored entries
      exactly what the plain map of the operations up to that point holds. */
  lemma ReadersAgree(db: Db, history: seq<Op>, user: Bytes, s: nat)
    requires Inv(db, history) && (s == db.lastSequence || s in db.snapshots)
    ensures s <= |history| && ReadAt(All(db), user, s) == Lookup(Replay(history[..s]), user)
  {
    OldestInRange(db);
    if s in db.snapshots {
      var i :| 0 <= i < |db.snapshots| && db.snapshots[i] == s;
    }
  }

  // Runs without snapshots at merges.

  /** From level 1 on, no user key lies in the ranges of two files. */
  ghost predicate UserDisjoint(levels: Levels) {
    forall l, f, g :: 1 <= l < |levels| && f in levels[l] && g in levels[l] && f != g ==> Apart(f, g)
  }

  lemma ApartNewer(S: set<File>, T: set<File>)
    requires forall f :: f in S + T ==> ValidFile(f)
    requires forall f, g :: f in S && g in T ==> Apart(f, g)
    ensures Newer(SetContents(S), SetContents(T))
  {
    forall a, b | a in SetContents(S) && b in SetContents(T) ensures a.key.user != b.key.user {
      var f :| f in S && a in f.entries;
      var g :| g in T && b in g.entries;
      ApartNoSharedUser(f, g);
    }
  }

  // The files of the next level that are not inputs share no user key with the first inputs.
  lemma LeftBehindApart(levels: Levels, level: nat, in0: seq<File>, in1: seq<File>, h: File, f: File)
    requires ValidLevels(levels) && level + 1 < NUM_LEVELS && ValidPick(levels, level, in0, in1)
    requires h in levels[level+1] && h !in in1 && f in in0
    ensures Apart(h, f)
  {
    var smallest, largest :|
      RangeOf(in0, smallest, largest) && in1 == FilesInRange(levels[level+1], Some(smallest.user), Some(largest.user));
    FilesInRangeMembers(levels[level+1], Some(smallest.user), Some(largest.user));
    UserOrder();
    assert !KeyLess(f.smallest, smallest) && !KeyLess(largest, f.largest);
  }

  /** Without shared user keys between files of a level, every pick is closed under user key. */
  lemma UserDisjointClosed(levels: Levels, level: nat, in0: seq<File>, in1: seq<File>)
    requires ValidLevels(levels) && UserDisjoint(levels) && level + 1 < NUM_LEVELS && ValidPick(levels, level, in0, in1)
    ensures ClosedPick(levels, level, in0, in1)
  {
    PickedInputs(levels, level, in0, in1);
    assert FileContents(in0) == SetContents(Files(in0)) && FileContents(in1) == SetContents(Files(in1));
    assert forall l, f :: 0 <= l < NUM_LEVELS && f in levels[l] ==> ValidFile(f);
    ApartNewer(Files(levels[level]) - Files(in0), Files(in0));
    ApartNewer(Files(levels[level+1]) - Files(in1), Files(in1));
    forall h, f | h in Files(levels[level+1]) - Files(in1) && f in Files(in0) ensures Apart(h, f) {
      LeftBehindApart(levels, level, in0, in1, h, f);
    }
    ApartNewer(Files(levels[level+1]) - Files(in1), Files(in0));
    NewerUnion(FileContents(in0), FileContents(in1), SetContents(Files(levels[level+1]) - Files(in1)));
  }

  lemma OrderedApart(f: File, g: File)
    requires ValidFile(f) && ValidFile(g) && Ordered(f, g)
    requires forall a, b :: a in f.entries && b in g.entries ==> a.key.user != b.key.user
    ensures Apart(f, g)
  {
    assert f.entries[0] in f.entries && f.entries[|f.entries|-1] in f.entries;
    assert g.entries[0] in g.entries && g.entries[|g.entries|-1] in g.entries;
  }

  lemma OrderedShareNothing(f: File, g: File, e: Entry)
    requires ValidFile(f) && ValidFile(g) && Ordered(f, g) && e in f.entries
    ensures e !in g.entries
  {
    KeyOrder();
    FileBounds(f, e);
    if e in g.entries {
      FileBounds(g, e);
    }
  }

  /** The outputs of a merge done while no snapshot is held share no user key. */
  lemma OutputsApart(db: Db, history: seq<Op>, level: nat, in0: seq<File>, in1: seq<File>, merged: seq<Entry>,
                     outputs: seq<File>, f: File, g: File)
    requires Inv(db, history) && db.snapshots == [] && InputsOf(db.levels, level, in0, in1)
    requires MergedInputs(in0, in1, merged) && Outputs(outputs, db.nextFile)
    requires Flatten(outputs) == Kept(merged, Oldest(db), Base(db.levels, level))
    requires f in outputs && g in outputs && f != g
    ensures Apart(f, g)
  {
    hide Agrees, NewestAbove, UniqueNumbers, SortedBySmallest, Sorted;
    OutputsMadeOfInputs(db, level, in0, in1, merged, outputs);
    var kept := Kept(merged, Oldest(db), Base(db.levels, level));
    forall e | e in merged ensures e.key.seqno <= Oldest(db) {
      assert e in Elems(merged);
      InputContents(db.levels, level, in0, in1);
      LevelContentsAbove(db.levels, level);
      LevelContentsAbove(db.levels, level + 1);
      assert e in All(db);
    }
    forall a, b | a in f.entries && b in g.entries ensures a.key.user != b.key.user {
      assert a in FileContents(outputs) && b in FileContents(outputs) && a in Elems(kept) && b in Elems(kept);
      if a.key.user == b.key.user {
        OneKeptPerUser(merged, Oldest(db), Base(db.levels, level), a, b);
        OrderedShareNothing(f, g, a);
      }
    }
    OrderedApart(f, g);
  }

  lemma OutputApartFromLeftBehind(levels: Levels, level: nat, in0: seq<File>, in1: seq<File>, o: File, h: File)
    requires ValidLevels(levels) && UserDisjoint(levels) && level + 1 < NUM_LEVELS && ValidPick(levels, level, in0, in1)
    requires h in levels[level+1] && h !in in1
    requires ValidFile(o) && Elems(o.entries) <= FileContents(in0) + FileContents(in1)
    ensures Apart(o, h)
  {
    PickedInputs(levels, level, in0, in1);
    OutputsFit(levels, level, in0, in1, o, h);
    forall a, b | a in o.entries && b in h.entries ensures a.key.user != b.key.user {
      assert a in Elems(o.entries);
      if a in FileContents(in0) {
        var f :| f in in0 && a in f.entries;
        LeftBehindApart(levels, level, in0, in1, h, f);
        ApartNoSharedUser(h, f);
      } else {
        var f :| f in in1 && a in f.entries;
        ApartNoSharedUser(h, f);
      }
    }
    OrderedApart(o, h);
  }

  lemma ReplacedUserDisjoint(levels: Levels, removed: seq<set<File>>, target: nat, added: set<File>, levels': Levels)
    requires Replaced(levels, removed, target, added, levels') && UserDisjoint(levels)
    requires target > 0 ==> forall f, g :: f in added && g in added && f != g ==> Apart(f, g)
    requires target > 0 ==> forall f, g :: f in added && g in levels[target] && g !in removed[target] ==> Apart(f, g)
    ensures UserDisjoint(levels')
  {
    forall l, f, g | 1 <= l < NUM_LEVELS && f in levels'[l] && g in levels'[l] && f != g ensures Apart(f, g) {
      ReplacedMembers(levels, removed, target, added, levels', l, f);
      ReplacedMembers(levels, removed, target, added, levels', l, g);
      if f in levels[l] && g in levels[l] {
        assert Apart(f, g);
      } else if f in added && g in levels[l] && g !in added {
        assert Apart(f, g);
      } else if g in added && f in levels[l] && f !in added {
        assert Apart(g, f);
      }
    }
  }

  lemma FlushUserDisjoint(db: Db, level: nat, db': Db)
    requires Shape(db) && UserDisjoint(db.levels) && FlushStep(db, level, db')
    ensures UserDisjoint(db'.levels)
  {
    if db.imm != Some([]) {
      var n :| MemTableFile(db, n) && FlushLevel(db, n, level) &&
               LevelsEdited(db.levels, FileEdit([], [(level, n)]), db'.levels);
      FlushReplaces(db.levels, level, n, db'.levels);
      forall g | level > 0 && g in db.levels[level] ensures Apart(n, g) {
        OutsideRange(g, n);
      }
      ReplacedUserDisjoint(db.levels, NothingRemoved(), level, {n}, db'.levels);
    }
  }

  lemma MoveUserDisjoint(db: Db, level: nat, n: File, db': Db)
    requires Shape(db) && UserDisjoint(db.levels) && MoveStep(db, level, n, db')
    ensures UserDisjoint(db'.levels)
  {
    hide ValidLevels, ValidPick, Replaced, LevelsEdited, NumbersFree, SortedBySmallest;
    PickedInputs(db.levels, level, [n], []);
    assert n in [n];
    forall g | g in db.levels[level+1] ensures Apart(n, g) {
      LeftBehindApart(db.levels, level, [n], [], g, n);
    }
    MoveEdit(db, level, n, db'.levels);
    ReplacedUserDisjoint(db.levels, RemovedAt(level, Files([n]), Files([])), level + 1, Files([n]), db'.levels);
  }

  lemma AllOutputsApart(db: Db, history: seq<Op>, level: nat, in0: seq<File>, in1: seq<File>, merged: seq<Entry>,
                        outputs: seq<File>)
    requires Inv(db, history) && UserDisjoint(db.levels) && db.snapshots == []
    requires level + 1 < NUM_LEVELS && ValidPick(db.levels, level, in0, in1)
    requires MergedInputs(in0, in1, merged) && Outputs(outputs, db.nextFile)
    requires Flatten(outputs) == Kept(merged, Oldest(db), Base(db.levels, level))
    ensures forall f, g :: f in outputs && g in outputs && f != g ==> Apart(f, g)
    ensures forall o, h :: o in outputs && h in db.levels[level+1] && h !in in1 ==> Apart(o, h)
  {
    PickedInputs(db.levels, level, in0, in1);
    OutputsMadeOfInputs(db, level, in0, in1, merged, outputs);
    forall o, h | o in outputs && h in db.levels[level+1] && h !in in1 ensures Apart(o, h) {
      assert Elems(o.entries) <= FileContents(outputs);
      OutputApartFromLeftBehind(db.levels, level, in0, in1, o, h);
    }
    forall f, g | f in outputs && g in outputs && f != g ensures Apart(f, g) {
      OutputsApart(db, history, level, in0, in1, merged, outputs, f, g);
    }
  }

  lemma CompactUserDisjoint(db: Db, history: seq<Op>, level: nat, in0: seq<File>, in1: seq<File>, merged: seq<Entry>,
                            outputs: seq<File>, db': Db)
    requires Inv(db, history) && UserDisjoint(db.levels) && db.snapshots == []
    requires CompactStep(db, level, in0, in1, merged, outputs, db')
    ensures UserDisjoint(db'.levels)
  {
    hide ValidLevels, ValidPick, Replaced, Apart, LevelsEdited, Agrees, Recorded, Layered, Kept, SortedBySmallest;
    hide Flatten, Base, Outputs, MergedInputs, NewestAbove, UniqueNumbers, UserDisjoint, InputsOf, CompactionEdit;
    AllOutputsApart(db, history, level, in0, in1, merged, outputs);
    PickedInputs(db.levels, level, in0, in1);
    EditReplaces(db, level, in0, in1, outputs, db'.levels);
    ReplacedUserDisjoint(db.levels, RemovedAt(level, Files(in0), Files(in1)), level + 1, Files(outputs), db'.levels);
  }

  ghost predicate NoSnapshotAtMerges(states: seq<Db>, actions: seq<Action>)
    requires |states| == |actions| + 1
  {
    forall i :: 0 <= i < |actions| && actions[i].Compact? ==> states[i].snapshots == []
  }

  lemma StepUserDisjoint(db: Db, history: seq<Op>, a: Action, db': Db)
    requires Inv(db, history) && UserDisjoint(db.levels) && Step(db, a, db') && (a.Compact? ==> db.snapshots == [])
    ensures Closed(db, a) && UserDisjoint(db'.levels)
  {
    match a
    case FlushMemTable(level) => FlushUserDisjoint(db, level, db');
    case MoveFile(level, f) =>
      UserDisjointClosed(db.levels, level, [f], []);
      MoveUserDisjoint(db, level, f, db');
    case Compact(level, in0, in1, merged, outputs) =>
      UserDisjointClosed(db.levels, level, in0, in1);
      CompactUserDisjoint(db, history, level, in0, in1, merged, outputs, db');
    case _ =>
  }

  /** Store refinement without hypotheses on the picks: in a run that merges only while no snapshot
      is held, every pick is closed under user key by itself, and the store agrees with the map. */
  lemma {:induction false} SnapshotFreeRunKeepsInv(states: seq<Db>, actions: seq<Action>)
    requires Run(states, actions) && NoSnapshotAtMerges(states, actions)
    ensures Inv(states[|actions|], History(actions)) && UserDisjoint(states[|actions|].levels)
  {
    if actions == [] {
      InitialInv(states[0]);
    } else {
      var n := |actions| - 1;
      SnapshotFreeRunKeepsInv(states[..n+1], actions[..n]);
      StepUserDisjoint(states[n], History(actions[..n]), actions[n], states[n+1]);
      StepKeepsInv(states[n], History(actions[..n]), actions[n], states[n+1]);
    }
  }

  // When a pick is not closed.

  /** A trivial move keeps the invariant exactly when no file it leaves behind in its level holds an
      older entry for one of its user keys. */
  lemma MoveKeepsInvIff(db: Db, history: seq<Op>, level: nat, f: File, db': Db)
    requires Inv(db, history) && MoveStep(db, level, f, db')
    ensures Inv(db', history) <==> Newer(SetContents(Files(db.levels[level]) - {f}), Elems(f.entries))
  {
    PickedInputs(db.levels, level, [f], []);
    if Newer(SetContents(Files(db.levels[level]) - {f}), Elems(f.entries)) {
      MoveClosed(db, level, f);
      MoveKeepsInv(db, history, level, f, db');
    } else if Inv(db', history) {
      MoveEdit(db, level, f, db'.levels);
      MovedLayers(db, level, f, db'.levels);
    }
  }

  lemma MoveClosed(db: Db, level: nat, f: File)
    requires Shape(db) && level + 1 < NUM_LEVELS && ValidPick(db.levels, level, [f], [])
    requires Newer(SetContents(Files(db.levels[level]) - {f}), Elems(f.entries))
    ensures ClosedPick(db.levels, level, [f], [])
  {
    hide ValidPick, UniqueNumbers, SortedBySmallest;
    PickedInputs(db.levels, level, [f], []);
    assert Files([f]) == {f} && FileContents([f]) == Elems(f.entries) && FileContents([]) == {};
    var left := Files(db.levels[level+1]) - Files([]);
    assert f in [f];
    forall h | h in left ensures Apart(h, f) {
      LeftBehindApart(db.levels, level, [f], [], h, f);
    }
    ApartNewer(left, {f});
    assert SetContents({f}) == Elems(f.entries);
  }

  lemma MovedLayers(db: Db, level: nat, f: File, levels': Levels)
    requires InputsOf(db.levels, level, [f], [])
    requires Replaced(db.levels, RemovedAt(level, Files([f]), Files([])), level + 1, Files([f]), levels')
    requires Layered(levels')
    ensures Newer(SetContents(Files(db.levels[level]) - {f}), Elems(f.entries))
  {
    var removed := RemovedAt(level, Files([f]), Files([]));
    ReplacedContents(db.levels, removed, level + 1, Files([f]), levels', level);
    ReplacedContents(db.levels, removed, level + 1, Files([f]), levels', level + 1);
    assert Files([f]) == {f};
    assert SetContents({f}) == Elems(f.entries);
    assert Newer(FileContents(levels'[level]), FileContents(levels'[level+1]));
  }
}
