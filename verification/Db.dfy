/** The database object: its methods change the memtables, the file lists and the snapshot list in
    place, and each of them takes one step of the store's state machine (db/db_impl.cc). */
module DbImpl {
  import opened Keys
  import opened Contents
  import opened Versions
  import opened Overlaps
  import opened Compactions
  import opened VersionBuilder
  import opened Cursors
  import opened Merger
  import opened Store
  import opened StoreCompaction
  import opened StoreRuns

  lemma InsertedSorted(mem: seq<Entry>, e: Entry, at: nat)
    requires Sorted(mem) && at == LowerBound(mem, e.key) && forall o :: o in mem ==> o.key != e.key
    ensures Sorted(mem[..at] + [e] + mem[at..])
  {
    KeyOrder();
    forall i | at <= i < |mem| ensures KeyLess(e.key, mem[i].key) {
      assert mem[at] in mem;
      assert i == at || KeyLess(mem[at].key, mem[i].key);
    }
  }

  /** MemTable::Add: the memtable stays sorted by internal key. */
  method AddToMemTable(mem: seq<Entry>, e: Entry) returns (mem': seq<Entry>)
    requires Sorted(mem) && forall o :: o in mem ==> o.key != e.key
    ensures Sorted(mem') && Elems(mem') == Elems(mem) + {e}
  {
    hide Sorted;
    var at := LowerBound(mem, e.key);
    InsertedSorted(mem, e, at);
    mem' := mem[..at] + [e] + mem[at..];
    assert mem == mem[..at] + mem[at..];
    assert forall o :: o in mem' <==> o in mem || o == e;
  }

  /** A builder on the current file lists applies one edit and saves. */
  method ApplyEdit(levels: Levels, edit: FileEdit) returns (levels': Levels)
    requires |levels| == NUM_LEVELS && EditLevels(edit)
    requires forall l :: 0 <= l < NUM_LEVELS ==> SortedBySmallest(levels[l]) && FreshNumbers(edit, l, Files(levels[l]))
    ensures LevelsEdited(levels, edit, levels')
  {
    var builder := new Builder(levels);
    forall l | 0 <= l < NUM_LEVELS ensures FreshNumbers(edit, l, {}) {
      assert FreshNumbers(edit, l, Files(levels[l])) && Numbers({}) == {};
    }
    builder.Apply(edit);
    forall l | 0 <= l < NUM_LEVELS ensures Numbers(Files(levels[l])) !! Numbers(builder.State(l).added) {
      assert FreshNumbers(edit, l, Files(levels[l]));
    }
    levels' := builder.SaveTo();
    forall l | 0 <= l < NUM_LEVELS ensures Files(levels'[l]) == Edited(Files(levels[l]), edit, l) {
      assert FreshNumbers(edit, l, Files(levels[l]));
      OneEditSaved(Files(levels[l]), edit, l);
    }
  }

  class DBImpl {
    var mem: seq<Entry>
    var imm: Option<seq<Entry>>
    var levels: Levels
    var lastSequence: SequenceNumber
    var nextFile: nat
    var snapshots: seq<SequenceNumber>
    ghost var history: seq<Op>  // the operations written so far, in order

    ghost function State(): Db
      reads this
    {
      Db(mem, imm, levels, lastSequence, nextFile, snapshots)
    }

    ghost predicate Valid()
      reads this
    {
      Inv(State(), history)
    }

    constructor ()
      ensures Initial(State()) && history == [] && Valid()
    {
      mem, imm, levels := [], None, seq(NUM_LEVELS, _ => []);
      lastSequence, nextFile, snapshots := 0, 2, [];
      history := [];
      new;
      InitialInv(State());
    }

    /** Reading at the current sequence number or at a snapshot held returns exactly what a plain map
        of the operations up to that point holds. */
    method Get(user: Bytes, snapshot: Option<SequenceNumber>) returns (value: Option<Bytes>)
      requires Valid() && (snapshot.Some? ==> snapshot.value in snapshots)
      ensures var s := if snapshot.Some? then snapshot.value else lastSequence;
              s <= |history| && value == Lookup(Replay(history[..s]), user)
    {
      hide Recorded, Agrees, ValidLevels, UniqueNumbers, Layered, LevelContents, Sorted;
      var s := if snapshot.Some? then snapshot.value else lastSequence;
      var r := LayeredGet(user, s);
      ReadersAgree(State(), history, user, s);
      FoundIsRead(State(), history, user, s, r);
      value := if r.Some? && r.value.key.kind == Value then Some(r.value.value) else None;
    }

    // The memtable first, then the immutable memtable, then the files.
    method LayeredGet(user: Bytes, s: SequenceNumber) returns (r: Option<Entry>)
      requires Valid()
      ensures FindsNewest(All(State()), user, s, r)
    {
      hide Recorded, Agrees, UniqueNumbers, Layered, LevelContents, IsNewest;
      ProbeFindsNewest(mem, user, s);
      r := Probe(mem, user, s);
      if r.Some? {
        FoundInMem(State(), user, s, r.value);
        return;
      }
      if imm.Some? {
        ProbeFindsNewest(imm.value, user, s);
        r := Probe(imm.value, user, s);
        if r.Some? {
          FoundInImm(State(), user, s, r.value);
          return;
        }
      }
      TopLayered(levels);
      r := VersionGet(levels, user, s);
      FoundInFiles(State(), user, s, r);
    }

    /** A batch goes to the memtable entry by entry, then the last sequence number moves on. */
    method Write(batch: seq<Op>)
      requires Valid() && lastSequence + |batch| < MAX_SEQUENCE
      modifies this
      ensures Valid() && history == old(history) + batch
      ensures Step(old(State()), Action.Write(batch), State())
    {
      hide NewestAbove, Agrees, ValidLevels, UniqueNumbers, SortedBySmallest, LevelContents, NewEntries;
      NoNewEntries(lastSequence);
      for i := 0 to |batch|
        invariant unchanged(this`imm, this`levels, this`lastSequence, this`nextFile, this`snapshots, this`history)
        invariant Sorted(mem) && Elems(mem) == Elems(old(mem)) + NewEntries(batch[..i], lastSequence)
      {
        assert batch[..i+1] == batch[..i] + [batch[i]];
        NewKeyNotInMem(old(State()), history, batch[..i], mem);
        NewEntriesAppend(batch[..i], batch[i], lastSequence);
        mem := AddToMemTable(mem, NewEntry(batch[i], lastSequence + 1 + i));
      }
      assert batch[..0] == [] && batch[..|batch|] == batch;
      lastSequence := lastSequence + |batch|;
      WriteKeepsInv(old(State()), history, batch, State());
      history := history + batch;
    }

    /** MakeRoomForWrite's switch to a new memtable. */
    method SwitchMemTable()
      requires Valid() && imm.None?
      modifies this
      ensures Valid() && history == old(history) && Step(old(State()), Action.SwitchMemTable, State())
    {
      imm := Some(mem);
      mem := [];
      nextFile := nextFile + 1;
      SwitchKeepsInv(old(State()), history, State());
    }

    /** LogAndApply: the new version is the current one with the edit applied. */
    method LogAndApply(edit: FileEdit)
      requires |levels| == NUM_LEVELS && EditLevels(edit)
      requires forall l :: 0 <= l < NUM_LEVELS ==> SortedBySmallest(levels[l])
      requires forall l :: 0 <= l < NUM_LEVELS ==> FreshNumbers(edit, l, Files(levels[l]))
      modifies this`levels
      ensures LevelsEdited(old(levels), edit, levels)
    {
      levels := ApplyEdit(levels, edit);
    }

    method CompactMemTable(overlapLimit: nat, size: nat)
      requires Valid() && imm.Some?
      modifies this
      ensures Valid() && history == old(history) && imm.None?
      ensures exists level :: Step(old(State()), FlushMemTable(level), State()) && Chosen(old(State()), FlushMemTable(level), overlapLimit)
    {
      hide Recorded, Agrees, NewestAbove, UniqueNumbers, SortedBySmallest, All, LevelsEdited, MemTableLevel;
      ghost var before, ops := State(), history;
      var level := 0;
      if imm.value != [] {
        var es := imm.value;
        var f := File(nextFile, size, es[0].key, es[|es|-1].key, es);
        level := PickLevelForMemTableOutput(levels, f.smallest.user, f.largest.user, overlapLimit);
        MemTableLevelBound(levels, f.smallest.user, f.largest.user, overlapLimit, level);
        FlushEditFresh(State(), f, level);
        LogAndApply(FileEdit([], [(level, f)]));
        assert MemTableFile(before, f) && FlushLevel(before, f, level);
      }
      imm := None;
      nextFile := nextFile + 1;
      assert FlushStep(before, level, State());
      FlushKeepsInv(before, ops, level, State());
      assert Step(before, FlushMemTable(level), State()) && Chosen(before, FlushMemTable(level), overlapLimit);
    }

    /** One background compaction at a level around file f: a trivial move when one input meets no
        file of the next level, a merge otherwise. It takes a step of the state machine, and keeps
        the invariant whenever the pick is closed under user key. */
    method BackgroundCompaction(level: nat, f: File, sizeLimit: nat, overlapLimit: nat) returns (ghost a: Action)
      requires Valid() && level + 1 < NUM_LEVELS && f in levels[level]
      modifies this
      ensures Step(old(State()), a, State()) && (a.MoveFile? || a.Compact?) && a.level == level && history == old(history)
      ensures Chosen(old(State()), a, overlapLimit)
      ensures PickAround(old(levels), level, f, sizeLimit, if a.MoveFile? then [a.file] else a.in0, if a.MoveFile? then [] else a.in1)
      ensures Closed(old(State()), a) ==> Valid()
    {
      hide NewestAbove, Recorded, Agrees, UniqueNumbers, ValidPick, PickAround, MoveStep, CompactStep, MovesTrivially;
      SortedDistinct(levels[level]);
      var in0, in1 := PickCompaction(levels, level, f, sizeLimit);
      var trivial := IsTrivialMove(levels, level, in0, in1, overlapLimit);
      if trivial {
        OneInput(levels, level, in0, in1, overlapLimit);
        TrivialMove(level, in0[0]);
        a := MoveFile(level, in0[0]);
      } else {
        a := Merge(level, in0, in1);
      }
      if Closed(old(State()), a) {
        StepKeepsInv(old(State()), history, a, State());
      }
    }

    lemma OneInput(levels: Levels, level: nat, in0: seq<File>, in1: seq<File>, overlapLimit: nat)
      requires |levels| == NUM_LEVELS && level + 1 < NUM_LEVELS && MovesTrivially(levels, level, in0, in1, overlapLimit)
      ensures |in0| == 1 && in1 == [] && in0 == [in0[0]]
    {
    }

    method TrivialMove(level: nat, f: File)
      requires Shape(State()) && level + 1 < NUM_LEVELS && ValidPick(levels, level, [f], [])
      modifies this
      ensures MoveStep(old(State()), level, f, State()) && history == old(history)
    {
      hide ValidPick;
      PickedInputs(levels, level, [f], []);
      assert f in [f];
      MoveEditFresh(State(), level, f);
      LogAndApply(FileEdit([(level, f.number)], [(level + 1, f)]));
    }

    method Merge(level: nat, in0: seq<File>, in1: seq<File>) returns (ghost a: Action)
      requires Shape(State()) && NewestAbove(State()) && level + 1 < NUM_LEVELS && ValidPick(levels, level, in0, in1)
      modifies this
      ensures a.Compact? && a.level == level && a.in0 == in0 && a.in1 == in1
      ensures Step(old(State()), a, State()) && history == old(history)
    {
      hide Layered, ValidPick, UniqueNumbers, MergedInputs;
      var merged := MergeInputs(levels, level, in0, in1);
      var smallest := if snapshots == [] then lastSequence else snapshots[0];
      OldestInRange(State());
      var outputs := DoCompactionWork(levels, level, merged, smallest, nextFile);
      CompactionEditFresh(State(), level, in0, in1, outputs);
      assert forall l :: 0 <= l < NUM_LEVELS ==> SortedBySmallest(levels[l]);
      LogAndApply(CompactionEdit(level, in0, in1, outputs));
      nextFile := nextFile + |outputs|;
      a := Compact(level, in0, in1, merged, outputs);
      assert CompactStep(old(State()), level, in0, in1, merged, outputs, State());
    }

    method GetSnapshot() returns (s: SequenceNumber)
      requires Valid()
      modifies this
      ensures Valid() && history == old(history) && Step(old(State()), TakeSnapshot, State()) && s == lastSequence == |history|
      ensures multiset(snapshots) == old(multiset(snapshots)) + multiset{s}
    {
      s := lastSequence;
      snapshots := snapshots + [s];
      StepKeepsInv(old(State()), history, TakeSnapshot, State());
    }

    method ReleaseSnapshot(i: nat)
      requires Valid() && i < |snapshots|
      modifies this
      ensures Valid() && history == old(history) && Step(old(State()), DropSnapshot(i), State())
      ensures multiset(snapshots) == old(multiset(snapshots)) - multiset{old(snapshots)[i]}
    {
      assert snapshots == snapshots[..i] + [snapshots[i]] + snapshots[i+1..];
      snapshots := snapshots[..i] + snapshots[i+1..];
      StepKeepsInv(old(State()), history, DropSnapshot(i), State());
    }
  }

  // Reading.

  lemma FoundIsRead(db: Db, history: seq<Op>, user: Bytes, s: nat, r: Option<Entry>)
    requires Inv(db, history) && FindsNewest(All(db), user, s, r)
    ensures ReadAt(All(db), user, s) == if r.Some? && r.value.key.kind == Value then Some(r.value.value) else None
  {
    RecordedCoherent(All(db), history);
    if r.Some? {
      ReadNewest(All(db), user, s, r.value);
    } else {
      ReadNothing(All(db), user, s);
    }
  }

  lemma FoundInMem(db: Db, user: Bytes, s: nat, e: Entry)
    requires |db.levels| == NUM_LEVELS && NewestAbove(db) && IsNewest(Elems(db.mem), user, s, e)
    ensures IsNewest(All(db), user, s, e)
  {
    hide Layered, LevelContents;
  }

  lemma FoundInImm(db: Db, user: Bytes, s: nat, e: Entry)
    requires |db.levels| == NUM_LEVELS && NewestAbove(db) && IsNewest(ImmElems(db), user, s, e)
    requires FindsNewest(Elems(db.mem), user, s, None)
    ensures IsNewest(All(db), user, s, e)
  {
    hide Layered, LevelContents;
  }

  lemma FoundInFiles(db: Db, user: Bytes, s: nat, r: Option<Entry>)
    requires FindsNewest(Elems(db.mem), user, s, None) && FindsNewest(ImmElems(db), user, s, None)
    requires FindsNewest(LevelContents(db.levels), user, s, r)
    ensures FindsNewest(All(db), user, s, r)
  {
    hide LevelContents;
  }

  // Writing.

  lemma NoNewEntries(last: SequenceNumber)
    ensures NewEntries([], last) == {}
  {
  }

  lemma NewEntriesAppend(batch: seq<Op>, op: Op, last: SequenceNumber)
    requires last + |batch| < MAX_SEQUENCE
    ensures NewEntries(batch + [op], last) == NewEntries(batch, last) + {NewEntry(op, last + 1 + |batch|)}
  {
    var all := batch + [op];
    forall e ensures e in NewEntries(all, last) <==> e in NewEntries(batch, last) + {NewEntry(op, last + 1 + |batch|)} {
      if e in NewEntries(batch, last) {
        var i :| 0 <= i < |batch| && e == NewEntry(batch[i], last + 1 + i);
        assert e == NewEntry(all[i], last + 1 + i);
      }
      assert all[|batch|] == op;
    }
  }

  lemma NewKeyNotInMem(db: Db, history: seq<Op>, batch: seq<Op>, mem: seq<Entry>)
    requires Recorded(All(db), history) && |history| == db.lastSequence && db.lastSequence + |batch| < MAX_SEQUENCE
    requires Elems(mem) == Elems(db.mem) + NewEntries(batch, db.lastSequence)
    ensures forall e :: e in mem ==> e.key.seqno <= db.lastSequence + |batch|
  {
    hide LevelContents;
    forall e | e in mem ensures e.key.seqno <= db.lastSequence + |batch| {
      assert e in Elems(mem);
      assert e in Elems(db.mem) ==> e in All(db);
    }
  }

  // The edits of every step add numbers that are free in the target level.

  lemma OneEditSaved(files: set<File>, edit: FileEdit, level: nat)
    requires Numbers(Added(edit, level)) !! Numbers(files)
    ensures Saved(files, Applied(LevelState({}, {}), edit, level)) == Edited(files, edit, level)
  {
    assert forall f :: f in files ==> f.number in Numbers(files);
    assert forall f :: f in Added(edit, level) ==> f.number in Numbers(Added(edit, level));
  }

  lemma FlushEditFresh(db: Db, f: File, level: nat)
    requires UniqueNumbers(db) && |db.levels| == NUM_LEVELS && f.number == db.nextFile
    ensures forall l :: 0 <= l < NUM_LEVELS ==> FreshNumbers(FileEdit([], [(level, f)]), l, Files(db.levels[l]))
  {
  }

  lemma MoveEditFresh(db: Db, level: nat, f: File)
    requires UniqueNumbers(db) && |db.levels| == NUM_LEVELS && level + 1 < NUM_LEVELS && f in db.levels[level]
    ensures forall l :: 0 <= l < NUM_LEVELS ==>
                          FreshNumbers(FileEdit([(level, f.number)], [(level + 1, f)]), l, Files(db.levels[l]))
  {
  }

  lemma CompactionEditFresh(db: Db, level: nat, in0: seq<File>, in1: seq<File>, outputs: seq<File>)
    requires UniqueNumbers(db) && |db.levels| == NUM_LEVELS && level + 1 < NUM_LEVELS && Outputs(outputs, db.nextFile)
    ensures EditLevels(CompactionEdit(level, in0, in1, outputs))
    ensures forall l :: 0 <= l < NUM_LEVELS ==> FreshNumbers(CompactionEdit(level, in0, in1, outputs), l, Files(db.levels[l]))
  {
    hide UniqueNumbers;
    var edit := CompactionEdit(level, in0, in1, outputs);
    assert forall d :: d in edit.deletedFiles ==> d.0 < NUM_LEVELS;
    forall l | 0 <= l < NUM_LEVELS ensures FreshNumbers(edit, l, Files(db.levels[l])) {
      EditAdds(level, in0, in1, outputs, l);
      OutputNumbersNew(db, outputs, l);
    }
  }

  lemma OutputNumbersNew(db: Db, outputs: seq<File>, l: nat)
    requires UniqueNumbers(db) && l < |db.levels| && Outputs(outputs, db.nextFile)
    ensures Numbers(Files(outputs)) !! Numbers(Files(db.levels[l]))
  {
  }

  lemma SortedDistinct(files: seq<File>)
    requires SortedBySmallest(files)
    ensures DistinctFiles(files)
  {
    forall i, j | 0 <= i < j < |files| ensures files[i] != files[j] {
      BySmallestOrder(files[i], files[j], files[i]);
    }
  }

  // The iterators a compaction merges: one per level-0 file, one per deeper level.

  function InputLists(level: nat, in0: seq<File>, in1: seq<File>): seq<seq<Entry>> {
    (if level == 0 then seq(|in0|, i requires 0 <= i < |in0| => in0[i].entries) else [Flatten(in0)]) + [Flatten(in1)]
  }

  /** The sorted merge of the inputs, read through the merging iterator. */
  method MergeInputs(levels: Levels, level: nat, in0: seq<File>, in1: seq<File>) returns (merged: seq<Entry>)
    requires ValidLevels(levels) && Layered(levels) && level + 1 < NUM_LEVELS && ValidPick(levels, level, in0, in1)
    ensures MergedInputs(in0, in1, merged)
  {
    var lists := InputLists(level, in0, in1);
    InputListsDistinct(levels, level, in0, in1);
    merged := ReadAll(lists);
    InputListsContents(level, in0, in1, merged);
  }

  method ReadAll(lists: seq<seq<Entry>>) returns (merged: seq<Entry>)
    requires DistinctLists(lists)
    ensures MergeOf(lists, merged)
  {
    hide DistinctLists, MergeOf, AllAhead, AllBehind;
    var iter := new MergingIterator(lists);
    ghost var all := iter.merged;
    iter.SeekToFirst();
    merged := [];
    while iter.current.Some?
      invariant fresh(iter) && iter.Valid() && iter.merged == all && iter.lists == lists
      invariant iter.at <= |all| && merged == all[..iter.at]
      decreases |all| - iter.at
    {
      merged := merged + [iter.children[iter.current.value].Entry()];
      iter.Next();
    }
    assert merged == all;
  }

  lemma {:induction false} FlattenSorted(files: seq<File>)
    requires ValidFiles(files) && Disjoint(files)
    ensures Sorted(Flatten(files))
  {
    if files != [] {
      var n := |files| - 1;
      FlattenSorted(files[..n]);
      FlattenContents(files[..n]);
      var init, last := Flatten(files[..n]), files[n].entries;
      assert files[n] in files;
      forall i, j | 0 <= i < |init| && 0 <= j < |last| ensures KeyLess(init[i].key, last[j].key) {
        assert init[i] in Elems(init);
        var f :| f in files[..n] && init[i] in f.entries;
        var k :| 0 <= k < n && files[k] == f;
        assert last[j] in last;
        EarlierFileEarlier(files, k, n, init[i], last[j]);
      }
    }
  }

  lemma EarlierFileEarlier(files: seq<File>, i: nat, j: nat, a: Entry, b: Entry)
    requires ValidFiles(files) && Disjoint(files) && i < j < |files| && a in files[i].entries && b in files[j].entries
    ensures KeyLess(a.key, b.key)
  {
    KeyOrder();
    assert ValidFile(files[i]) && ValidFile(files[j]);
    FileBounds(files[i], a);
    FileBounds(files[j], b);
  }

  lemma InputListsContents(level: nat, in0: seq<File>, in1: seq<File>, merged: seq<Entry>)
    requires MergeOf(InputLists(level, in0, in1), merged)
    ensures MergedInputs(in0, in1, merged)
  {
    var lists := InputLists(level, in0, in1);
    FlattenContents(in0);
    FlattenContents(in1);
    forall e ensures e in merged <==> e in FileContents(in0) + FileContents(in1) {
      if e in FileContents(in0) {
        if level == 0 {
          var f :| f in in0 && e in f.entries;
          var i :| 0 <= i < |in0| && in0[i] == f;
          assert e in lists[i];
        } else {
          assert e in Elems(Flatten(in0)) && e in lists[0];
        }
      }
      if e in FileContents(in1) {
        assert e in Elems(Flatten(in1)) && e in lists[|lists|-1];
      }
      if e in merged {
        var i :| 0 <= i < |lists| && e in lists[i];
        if i == |lists| - 1 {
          assert e in Elems(Flatten(in1));
        } else if level == 0 {
          assert in0[i] in in0;
        } else {
          assert e in Elems(Flatten(in0));
        }
      }
    }
  }

  lemma NewerKeysDistinct(A: seq<Entry>, B: seq<Entry>)
    requires Newer(Elems(A), Elems(B)) || Newer(Elems(B), Elems(A))
    ensures KeySet(A) !! KeySet(B)
  {
    forall a, b | a in A && b in B ensures a.key != b.key {
      assert a in Elems(A) && b in Elems(B);
    }
  }

  lemma InputListsDistinct(levels: Levels, level: nat, in0: seq<File>, in1: seq<File>)
    requires ValidLevels(levels) && Layered(levels) && level + 1 < NUM_LEVELS && ValidPick(levels, level, in0, in1)
    ensures DistinctLists(InputLists(level, in0, in1))
  {
    hide DistinctLists, Sorted, Newer, Disjoint, ValidPick, ValidFiles, DistinctFiles, NewerByNumber, FileContents;
    PickedInputs(levels, level, in0, in1);
    PickedDisjoint(levels, level, in0, in1);
    InputsNewer(levels, level, in0, in1);
    if level == 0 {
      FlattenContents(in1);
      FlattenSorted(in1);
      Level0ListsDistinct(levels[0], in0, Flatten(in1));
    } else {
      assert InputLists(level, in0, in1) == [Flatten(in0), Flatten(in1)];
      DeeperListsDistinct(in0, in1);
    }
  }

  lemma InputsNewer(levels: Levels, level: nat, in0: seq<File>, in1: seq<File>)
    requires InputsOf(levels, level, in0, in1) && Layered(levels)
    ensures Newer(FileContents(in0), FileContents(in1))
  {
    InputContents(levels, level, in0, in1);
    assert Newer(FileContents(levels[level]), FileContents(levels[level+1]));
    NewerSubsets(FileContents(levels[level]), FileContents(levels[level+1]), FileContents(in0), FileContents(in1));
  }

  lemma DeeperListsDistinct(in0: seq<File>, in1: seq<File>)
    requires ValidFiles(in0) && ValidFiles(in1) && Disjoint(in0) && Disjoint(in1)
    requires Newer(FileContents(in0), FileContents(in1))
    ensures DistinctLists([Flatten(in0), Flatten(in1)])
  {
    hide Sorted, Disjoint, Newer, KeySet, FileContents, Flatten;
    FlattenContents(in0);
    FlattenContents(in1);
    FlattenSorted(in0);
    FlattenSorted(in1);
    NewerKeysDistinct(Flatten(in0), Flatten(in1));
  }

  lemma PickedDisjoint(levels: Levels, level: nat, in0: seq<File>, in1: seq<File>)
    requires ValidLevels(levels) && level + 1 < NUM_LEVELS && ValidPick(levels, level, in0, in1)
    ensures ValidFiles(in0) && ValidFiles(in1) && Disjoint(in1)
    ensures DistinctFiles(in0) && (level > 0 ==> Disjoint(in0))
  {
    PickedInputs(levels, level, in0, in1);
    var smallest, largest :|
      RangeOf(in0, smallest, largest) && in1 == FilesInRange(levels[level+1], Some(smallest.user), Some(largest.user));
    FilesInRangeDisjoint(levels[level+1], Some(smallest.user), Some(largest.user));
  }

  lemma Level0ListsDistinct(files: seq<File>, in0: seq<File>, below: seq<Entry>)
    requires NewerByNumber(files) && ValidFiles(files) && DistinctFiles(in0) && forall f :: f in in0 ==> f in files
    requires Sorted(below) && Newer(FileContents(in0), Elems(below))
    ensures DistinctLists(seq(|in0|, i requires 0 <= i < |in0| => in0[i].entries) + [below])
  {
    var lists := seq(|in0|, i requires 0 <= i < |in0| => in0[i].entries) + [below];
    forall i | 0 <= i < |lists| ensures Sorted(lists[i]) {
      if i < |in0| { assert in0[i] in in0; }
    }
    forall i, j | 0 <= i < j < |lists| ensures KeySet(lists[i]) !! KeySet(lists[j]) {
      assert in0[i] in in0;
      if j < |in0| {
        assert in0[j] in in0;
      } else {
        assert Elems(lists[i]) <= FileContents(in0);
      }
      NewerKeysDistinct(lists[i], lists[j]);
    }
  }
}
