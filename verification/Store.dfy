/** The store as a state machine over memtables and file levels, and the proof that over every run
    it answers reads exactly as a plain map of the committed operations (db/db_impl.cc,
    db/version_set.cc). */
module Store {
  import opened Keys
  import opened Contents
  import opened Versions
  import opened Overlaps
  import opened Compactions
  import opened VersionBuilder

  datatype Op = Op(user: Bytes, kind: Kind, value: Bytes)

  datatype Db = Db(mem: seq<Entry>, imm: Option<seq<Entry>>, levels: Levels,
                   lastSequence: SequenceNumber, nextFile: nat, snapshots: seq<SequenceNumber>)

  // The plain map the store must agree with.

  function ApplyOp(m: map<Bytes, Bytes>, op: Op): map<Bytes, Bytes> {
    match op.kind
    case Value => m[op.user := op.value]
    case Deletion => m - {op.user}
  }

  function Replay(ops: seq<Op>): map<Bytes, Bytes> {
    if ops == [] then map[] else ApplyOp(Replay(ops[..|ops|-1]), ops[|ops|-1])
  }

  function Lookup(m: map<Bytes, Bytes>, user: Bytes): Option<Bytes> {
    if user in m then Some(m[user]) else None
  }

  ghost function ImmElems(db: Db): set<Entry> {
    if db.imm.Some? then Elems(db.imm.value) else {}
  }

  ghost function All(db: Db): set<Entry> {
    Elems(db.mem) + ImmElems(db) + LevelContents(db.levels)
  }

  /** The oldest sequence number a reader may still ask for. */
  ghost function Oldest(db: Db): nat {
    if db.snapshots == [] then db.lastSequence else db.snapshots[0]
  }

  // The invariant, part by part.

  ghost predicate UniqueNumbers(db: Db) {
    (forall l, f :: 0 <= l < |db.levels| && f in db.levels[l] ==> f.number < db.nextFile) &&
    forall l, f, m, g :: 0 <= l < |db.levels| && 0 <= m < |db.levels| && f in db.levels[l] && g in db.levels[m] ==>
                           f.number != g.number || (l == m && f == g)
  }

  ghost predicate Shape(db: Db) {
    ValidLevels(db.levels) && UniqueNumbers(db) &&
    Sorted(db.mem) && (db.imm.Some? ==> Sorted(db.imm.value)) &&
    (forall l :: 0 <= l < NUM_LEVELS ==> SortedBySmallest(db.levels[l])) &&
    db.lastSequence < MAX_SEQUENCE &&
    (forall i, j :: 0 <= i < j < |db.snapshots| ==> db.snapshots[i] <= db.snapshots[j]) &&
    (forall s :: s in db.snapshots ==> s <= db.lastSequence)
  }

  ghost predicate NewestAbove(db: Db)
    requires |db.levels| == NUM_LEVELS
  {
    Newer(Elems(db.mem), ImmElems(db)) &&
    Newer(Elems(db.mem), LevelContents(db.levels)) &&
    Newer(ImmElems(db), LevelContents(db.levels)) &&
    Layered(db.levels)
  }

  /** Every entry stored records one operation of the history, at its sequence number. */
  ghost predicate Recorded(E: set<Entry>, history: seq<Op>) {
    forall e :: e in E ==> 1 <= e.key.seqno <= |history| &&
                           history[e.key.seqno - 1] == Op(e.key.user, e.key.kind, e.value)
  }

  ghost predicate Agrees(E: set<Entry>, history: seq<Op>, oldest: nat) {
    forall s, user :: oldest <= s <= |history| ==> ReadAt(E, user, s) == Lookup(Replay(history[..s]), user)
  }

  ghost predicate Inv(db: Db, history: seq<Op>) {
    Shape(db) && NewestAbove(db) && |history| == db.lastSequence &&
    Recorded(All(db), history) && Agrees(All(db), history, Oldest(db))
  }

  lemma RecordedCoherent(E: set<Entry>, history: seq<Op>)
    requires Recorded(E, history)
    ensures Coherent(E)
  {
  }

  lemma {:induction false} RecordedExtends(E: set<Entry>, history: seq<Op>, more: seq<Op>)
    requires Recorded(E, history)
    ensures Recorded(E, history + more)
  {
  }

  // Writing.

  function NewEntry(op: Op, seqno: SequenceNumber): Entry {
    Entry(InternalKey(op.user, seqno, op.kind), op.value)
  }

  ghost function NewEntries(batch: seq<Op>, last: SequenceNumber): set<Entry>
    requires last + |batch| <= MAX_SEQUENCE
  {
    set i | 0 <= i < |batch| :: NewEntry(batch[i], last + 1 + i)
  }

  lemma EarlierReadersUnaffected(E: set<Entry>, history: seq<Op>, oldest: nat, op: Op)
    requires |history| < MAX_SEQUENCE
    requires Recorded(E, history) && Agrees(E, history, oldest)
    ensures forall s, user :: oldest <= s <= |history| ==>
              ReadAt(E + {NewEntry(op, |history| + 1)}, user, s) == Lookup(Replay((history + [op])[..s]), user)
  {
    var E', history' := E + {NewEntry(op, |history| + 1)}, history + [op];
    assert Coherent(E) && Coherent(E');
    forall s, user | oldest <= s <= |history|
      ensures ReadAt(E', user, s) == Lookup(Replay(history'[..s]), user)
    {
      assert history'[..s] == history[..s];
      SameAnswer(E, s, E', s, user);
    }
  }

  lemma OtherUsersNewest(E: set<Entry>, history: seq<Op>, e: Entry, user: Bytes)
    requires Recorded(E, history) && user != e.key.user
    ensures forall o :: IsNewest(E, user, |history|, o) <==> IsNewest(E + {e}, user, |history| + 1, o)
  {
  }

  lemma WrittenKeyRead(E: set<Entry>, history: seq<Op>, op: Op)
    requires |history| < MAX_SEQUENCE && Recorded(E, history)
    ensures ReadAt(E + {NewEntry(op, |history| + 1)}, op.user, |history| + 1) ==
              if op.kind == Value then Some(op.value) else None
  {
    var e := NewEntry(op, |history| + 1);
    RecordedExtends(E, history, [op]);
    RecordedCoherent(E + {e}, history + [op]);
    assert IsNewest(E + {e}, op.user, |history| + 1, e);
    ReadNewest(E + {e}, op.user, |history| + 1, e);
  }

  lemma OtherKeyRead(E: set<Entry>, history: seq<Op>, op: Op, user: Bytes)
    requires |history| < MAX_SEQUENCE && Recorded(E, history) && user != op.user
    ensures ReadAt(E + {NewEntry(op, |history| + 1)}, user, |history| + 1) == ReadAt(E, user, |history|)
  {
    var e := NewEntry(op, |history| + 1);
    RecordedExtends(E, history, [op]);
    RecordedCoherent(E, history);
    RecordedCoherent(E + {e}, history + [op]);
    OtherUsersNewest(E, history, e, user);
    SameAnswer(E, |history|, E + {e}, |history| + 1, user);
  }

  /** One more operation: later readers see it, earlier readers see what they saw. */
  lemma OneWriteAgrees(E: set<Entry>, history: seq<Op>, oldest: nat, op: Op)
    requires |history| < MAX_SEQUENCE && oldest <= |history|
    requires Recorded(E, history) && Agrees(E, history, oldest)
    ensures Recorded(E + {NewEntry(op, |history| + 1)}, history + [op])
    ensures Agrees(E + {NewEntry(op, |history| + 1)}, history + [op], oldest)
  {
    var n := |history| + 1;
    var E', history' := E + {NewEntry(op, n)}, history + [op];
    EarlierReadersUnaffected(E, history, oldest, op);
    assert history'[..n] == history' && history'[..|history'|-1] == history && history[..n-1] == history;
    forall user ensures ReadAt(E', user, n) == Lookup(Replay(history'), user) {
      if user == op.user {
        WrittenKeyRead(E, history, op);
      } else {
        OtherKeyRead(E, history, op, user);
      }
    }
  }

  lemma {:induction false} WritesAgree(E: set<Entry>, history: seq<Op>, oldest: nat, batch: seq<Op>)
    requires |history| + |batch| <= MAX_SEQUENCE && oldest <= |history|
    requires Recorded(E, history) && Agrees(E, history, oldest)
    ensures Recorded(E + NewEntries(batch, |history|), history + batch)
    ensures Agrees(E + NewEntries(batch, |history|), history + batch, oldest)
  {
    if batch == [] {
      assert history + batch == history && E + NewEntries(batch, |history|) == E;
    } else {
      var n := |batch| - 1;
      var init, op := batch[..n], batch[n];
      WritesAgree(E, history, oldest, init);
      OneWriteAgrees(E + NewEntries(init, |history|), history + init, oldest, op);
      assert history + init + [op] == history + batch by { assert init + [op] == batch; }
      assert NewEntries(batch, |history|) == NewEntries(init, |history|) + {NewEntry(op, |history| + n + 1)};
      assert E + NewEntries(init, |history|) + {NewEntry(op, |history| + n + 1)} == E + NewEntries(batch, |history|);
    }
  }

  // Steps.

  datatype Action =
    | Write(batch: seq<Op>)
    | SwitchMemTable
    | FlushMemTable(level: nat)
    | MoveFile(level: nat, file: File)
    | Compact(level: nat, in0: seq<File>, in1: seq<File>, merged: seq<Entry>, outputs: seq<File>)
    | TakeSnapshot
    | DropSnapshot(index: nat)

  /** The new file lists are the old ones with an edit applied. */
  ghost predicate LevelsEdited(levels: Levels, edit: FileEdit, levels': Levels) {
    |levels| == NUM_LEVELS && |levels'| == NUM_LEVELS &&
    forall l :: 0 <= l < NUM_LEVELS ==>
                  SortedBySmallest(levels'[l]) && Files(levels'[l]) == Edited(Files(levels[l]), edit, l)
  }

  ghost predicate MemTableFile(db: Db, f: File) {
    db.imm.Some? && ValidFile(f) && f.number == db.nextFile && f.entries == db.imm.value
  }

  ghost predicate FlushLevel(db: Db, f: File, level: nat) {
    level <= MAX_MEM_COMPACT_LEVEL && level < |db.levels| &&
    (level > 0 ==> forall l, g :: 0 <= l <= level && g in db.levels[l] ==>
                                    !InRange(g, Some(f.smallest.user), Some(f.largest.user)))
  }

  function DeletePairs(level: nat, files: seq<File>): seq<(nat, nat)> {
    seq(|files|, i requires 0 <= i < |files| => (level, files[i].number))
  }

  function AddPairs(level: nat, files: seq<File>): seq<(nat, File)> {
    seq(|files|, i requires 0 <= i < |files| => (level, files[i]))
  }

  function CompactionEdit(level: nat, in0: seq<File>, in1: seq<File>, outputs: seq<File>): FileEdit {
    FileEdit(DeletePairs(level, in0) + DeletePairs(level + 1, in1), AddPairs(level + 1, outputs))
  }

  ghost predicate MergedInputs(in0: seq<File>, in1: seq<File>, merged: seq<Entry>) {
    Sorted(merged) && Elems(merged) == FileContents(in0) + FileContents(in1)
  }

  /** A batch goes to the memtable on the next sequence numbers. */
  ghost predicate WriteStep(db: Db, batch: seq<Op>, db': Db) {
    db.lastSequence + |batch| < MAX_SEQUENCE &&
    Sorted(db'.mem) && Elems(db'.mem) == Elems(db.mem) + NewEntries(batch, db.lastSequence) &&
    db' == db.(mem := db'.mem, lastSequence := db.lastSequence + |batch|)
  }

  /** The memtable becomes immutable; a file number goes to the new log. */
  ghost predicate SwitchStep(db: Db, db': Db) {
    db.imm.None? && db' == db.(mem := [], imm := Some(db.mem), nextFile := db.nextFile + 1)
  }

  ghost predicate FlushStep(db: Db, level: nat, db': Db) {
    |db.levels| == NUM_LEVELS && db.imm.Some? &&
    db' == db.(imm := None, nextFile := db.nextFile + 1, levels := db'.levels) &&
    if db.imm == Some([]) then
      db'.levels == db.levels
    else
      exists f :: MemTableFile(db, f) && FlushLevel(db, f, level) &&
                  LevelsEdited(db.levels, FileEdit([], [(level, f)]), db'.levels)
  }

  ghost predicate MoveStep(db: Db, level: nat, f: File, db': Db) {
    |db.levels| == NUM_LEVELS && level + 1 < NUM_LEVELS && ValidPick(db.levels, level, [f], []) &&
    LevelsEdited(db.levels, FileEdit([(level, f.number)], [(level + 1, f)]), db'.levels) &&
    db' == db.(levels := db'.levels)
  }

  ghost predicate CompactStep(db: Db, level: nat, in0: seq<File>, in1: seq<File>, merged: seq<Entry>,
                              outputs: seq<File>, db': Db) {
    |db.levels| == NUM_LEVELS && level + 1 < NUM_LEVELS && ValidPick(db.levels, level, in0, in1) &&
    MergedInputs(in0, in1, merged) && Outputs(outputs, db.nextFile) &&
    Flatten(outputs) == Kept(merged, Oldest(db), Base(db.levels, level)) &&
    LevelsEdited(db.levels, CompactionEdit(level, in0, in1, outputs), db'.levels) &&
    db' == db.(levels := db'.levels, nextFile := db.nextFile + |outputs|)
  }

  ghost predicate TakeStep(db: Db, db': Db) {
    db' == db.(snapshots := db.snapshots + [db.lastSequence])
  }

  ghost predicate DropStep(db: Db, i: nat, db': Db) {
    i < |db.snapshots| && db' == db.(snapshots := db.snapshots[..i] + db.snapshots[i+1..])
  }

  ghost predicate Step(db: Db, a: Action, db': Db) {
    match a
    case Write(batch) => WriteStep(db, batch, db')
    case SwitchMemTable => SwitchStep(db, db')
    case FlushMemTable(level) => FlushStep(db, level, db')
    case MoveFile(level, f) => MoveStep(db, level, f, db')
    case Compact(level, in0, in1, merged, outputs) => CompactStep(db, level, in0, in1, merged, outputs, db')
    case TakeSnapshot => TakeStep(db, db')
    case DropSnapshot(i) => DropStep(db, i, db')
  }

  function Extended(history: seq<Op>, a: Action): seq<Op> {
    if a.Write? then history + a.batch else history
  }

  ghost function SetContents(files: set<File>): set<Entry> {
    set f, e | f in files && e in f.entries :: e
  }

  /** The inputs are closed under user key: no file left behind in either level holds an entry
      older than an input for the same user key. */
  ghost predicate ClosedPick(levels: Levels, level: nat, in0: seq<File>, in1: seq<File>)
    requires |levels| == NUM_LEVELS && level + 1 < NUM_LEVELS
  {
    Newer(SetContents(Files(levels[level]) - Files(in0)), FileContents(in0)) &&
    Newer(SetContents(Files(levels[level+1]) - Files(in1)), FileContents(in0) + FileContents(in1))
  }

  /** The hypothesis on a step: what a move or merge picks is closed under user key. */
  ghost predicate Closed(db: Db, a: Action)
    requires |db.levels| == NUM_LEVELS
  {
    match a
    case MoveFile(level, f) => level + 1 < NUM_LEVELS && ClosedPick(db.levels, level, [f], [])
    case Compact(level, in0, in1, _, _) => level + 1 < NUM_LEVELS && ClosedPick(db.levels, level, in0, in1)
    case _ => true
  }

  /** What the store chooses: a memtable goes as deep as it may, and what can be moved trivially is. */
  ghost predicate Chosen(db: Db, a: Action, overlapLimit: nat)
    requires |db.levels| == NUM_LEVELS
  {
    match a
    case FlushMemTable(level) =>
      db.imm.Some? && |db.imm.value| > 0 ==>
        var es := db.imm.value;
        MemTableLevel(db.levels, es[0].key.user, es[|es| - 1].key.user, overlapLimit, level)
    case MoveFile(level, f) => level + 1 < NUM_LEVELS && MovesTrivially(db.levels, level, [f], [], overlapLimit)
    case Compact(level, in0, in1, _, _) => level + 1 < NUM_LEVELS && !MovesTrivially(db.levels, level, in0, in1, overlapLimit)
    case _ => true
  }

  // Every step keeps the invariant.

  lemma AgreesFromLater(E: set<Entry>, history: seq<Op>, oldest: nat, later: nat)
    requires Agrees(E, history, oldest) && oldest <= later
    ensures Agrees(E, history, later)
  {
  }

  lemma OldestInRange(db: Db)
    requires Shape(db)
    ensures Oldest(db) <= db.lastSequence
  {
    if db.snapshots != [] { assert db.snapshots[0] in db.snapshots; }
  }

  lemma NewEntriesNewest(E: set<Entry>, history: seq<Op>, batch: seq<Op>)
    requires Recorded(E, history) && |history| + |batch| <= MAX_SEQUENCE
    ensures Newer(NewEntries(batch, |history|), E)
  {
  }

  lemma NewerUnion(A: set<Entry>, B: set<Entry>, C: set<Entry>)
    ensures Newer(A, C) && Newer(B, C) ==> Newer(A + B, C)
    ensures Newer(C, A) && Newer(C, B) ==> Newer(C, A + B)
  {
  }

  lemma WriteKeepsInv(db: Db, history: seq<Op>, batch: seq<Op>, db': Db)
    requires Inv(db, history) && WriteStep(db, batch, db')
    ensures Inv(db', history + batch)
  {
    OldestInRange(db);
    WritesAgree(All(db), history, Oldest(db), batch);
    var fresh_ := NewEntries(batch, |history|);
    assert All(db') == All(db) + fresh_;
    AgreesFromLater(All(db'), history + batch, Oldest(db), Oldest(db'));
    assert NewestAbove(db') by {
      NewEntriesNewest(All(db), history, batch);
      NewerUnion(Elems(db.mem), fresh_, ImmElems(db));
      NewerUnion(Elems(db.mem), fresh_, LevelContents(db.levels));
    }
  }

  lemma SwitchKeepsInv(db: Db, history: seq<Op>, db': Db)
    requires Inv(db, history) && SwitchStep(db, db')
    ensures Inv(db', history)
  {
    assert All(db') == All(db);
    assert UniqueNumbers(db');
  }

  lemma TakeShape(db: Db, db': Db)
    requires Shape(db) && TakeStep(db, db')
    ensures Shape(db') && Oldest(db) <= Oldest(db')
  {
    OldestInRange(db);
    assert forall i :: 0 <= i < |db.snapshots| ==> db.snapshots[i] in db.snapshots;
  }

  lemma DropShape(db: Db, i: nat, db': Db)
    requires Shape(db) && DropStep(db, i, db')
    ensures Shape(db') && Oldest(db) <= Oldest(db')
  {
    OldestInRange(db);
    assert db'.snapshots == [] || db'.snapshots[0] == db.snapshots[if i == 0 then 1 else 0];
    assert forall s :: s in db'.snapshots ==> s in db.snapshots;
  }

  // Taking or dropping a snapshot keeps the entries and does not ask for older readers.
  lemma SnapshotStepKeepsInv(db: Db, history: seq<Op>, db': Db)
    requires Inv(db, history) && Shape(db') && Oldest(db) <= Oldest(db')
    requires db' == db.(snapshots := db'.snapshots)
    ensures Inv(db', history)
  {
    assert All(db') == All(db);
    AgreesFromLater(All(db), history, Oldest(db), Oldest(db'));
  }

  // Steps that change the file lists: some files leave their levels and others enter one level.

  ghost predicate Replaced(levels: Levels, removed: seq<set<File>>, target: nat, added: set<File>, levels': Levels) {
    |levels| == |levels'| == |removed| == NUM_LEVELS && target < NUM_LEVELS &&
    forall l :: 0 <= l < NUM_LEVELS ==>
                  SortedBySmallest(levels'[l]) &&
                  Files(levels'[l]) == Files(levels[l]) - removed[l] + if l == target then added else {}
  }

  lemma ReplacedMembers(levels: Levels, removed: seq<set<File>>, target: nat, added: set<File>, levels': Levels, l: nat, f: File)
    requires Replaced(levels, removed, target, added, levels') && l < NUM_LEVELS
    ensures f in levels'[l] <==> (f in levels[l] && f !in removed[l]) || (l == target && f in added)
  {
    assert f in levels'[l] <==> f in Files(levels'[l]);
  }

  lemma ReplacedContents(levels: Levels, removed: seq<set<File>>, target: nat, added: set<File>, levels': Levels, l: nat)
    requires Replaced(levels, removed, target, added, levels') && l < NUM_LEVELS
    ensures FileContents(levels'[l]) ==
              SetContents(Files(levels[l]) - removed[l]) + if l == target then SetContents(added) else {}
    ensures SetContents(Files(levels[l]) - removed[l]) <= FileContents(levels[l])
  {
    forall e ensures e in FileContents(levels'[l]) <==>
                       e in SetContents(Files(levels[l]) - removed[l]) + if l == target then SetContents(added) else {}
    {
      if e in FileContents(levels'[l]) {
        var f :| f in levels'[l] && e in f.entries;
        ReplacedMembers(levels, removed, target, added, levels', l, f);
      }
      if e in SetContents(Files(levels[l]) - removed[l]) {
        var f :| f in Files(levels[l]) - removed[l] && e in f.entries;
        ReplacedMembers(levels, removed, target, added, levels', l, f);
      }
      if l == target && e in SetContents(added) {
        var f :| f in added && e in f.entries;
        ReplacedMembers(levels, removed, target, added, levels', l, f);
      }
    }
  }

  lemma NewerSubsets(A: set<Entry>, B: set<Entry>, A': set<Entry>, B': set<Entry>)
    requires Newer(A, B) && A' <= A && B' <= B
    ensures Newer(A', B')
  {
  }

  lemma ReplacedLayered(levels: Levels, removed: seq<set<File>>, target: nat, added: set<File>, levels': Levels)
    requires Replaced(levels, removed, target, added, levels') && Layered(levels)
    requires forall m :: 0 <= m < target ==> Newer(SetContents(Files(levels[m]) - removed[m]), SetContents(added))
    requires forall m :: target < m < NUM_LEVELS ==> Newer(SetContents(added), FileContents(levels[m]))
    requires NewerByNumber(levels'[0])
    ensures Layered(levels')
  {
    forall l, m | 0 <= l < m < NUM_LEVELS ensures Newer(FileContents(levels'[l]), FileContents(levels'[m])) {
      ReplacedContents(levels, removed, target, added, levels', l);
      ReplacedContents(levels, removed, target, added, levels', m);
      var keptL, keptM := SetContents(Files(levels[l]) - removed[l]), SetContents(Files(levels[m]) - removed[m]);
      assert Newer(FileContents(levels[l]), FileContents(levels[m]));
      NewerSubsets(FileContents(levels[l]), FileContents(levels[m]), keptL, keptM);
      if l == target {
        NewerSubsets(SetContents(added), FileContents(levels[m]), SetContents(added), keptM);
        NewerUnion(keptL, SetContents(added), FileContents(levels'[m]));
      } else if m == target {
        NewerUnion(keptM, SetContents(added), FileContents(levels'[l]));
      }
    }
  }

  lemma FewerNewerByNumber(files: seq<File>, fewer: seq<File>)
    requires NewerByNumber(files) && forall f :: f in fewer ==> f in files
    ensures NewerByNumber(fewer)
  {
  }

  ghost predicate Ordered(f: File, g: File) {
    KeyLess(f.largest, g.smallest) || KeyLess(g.largest, f.smallest)
  }

  lemma SmallestNotAfterLargest(f: File)
    requires ValidFile(f)
    ensures !KeyLess(f.largest, f.smallest)
  {
    FileBounds(f, f.entries[0]);
  }

  lemma OrderedForward(f: File, g: File)
    requires ValidFile(f) && ValidFile(g) && Ordered(f, g) && BySmallest(f, g)
    ensures KeyLess(f.largest, g.smallest)
  {
    KeyOrder();
    SmallestNotAfterLargest(f);
    SmallestNotAfterLargest(g);
  }

  /** Files in order of smallest key that pairwise do not overlap are disjoint in list order. */
  lemma OrderedDisjoint(files: seq<File>)
    requires ValidFiles(files) && SortedBySmallest(files)
    requires forall f, g :: f in files && g in files && f != g ==> Ordered(f, g)
    ensures Disjoint(files)
  {
    hide ValidFile;
    forall i, j | 0 <= i < j < |files| ensures KeyLess(files[i].largest, files[j].smallest) {
      var f, g := files[i], files[j];
      assert f in files && g in files && BySmallest(f, g);
      BySmallestOrder(f, g, f);
      OrderedForward(f, g);
    }
  }

  lemma DisjointOrdered(files: seq<File>, f: File, g: File)
    requires Disjoint(files) && f in files && g in files && f != g
    ensures Ordered(f, g)
  {
    var i :| 0 <= i < |files| && files[i] == f;
    var j :| 0 <= j < |files| && files[j] == g;
    assert i < j || j < i;
  }

  lemma ReplacedShape(levels: Levels, removed: seq<set<File>>, target: nat, added: set<File>, levels': Levels)
    requires Replaced(levels, removed, target, added, levels') && ValidLevels(levels)
    requires forall f :: f in added ==> ValidFile(f)
    requires target > 0 ==> forall f, g :: f in added && g in added && f != g ==> Ordered(f, g)
    requires target > 0 ==> forall f, g :: f in added && g in levels[target] && g !in removed[target] ==> Ordered(f, g)
    ensures ValidLevels(levels')
  {
    forall l | 0 <= l < NUM_LEVELS ensures ValidFiles(levels'[l]) && (l > 0 ==> Disjoint(levels'[l])) {
      forall f | f in levels'[l] ensures ValidFile(f) {
        ReplacedMembers(levels, removed, target, added, levels', l, f);
      }
      if l > 0 {
        forall f, g | f in levels'[l] && g in levels'[l] && f != g ensures Ordered(f, g) {
          ReplacedMembers(levels, removed, target, added, levels', l, f);
          ReplacedMembers(levels, removed, target, added, levels', l, g);
          if f in levels[l] && g in levels[l] {
            DisjointOrdered(levels[l], f, g);
          }
        }
        OrderedDisjoint(levels'[l]);
      }
    }
  }

  /** Added files carry numbers that no file left in place has. */
  ghost predicate NumbersFree(levels: Levels, removed: seq<set<File>>, added: set<File>)
    requires |levels| == |removed|
  {
    (forall f, g :: f in added && g in added && f.number == g.number ==> f == g) &&
    forall f, l, g :: f in added && 0 <= l < |levels| && g in levels[l] && g !in removed[l] ==> f.number != g.number
  }

  lemma ReplacedNumbers(db: Db, removed: seq<set<File>>, target: nat, added: set<File>, db': Db)
    requires Replaced(db.levels, removed, target, added, db'.levels) && UniqueNumbers(db)
    requires NumbersFree(db.levels, removed, added) && db.nextFile <= db'.nextFile
    requires forall f :: f in added ==> f.number < db'.nextFile
    ensures UniqueNumbers(db')
  {
    forall l, f | 0 <= l < NUM_LEVELS && f in db'.levels[l] ensures f.number < db'.nextFile {
      ReplacedMembers(db.levels, removed, target, added, db'.levels, l, f);
    }
    forall l, f, m, g | 0 <= l < NUM_LEVELS && 0 <= m < NUM_LEVELS && f in db'.levels[l] && g in db'.levels[m]
      ensures f.number != g.number || (l == m && f == g)
    {
      ReplacedMembers(db.levels, removed, target, added, db'.levels, l, f);
      ReplacedMembers(db.levels, removed, target, added, db'.levels, m, g);
    }
  }

  // Flushing the immutable memtable.

  function NothingRemoved(): seq<set<File>> {
    seq(NUM_LEVELS, _ => {})
  }

  lemma FlushReplaces(levels: Levels, level: nat, f: File, levels': Levels)
    requires LevelsEdited(levels, FileEdit([], [(level, f)]), levels') && level < NUM_LEVELS
    ensures Replaced(levels, NothingRemoved(), level, {f}, levels')
  {
    forall l | 0 <= l < NUM_LEVELS
      ensures Files(levels'[l]) == Files(levels[l]) - {} + if l == level then {f} else {}
    {
      assert Deleted(FileEdit([], [(level, f)]), l) == {};
      assert Added(FileEdit([], [(level, f)]), l) == if l == level then {f} else {};
    }
  }

  // Files that no range overlaps share no user key with it, and come wholly before or after it.
  lemma OutsideRange(g: File, f: File)
    requires ValidFile(f) && ValidFile(g) && !InRange(g, Some(f.smallest.user), Some(f.largest.user))
    ensures Apart(g, f) && Ordered(g, f) && Newer(Elems(g.entries), Elems(f.entries))
  {
    ApartNoSharedUser(g, f);
  }

  lemma ApartNoSharedUser(f: File, g: File)
    requires ValidFile(f) && ValidFile(g) && Apart(f, g)
    ensures Ordered(f, g)
    ensures forall a, b :: a in f.entries && b in g.entries ==> a.key.user != b.key.user
  {
    UserOrder();
    forall a, b | a in f.entries && b in g.entries ensures a.key.user != b.key.user {
      FileBounds(f, a);
      FileBounds(g, b);
    }
  }

  lemma FlushNewerByNumber(db: Db, f: File, level: nat, levels': Levels)
    requires |db.levels| == NUM_LEVELS && UniqueNumbers(db) && NewestAbove(db) && MemTableFile(db, f)
    requires level < NUM_LEVELS && Replaced(db.levels, NothingRemoved(), level, {f}, levels')
    ensures NewerByNumber(levels'[0])
  {
    forall g, h | g in levels'[0] && h in levels'[0] && g != h
      ensures g.number != h.number && (g.number > h.number ==> Newer(Elems(g.entries), Elems(h.entries)))
    {
      ReplacedMembers(db.levels, NothingRemoved(), level, {f}, levels', 0, g);
      ReplacedMembers(db.levels, NothingRemoved(), level, {f}, levels', 0, h);
      if g == f && h in db.levels[0] {
        assert Elems(h.entries) <= LevelContents(db.levels);
        NewerSubsets(ImmElems(db), LevelContents(db.levels), Elems(f.entries), Elems(h.entries));
      }
    }
  }

  lemma FlushLayers(db: Db, f: File, level: nat, levels': Levels)
    requires Shape(db) && NewestAbove(db) && MemTableFile(db, f) && FlushLevel(db, f, level)
    requires Replaced(db.levels, NothingRemoved(), level, {f}, levels')
    ensures Layered(levels')
  {
    assert SetContents({f}) == ImmElems(db);
    forall m | 0 <= m < level ensures Newer(SetContents(Files(db.levels[m]) - {}), SetContents({f})) {
      forall e, o | e in SetContents(Files(db.levels[m]) - {}) && o in f.entries ensures e.key.user != o.key.user {
        var g :| g in Files(db.levels[m]) && e in g.entries;
        assert ValidFile(g);
        OutsideRange(g, f);
        ApartNoSharedUser(g, f);
      }
    }
    forall m | 0 <= m < NUM_LEVELS ensures Newer(SetContents({f}), FileContents(db.levels[m])) {
      LevelContentsAbove(db.levels, m);
      NewerSubsets(ImmElems(db), LevelContents(db.levels), ImmElems(db), FileContents(db.levels[m]));
    }
    FlushNewerByNumber(db, f, level, levels');
    ReplacedLayered(db.levels, NothingRemoved(), level, {f}, levels');
  }

  lemma LevelContentsAbove(levels: Levels, l: nat)
    requires l < |levels|
    ensures FileContents(levels[l]) <= LevelContents(levels)
  {
  }

  lemma LevelContentsParts(levels: Levels, e: Entry)
    ensures e in LevelContents(levels) <==> exists l :: 0 <= l < |levels| && e in FileContents(levels[l])
  {
    if e in LevelContents(levels) {
      var l, f :| 0 <= l < |levels| && f in levels[l] && e in f.entries;
      assert e in FileContents(levels[l]);
    }
  }

  lemma FlushContents(db: Db, f: File, level: nat, levels': Levels)
    requires MemTableFile(db, f) && |db.levels| == NUM_LEVELS && level < NUM_LEVELS
    requires Replaced(db.levels, NothingRemoved(), level, {f}, levels')
    ensures LevelContents(levels') == LevelContents(db.levels) + ImmElems(db)
  {
    forall e ensures e in LevelContents(levels') <==> e in LevelContents(db.levels) + ImmElems(db) {
      LevelContentsParts(levels', e);
      LevelContentsParts(db.levels, e);
      forall l | 0 <= l < NUM_LEVELS
        ensures e in FileContents(levels'[l]) <==> e in FileContents(db.levels[l]) || (l == level && e in ImmElems(db))
      {
        ReplacedContents(db.levels, NothingRemoved(), level, {f}, levels', l);
        assert Files(db.levels[l]) - {} == Files(db.levels[l]);
        assert SetContents({f}) == ImmElems(db);
      }
      if e in ImmElems(db) {
        assert e in FileContents(levels'[level]);
      }
    }
  }

  lemma FlushShape(db: Db, f: File, level: nat, db': Db)
    requires Shape(db) && MemTableFile(db, f) && FlushLevel(db, f, level)
    requires Replaced(db.levels, NothingRemoved(), level, {f}, db'.levels)
    requires db' == db.(imm := None, nextFile := db.nextFile + 1, levels := db'.levels)
    ensures Shape(db')
  {
    forall g | level > 0 && g in db.levels[level] ensures Ordered(f, g) {
      OutsideRange(g, f);
    }
    ReplacedShape(db.levels, NothingRemoved(), level, {f}, db'.levels);
    ReplacedNumbers(db, NothingRemoved(), level, {f}, db');
  }

  lemma FlushNewestAbove(db: Db, f: File, level: nat, db': Db)
    requires Shape(db) && NewestAbove(db) && MemTableFile(db, f) && FlushLevel(db, f, level)
    requires Replaced(db.levels, NothingRemoved(), level, {f}, db'.levels)
    requires db' == db.(imm := None, nextFile := db.nextFile + 1, levels := db'.levels)
    ensures NewestAbove(db') && All(db') == All(db)
  {
    hide Layered, FileContents, LevelContents, ValidFile, UniqueNumbers, Replaced;
    FlushLayers(db, f, level, db'.levels);
    FlushContents(db, f, level, db'.levels);
    NewerUnion(LevelContents(db.levels), ImmElems(db), Elems(db.mem));
  }

  // A step that keeps the stored entries keeps what they answer.
  lemma SameContentsKeepInv(db: Db, history: seq<Op>, db': Db)
    requires Inv(db, history) && Shape(db') && NewestAbove(db') && All(db') == All(db)
    requires db'.lastSequence == db.lastSequence && db'.snapshots == db.snapshots
    ensures Inv(db', history)
  {
  }

  lemma FlushKeepsInv(db: Db, history: seq<Op>, level: nat, db': Db)
    requires Inv(db, history) && FlushStep(db, level, db')
    ensures Inv(db', history)
  {
    if db.imm == Some([]) {
      assert All(db') == All(db);
      assert Shape(db') by { assert UniqueNumbers(db'); }
    } else {
      var f :| MemTableFile(db, f) && FlushLevel(db, f, level) &&
               LevelsEdited(db.levels, FileEdit([], [(level, f)]), db'.levels);
      FlushReplaces(db.levels, level, f, db'.levels);
      FlushShape(db, f, level, db');
      FlushNewestAbove(db, f, level, db');
    }
    SameContentsKeepInv(db, history, db');
  }
}
