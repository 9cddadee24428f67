/** What survives a crash: the manifest and the logs, and the proof that at every step boundary they
    hold exactly the store's contents, so that opening the store again, however often that is itself
    cut short, finds every committed operation (db/db_impl.cc, db/version_set.cc). */
module Recovery {
  import opened Keys
  import opened Contents
  import opened Versions
  import opened VersionBuilder
  import opened Store
  import opened StoreCompaction
  import opened StoreRuns
  import opened Compactions
  import opened Manifests

  /** One log record: operations on consecutive sequence numbers. */
  datatype Batch = Batch(first: nat, ops: seq<Op>) {
    function Last(): int {
      first + |ops| - 1
    }
  }

  datatype LogFile = LogFile(number: nat, batches: seq<Batch>)

  /** The manifest that CURRENT names, and the log files in order of their numbers. */
  datatype Disk = Disk(manifest: seq<Record>, logs: seq<LogFile>)

  // The logs.

  ghost function BatchEntries(b: Batch): set<Entry> {
    set i | 0 <= i < |b.ops| && b.first + i <= MAX_SEQUENCE :: NewEntry(b.ops[i], b.first + i)
  }

  ghost function EntriesOf(batches: seq<Batch>): set<Entry> {
    if batches == [] then {} else EntriesOf(batches[..|batches| - 1]) + BatchEntries(batches[|batches| - 1])
  }

  /** The batches of the logs numbered from `min` on, in order. */
  function Live(logs: seq<LogFile>, min: nat): seq<Batch> {
    if logs == [] then [] else
    Live(logs[..|logs| - 1], min) + if logs[|logs| - 1].number >= min then logs[|logs| - 1].batches else []
  }

  /** Each batch continues where the one before it ended, and the last one ends at `end`. */
  ghost predicate Contiguous(batches: seq<Batch>, end: int) {
    batches != [] ==>
      var b := batches[|batches| - 1];
      b.Last() == end && b.first >= 1 && Contiguous(batches[..|batches| - 1], b.first - 1)
  }

  ghost predicate LogsInOrder(logs: seq<LogFile>) {
    forall i, j :: 0 <= i < j < |logs| ==> logs[i].number < logs[j].number
  }

  lemma {:induction false} EntriesConcat(a: seq<Batch>, b: seq<Batch>)
    ensures EntriesOf(a + b) == EntriesOf(a) + EntriesOf(b)
  {
    if b == [] {
      assert a + b == a;
    } else {
      assert (a + b)[..|a + b| - 1] == a + b[..|b| - 1];
      EntriesConcat(a, b[..|b| - 1]);
    }
  }

  lemma LiveLast(logs: seq<LogFile>, log: LogFile, min: nat)
    ensures Live(logs + [log], min) == Live(logs, min) + if log.number >= min then log.batches else []
  {
    assert (logs + [log])[..|logs|] == logs;
  }

  lemma {:induction false} LiveNone(logs: seq<LogFile>, min: nat)
    requires forall i :: 0 <= i < |logs| ==> logs[i].number < min
    ensures Live(logs, min) == []
  {
    if logs != [] {
      LiveNone(logs[..|logs| - 1], min);
    }
  }

  lemma {:induction false} ContiguousSuffix(a: seq<Batch>, b: seq<Batch>, end: int)
    requires Contiguous(a + b, end)
    ensures Contiguous(b, end)
  {
    if b != [] {
      assert (a + b)[..|a + b| - 1] == a + b[..|b| - 1];
      ContiguousSuffix(a, b[..|b| - 1], b[|b| - 1].first - 1);
    }
  }

  lemma {:induction false} EntriesBound(batches: seq<Batch>, end: int, e: Entry)
    requires Contiguous(batches, end) && e in EntriesOf(batches)
    ensures e.key.seqno <= end
  {
    var b := batches[|batches| - 1];
    if e !in BatchEntries(b) {
      EntriesBound(batches[..|batches| - 1], b.first - 1, e);
    }
  }

  // The machine.

  datatype Phase =
    | Down
    // The logs have been read back; the new manifest is not in force yet.
    | Opening(base: Levels, files: seq<File>, next: Db, newLog: nat)
    // `pending` is in the log but not yet in the memtable.
    | Running(db: Db, logNumber: nat, logFile: nat, pending: Option<Batch>)

  datatype Machine = Machine(disk: Disk, phase: Phase)

  datatype Act =
    | Append(ops: seq<Op>)
    | Finish
    | Internal(action: Action)
    | DeleteLog(index: nat)
    | Crash
    | Open(base: Levels, files: seq<File>, next: Db, newLog: nat)
    | Commit

  function AppendBatch(logs: seq<LogFile>, b: Batch): seq<LogFile>
    requires logs != []
  {
    var last := logs[|logs| - 1];
    logs[..|logs| - 1] + [last.(batches := last.batches + [b])]
  }

  /** The edit an action records in the manifest, if it records one. */
  ghost predicate Records(db: Db, a: Action, edit: FileEdit, db': Db) {
    match a
    case FlushMemTable(level) =>
      && |db.levels| == NUM_LEVELS
      && if db.imm == Some([]) then edit == FileEdit([], []) else
         exists f :: MemTableFile(db, f) && FlushLevel(db, f, level) && edit == FileEdit([], [(level, f)]) && LevelsEdited(db.levels, edit, db'.levels)
    case MoveFile(level, f) => edit == FileEdit([(level, f.number)], [(level + 1, f)])
    case Compact(level, in0, in1, _, outputs) => edit == CompactionEdit(level, in0, in1, outputs)
    case _ => false
  }

  /** The records of opened logs: files of level 0, cut from the live batches in order. */
  ghost predicate Covers(files: seq<File>, batches: seq<Batch>) {
    if files == [] then EntriesOf(batches) == {} else
    exists k: nat :: && k <= |batches| && Elems(files[|files| - 1].entries) == EntriesOf(batches[k..])
                     && Covers(files[..|files| - 1], batches[..k])
  }

  // The last sequence number of the manifest, or of a batch in the logs if that is greater.
  function MaxSequence(last: nat, batches: seq<Batch>): nat {
    if batches == [] then last else
    var m := MaxSequence(last, batches[..|batches| - 1]);
    if m < batches[|batches| - 1].Last() then batches[|batches| - 1].Last() else m
  }

  ghost predicate NewTables(files: seq<File>, from: nat, to: nat) {
    && (forall f :: f in files ==> ValidFile(f) && from <= f.number < to)
    && (forall i, j :: 0 <= i < j < |files| ==> files[i].number < files[j].number)
  }

  /** What opening makes of the manifest and the logs. */
  ghost predicate Recovers(disk: Disk, base: Levels, files: seq<File>, next: Db, newLog: nat) {
    && LastMeta(disk.manifest).Some?
    && var meta := LastMeta(disk.manifest).value;
    && ManifestHolds(disk.manifest, base)
    && Covers(files, Live(disk.logs, meta.logNumber))
    && NewTables(files, meta.nextFile, newLog) && newLog + 1 == next.nextFile
    && (forall log :: log in disk.logs && log.number >= meta.logNumber ==> log.number < newLog)
    && next.lastSequence == MaxSequence(meta.lastSequence, Live(disk.logs, meta.logNumber))
    && next.mem == [] && next.imm.None? && next.snapshots == []
    && LevelsEdited(base, FileEdit([], AddPairs(0, files)), next.levels)
    && meta.logNumber <= newLog && meta.nextFile <= newLog
  }

  ghost predicate InternalStep(m: Machine, a: Action, m': Machine) {
    && m.phase.Running? && m'.phase.Running?
    && var db, db' := m.phase.db, m'.phase.db;
    && Store.Step(db, a, db') && m'.phase.pending == m.phase.pending
    && match a
       case Write(_) => false
       case SwitchMemTable =>
         && m.phase.pending.None?
         && m'.phase == m.phase.(db := db', logFile := db.nextFile)
         && m'.disk == m.disk.(logs := m.disk.logs + [LogFile(db.nextFile, [])])
       case FlushMemTable(_) =>
         exists edit ::
           && Records(db, a, edit, db')
           && m'.phase == m.phase.(db := db', logNumber := m.phase.logFile)
           && m'.disk == m.disk.(manifest := m.disk.manifest +
                [Record(edit, Some(Meta(m.phase.logFile, db'.nextFile, db'.lastSequence)))])
       case MoveFile(_, _) =>
         exists edit ::
           && Records(db, a, edit, db')
           && m'.phase == m.phase.(db := db')
           && m'.disk == m.disk.(manifest := m.disk.manifest +
                [Record(edit, Some(Meta(m.phase.logNumber, db'.nextFile, db'.lastSequence)))])
       case Compact(_, _, _, _, _) =>
         exists edit ::
           && Records(db, a, edit, db')
           && m'.phase == m.phase.(db := db')
           && m'.disk == m.disk.(manifest := m.disk.manifest +
                [Record(edit, Some(Meta(m.phase.logNumber, db'.nextFile, db'.lastSequence)))])
       case _ => m'.disk == m.disk && m'.phase == m.phase.(db := db')
  }

  ghost predicate DurableStep(m: Machine, act: Act, m': Machine) {
    match act
    case Append(ops) =>
      && m.phase.Running? && m.phase.pending.None? && m.disk.logs != []
      && m.phase.db.lastSequence + |ops| < MAX_SEQUENCE
      && var b := Batch(m.phase.db.lastSequence + 1, ops);
      m' == Machine(m.disk.(logs := AppendBatch(m.disk.logs, b)), m.phase.(pending := Some(b)))
    case Finish =>
      && m.phase.Running? && m.phase.pending.Some? && m'.phase.Running?
      && WriteStep(m.phase.db, m.phase.pending.value.ops, m'.phase.db)
      && m' == m.(phase := m.phase.(db := m'.phase.db, pending := None))
    case Internal(a) => InternalStep(m, a, m')
    case DeleteLog(i) =>
      && m.phase.Running? && i < |m.disk.logs| && m.disk.logs[i].number < m.phase.logNumber
      && m' == m.(disk := m.disk.(logs := m.disk.logs[..i] + m.disk.logs[i+1..]))
    case Crash => m' == m.(phase := Down)
    case Open(base, files, next, newLog) =>
      && m.phase.Down? && Recovers(m.disk, base, files, next, newLog)
      && m' == Machine(m.disk.(logs := m.disk.logs + [LogFile(newLog, [])]), Opening(base, files, next, newLog))
    case Commit =>
      && m.phase.Opening?
      && var p := m.phase;
      m' == Machine(m.disk.(manifest := [Record(Snapshot(p.base), None),
                                        Record(FileEdit([], AddPairs(0, p.files)), Some(Meta(p.newLog, p.next.nextFile, p.next.lastSequence)))]),
                    Running(p.next, p.newLog, p.newLog, None))
  }

  // What holds.

  ghost predicate ManifestOk(manifest: seq<Record>, levels: Levels) {
    LastMeta(manifest).Some? && ManifestFiles(manifest, levels, LastMeta(manifest).value.nextFile)
  }

  ghost function PendingEntries(pending: Option<Batch>): set<Entry> {
    if pending.Some? then BatchEntries(pending.value) else {}
  }

  function PendingOps(pending: Option<Batch>): seq<Op> {
    if pending.Some? then pending.value.ops else []
  }

  /** The logs hold the memtables: the current one what the memtable and a write in progress hold, the
      earlier live ones what the immutable memtable holds. */
  ghost predicate LogsHold(logs: seq<LogFile>, db: Db, logNumber: nat, logFile: nat, pending: Option<Batch>) {
    && LogsInOrder(logs) && logs != [] && logs[|logs| - 1].number == logFile && logNumber <= logFile < db.nextFile
    && EntriesOf(Live(logs[..|logs| - 1], logNumber)) == ImmElems(db)
    && EntriesOf(logs[|logs| - 1].batches) == Elems(db.mem) + PendingEntries(pending)
    && Contiguous(Live(logs, logNumber), db.lastSequence + |PendingOps(pending)|)
    && (pending.Some? ==> logs[|logs| - 1].batches != [] && pending.value.first == db.lastSequence + 1)
    && db.lastSequence + |PendingOps(pending)| < MAX_SEQUENCE
  }

  ghost predicate MetaFits(meta: Meta, db: Db, logNumber: nat, logs: seq<LogFile>) {
    && meta.logNumber == logNumber < meta.nextFile <= db.nextFile && meta.lastSequence <= db.lastSequence
    && (Live(logs, logNumber) == [] ==> meta.lastSequence == db.lastSequence)
  }

  /** The manifest and the logs hold exactly what the running store holds. */
  ghost predicate Consistent(disk: Disk, db: Db, logNumber: nat, logFile: nat, pending: Option<Batch>) {
    && ManifestOk(disk.manifest, db.levels)
    && MetaFits(LastMeta(disk.manifest).value, db, logNumber, disk.logs)
    && LogsHold(disk.logs, db, logNumber, logFile, pending)
  }

  /** The disk alone determines the history: the manifest's files and the live logs hold every operation,
      with everything in the logs newer than the files. */
  ghost predicate HoldsHistory(disk: Disk, levels: Levels, history: seq<Op>) {
    && ManifestOk(disk.manifest, levels)
    && var meta, batches := LastMeta(disk.manifest).value, Live(disk.logs, LastMeta(disk.manifest).value.logNumber);
    && LogsInOrder(disk.logs)
    && ValidLevels(levels) && Layered(levels) && UniqueNumbers(Disked(levels, meta))
    && Newer(EntriesOf(batches), LevelContents(levels))
    && Recorded(EntriesOf(batches) + LevelContents(levels), history)
    && Agrees(EntriesOf(batches) + LevelContents(levels), history, |history|)
    && |history| < MAX_SEQUENCE && Contiguous(batches, |history|)
    && meta.logNumber < meta.nextFile && meta.lastSequence <= |history| && (batches == [] ==> meta.lastSequence == |history|)
  }

  // A store with these files and nothing else.
  function Disked(levels: Levels, meta: Meta): Db {
    Db([], None, levels, 0, meta.nextFile, [])
  }

  ghost predicate Durable(disk: Disk, history: seq<Op>) {
    exists levels :: HoldsHistory(disk, levels, history)
  }

  /** The invariant over whole runs, crashes included. `history` is everything the logs ever took. */
  ghost predicate Safe(m: Machine, history: seq<Op>) {
    match m.phase
    case Down => Durable(m.disk, history)
    case Opening(base, files, next, newLog) =>
      && Durable(m.disk, history) && Store.Inv(next, history)
      && Consistent(m.disk.(manifest := NewManifest(m.phase)), next, newLog, newLog, None)
    case Running(db, logNumber, logFile, pending) =>
      && db.lastSequence <= |history| && Store.Inv(db, history[..db.lastSequence])
      && history[db.lastSequence..] == PendingOps(pending)
      && Consistent(m.disk, db, logNumber, logFile, pending)
  }

  function NewManifest(p: Phase): seq<Record>
    requires p.Opening?
  {
    [Record(Snapshot(p.base), None),
     Record(FileEdit([], AddPairs(0, p.files)), Some(Meta(p.newLog, p.next.nextFile, p.next.lastSequence)))]
  }

  function Extend(history: seq<Op>, act: Act): seq<Op> {
    if act.Append? then history + act.ops else history
  }

  // Batches and their entries.

  lemma PendingAreNew(b: Batch, last: nat)
    requires b.first == last + 1 && last + |b.ops| < MAX_SEQUENCE
    ensures BatchEntries(b) == NewEntries(b.ops, last)
  {
  }

  lemma LogsSplit(logs: seq<LogFile>, min: nat)
    requires logs != []
    ensures Live(logs, min) == Live(logs[..|logs| - 1], min) + if logs[|logs| - 1].number >= min then logs[|logs| - 1].batches else []
    ensures logs[|logs| - 1].number >= min ==>
              EntriesOf(Live(logs, min)) == EntriesOf(Live(logs[..|logs| - 1], min)) + EntriesOf(logs[|logs| - 1].batches)
  {
    EntriesConcat(Live(logs[..|logs| - 1], min), logs[|logs| - 1].batches);
  }

  lemma {:induction false} LaterBatchesNewer(a: seq<Batch>, b: seq<Batch>, end: int, x: Entry, y: Entry)
    requires Contiguous(a + b, end) && x in EntriesOf(b) && y in EntriesOf(a)
    ensures x.key.seqno > y.key.seqno
  {
    var last := b[|b| - 1];
    assert (a + b)[..|a + b| - 1] == a + b[..|b| - 1];
    if x in BatchEntries(last) {
      EntriesConcat(a, b[..|b| - 1]);
      EntriesBound(a + b[..|b| - 1], last.first - 1, y);
    } else {
      LaterBatchesNewer(a, b[..|b| - 1], last.first - 1, x, y);
    }
  }

  lemma {:induction false} MaxSequenceIs(last: nat, batches: seq<Batch>, end: int)
    requires Contiguous(batches, end) && batches != []
    ensures end >= 0 && MaxSequence(last, batches) == if last < end then end else last
  {
    var init := batches[..|batches| - 1];
    if init != [] {
      MaxSequenceIs(last, init, batches[|batches| - 1].first - 1);
    }
  }

  lemma OneMoreFile(files: seq<File>, f: File)
    ensures SetContents(Files(files + [f])) == SetContents(Files(files)) + Elems(f.entries)
  {
    var S := Files(files);
    assert Files(files + [f]) == S + {f};
    forall e ensures e in SetContents(S + {f}) <==> e in SetContents(S) + Elems(f.entries) {
    }
  }

  // Where the batches of the last file begin.
  lemma LastCut(files: seq<File>, batches: seq<Batch>) returns (k: nat)
    requires Covers(files, batches) && files != []
    ensures k <= |batches| && Covers(files[..|files| - 1], batches[..k])
    ensures Elems(files[|files| - 1].entries) == EntriesOf(batches[k..])
    ensures EntriesOf(batches) == EntriesOf(batches[..k]) + EntriesOf(batches[k..])
  {
    k :| k <= |batches| && Elems(files[|files| - 1].entries) == EntriesOf(batches[k..]) && Covers(files[..|files| - 1], batches[..k]);
    EntriesConcat(batches[..k], batches[k..]);
    assert batches[..k] + batches[k..] == batches;
  }

  lemma {:induction false} CoversContents(files: seq<File>, batches: seq<Batch>)
    requires Covers(files, batches)
    ensures SetContents(Files(files)) == EntriesOf(batches)
  {
    hide EntriesOf;
    if files != [] {
      hide Covers, SetContents;
      var n := |files| - 1;
      var k := LastCut(files, batches);
      CoversContents(files[..n], batches[..k]);
      assert files[..n] + [files[n]] == files;
      OneMoreFile(files[..n], files[n]);
    }
  }

  lemma {:induction false} CoversOrdered(files: seq<File>, batches: seq<Batch>, end: int, i: nat, j: nat)
    requires Covers(files, batches) && Contiguous(batches, end) && i < j < |files|
    ensures Newer(Elems(files[j].entries), Elems(files[i].entries))
  {
    var n := |files| - 1;
    var k: nat :| k <= |batches| && Elems(files[n].entries) == EntriesOf(batches[k..]) && Covers(files[..n], batches[..k]);
    assert batches[..k] + batches[k..] == batches;
    if j < n {
      var end' := ContiguousPrefix(batches[..k], batches[k..], end);
      CoversOrdered(files[..n], batches[..k], end', i, j);
    } else {
      CoversContents(files[..n], batches[..k]);
      assert files[..n][i] in Files(files[..n]);
      forall x, y | x in Elems(files[j].entries) && y in Elems(files[i].entries) ensures x.key.seqno > y.key.seqno {
        LaterBatchesNewer(batches[..k], batches[k..], end, x, y);
      }
    }
  }

  lemma {:induction false} ContiguousPrefix(a: seq<Batch>, b: seq<Batch>, end: int) returns (end': int)
    requires Contiguous(a + b, end)
    ensures Contiguous(a, end')
  {
    if b == [] {
      assert a + b == a;
      end' := end;
    } else {
      assert (a + b)[..|a + b| - 1] == a + b[..|b| - 1];
      end' := ContiguousPrefix(a, b[..|b| - 1], b[|b| - 1].first - 1);
    }
  }

  // What a running store leaves on disk.

  /** A write in progress is in the history already: the entries of the store and of the write agree with it. */
  lemma PendingAgrees(db: Db, history: seq<Op>, pending: Option<Batch>)
    requires db.lastSequence <= |history| && Store.Inv(db, history[..db.lastSequence])
    requires history[db.lastSequence..] == PendingOps(pending) && |history| < MAX_SEQUENCE
    requires pending.Some? ==> pending.value.first == db.lastSequence + 1
    ensures Recorded(All(db) + PendingEntries(pending), history)
    ensures Agrees(All(db) + PendingEntries(pending), history, |history|)
    ensures Newer(PendingEntries(pending), All(db))
  {
    hide Recorded, Agrees, NewestAbove, All;
    var acknowledged, ops := history[..db.lastSequence], PendingOps(pending);
    assert history == acknowledged + ops;
    OldestInRange(db);
    WritesAgree(All(db), acknowledged, Oldest(db), ops);
    NewEntriesNewest(All(db), acknowledged, ops);
    AgreesFromLater(All(db) + NewEntries(ops, db.lastSequence), history, Oldest(db), |history|);
    if pending.Some? {
      PendingAreNew(pending.value, db.lastSequence);
    } else {
      assert NewEntries([], db.lastSequence) == {};
    }
  }

  lemma DiskHoldsAll(disk: Disk, db: Db, logNumber: nat, logFile: nat, pending: Option<Batch>)
    requires LogsHold(disk.logs, db, logNumber, logFile, pending)
    ensures EntriesOf(Live(disk.logs, logNumber)) + LevelContents(db.levels) == All(db) + PendingEntries(pending)
    ensures EntriesOf(Live(disk.logs, logNumber)) == ImmElems(db) + Elems(db.mem) + PendingEntries(pending)
  {
    hide LevelContents, Contiguous, LogsInOrder;
    LogsSplit(disk.logs, logNumber);
  }

  lemma NumbersOnDisk(manifest: seq<Record>, db: Db)
    requires ManifestOk(manifest, db.levels) && UniqueNumbers(db)
    ensures UniqueNumbers(Disked(db.levels, LastMeta(manifest).value))
  {
    var meta := LastMeta(manifest).value;
    forall l, f | 0 <= l < |db.levels| && f in db.levels[l] ensures f.number < meta.nextFile {
      ListedIsAdded(manifest, db.levels, l, f);
    }
  }

  /** While the store runs, the manifest's version is the current one, and the logs from the manifest's log number on hold
      exactly what the memtables hold and the write in progress: so the disk determines the history. */
  lemma RunningDurable(m: Machine, history: seq<Op>)
    requires m.phase.Running? && Safe(m, history)
    ensures ManifestHolds(m.disk.manifest, m.phase.db.levels)
    ensures LastMeta(m.disk.manifest).Some? && LastMeta(m.disk.manifest).value.logNumber == m.phase.logNumber
    ensures EntriesOf(Live(m.disk.logs, m.phase.logNumber))
         == ImmElems(m.phase.db) + Elems(m.phase.db.mem) + PendingEntries(m.phase.pending)
    ensures Durable(m.disk, history)
  {
    hide Recorded, Agrees, LevelContents, Contiguous, ManifestFiles, UniqueNumbers, Layered, LogsInOrder, EntriesOf, BatchEntries;
    var p := m.phase;
    ManifestNamesFiles(m.disk.manifest, p.db.levels);
    PendingAgrees(p.db, history, p.pending);
    DiskHoldsAll(m.disk, p.db, p.logNumber, p.logFile, p.pending);
    NumbersOnDisk(m.disk.manifest, p.db);
    LogsNewer(p.db, p.pending);
    assert HoldsHistory(m.disk, p.db.levels, history);
  }

  lemma ManifestNamesFiles(manifest: seq<Record>, levels: Levels)
    requires ManifestOk(manifest, levels)
    ensures ManifestHolds(manifest, levels)
  {
  }

  lemma LogsNewer(db: Db, pending: Option<Batch>)
    requires |db.levels| == NUM_LEVELS && NewestAbove(db) && Newer(PendingEntries(pending), All(db))
    ensures Newer(ImmElems(db) + Elems(db.mem) + PendingEntries(pending), LevelContents(db.levels))
  {
    hide LevelContents, Layered;
  }

  // Opening the store.

  lemma LevelsUnique(manifest: seq<Record>, levels: Levels, base: Levels)
    requires ManifestHolds(manifest, levels) && ManifestHolds(manifest, base)
    ensures levels == base
  {
    forall l | 0 <= l < NUM_LEVELS ensures levels[l] == base[l] {
      SortedUnique(levels[l], base[l]);
    }
  }

  lemma NewTablesReplace(base: Levels, files: seq<File>, levels': Levels)
    requires LevelsEdited(base, FileEdit([], AddPairs(0, files)), levels')
    ensures Replaced(base, NothingRemoved(), 0, Files(files), levels')
  {
    var edit := FileEdit([], AddPairs(0, files));
    forall l | 0 <= l < NUM_LEVELS
      ensures Files(levels'[l]) == Files(base[l]) - {} + if l == 0 then Files(files) else {}
    {
      AddPairsAdd(files, l);
      assert Deleted(edit, l) == {};
    }
  }

  lemma AddPairsAdd(files: seq<File>, l: nat)
    ensures Added(FileEdit([], AddPairs(0, files)), l) == if l == 0 then Files(files) else {}
  {
    var edit := FileEdit([], AddPairs(0, files));
    forall f ensures f in Added(edit, l) <==> l == 0 && f in files {
      if l == 0 && f in files {
        var i :| 0 <= i < |files| && files[i] == f;
        assert edit.newFiles[i] == (0, f);
      }
    }
  }

  lemma FileIndex(files: seq<File>, f: File) returns (i: nat)
    requires f in files
    ensures i < |files| && files[i] == f
  {
    i :| 0 <= i < |files| && files[i] == f;
  }

  /** Every table written while opening is newer than the files the manifest names, and than the tables before it. */
  lemma RecoveredByNumber(base: Levels, meta: Meta, files: seq<File>, newLog: nat, batches: seq<Batch>, end: int, levels': Levels)
    requires |base| == NUM_LEVELS && NewerByNumber(base[0]) && Newer(EntriesOf(batches), LevelContents(base))
    requires UniqueNumbers(Disked(base, meta)) && NewTables(files, meta.nextFile, newLog)
    requires Covers(files, batches) && Contiguous(batches, end)
    requires Replaced(base, NothingRemoved(), 0, Files(files), levels')
    ensures NewerByNumber(levels'[0])
  {
    hide Covers, Contiguous, EntriesOf, LevelContents, Replaced, Newer;
    ReplacedSizes(base, NothingRemoved(), 0, Files(files), levels');
    forall g, h | g in levels'[0] && h in levels'[0] && g != h
      ensures g.number != h.number && (g.number > h.number ==> Newer(Elems(g.entries), Elems(h.entries)))
    {
      ReplacedMembers(base, NothingRemoved(), 0, Files(files), levels', 0, g);
      ReplacedMembers(base, NothingRemoved(), 0, Files(files), levels', 0, h);
      if g in files && h in files {
        var i := FileIndex(files, g);
        var j := FileIndex(files, h);
        if i > j {
          CoversOrdered(files, batches, end, j, i);
        }
      } else if g in files {
        TableNewer(base, files, batches, g, h);
      }
    }
  }

  lemma TableNewer(base: Levels, files: seq<File>, batches: seq<Batch>, g: File, h: File)
    requires |base| == NUM_LEVELS && Newer(EntriesOf(batches), LevelContents(base)) && Covers(files, batches)
    requires g in files && h in base[0]
    ensures Newer(Elems(g.entries), Elems(h.entries))
  {
    hide Covers, EntriesOf;
    CoversContents(files, batches);
    assert g in Files(files);
    forall e | e in Elems(h.entries) ensures e in LevelContents(base) {
    }
    assert Elems(g.entries) <= SetContents(Files(files));
  }

  lemma RecoveredContents(base: Levels, files: seq<File>, batches: seq<Batch>, levels': Levels)
    requires Covers(files, batches) && Replaced(base, NothingRemoved(), 0, Files(files), levels')
    ensures LevelContents(levels') == LevelContents(base) + EntriesOf(batches)
  {
    hide Covers, EntriesOf, Replaced;
    CoversContents(files, batches);
    forall e ensures e in LevelContents(levels') <==> e in LevelContents(base) + EntriesOf(batches) {
      ContentsParts(base, Files(files), levels', e);
    }
  }

  lemma ContentsParts(base: Levels, added: set<File>, levels': Levels, e: Entry)
    requires Replaced(base, NothingRemoved(), 0, added, levels')
    ensures e in LevelContents(levels') <==> e in LevelContents(base) || e in SetContents(added)
  {
    hide LevelContents, Replaced, SortedBySmallest, SetContents, FileContents;
    InSomeLevel(levels', e);
    InSomeLevel(base, e);
    ReplacedSizes(base, NothingRemoved(), 0, added, levels');
    forall l: nat | l < NUM_LEVELS
      ensures InLevel(levels', l, e) <==> InLevel(base, l, e) || (l == 0 && e in SetContents(added))
    {
      ReplacedContents(base, NothingRemoved(), 0, added, levels', l);
      UnremovedContents(base[l]);
      assert NothingRemoved()[l] == {};
    }
    assert InLevel(levels', 0, e) <==> InLevel(base, 0, e) || e in SetContents(added);
  }

  ghost predicate InLevel(levels: Levels, l: nat, e: Entry) {
    l < |levels| && e in FileContents(levels[l])
  }

  lemma InSomeLevel(levels: Levels, e: Entry)
    ensures e in LevelContents(levels) <==> exists l: nat :: InLevel(levels, l, e)
  {
    hide LevelContents, FileContents;
    LevelContentsParts(levels, e);
    if e in LevelContents(levels) {
      var l: int :| 0 <= l < |levels| && e in FileContents(levels[l]);
      assert InLevel(levels, l, e);
    }
    if l: nat :| InLevel(levels, l, e) {
      assert e in FileContents(levels[l]);
    }
  }

  lemma ReplacedSizes(levels: Levels, removed: seq<set<File>>, target: nat, added: set<File>, levels': Levels)
    requires Replaced(levels, removed, target, added, levels')
    ensures |levels| == |levels'| == NUM_LEVELS
  {
  }

  lemma UnremovedContents(files: seq<File>)
    ensures SetContents(Files(files) - {}) == FileContents(files)
  {
  }

  lemma RecoveredShape(disk: Disk, levels: Levels, history: seq<Op>, base: Levels, files: seq<File>, next: Db, newLog: nat)
    requires HoldsHistory(disk, levels, history) && Recovers(disk, base, files, next, newLog)
    ensures base == levels && Replaced(base, NothingRemoved(), 0, Files(files), next.levels)
    ensures ValidLevels(next.levels) && UniqueNumbers(next) && Layered(next.levels)
  {
    hide Recorded, Agrees, LevelContents, Contiguous, Covers, Live, LogsInOrder, EntriesOf, LevelsEdited, Layered;
    LevelsUnique(disk.manifest, levels, base);
    NewTablesReplace(base, files, next.levels);
    var meta := LastMeta(disk.manifest).value;
    NewTablesFit(base, meta, files, newLog, next);
    var batches := Live(disk.logs, meta.logNumber);
    RecoveredLayers(base, meta, files, newLog, batches, |history|, next.levels);
  }

  lemma NewTablesFit(base: Levels, meta: Meta, files: seq<File>, newLog: nat, next: Db)
    requires ValidLevels(base) && UniqueNumbers(Disked(base, meta)) && NewTables(files, meta.nextFile, newLog)
    requires Replaced(base, NothingRemoved(), 0, Files(files), next.levels) && newLog < next.nextFile && meta.nextFile <= newLog
    ensures ValidLevels(next.levels) && UniqueNumbers(next)
  {
    hide Replaced;
    ReplacedShape(base, NothingRemoved(), 0, Files(files), next.levels);
    forall f, g | f in Files(files) && g in Files(files) && f != g ensures f.number != g.number {
      var i := FileIndex(files, f);
      var j := FileIndex(files, g);
    }
    ReplacedNumbers(Disked(base, meta), NothingRemoved(), 0, Files(files), next);
  }

  lemma RecoveredLayers(base: Levels, meta: Meta, files: seq<File>, newLog: nat, batches: seq<Batch>, end: int, levels': Levels)
    requires |base| == NUM_LEVELS && Layered(base) && Newer(EntriesOf(batches), LevelContents(base))
    requires UniqueNumbers(Disked(base, meta)) && NewTables(files, meta.nextFile, newLog)
    requires Covers(files, batches) && Contiguous(batches, end)
    requires Replaced(base, NothingRemoved(), 0, Files(files), levels')
    ensures Layered(levels')
  {
    hide Covers, Contiguous, EntriesOf, Replaced, UniqueNumbers, LevelContents, Newer, SetContents;
    RecoveredByNumber(base, meta, files, newLog, batches, end, levels');
    CoversContents(files, batches);
    forall m | 0 < m < NUM_LEVELS ensures Newer(SetContents(Files(files)), FileContents(base[m])) {
      LevelContentsAbove(base, m);
      NewerSubsets(EntriesOf(batches), LevelContents(base), SetContents(Files(files)), FileContents(base[m]));
    }
    ReplacedLayered(base, NothingRemoved(), 0, Files(files), levels');
  }

  /** Opening rebuilds the whole history: the invariant holds again, and the last sequence number is that of
      the last operation committed. */
  lemma RecoveredInv(disk: Disk, history: seq<Op>, base: Levels, files: seq<File>, next: Db, newLog: nat)
    requires Durable(disk, history) && Recovers(disk, base, files, next, newLog)
    ensures Store.Inv(next, history)
    ensures LevelContents(next.levels) == All(next) && next.lastSequence == |history|
  {
    hide ManifestFiles, LevelContents, EntriesOf, Layered, ValidLevels, UniqueNumbers, Replaced, Recorded, Agrees, NewTables;
    var levels :| HoldsHistory(disk, levels, history);
    RecoveredShape(disk, levels, history, base, files, next, newLog);
    var meta := LastMeta(disk.manifest).value;
    var batches := Live(disk.logs, meta.logNumber);
    RecoveredContents(base, files, batches, next.levels);
    if batches != [] {
      MaxSequenceIs(meta.lastSequence, batches, |history|);
    }
    assert All(next) == LevelContents(next.levels) == EntriesOf(batches) + LevelContents(levels);
    OnlyFilesAbove(next);
  }

  lemma OnlyFilesAbove(db: Db)
    requires |db.levels| == NUM_LEVELS && Layered(db.levels) && db.mem == [] && db.imm.None?
    ensures NewestAbove(db)
  {
    hide Layered, LevelContents;
  }

  // Every step keeps the invariant.

  lemma NewLogInOrder(logs: seq<LogFile>, log: LogFile)
    requires LogsInOrder(logs) && forall l :: l in logs ==> l.number < log.number
    ensures LogsInOrder(logs + [log])
  {
    forall i | 0 <= i < |logs| ensures logs[i].number < log.number {
      assert logs[i] in logs;
    }
  }

  /** A crash while opening leaves no more than an empty log behind, which holds nothing. */
  lemma EmptyLogDurable(disk: Disk, history: seq<Op>, log: LogFile)
    requires Durable(disk, history) && log.batches == [] && forall l :: l in disk.logs ==> l.number < log.number
    ensures Durable(disk.(logs := disk.logs + [log]), history)
  {
    hide ManifestFiles, LevelContents, EntriesOf, Layered, ValidLevels, UniqueNumbers, Recorded, Agrees, Contiguous, LogsInOrder;
    var levels :| HoldsHistory(disk, levels, history);
    var min := LastMeta(disk.manifest).value.logNumber;
    LiveLast(disk.logs, log, min);
    NewLogInOrder(disk.logs, log);
    assert Live(disk.logs, min) + [] == Live(disk.logs, min);
    assert HoldsHistory(disk.(logs := disk.logs + [log]), levels, history);
  }

  lemma AllLogsBefore(disk: Disk, base: Levels, files: seq<File>, next: Db, newLog: nat)
    requires Recovers(disk, base, files, next, newLog)
    ensures forall l :: l in disk.logs ==> l.number < newLog || l.number < LastMeta(disk.manifest).value.logNumber <= newLog
  {
  }

  /** The new manifest, a snapshot and one edit, stands for the recovered files. */
  lemma NewManifestOk(disk: Disk, history: seq<Op>, base: Levels, files: seq<File>, next: Db, newLog: nat)
    requires Durable(disk, history) && Recovers(disk, base, files, next, newLog)
    ensures ManifestOk(NewManifest(Opening(base, files, next, newLog)), next.levels)
  {
    hide ManifestFiles, LevelContents, EntriesOf, Layered, Recorded, Agrees, Contiguous, LogsInOrder, Live, Covers, LevelsEdited, SortedBySmallest, Snapshot;
    var levels :| HoldsHistory(disk, levels, history);
    RecoveredShape(disk, levels, history, base, files, next, newLog);
    var meta := LastMeta(disk.manifest).value;
    BaseSnapshot(base, meta);
    var last := Record(FileEdit([], AddPairs(0, files)), Some(Meta(newLog, next.nextFile, next.lastSequence)));
    TablesAddNew(files, meta.nextFile, newLog, next.nextFile);
    NewFilesAppended([Record(Snapshot(base), None)], base, meta.nextFile, last, next.levels, 0, next.nextFile);
    assert [Record(Snapshot(base), None)] + [last] == NewManifest(Opening(base, files, next, newLog));
  }

  lemma BaseSnapshot(base: Levels, meta: Meta)
    requires |base| == NUM_LEVELS && UniqueNumbers(Disked(base, meta))
    requires forall l :: 0 <= l < NUM_LEVELS ==> SortedBySmallest(base[l])
    ensures ManifestFiles([Record(Snapshot(base), None)], base, meta.nextFile)
  {
    hide ManifestFiles;
    forall l | 0 <= l < NUM_LEVELS ensures DistinctNumbers(base[l]) {
      forall i, j | 0 <= i < j < |base[l]| ensures base[l][i].number != base[l][j].number {
        BySmallestOrder(base[l][i], base[l][j], base[l][i]);
      }
    }
    SnapshotHolds(base, meta.nextFile, None);
  }

  lemma TablesAddNew(files: seq<File>, from: nat, to: nat, next: nat)
    requires NewTables(files, from, to) && to <= next
    ensures AddsNew(FileEdit([], AddPairs(0, files)), 0, from, next)
  {
  }

  lemma OpenKeepsSafe(m: Machine, history: seq<Op>, base: Levels, files: seq<File>, next: Db, newLog: nat, m': Machine)
    requires Safe(m, history) && DurableStep(m, Open(base, files, next, newLog), m')
    ensures Safe(m', history)
  {
    hide ManifestOk, Durable, LevelContents, EntriesOf, LevelsEdited, Covers, NewTables, Store.Inv;
    RecoveredInv(m.disk, history, base, files, next, newLog);
    NewManifestOk(m.disk, history, base, files, next, newLog);
    var log := LogFile(newLog, []);
    forall l | l in m.disk.logs ensures l.number < newLog {
      AllLogsBefore(m.disk, base, files, next, newLog);
    }
    EmptyLogDurable(m.disk, history, log);
    DurableLogs(m.disk, history);
    EmptyStoreConsistent(m.disk.logs, log, next);
  }

  lemma DurableLogs(disk: Disk, history: seq<Op>)
    requires Durable(disk, history)
    ensures LogsInOrder(disk.logs) && |history| < MAX_SEQUENCE
  {
  }

  lemma EmptyStoreConsistent(logs: seq<LogFile>, log: LogFile, db: Db)
    requires log.batches == [] && db.mem == [] && db.imm.None? && log.number < db.nextFile && db.lastSequence < MAX_SEQUENCE
    requires LogsInOrder(logs) && forall l :: l in logs ==> l.number < log.number
    ensures LogsHold(logs + [log], db, log.number, log.number, None)
    ensures Live(logs + [log], log.number) == []
  {
    forall i | 0 <= i < |logs| ensures logs[i].number < log.number {
      assert logs[i] in logs;
    }
    LiveNone(logs, log.number);
    LiveLast(logs, log, log.number);
    assert (logs + [log])[..|logs|] == logs;
    NewLogInOrder(logs, log);
  }

  lemma AppendKeepsSafe(m: Machine, history: seq<Op>, ops: seq<Op>, m': Machine)
    requires Safe(m, history) && DurableStep(m, Append(ops), m')
    ensures Safe(m', history + ops)
  {
    hide ManifestOk, EntriesOf, Store.Inv, BatchEntries;
    var p, b := m.phase, Batch(m.phase.db.lastSequence + 1, ops);
    var db := p.db;
    assert (history + ops)[..db.lastSequence] == history[..db.lastSequence] && (history + ops)[db.lastSequence..] == ops;
    AppendedLog(m.disk.logs, db, p.logNumber, p.logFile, b);
  }

  lemma OneMoreBatch(batches: seq<Batch>, b: Batch, end: int)
    requires Contiguous(batches, end) && b.first == end + 1 && b.first >= 1
    ensures Contiguous(batches + [b], b.Last())
    ensures EntriesOf(batches + [b]) == EntriesOf(batches) + BatchEntries(b)
  {
    hide BatchEntries;
    assert (batches + [b])[..|batches|] == batches;
  }

  lemma EntriesAppend(batches: seq<Batch>, b: Batch)
    ensures EntriesOf(batches + [b]) == EntriesOf(batches) + BatchEntries(b)
  {
    hide BatchEntries;
    assert (batches + [b])[..|batches|] == batches;
  }

  lemma AppendedLog(logs: seq<LogFile>, db: Db, logNumber: nat, logFile: nat, b: Batch)
    requires LogsHold(logs, db, logNumber, logFile, None)
    requires b.first == db.lastSequence + 1 && db.lastSequence + |b.ops| < MAX_SEQUENCE
    ensures LogsHold(AppendBatch(logs, b), db, logNumber, logFile, Some(b))
    ensures Live(AppendBatch(logs, b), logNumber) != []
  {
    hide BatchEntries, EntriesOf, Contiguous, Live;
    var n := |logs| - 1;
    var logs', last := AppendBatch(logs, b), logs[n];
    assert logs'[..n] == logs[..n] && logs == logs[..n] + [last];
    LiveLast(logs[..n], last, logNumber);
    LiveLast(logs[..n], logs'[n], logNumber);
    var live := Live(logs, logNumber);
    assert Live(logs', logNumber) == live + [b];
    OneMoreBatch(live, b, db.lastSequence);
    EntriesAppend(last.batches, b);
  }

  lemma FinishKeepsSafe(m: Machine, history: seq<Op>, m': Machine)
    requires Safe(m, history) && DurableStep(m, Finish, m')
    ensures Safe(m', history)
  {
    hide ManifestOk, EntriesOf, Store.Inv, BatchEntries, Contiguous, LogsInOrder, Live;
    var db, db', b := m.phase.db, m'.phase.db, m.phase.pending.value;
    LogsSplit(m.disk.logs, m.phase.logNumber);
    WriteKeepsInv(db, history[..db.lastSequence], b.ops, db');
    assert history[..db.lastSequence] + b.ops == history && history[..db'.lastSequence] == history;
    PendingAreNew(b, db.lastSequence);
  }

  lemma SwitchKeepsSafe(m: Machine, history: seq<Op>, m': Machine)
    requires Safe(m, history) && InternalStep(m, SwitchMemTable, m')
    ensures Safe(m', history)
  {
    hide ManifestOk, Store.Inv, Contiguous;
    var p, logs := m.phase, m.disk.logs;
    var log := LogFile(p.db.nextFile, []);
    SwitchKeepsInvHere(p.db, history[..p.db.lastSequence], m'.phase.db);
    LogsSplit(logs, p.logNumber);
    LiveLast(logs, log, p.logNumber);
    assert (logs + [log])[..|logs|] == logs;
    NewLogAfter(logs, log);
    assert Live(logs, p.logNumber) + [] == Live(logs, p.logNumber);
  }

  lemma SwitchKeepsInvHere(db: Db, history: seq<Op>, db': Db)
    requires Store.Inv(db, history) && SwitchStep(db, db')
    ensures Store.Inv(db', history)
  {
    SwitchKeepsInv(db, history, db');
  }

  lemma NewLogAfter(logs: seq<LogFile>, log: LogFile)
    requires LogsInOrder(logs) && logs != [] && logs[|logs| - 1].number < log.number
    ensures LogsInOrder(logs + [log])
  {
  }

  /** Once a flush is recorded, only the current log is needed. */
  lemma FlushedLogs(logs: seq<LogFile>, db: Db, logNumber: nat, logFile: nat, pending: Option<Batch>, db': Db)
    requires LogsHold(logs, db, logNumber, logFile, pending)
    requires db' == db.(imm := None, nextFile := db.nextFile + 1, levels := db'.levels)
    ensures LogsHold(logs, db', logFile, logFile, pending) && logFile < db'.nextFile
  {
    hide BatchEntries, Live, Contiguous;
    var n := |logs| - 1;
    LiveNone(logs[..n], logFile);
    LogsSplit(logs, logNumber);
    LogsSplit(logs, logFile);
    var front, back := Live(logs[..n], logNumber), logs[n].batches;
    assert [] + back == back;
    ContiguousSuffix(front, back, db.lastSequence + |PendingOps(pending)|);
  }

  lemma FlushManifest(disk: Disk, db: Db, level: nat, edit: FileEdit, meta: Meta, db': Db)
    requires ManifestOk(disk.manifest, db.levels) && FlushStep(db, level, db') && Records(db, FlushMemTable(level), edit, db')
    requires forall l :: 0 <= l < NUM_LEVELS ==> SortedBySmallest(db.levels[l])
    requires LastMeta(disk.manifest).value.nextFile <= db.nextFile && meta.nextFile == db'.nextFile
    ensures ManifestOk(disk.manifest + [Record(edit, Some(meta))], db'.levels)
  {
    hide ManifestFiles, FlushLevel, MemTableFile, Edited;
    var bound := LastMeta(disk.manifest).value.nextFile;
    var record := Record(edit, Some(meta));
    OneMoreEdit(disk.manifest, record);
    if db.imm == Some([]) {
      NothingEdited(db.levels);
      NewFilesAppended(disk.manifest, db.levels, bound, record, db'.levels, 0, meta.nextFile);
    } else {
      MemTableNumber(db, edit, level);
      NewFilesAppended(disk.manifest, db.levels, bound, record, db'.levels, level, meta.nextFile);
    }
  }

  lemma NothingEdited(levels: Levels)
    requires |levels| == NUM_LEVELS && forall l :: 0 <= l < NUM_LEVELS ==> SortedBySmallest(levels[l])
    ensures LevelsEdited(levels, FileEdit([], []), levels)
  {
    forall l | 0 <= l < NUM_LEVELS ensures Edited(Files(levels[l]), FileEdit([], []), l) == Files(levels[l]) {
    }
  }

  lemma MemTableNumber(db: Db, edit: FileEdit, level: nat)
    requires |db.levels| == NUM_LEVELS
    requires exists f :: MemTableFile(db, f) && FlushLevel(db, f, level) && edit == FileEdit([], [(level, f)])
    ensures AddsNew(edit, level, db.nextFile, db.nextFile + 1)
  {
  }

  lemma FlushKeepsSafe(m: Machine, history: seq<Op>, level: nat, m': Machine)
    requires Safe(m, history) && InternalStep(m, FlushMemTable(level), m')
    ensures Safe(m', history)
  {
    hide ManifestOk, LogsHold, FlushStep, Records, NewestAbove, Agrees, Recorded, ValidLevels, UniqueNumbers;
    var p, db, db' := m.phase, m.phase.db, m'.phase.db;
    var edit :| Records(db, FlushMemTable(level), edit, db') && m'.disk == m.disk.(manifest := m.disk.manifest +
                [Record(edit, Some(Meta(m.phase.logFile, db'.nextFile, db'.lastSequence)))]);
    var meta := Meta(p.logFile, db'.nextFile, db'.lastSequence);
    FlushChanges(db, level, db');
    FlushKeepsInv(db, history[..db.lastSequence], level, db');
    FlushManifest(m.disk, db, level, edit, meta, db');
    OneMoreEdit(m.disk.manifest, Record(edit, Some(meta)));
    FlushedLogs(m.disk.logs, db, p.logNumber, p.logFile, p.pending, db');
  }

  lemma FlushChanges(db: Db, level: nat, db': Db)
    requires FlushStep(db, level, db')
    ensures db' == db.(imm := None, nextFile := db.nextFile + 1, levels := db'.levels)
  {
  }

  lemma SameLogs(logs: seq<LogFile>, db: Db, logNumber: nat, logFile: nat, pending: Option<Batch>, db': Db)
    requires LogsHold(logs, db, logNumber, logFile, pending)
    requires db'.mem == db.mem && db'.imm == db.imm && db'.lastSequence == db.lastSequence && db.nextFile <= db'.nextFile
    ensures LogsHold(logs, db', logNumber, logFile, pending) && logNumber < db'.nextFile
  {
  }

  lemma MoveKeepsSafe(m: Machine, history: seq<Op>, level: nat, f: File, m': Machine)
    requires Safe(m, history) && InternalStep(m, MoveFile(level, f), m') && Closed(m.phase.db, MoveFile(level, f))
    ensures Safe(m', history)
  {
    hide ManifestOk, LogsHold, NewestAbove, Agrees, Recorded, ValidLevels, UniqueNumbers, ValidPick, LevelsEdited, Closed;
    var p, db, db' := m.phase, m.phase.db, m'.phase.db;
    var edit := FileEdit([(level, f.number)], [(level + 1, f)]);
    var meta := Meta(p.logNumber, db'.nextFile, db'.lastSequence);
    StepKeepsInv(db, history[..db.lastSequence], MoveFile(level, f), db');
    MoveManifest(m.disk, db, level, f, meta, db');
    OneMoreEdit(m.disk.manifest, Record(edit, Some(meta)));
    SameLogs(m.disk.logs, db, p.logNumber, p.logFile, p.pending, db');
  }

  lemma MoveManifest(disk: Disk, db: Db, level: nat, f: File, meta: Meta, db': Db)
    requires ManifestOk(disk.manifest, db.levels) && Shape(db) && MoveStep(db, level, f, db')
    requires LastMeta(disk.manifest).value.nextFile <= db.nextFile && meta.nextFile == db'.nextFile
    ensures ManifestOk(disk.manifest + [Record(FileEdit([(level, f.number)], [(level + 1, f)]), Some(meta))], db'.levels)
  {
    hide ManifestFiles, ValidLevels, UniqueNumbers, ValidPick, LevelsEdited;
    PickedInputs(db.levels, level, [f], []);
    assert f in [f];
    OneMoreEdit(disk.manifest, Record(FileEdit([(level, f.number)], [(level + 1, f)]), Some(meta)));
    MoveAppended(disk.manifest, db, LastMeta(disk.manifest).value.nextFile, level, f, Some(meta), db'.levels, meta.nextFile);
  }

  lemma CompactKeepsSafe(m: Machine, history: seq<Op>, a: Action, m': Machine)
    requires Safe(m, history) && a.Compact? && InternalStep(m, a, m') && Closed(m.phase.db, a)
    ensures Safe(m', history)
  {
    hide ManifestOk, LogsHold, NewestAbove, Agrees, Recorded, ValidLevels, UniqueNumbers, ValidPick, LevelsEdited, Closed,
         Outputs, MergedInputs, CompactionEdit;
    var p, db, db' := m.phase, m.phase.db, m'.phase.db;
    var edit := CompactionEdit(a.level, a.in0, a.in1, a.outputs);
    var meta := Meta(p.logNumber, db'.nextFile, db'.lastSequence);
    StepKeepsInv(db, history[..db.lastSequence], a, db');
    CompactManifest(m.disk, db, a, meta, db');
    OneMoreEdit(m.disk.manifest, Record(edit, Some(meta)));
    SameLogs(m.disk.logs, db, p.logNumber, p.logFile, p.pending, db');
  }

  lemma CompactManifest(disk: Disk, db: Db, a: Action, meta: Meta, db': Db)
    requires ManifestOk(disk.manifest, db.levels) && a.Compact? && Store.Step(db, a, db')
    requires LastMeta(disk.manifest).value.nextFile <= db.nextFile && meta.nextFile == db'.nextFile
    ensures ManifestOk(disk.manifest + [Record(CompactionEdit(a.level, a.in0, a.in1, a.outputs), Some(meta))], db'.levels)
  {
    hide ManifestFiles, ValidPick, LevelsEdited, MergedInputs, CompactionEdit;
    var record := Record(CompactionEdit(a.level, a.in0, a.in1, a.outputs), Some(meta));
    OneMoreEdit(disk.manifest, record);
    OutputsAddNew(a.level, a.in0, a.in1, a.outputs, db.nextFile);
    NewFilesAppended(disk.manifest, db.levels, LastMeta(disk.manifest).value.nextFile, record, db'.levels, a.level + 1, meta.nextFile);
  }

  lemma OutputsAddNew(level: nat, in0: seq<File>, in1: seq<File>, outputs: seq<File>, next: nat)
    requires level + 1 < NUM_LEVELS && Outputs(outputs, next)
    ensures AddsNew(CompactionEdit(level, in0, in1, outputs), level + 1, next, next + |outputs|)
  {
  }

  lemma {:induction false} LiveWithout(logs: seq<LogFile>, i: nat, min: nat)
    requires i < |logs| && logs[i].number < min
    ensures Live(logs[..i] + logs[i+1..], min) == Live(logs, min)
  {
    var n := |logs| - 1;
    if i < n {
      LiveWithout(logs[..n], i, min);
      LiveLast(logs[..n][..i] + logs[..n][i+1..], logs[n], min);
      assert logs[..n][..i] + logs[..n][i+1..] + [logs[n]] == logs[..i] + logs[i+1..];
    } else {
      assert logs[..i] + logs[i+1..] == logs[..n];
    }
  }

  lemma DeletedLog(logs: seq<LogFile>, i: nat, db: Db, logNumber: nat, logFile: nat, pending: Option<Batch>)
    requires LogsHold(logs, db, logNumber, logFile, pending) && i < |logs| && logs[i].number < logNumber
    ensures LogsHold(logs[..i] + logs[i+1..], db, logNumber, logFile, pending)
    ensures Live(logs[..i] + logs[i+1..], logNumber) == Live(logs, logNumber)
  {
    hide Contiguous, Live, EntriesOf, BatchEntries;
    var n := |logs| - 1;
    LiveWithout(logs, i, logNumber);
    LiveWithout(logs[..n], i, logNumber);
    var logs' := logs[..i] + logs[i+1..];
    assert logs'[..n - 1] == logs[..n][..i] + logs[..n][i+1..];
    assert logs'[n - 1] == logs[n];
  }

  lemma DeleteKeepsSafe(m: Machine, history: seq<Op>, i: nat, m': Machine)
    requires Safe(m, history) && DurableStep(m, DeleteLog(i), m')
    ensures Safe(m', history)
  {
    hide ManifestOk, Store.Inv, LogsHold;
    DeletedLog(m.disk.logs, i, m.phase.db, m.phase.logNumber, m.phase.logFile, m.phase.pending);
  }

  lemma SnapshotKeepsSafe(m: Machine, history: seq<Op>, a: Action, m': Machine)
    requires Safe(m, history) && InternalStep(m, a, m') && (a.TakeSnapshot? || a.DropSnapshot?)
    ensures Safe(m', history)
  {
    hide ManifestOk, LogsHold, Store.Inv;
    var p, db, db' := m.phase, m.phase.db, m'.phase.db;
    SnapshotStepSame(db, history[..db.lastSequence], a, db');
    SameLogs(m.disk.logs, db, p.logNumber, p.logFile, p.pending, db');
  }

  lemma SnapshotStepSame(db: Db, history: seq<Op>, a: Action, db': Db)
    requires Store.Inv(db, history) && Store.Step(db, a, db') && (a.TakeSnapshot? || a.DropSnapshot?)
    ensures Store.Inv(db', history) && db' == db.(snapshots := db'.snapshots)
  {
    hide Store.Inv;
    StepKeepsInv(db, history, a, db');
  }

  /** The hypothesis on a step: what a move or merge picks is closed under user key. */
  ghost predicate ClosedAct(m: Machine, act: Act) {
    act.Internal? && m.phase.Running? ==> |m.phase.db.levels| == NUM_LEVELS && Closed(m.phase.db, act.action)
  }

  /** Every step, crashes and interrupted openings included, keeps the disk able to rebuild the history. */
  lemma StepKeepsSafe(m: Machine, history: seq<Op>, act: Act, m': Machine)
    requires Safe(m, history) && DurableStep(m, act, m') && ClosedAct(m, act)
    ensures Safe(m', Extend(history, act))
  {
    hide Store.Inv, Consistent, Durable, Recovers, WriteStep, Closed;
    match act
    case Append(ops) => AppendKeepsSafe(m, history, ops, m');
    case Finish => FinishKeepsSafe(m, history, m');
    case Internal(a) =>
      match a {
        case Write(_) =>
        case SwitchMemTable => SwitchKeepsSafe(m, history, m');
        case FlushMemTable(level) => FlushKeepsSafe(m, history, level, m');
        case MoveFile(level, f) => MoveKeepsSafe(m, history, level, f, m');
        case Compact(_, _, _, _, _) => CompactKeepsSafe(m, history, a, m');
        case TakeSnapshot => SnapshotKeepsSafe(m, history, a, m');
        case DropSnapshot(_) => SnapshotKeepsSafe(m, history, a, m');
      }
    case DeleteLog(i) => DeleteKeepsSafe(m, history, i, m');
    case Crash =>
      if m.phase.Running? {
        RunningDurable(m, history);
      }
    case Open(base, files, next, newLog) => OpenKeepsSafe(m, history, base, files, next, newLog, m');
    case Commit =>
      assert m'.phase.db.lastSequence == |history| by {
        OpenedLength(m, history);
      }
      assert history[..|history|] == history;
  }

  lemma OpenedLength(m: Machine, history: seq<Op>)
    requires Safe(m, history) && m.phase.Opening?
    ensures m.phase.next.lastSequence == |history|
  {
  }

  // Runs.

  /** A store that has just been created and not been opened yet. */
  function Created(): Machine {
    Machine(Disk([Record(FileEdit([], []), Some(Meta(0, 2, 0)))], []), Down)
  }

  ghost predicate DurableRun(states: seq<Machine>, acts: seq<Act>) {
    && |states| == |acts| + 1 && states[0] == Created()
    && forall i :: 0 <= i < |acts| ==> DurableStep(states[i], acts[i], states[i + 1]) && ClosedAct(states[i], acts[i])
  }

  /** Everything the logs were ever given. */
  function Committed(acts: seq<Act>): seq<Op> {
    if acts == [] then [] else Extend(Committed(acts[..|acts| - 1]), acts[|acts| - 1])
  }

  lemma CreatedDurable()
    ensures Durable(Created().disk, [])
  {
    var levels: Levels := seq(NUM_LEVELS, _ => []);
    var record := Record(FileEdit([], []), Some(Meta(0, 2, 0)));
    var db := Db([], None, levels, 0, 2, []);
    InitialInv(db);
    CreatedManifest();
    assert All(db) == {} + LevelContents(levels);
    assert HoldsHistory(Created().disk, levels, []);
  }

  lemma {:induction false} NoFiles(levels: Levels)
    requires forall l :: 0 <= l < |levels| ==> levels[l] == []
    ensures AllFiles(levels) == []
  {
    if levels != [] {
      NoFiles(levels[..|levels| - 1]);
    }
  }

  lemma CreatedManifest()
    ensures ManifestOk(Created().disk.manifest, seq(NUM_LEVELS, _ => []))
  {
    hide ManifestFiles;
    var levels: Levels := seq(NUM_LEVELS, _ => []);
    var record := Record(FileEdit([], []), Some(Meta(0, 2, 0)));
    NoFiles(levels);
    SnapshotHolds(levels, 2, record.meta);
  }

  /** Whatever a run did, wherever it crashed and however often opening was itself interrupted, the
      committed operations are all there. */
  lemma {:induction false} RunSafe(states: seq<Machine>, acts: seq<Act>)
    requires DurableRun(states, acts)
    ensures Safe(states[|acts|], Committed(acts))
  {
    hide DurableStep, ClosedAct, Durable, Extend;
    if acts == [] {
      CreatedDurable();
    } else {
      var n := |acts| - 1;
      RunSafe(states[..n + 1], acts[..n]);
      StepKeepsSafe(states[n], Committed(acts[..n]), acts[n], states[n + 1]);
    }
  }

  /** After any run, a store that is running and has no write in progress answers every read as a plain map of
      all operations ever committed does. */
  lemma ReopenedReads(states: seq<Machine>, acts: seq<Act>, user: Bytes)
    requires DurableRun(states, acts) && states[|acts|].phase.Running? && states[|acts|].phase.pending.None?
    ensures var db := states[|acts|].phase.db;
            db.lastSequence == |Committed(acts)|
            && ReadAt(All(db), user, db.lastSequence) == Lookup(Replay(Committed(acts)), user)
  {
    hide DurableStep, ClosedAct, Safe;
    RunSafe(states, acts);
    QuietReads(states[|acts|], Committed(acts), user);
  }

  lemma QuietReads(m: Machine, history: seq<Op>, user: Bytes)
    requires Safe(m, history) && m.phase.Running? && m.phase.pending.None?
    ensures var db := m.phase.db;
            db.lastSequence == |history| && ReadAt(All(db), user, db.lastSequence) == Lookup(Replay(history), user)
  {
    hide Consistent, Store.Inv;
    assert history[..|history|] == history;
    ReadersAgree(m.phase.db, history, user, m.phase.db.lastSequence);
  }

  /** Opening again after a crash inside opening gives the same contents and the same last sequence number. */
  lemma OpeningAgain(disk: Disk, history: seq<Op>, base: Levels, files: seq<File>, next: Db, newLog: nat,
                     base': Levels, files': seq<File>, next': Db, newLog': nat)
    requires Durable(disk, history) && Recovers(disk, base, files, next, newLog)
    requires Recovers(disk.(logs := disk.logs + [LogFile(newLog, [])]), base', files', next', newLog')
    ensures All(next') == All(next) && next'.lastSequence == next.lastSequence
  {
    hide Durable, ManifestFiles, Covers, LevelContents, EntriesOf, Store.Inv;
    var disk', log := disk.(logs := disk.logs + [LogFile(newLog, [])]), LogFile(newLog, []);
    forall l | l in disk.logs ensures l.number < newLog {
      AllLogsBefore(disk, base, files, next, newLog);
    }
    EmptyLogDurable(disk, history, log);
    RecoveredInv(disk, history, base, files, next, newLog);
    RecoveredInv(disk', history, base', files', next', newLog');
    var min := LastMeta(disk.manifest).value.logNumber;
    LiveLast(disk.logs, log, min);
    assert Live(disk.logs, min) + [] == Live(disk.logs, min);
    LevelsUnique(disk.manifest, base, base');
    NewTablesReplace(base, files, next.levels);
    NewTablesReplace(base, files', next'.levels);
    RecoveredContents(base, files, Live(disk.logs, min), next.levels);
    RecoveredContents(base, files', Live(disk.logs, min), next'.levels);
  }
}
