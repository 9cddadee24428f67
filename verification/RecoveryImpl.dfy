/** Opening a store: the loops that read the manifest and the logs back and turn the logs into tables of
    level 0, each shown to be a step of the recovery machine (db/db_impl.cc). */
module RecoveryImpl {
  import opened Keys
  import opened Contents
  import opened Versions
  import opened VersionBuilder
  import opened Store
  import opened Manifests
  import opened Recovery
  import DbImpl

  // Tables covering some batches, with the rest in a memtable.
  ghost predicate Holding(files: seq<File>, mem: Option<seq<Entry>>, done: seq<Batch>, k: nat) {
    match mem
    case None => Covers(files, done)
    case Some(es) => k <= |done| && Sorted(es) && Covers(files, done[..k]) && Elems(es) == EntriesOf(done[k..])
  }

  lemma HoldingNew(files: seq<File>, done: seq<Batch>)
    requires Covers(files, done)
    ensures Holding(files, Some([]), done, |done|)
  {
    hide Covers;
    assert done[..|done|] == done && done[|done|..] == [];
  }

  lemma HoldingMore(files: seq<File>, es: seq<Entry>, done: seq<Batch>, k: nat, b: Batch, es': seq<Entry>)
    requires Holding(files, Some(es), done, k) && Sorted(es') && Elems(es') == Elems(es) + BatchEntries(b)
    ensures Holding(files, Some(es'), done + [b], k)
  {
    hide Covers, BatchEntries, Sorted;
    assert (done + [b])[..k] == done[..k] && (done + [b])[k..] == done[k..] + [b];
    EntriesAppend(done[k..], b);
  }

  lemma MiddleAndRest(s: seq<Batch>, j: nat, k: nat)
    requires j <= k <= |s|
    ensures s[..k][..j] == s[..j] && s[..k][j..] + s[k..] == s[j..]
  {
  }

  /** A memtable written out covers its batches; an empty one leaves no table. */
  lemma HoldingFlushed(files: seq<File>, es: seq<Entry>, done: seq<Batch>, k: nat, f: File)
    requires Holding(files, Some(es), done, k) && f.entries == es
    ensures es != [] ==> Covers(files + [f], done)
    ensures es == [] ==> Covers(files, done)
  {
    hide BatchEntries, Sorted;
    if es != [] {
      assert (files + [f])[..|files|] == files;
    } else if files == [] {
      EntriesConcat(done[..k], done[k..]);
      assert done[..k] + done[k..] == done;
    } else {
      var j := LastCut(files, done[..k]);
      MiddleAndRest(done, j, k);
      EntriesConcat(done[..k][j..], done[k..]);
    }
  }

  // The entries of a memtable come before any later batch.
  lemma MemBefore(files: seq<File>, es: seq<Entry>, done: seq<Batch>, k: nat, b: Batch, rest: seq<Batch>, end: int)
    requires Holding(files, Some(es), done, k) && Contiguous(done + [b] + rest, end)
    ensures b.first >= 1 && forall e :: e in es ==> e.key.seqno < b.first
  {
    hide Covers, Sorted;
    var end' := ContiguousPrefix(done + [b], rest, end);
    assert (done + [b])[..|done|] == done;
    forall e | e in es ensures e.key.seqno < b.first {
      assert e in Elems(es);
      EntriesConcat(done[..k], done[k..]);
      assert done[..k] + done[k..] == done;
      EntriesBound(done, b.first - 1, e);
    }
  }

  lemma BatchEnd(done: seq<Batch>, b: Batch, rest: seq<Batch>, end: int)
    requires Contiguous(done + [b] + rest, end)
    ensures b.Last() <= end
  {
    var all := done + [b] + rest;
    if rest == [] {
      assert all == done + [b];
    } else {
      var last := rest[|rest| - 1];
      assert all[..|all| - 1] == done + [b] + rest[..|rest| - 1];
      BatchEnd(done, b, rest[..|rest| - 1], last.first - 1);
    }
  }

  lemma PartialBatch(b: Batch, i: nat)
    requires i < |b.ops| && b.first >= 1 && b.Last() <= MAX_SEQUENCE
    ensures BatchEntries(b.(ops := b.ops[..i+1])) == BatchEntries(b.(ops := b.ops[..i])) + {NewEntry(b.ops[i], b.first + i)}
    ensures forall e :: e in BatchEntries(b.(ops := b.ops[..i])) ==> e.key.seqno < b.first + i
  {
    var longer, shorter := b.(ops := b.ops[..i+1]), b.(ops := b.ops[..i]);
    forall e ensures e in BatchEntries(longer) <==> e in BatchEntries(shorter) + {NewEntry(b.ops[i], b.first + i)} {
      if e in BatchEntries(shorter) {
        var j :| 0 <= j < i && e == NewEntry(shorter.ops[j], b.first + j);
        assert longer.ops[j] == shorter.ops[j];
      }
      assert longer.ops[i] == b.ops[i];
    }
  }

  /** WriteBatchInternal::InsertInto: the operations go to the memtable on consecutive sequence numbers. */
  method InsertInto(b: Batch, mem: seq<Entry>) returns (mem': seq<Entry>)
    requires Sorted(mem) && b.first >= 1 && b.Last() <= MAX_SEQUENCE
    requires forall e :: e in mem ==> e.key.seqno < b.first
    ensures Sorted(mem') && Elems(mem') == Elems(mem) + BatchEntries(b)
  {
    hide Sorted, BatchEntries;
    mem' := mem;
    NothingInserted(b);
    for i := 0 to |b.ops|
      invariant Sorted(mem') && Elems(mem') == Elems(mem) + BatchEntries(b.(ops := b.ops[..i]))
    {
      PartialBatch(b, i);
      forall e | e in mem' ensures e.key != NewEntry(b.ops[i], b.first + i).key {
        assert e in Elems(mem');
      }
      mem' := DbImpl.AddToMemTable(mem', NewEntry(b.ops[i], b.first + i));
    }
    assert b.ops[..|b.ops|] == b.ops;
  }

  lemma NothingInserted(b: Batch)
    ensures BatchEntries(b.(ops := b.ops[..0])) == {}
  {
  }

  /** A memtable becomes a table of level 0, unless it is empty; a number is used up either way. */
  method WriteLevel0Table(es: seq<Entry>, files: seq<File>, nextFile: nat, size: nat, ghost from: nat)
    returns (files': seq<File>, nextFile': nat)
    requires Sorted(es) && NewTables(files, from, nextFile) && from <= nextFile
    ensures nextFile' == nextFile + 1 && NewTables(files', from, nextFile')
    ensures if es == [] then files' == files else |files'| == |files| + 1 && files' == files + [files'[|files|]] && files'[|files|].entries == es
  {
    files' := files;
    if es != [] {
      files' := files + [File(nextFile, size, es[0].key, es[|es| - 1].key, es)];
    }
    nextFile' := nextFile + 1;
  }

  /** RecoverLogFile: the batches of one log go to a memtable, which is written out whenever it is full and
      at the end of the log. */
  method RecoverLogFile(batches: seq<Batch>, files: seq<File>, nextFile: nat, maxSequence: nat,
                        ghost from: nat, ghost done: seq<Batch>, ghost rest: seq<Batch>, ghost end: nat)
    returns (files': seq<File>, nextFile': nat, maxSequence': nat)
    requires Covers(files, done) && NewTables(files, from, nextFile) && from <= nextFile
    requires Contiguous(done + batches + rest, end) && end <= MAX_SEQUENCE
    requires maxSequence == MaxSequence(0, done)
    ensures Covers(files', done + batches) && NewTables(files', from, nextFile') && nextFile <= nextFile'
    ensures maxSequence' == MaxSequence(0, done + batches)
  {
    hide Covers, Sorted, NewTables, BatchEntries, EntriesOf, Contiguous;
    files', nextFile', maxSequence' := files, nextFile, maxSequence;
    var mem: Option<seq<Entry>> := None;
    ghost var k: nat := 0;
    assert done + batches[..0] == done;
    for i := 0 to |batches|
      invariant Holding(files', mem, done + batches[..i], k)
      invariant NewTables(files', from, nextFile') && nextFile <= nextFile'
      invariant maxSequence' == MaxSequence(0, done + batches[..i])
    {
      ghost var so := done + batches[..i];
      var b := batches[i];
      OneMoreDone(done, batches, rest, i);
      BatchEnd(so, b, batches[i+1..] + rest, end);
      if mem.None? {
        HoldingNew(files', so);
        mem, k := Some([]), |so|;
      }
      MemBefore(files', mem.value, so, k, b, batches[i+1..] + rest, end);
      var es := InsertInto(b, mem.value);
      HoldingMore(files', mem.value, so, k, b, es);
      mem := Some(es);
      if maxSequence' < b.Last() {
        maxSequence' := b.Last();
      }
      var full := *;
      if full {
        files', nextFile' := Flush(es, files', nextFile', from, so + [b], k);
        mem := None;
      }
    }
    assert batches[..|batches|] == batches;
    if mem.Some? {
      files', nextFile' := Flush(mem.value, files', nextFile', from, done + batches, k);
    }
  }

  lemma OneMoreDone(done: seq<Batch>, batches: seq<Batch>, rest: seq<Batch>, i: nat)
    requires i < |batches|
    ensures var so := done + batches[..i];
            && done + batches[..i + 1] == so + [batches[i]] && (so + [batches[i]])[..|so|] == so
            && so + [batches[i]] + (batches[i + 1..] + rest) == done + batches + rest
  {
    assert batches == batches[..i] + [batches[i]] + batches[i + 1..];
  }

  method Flush(es: seq<Entry>, files: seq<File>, nextFile: nat, ghost from: nat, ghost done: seq<Batch>, ghost k: nat)
    returns (files': seq<File>, nextFile': nat)
    requires Holding(files, Some(es), done, k) && NewTables(files, from, nextFile) && from <= nextFile
    ensures Covers(files', done) && NewTables(files', from, nextFile') && nextFile' == nextFile + 1
  {
    hide Covers, Sorted, NewTables, BatchEntries, EntriesOf;
    var size := *;
    files', nextFile' := WriteLevel0Table(es, files, nextFile, size, from);
    ghost var dummy := InternalKey([], 0, Deletion);
    HoldingFlushed(files, es, done, k, if es == [] then File(0, 0, dummy, dummy, es) else files'[|files|]);
  }

  lemma LiveNext(logs: seq<LogFile>, i: nat, min: nat)
    requires i < |logs|
    ensures Live(logs[..i+1], min) == Live(logs[..i], min) + if logs[i].number >= min then logs[i].batches else []
  {
    assert logs[..i+1] == logs[..i] + [logs[i]];
    LiveLast(logs[..i], logs[i], min);
  }

  // The batches of the logs from i on.
  lemma LiveRest(logs: seq<LogFile>, i: nat, min: nat)
    requires i <= |logs|
    ensures Live(logs, min) == Live(logs[..i], min) + Live(logs[i..], min)
    decreases |logs|
  {
    if i == |logs| {
      assert logs[..i] == logs && logs[i..] == [];
    } else {
      hide Live;
      var n := |logs| - 1;
      LiveRest(logs[..n], i, min);
      assert logs[..n][..i] == logs[..i] && logs[..n][i..] == logs[i..n];
      assert logs == logs[..n] + [logs[n]] && logs[i..] == logs[i..n] + [logs[n]];
      LiveLast(logs[..n], logs[n], min);
      LiveLast(logs[i..n], logs[n], min);
      Regroup(Live(logs[..i], min), Live(logs[i..n], min), if logs[n].number >= min then logs[n].batches else []);
    }
  }

  lemma Regroup(a: seq<Batch>, b: seq<Batch>, c: seq<Batch>)
    ensures a + b + c == a + (b + c)
  {
  }

  lemma {:induction false} MaxFromZero(last: nat, batches: seq<Batch>)
    ensures MaxSequence(last, batches) == if last < MaxSequence(0, batches) then MaxSequence(0, batches) else last
  {
    if batches != [] {
      MaxFromZero(last, batches[..|batches| - 1]);
    }
  }

  /** DBImpl::Recover and the first part of DB::Open: the version the manifest names, the live logs in order,
      and a new log after them. */
  method Open(disk: Disk, ghost history: seq<Op>)
    returns (base: Levels, files: seq<File>, next: Db, newLog: nat)
    requires Durable(disk, history)
    ensures Recovers(disk, base, files, next, newLog)
    ensures DurableStep(Machine(disk, Down), Act.Open(base, files, next, newLog),
                        Machine(disk.(logs := disk.logs + [LogFile(newLog, [])]), Opening(base, files, next, newLog)))
  {
    hide Covers, Sorted, NewTables, BatchEntries, EntriesOf, Contiguous, Live, ManifestHolds, LevelsEdited, Layered, ValidLevels, Recorded, Agrees;
    ghost var levels :| HoldsHistory(disk, levels, history);
    var found;
    base, found := ReadManifest(disk.manifest);
    var meta := found.value;
    var nextFile: nat, maxSequence: nat := meta.nextFile + 1, 0;
    files := [];
    ghost var from := meta.nextFile;
    NothingCovered(from, nextFile);
    for i := 0 to |disk.logs|
      invariant Covers(files, Live(disk.logs[..i], meta.logNumber)) && NewTables(files, from, nextFile) && from < nextFile
      invariant maxSequence == MaxSequence(0, Live(disk.logs[..i], meta.logNumber))
      invariant forall j :: 0 <= j < i && disk.logs[j].number >= meta.logNumber ==> disk.logs[j].number < nextFile
    {
      LiveNext(disk.logs, i, meta.logNumber);
      ghost var done := Live(disk.logs[..i], meta.logNumber);
      assert done + [] == done;
      if disk.logs[i].number >= meta.logNumber {
        ghost var rest := Live(disk.logs[i+1..], meta.logNumber);
        LiveRest(disk.logs, i + 1, meta.logNumber);
        files, nextFile, maxSequence := RecoverLogFile(disk.logs[i].batches, files, nextFile, maxSequence, from, done, rest, |history|);
        if nextFile <= disk.logs[i].number {
          MoreRoom(files, from, nextFile, disk.logs[i].number + 1);
          nextFile := disk.logs[i].number + 1;
        }
      }
    }
    assert disk.logs[..|disk.logs|] == disk.logs;
    newLog := nextFile;
    nextFile := nextFile + 1;
    MaxFromZero(meta.lastSequence, Live(disk.logs, meta.logNumber));
    var lastSequence := if meta.lastSequence < maxSequence then maxSequence else meta.lastSequence;
    LastInRange(disk, levels, history);
    TablesFree(base, meta, files, newLog, disk, levels, history);
    var saved := DbImpl.ApplyEdit(base, FileEdit([], AddPairs(0, files)));
    next := Db([], None, saved, lastSequence, nextFile, []);
  }

  lemma LastInRange(disk: Disk, levels: Levels, history: seq<Op>)
    requires HoldsHistory(disk, levels, history)
    ensures var meta := LastMeta(disk.manifest).value;
            MaxSequence(meta.lastSequence, Live(disk.logs, meta.logNumber)) <= MAX_SEQUENCE
  {
    var meta := LastMeta(disk.manifest).value;
    if Live(disk.logs, meta.logNumber) != [] {
      MaxSequenceIs(meta.lastSequence, Live(disk.logs, meta.logNumber), |history|);
    }
  }

  lemma TablesFree(base: Levels, meta: Meta, files: seq<File>, newLog: nat, disk: Disk, levels: Levels, history: seq<Op>)
    requires HoldsHistory(disk, levels, history) && ManifestHolds(disk.manifest, base) && meta == LastMeta(disk.manifest).value
    requires NewTables(files, meta.nextFile, newLog)
    ensures |base| == NUM_LEVELS && EditLevels(FileEdit([], AddPairs(0, files)))
    ensures forall l :: 0 <= l < NUM_LEVELS ==> SortedBySmallest(base[l]) && FreshNumbers(FileEdit([], AddPairs(0, files)), l, Files(base[l]))
  {
    hide Recorded, Agrees, Layered, LevelContents;
    LevelsUnique(disk.manifest, levels, base);
    forall l | 0 <= l < NUM_LEVELS ensures FreshNumbers(FileEdit([], AddPairs(0, files)), l, Files(base[l])) {
      AddPairsAdd(files, l);
    }
  }

  lemma NothingCovered(from: nat, to: nat)
    ensures Covers([], Live([], 0)) && NewTables([], from, to) && MaxSequence(0, []) == 0
    ensures forall min :: Live([], min) == []
  {
  }

  lemma MoreRoom(files: seq<File>, from: nat, to: nat, to': nat)
    requires NewTables(files, from, to) && to <= to'
    ensures NewTables(files, from, to')
  {
  }
}
