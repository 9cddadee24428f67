/** Recovery from the bytes on disk: a manifest and logs, framed as records, each of which may end in the part of one
    more record that a crash cut short (db/version_set.cc, db/db_impl.cc). */
module DiskBytes {
  import opened Keys
  import opened Coding
  import opened Contents
  import opened Versions
  import opened VersionBuilder
  import opened Store
  import opened Manifests
  import opened Recovery
  import RecoveryImpl
  import opened Separators
  import opened WriteBatches
  import LogWriter
  import opened LogLayout
  import LogReader
  import VersionEdits

  /** The name of the bytewise comparator. */
  const COMPARATOR: Bytes :=
    [0x6c, 0x65, 0x76, 0x65, 0x6c, 0x64, 0x62, 0x2e, 0x42, 0x79, 0x74, 0x65, 0x77, 0x69, 0x73, 0x65,
     0x43, 0x6f, 0x6d, 0x70, 0x61, 0x72, 0x61, 0x74, 0x6f, 0x72]

  // Files of records.

  /** The file holds these records, and perhaps the part of one more. */
  ghost predicate TornLog(file: Bytes, records: seq<Bytes>) {
    exists next: Bytes :: TornBefore(file, records, next)
  }

  ghost predicate TornBefore(file: Bytes, records: seq<Bytes>, next: Bytes) {
    file <= Log(records + [next]) && |Log(records)| <= |file| < |Log(records + [next])|
  }

  /** A file that is whole is one of these, and appending a record's fragments adds the record. */
  lemma WholeLog(records: seq<Bytes>, record: Bytes)
    ensures TornLog(Log(records), records)
    ensures TornLog(Log(records) + LogWriter.Fragments(|Log(records)|, true, record), records + [record])
  {
    WholeIsTorn(records);
    LogExtends(records, record);
    WholeIsTorn(records + [record]);
  }

  lemma WholeIsTorn(records: seq<Bytes>)
    ensures TornLog(Log(records), records)
  {
    hide LogWriter.Fragments;
    LogExtends(records, []);
    StartsInside(records + [[]], |records|);
    CutWhole(records + [[]]);
    assert (records + [[]])[..|records|] == records;
    assert TornBefore(Log(records), records, []);
  }

  /** Reading such a file gives back the records. */
  method ReadRecords(file: Bytes, ghost records: seq<Bytes>) returns (r: seq<Bytes>)
    requires TornLog(file, records)
    ensures r == records
  {
    hide Log, Cut, Clean;
    ghost var next: Bytes :| TornBefore(file, records, next);
    var found, reports := LogReader.ReadLog(file, true, 0, records + [next]);
    ghost var m := PrefixReadable(records + [next], |file|, 0);
    AllInside(file, records, next, m);
    r := [];
    for i := 0 to |found|
      invariant r == Datas(found[..i])
    {
      OneMoreData(found, i);
      r := r + [found[i].data];
    }
    assert found[..|found|] == found;
  }

  lemma OneMoreData(found: seq<Found>, i: nat)
    requires i < |found|
    ensures Datas(found[..i + 1]) == Datas(found[..i]) + [found[i].data]
    decreases |found|
  {
    if i == 0 {
      assert found[..1] == [found[0]];
    } else {
      assert found[..i + 1][1..] == found[1..][..i] && found[..i][1..] == found[1..][..i - 1];
      OneMoreData(found[1..], i - 1);
    }
  }

  lemma AllInside(file: Bytes, records: seq<Bytes>, next: Bytes, m: nat)
    requires TornBefore(file, records, next) && m <= |records| + 1
    requires m > 0 ==> Cut(records + [next], m) <= |file|
    requires m < |records| + 1 ==> |file| < Cut(records + [next], m + 1)
    ensures m == |records| && (records + [next])[0..m] == records
  {
    hide Log;
    var all := records + [next];
    CutWhole(all);
    assert all[..|records|] == records;
    if m < |records| {
      CutsIncrease(all, m + 1, |records|);
    }
  }

  // Manifest records.

  function EntriesAt(tables: map<nat, seq<Entry>>, number: nat): seq<Entry> {
    if number in tables then tables[number] else []
  }

  function KeyOf(b: Bytes): InternalKey {
    match ParseInternalKey(b)
    case None => InternalKey([], 0, Deletion)
    case Some(k) => k
  }

  function FileOf(m: VersionEdits.FileMeta, tables: map<nat, seq<Entry>>): File {
    File(m.number, m.size, KeyOf(m.smallest), KeyOf(m.largest), EntriesAt(tables, m.number))
  }

  function MetaOf(e: VersionEdits.Edit): Option<Meta> {
    if e.logNumber.Some? && e.nextFileNumber.Some? && e.lastSequence.Some?
    then Some(Meta(e.logNumber.value, e.nextFileNumber.value, e.lastSequence.value)) else None
  }

  /** What an edit read from the manifest says of files, given the contents of the tables. */
  function RecordOf(e: VersionEdits.Edit, tables: map<nat, seq<Entry>>): Record {
    Record(FileEdit(e.deletedFiles,
                    seq(|e.newFiles|, i requires 0 <= i < |e.newFiles| => (e.newFiles[i].0, FileOf(e.newFiles[i].1, tables)))),
           MetaOf(e))
  }

  /** The edit written for a record: the same files, with their keys as bytes, and the same numbers. */
  ghost predicate Represents(e: VersionEdits.Edit, r: Record, tables: map<nat, seq<Entry>>) {
    && (e.comparator.Some? ==> e.comparator.value == COMPARATOR)
    && |e.newFiles| == |r.files.newFiles|
    && (forall i :: 0 <= i < |e.newFiles| ==>
          e.newFiles[i].0 == r.files.newFiles[i].0 && Describes(e.newFiles[i].1, r.files.newFiles[i].1, tables))
    && (forall d: (nat, nat) :: d in e.deletedFiles <==> d in r.files.deletedFiles)
    && MetaOf(e) == r.meta
  }

  ghost predicate Describes(m: VersionEdits.FileMeta, f: File, tables: map<nat, seq<Entry>>) {
    && m.number == f.number && m.size == f.size && m.smallest == EncodeKey(f.smallest) && m.largest == EncodeKey(f.largest)
    && f.number in tables && tables[f.number] == f.entries
  }

  /** Records that differ in the order of their deletions only. */
  ghost predicate SameRecord(a: Record, b: Record) {
    && a.files.newFiles == b.files.newFiles && a.meta == b.meta
    && forall d: (nat, nat) :: d in a.files.deletedFiles <==> d in b.files.deletedFiles
  }

  ghost predicate SameManifest(a: seq<Record>, b: seq<Record>) {
    |a| == |b| && forall i :: 0 <= i < |a| ==> SameRecord(a[i], b[i])
  }

  lemma RepresentsBack(e: VersionEdits.Edit, r: Record, tables: map<nat, seq<Entry>>)
    requires Represents(e, r, tables)
    ensures SameRecord(RecordOf(e, tables), r)
  {
    hide EncodeKey, ParseInternalKey;
    var files := RecordOf(e, tables).files.newFiles;
    forall i | 0 <= i < |files| ensures files[i] == r.files.newFiles[i] {
      ParseEncoded(r.files.newFiles[i].1.smallest);
      ParseEncoded(r.files.newFiles[i].1.largest);
    }
  }

  lemma {:induction false} SameEdits(a: seq<Record>, b: seq<Record>, l: nat)
    requires SameManifest(a, b)
    ensures EditedAll({}, Edits(a), l) == EditedAll({}, Edits(b), l) && AllAdded(Edits(a), l) == AllAdded(Edits(b), l)
  {
    if a != [] {
      var n := |a| - 1;
      SameEdits(a[..n], b[..n], l);
      assert Edits(a)[..n] == Edits(a[..n]) && Edits(b)[..n] == Edits(b[..n]);
      assert SameRecord(a[n], b[n]);
      assert Deleted(a[n].files, l) == Deleted(b[n].files, l) && Added(a[n].files, l) == Added(b[n].files, l);
    }
  }

  lemma {:induction false} SameFeedable(a: seq<Record>, b: seq<Record>)
    requires SameManifest(a, b) && Feedable(Edits(b))
    ensures Feedable(Edits(a))
  {
    if a != [] {
      hide AllAdded, Feedable, FreshNumbers, EditLevels;
      var n := |a| - 1;
      assert Edits(a)[..n] == Edits(a[..n]) && Edits(b)[..n] == Edits(b[..n]);
      FeedableParts(Edits(b));
      SameFeedable(a[..n], b[..n]);
      assert SameRecord(a[n], b[n]);
      forall l | 0 <= l < NUM_LEVELS ensures FreshNumbers(a[n].files, l, AllAdded(Edits(a[..n]), l)) {
        SameEdits(a[..n], b[..n], l);
        SameFresh(a[n].files, b[n].files, l, AllAdded(Edits(a[..n]), l));
      }
      SameLevels(a[n].files, b[n].files);
      FeedableWhole(Edits(a));
    }
  }

  lemma FeedableParts(edits: seq<FileEdit>)
    requires Feedable(edits) && edits != []
    ensures var n := |edits| - 1;
            && Feedable(edits[..n]) && EditLevels(edits[n])
            && forall l :: 0 <= l < NUM_LEVELS ==> FreshNumbers(edits[n], l, AllAdded(edits[..n], l))
  {
  }

  lemma FeedableWhole(edits: seq<FileEdit>)
    requires edits != []
    requires var n := |edits| - 1;
             && Feedable(edits[..n]) && EditLevels(edits[n])
             && forall l :: 0 <= l < NUM_LEVELS ==> FreshNumbers(edits[n], l, AllAdded(edits[..n], l))
    ensures Feedable(edits)
  {
  }

  lemma SameFresh(a: FileEdit, b: FileEdit, l: nat, files: set<File>)
    requires a.newFiles == b.newFiles && FreshNumbers(b, l, files)
    ensures FreshNumbers(a, l, files)
  {
    assert Added(a, l) == Added(b, l);
  }

  lemma SameLevels(a: FileEdit, b: FileEdit)
    requires a.newFiles == b.newFiles && EditLevels(b)
    requires forall d: (nat, nat) :: d in a.deletedFiles <==> d in b.deletedFiles
    ensures EditLevels(a)
  {
  }

  lemma {:induction false} SameMeta(a: seq<Record>, b: seq<Record>)
    requires SameManifest(a, b)
    ensures LastMeta(a) == LastMeta(b)
  {
    if a != [] {
      var n := |a| - 1;
      assert SameRecord(a[n], b[n]);
      SameMeta(a[..n], b[..n]);
    }
  }

  /** Such manifests stand for the same file lists. */
  lemma SameHolds(a: seq<Record>, b: seq<Record>, levels: Levels)
    requires SameManifest(a, b)
    ensures ManifestHolds(a, levels) <==> ManifestHolds(b, levels)
    ensures ManifestOk(b, levels) ==> ManifestOk(a, levels)
  {
    hide Edits, EditedAll, AllAdded, Feedable, SortedBySmallest, LastMeta;
    forall l: nat ensures EditedAll({}, Edits(a), l) == EditedAll({}, Edits(b), l) && AllAdded(Edits(a), l) == AllAdded(Edits(b), l) {
      SameEdits(a, b, l);
    }
    SameMeta(a, b);
    if ManifestOk(b, levels) {
      SameFeedable(a, b);
    }
  }

  ghost function EditRecords(edits: seq<VersionEdits.Edit>): seq<Bytes> {
    seq(|edits|, i requires 0 <= i < |edits| => VersionEdits.EncodedAll(VersionEdits.Fields(edits[i])))
  }

  ghost predicate Writes(edits: seq<VersionEdits.Edit>, manifest: seq<Record>, tables: map<nat, seq<Entry>>) {
    && |edits| == |manifest|
    && forall i :: 0 <= i < |edits| ==> VersionEdits.EditWritable(edits[i]) && Represents(edits[i], manifest[i], tables)
  }

  /** The records of a manifest file. */
  method DecodeManifest(file: Bytes, tables: map<nat, seq<Entry>>, ghost manifest: seq<Record>, ghost edits: seq<VersionEdits.Edit>)
    returns (ok: bool, rs: seq<Record>)
    requires TornLog(file, EditRecords(edits)) && Writes(edits, manifest, tables)
    ensures ok && SameManifest(rs, manifest)
  {
    hide TornLog, VersionEdits.EditWritable, Represents, SameRecord, VersionEdits.EncodedAll, VersionEdits.Fields;
    var records := ReadRecords(file, EditRecords(edits));
    rs := [];
    for i := 0 to |records|
      invariant |rs| == i && forall k :: 0 <= k < i ==> SameRecord(rs[k], manifest[k])
    {
      var r;
      ok, r := DecodeRecord(records[i], tables, edits[i], manifest[i]);
      if !ok {
        return;
      }
      rs := rs + [r];
    }
    ok := true;
  }

  /** An edit is read into a fresh object, and must name no other comparator. */
  method DecodeRecord(bytes: Bytes, tables: map<nat, seq<Entry>>, ghost e: VersionEdits.Edit, ghost r: Record)
    returns (ok: bool, decoded: Record)
    requires VersionEdits.EditWritable(e) && bytes == VersionEdits.EncodedAll(VersionEdits.Fields(e))
    ensures ok <==> (e.comparator.Some? ==> e.comparator.value == COMPARATOR)
    ensures Represents(e, r, tables) ==> ok && SameRecord(decoded, r)
  {
    hide VersionEdits.EditWritable, Represents, SameRecord, RecordOf, VersionEdits.EncodedAll, VersionEdits.Fields, VersionEdits.FieldsIn,
         VersionEdits.AppliedAll;
    var edit := new VersionEdits.VersionEdit();
    ok := edit.DecodeFrom(bytes);
    VersionEdits.EditRoundTrip(e);
    if Represents(e, r, tables) {
      ComparatorIs(e, r, tables);
      RepresentsBack(e, r, tables);
    }
    assert edit.State() == e;
    decoded := RecordOf(VersionEdits.Edit(edit.comparator, edit.logNumber, edit.prevLogNumber, edit.nextFileNumber, edit.lastSequence,
                                          edit.compactPointers, edit.deletedFiles, edit.newFiles), tables);
    ok := ok && (edit.comparator.Some? ==> edit.comparator.value == COMPARATOR);
  }

  lemma ComparatorIs(e: VersionEdits.Edit, r: Record, tables: map<nat, seq<Entry>>)
    requires Represents(e, r, tables)
    ensures e.comparator.Some? ==> e.comparator.value == COMPARATOR
  {
  }

  // Log records.

  ghost predicate BatchFits(b: Batch) {
    b.first < TWO64 && |b.ops| < TWO32 && AllEncodable(b.ops)
  }

  ghost predicate AllFit(batches: seq<Batch>) {
    forall i :: 0 <= i < |batches| ==> BatchFits(batches[i])
  }

  ghost function BatchRecords(batches: seq<Batch>): seq<Bytes>
    requires AllFit(batches)
  {
    seq(|batches|, i requires 0 <= i < |batches| => Layout(batches[i].first, batches[i].ops))
  }

  /** The batches of a log file. A record too small for a header is passed over, and a malformed one ends the log. */
  method DecodeBatches(file: Bytes, ghost batches: seq<Batch>) returns (bs: seq<Batch>)
    requires AllFit(batches) && TornLog(file, BatchRecords(batches))
    ensures bs == batches
  {
    hide TornLog, Layout, DecodeOps, AllEncodable, DecodeFixed32, DecodeFixed64;
    var records := ReadRecords(file, BatchRecords(batches));
    bs := [];
    for i := 0 to |records|
      invariant |records| == |batches| && bs == batches[..i]
    {
      assert BatchFits(batches[i]);
      LayoutRoundTrip(batches[i].first, batches[i].ops);
      if |records[i]| < 12 {
        continue;
      }
      var first := DecodeFixed64(records[i][..8]);
      var ok, ops := Iterate(records[i]);
      if !ok {
        break;
      }
      bs := bs + [Batch(first, ops)];
    }
  }

  // The disk.

  datatype LogBytes = LogBytes(number: nat, contents: Bytes)

  datatype Image = Image(manifest: Bytes, logs: seq<LogBytes>)

  ghost predicate LogStands(bytes: LogBytes, log: LogFile) {
    && bytes.number == log.number && AllFit(log.batches)
    && TornLog(bytes.contents, BatchRecords(log.batches))
  }

  /** The bytes on disk hold the manifest and the logs, whatever was being appended when the process went down. */
  ghost predicate Stands(image: Image, tables: map<nat, seq<Entry>>, edits: seq<VersionEdits.Edit>, disk: Disk) {
    && Writes(edits, disk.manifest, tables) && TornLog(image.manifest, EditRecords(edits))
    && |image.logs| == |disk.logs| && forall i :: 0 <= i < |disk.logs| ==> LogStands(image.logs[i], disk.logs[i])
  }

  /** Opening from the bytes does what opening from the records they hold does. */
  method OpenImage(image: Image, tables: map<nat, seq<Entry>>, ghost edits: seq<VersionEdits.Edit>, ghost disk: Disk, ghost history: seq<Op>)
    returns (ok: bool, base: Levels, files: seq<File>, next: Db, newLog: nat)
    requires Stands(image, tables, edits, disk) && Durable(disk, history)
    ensures ok && Recovers(disk, base, files, next, newLog)
    ensures Store.Inv(next, history) && next.lastSequence == |history|
  {
    hide Writes, TornLog, LogStands, Durable, Recovers, SameManifest, Store.Inv;
    var rs;
    ok, rs := DecodeManifest(image.manifest, tables, disk.manifest, edits);
    var logs: seq<LogFile> := [];
    for i := 0 to |image.logs|
      invariant logs == disk.logs[..i]
    {
      LogStandsFor(image.logs[i], disk.logs[i]);
      var batches := DecodeBatches(image.logs[i].contents, disk.logs[i].batches);
      logs := logs + [LogFile(image.logs[i].number, batches)];
    }
    assert disk.logs[..|disk.logs|] == disk.logs;
    SameDurable(disk, rs, history);
    base, files, next, newLog := RecoveryImpl.Open(Disk(rs, logs), history);
    SameRecovers(disk, rs, base, files, next, newLog);
    RecoveredInv(disk, history, base, files, next, newLog);
  }

  lemma LogStandsFor(bytes: LogBytes, log: LogFile)
    requires LogStands(bytes, log)
    ensures bytes.number == log.number && AllFit(log.batches)
    ensures TornLog(bytes.contents, BatchRecords(log.batches))
  {
  }

  lemma SameDurable(disk: Disk, rs: seq<Record>, history: seq<Op>)
    requires Durable(disk, history) && SameManifest(rs, disk.manifest)
    ensures Durable(Disk(rs, disk.logs), history)
  {
    hide ManifestOk, SameManifest, ValidLevels, Layered, UniqueNumbers, Recorded, Agrees, LevelContents, EntriesOf, Live, LogsInOrder, Contiguous;
    var levels :| HoldsHistory(disk, levels, history);
    SameHolds(rs, disk.manifest, levels);
    SameMeta(rs, disk.manifest);
    assert HoldsHistory(Disk(rs, disk.logs), levels, history);
  }

  lemma SameRecovers(disk: Disk, rs: seq<Record>, base: Levels, files: seq<File>, next: Db, newLog: nat)
    requires Recovers(Disk(rs, disk.logs), base, files, next, newLog) && SameManifest(rs, disk.manifest)
    ensures Recovers(disk, base, files, next, newLog)
  {
    hide ManifestHolds, SameManifest, Covers, Live, NewTables, LevelsEdited;
    SameHolds(rs, disk.manifest, base);
    SameMeta(rs, disk.manifest);
  }
}
