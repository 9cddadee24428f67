/** The formats by example: what particular values look like in bytes, by the documents that lay the formats down
    (db/log_format.h, db/write_batch.cc, db/version_edit.cc, db/dbformat.h, table/format.h, table/block_builder.cc; the
    Protocol Buffers Encoding guide). */
module KnownBytes {
  import opened Keys
  import opened Coding
  import Crc32c
  import LogWriter
  import LogLayout
  import Store
  import WriteBatches
  import VersionEdits
  import Separators
  import BlockFormat
  import BlockBuilders
  import TableFormat
  import TableFiles
  import DiskBytes
  import ProtoTypes

  // Numbers.

  lemma Numbers()
    ensures Varint(1) == [1] && Varint(150) == [0x96, 1] && Varint(300) == [0xac, 2] && Varint(86942) == [0x9e, 0xa7, 5]
    ensures EncodeFixed32(0x0403_0201) == [1, 2, 3, 4] && EncodeFixed64(0x0807_0605_0403_0201) == [1, 2, 3, 4, 5, 6, 7, 8]
  {
    OneByte(2);
    OneByte(1);
    OneByte(5);
    MoreBytes(150, 1);
    MoreBytes(300, 2);
    MoreBytes(86942, 679);
    MoreBytes(679, 5);
    FourBytes();
    EightBytes();
  }

  lemma OneByte(v: nat)
    requires v < 128
    ensures Varint(v) == [v]
  {
  }

  lemma MoreBytes(v: nat, q: nat)
    requires v >= 128 && v / 128 == q
    ensures Varint(v) == [v % 128 + 128] + Varint(q)
  {
  }

  lemma ByteOut(v: nat, n: nat, b: Byte, q: nat)
    requires v == 256 * q + b
    ensures Fixed(v, n + 1) == [b] + Fixed(q, n)
  {
  }

  lemma NoByte(v: nat)
    ensures Fixed(v, 0) == []
  {
  }

  lemma FourBytes()
    ensures Fixed(0x0403_0201, 4) == [1, 2, 3, 4]
  {
    hide Fixed;
    ByteOut(0x0403_0201, 3, 1, 0x04_0302);
    ByteOut(0x04_0302, 2, 2, 0x0403);
    ByteOut(0x0403, 1, 3, 4);
    ByteOut(4, 0, 4, 0);
    NoByte(0);
  }

  lemma EightBytes()
    ensures Fixed(0x0807_0605_0403_0201, 8) == [1, 2, 3, 4, 5, 6, 7, 8]
  {
    hide Fixed;
    ByteOut(0x0807_0605_0403_0201, 7, 1, 0x08_0706_0504_0302);
    ByteOut(0x08_0706_0504_0302, 6, 2, 0x0807_0605_0403);
    ByteOut(0x0807_0605_0403, 5, 3, 0x08_0706_0504);
    ByteOut(0x08_0706_0504, 4, 4, 0x0807_0605);
    ByteOut(0x0807_0605, 3, 5, 0x08_0706);
    ByteOut(0x08_0706, 2, 6, 0x0807);
    ByteOut(0x0807, 1, 7, 8);
    ByteOut(8, 0, 8, 0);
    NoByte(0);
  }

  // Logs: a checksum, a length of two bytes, a type, and the payload; blocks of 32 KB.

  ghost function Fragment(kind: Byte, payload: Bytes): Bytes
    requires |payload| < 0x1_0000
  {
    EncodeFixed32(Crc32c.Mask(Crc32c.Value([kind] + payload))) + [|payload| % 256, |payload| / 256, kind] + payload
  }

  /** A record that fits a block is one fragment, a longer one a first, perhaps some middle ones and a last. */
  lemma LogRecord(record: Bytes)
    ensures |record| <= 32761 ==> LogLayout.Log([record]) == Fragment(1, record)
    ensures 32761 < |record| <= 65522 ==> LogLayout.Log([record]) == Fragment(2, record[..32761]) + Fragment(4, record[32761..])
    ensures 65522 < |record| <= 98283 ==>
              LogLayout.Log([record]) == Fragment(2, record[..32761]) + (Fragment(3, record[32761..65522]) + Fragment(4, record[65522..]))
  {
    OneRecord(record);
    hide *;
    if |record| <= 32761 {
      LastFragment(0, true, record);
    } else {
      FullBlock(0, true, record);
      if |record| <= 65522 {
        LastFragment(32768, false, record[32761..]);
      } else if |record| <= 98283 {
        FullBlock(32768, false, record[32761..]);
        assert record[32761..][..32761] == record[32761..65522] && record[32761..][32761..] == record[65522..];
        LastFragment(65536, false, record[65522..]);
      }
    }
  }

  lemma OneRecord(record: Bytes)
    ensures LogLayout.Log([record]) == LogWriter.Fragments(0, true, record)
  {
    hide LogWriter.Fragments;
    var f := LogWriter.Fragments(0, true, record);
    assert LogWriter.Encoded(|f|, []) == [];
    assert [record][1..] == [] && f + [] == f;
  }

  // Where a block begins.
  lemma AtBlock(off: nat, data: Bytes)
    requires off == 0 || off == 32768 || off == 65536
    ensures LogWriter.Header(off) == off && LogWriter.Taken(off, data) == if |data| < 32761 then |data| else 32761
  {
  }

  lemma FirstOf(off: nat, begin: bool, data: Bytes, n: nat)
    requires LogWriter.Header(off) == off && LogWriter.Taken(off, data) == n
    ensures LogWriter.FirstFragment(off, begin, data) == Fragment(LogWriter.TypeOf(begin, n == |data|), data[..n])
  {
    hide Crc32c.Mask, Crc32c.Value, EncodeFixed32, LogWriter.Header, LogWriter.Taken, LogWriter.TypeOf;
    var f := Fragment(LogWriter.TypeOf(begin, n == |data|), data[..n]);
    assert LogWriter.FirstFragment(off, begin, data) == LogWriter.Zeros(0) + f;
    hide Fragment;
    assert LogWriter.Zeros(0) + f == f;
  }

  lemma RestOf(off: nat, begin: bool, data: Bytes, n: nat)
    requires LogWriter.Header(off) == off && LogWriter.Taken(off, data) == n
    ensures LogWriter.Fragments(off, begin, data)
         == LogWriter.FirstFragment(off, begin, data) + if n == |data| then [] else LogWriter.Fragments(off + 7 + n, false, data[n..])
  {
    hide LogWriter.Header, LogWriter.Taken, LogWriter.FirstFragment;
  }

  lemma LastFragment(off: nat, begin: bool, data: Bytes)
    requires (off == 0 || off == 32768 || off == 65536) && |data| <= 32761
    ensures LogWriter.Fragments(off, begin, data) == Fragment(if begin then 1 else 4, data)
  {
    assert LogWriter.TypeOf(begin, true) == if begin then 1 else 4;
    hide *;
    AtBlock(off, data);
    FirstOf(off, begin, data, |data|);
    RestOf(off, begin, data, |data|);
    assert data[..|data|] == data;
    var f := Fragment(if begin then 1 else 4, data);
    assert f + [] == f;
  }

  lemma FullBlock(off: nat, begin: bool, data: Bytes)
    requires (off == 0 || off == 32768) && |data| > 32761
    ensures LogWriter.Fragments(off, begin, data)
         == Fragment(if begin then 2 else 3, data[..32761]) + LogWriter.Fragments(off + 32768, false, data[32761..])
  {
    assert LogWriter.TypeOf(begin, false) == if begin then 2 else 3;
    hide *;
    AtBlock(off, data);
    FirstOf(off, begin, data, 32761);
    RestOf(off, begin, data, 32761);
  }

  /** Where fewer than seven bytes are left in a block they are zero, and the record begins with the next block. */
  lemma LogTrailer(block: nat, used: nat, record: Bytes)
    requires 32761 < used < 32768
    ensures LogWriter.Fragments(32768 * block + used, true, record)
         == seq(32768 - used, _ => 0) + LogWriter.Fragments(32768 * (block + 1), true, record)
  {
    BlockEnd(block, used, record);
    hide *;
    FromHeader(32768 * block + used, 32768 * (block + 1), record);
  }

  lemma BlockEnd(block: nat, used: nat, record: Bytes)
    requires 32761 < used < 32768
    ensures var off, h := 32768 * block + used, 32768 * (block + 1);
            LogWriter.Header(off) == h == LogWriter.Header(h) && LogWriter.Taken(off, record) == LogWriter.Taken(h, record)
  {
    assert (32768 * block + used) % 32768 == used && 32768 * (block + 1) % 32768 == 0;
  }

  // Writing from anywhere before a header is writing from the header, after zeros.
  lemma FromHeader(off: nat, h: nat, record: Bytes)
    requires off <= h && LogWriter.Header(off) == h == LogWriter.Header(h) && LogWriter.Taken(off, record) == LogWriter.Taken(h, record)
    ensures LogWriter.Fragments(off, true, record) == seq(h - off, _ => 0) + LogWriter.Fragments(h, true, record)
  {
    hide LogWriter.Header, LogWriter.Taken, LogWriter.Physical;
    var n := LogWriter.Taken(h, record);
    var f := LogWriter.Physical(LogWriter.TypeOf(true, n == |record|), record[..n]);
    assert LogWriter.FirstFragment(h, true, record) == LogWriter.Zeros(0) + f && LogWriter.Zeros(0) + f == f;
    assert LogWriter.FirstFragment(off, true, record) == LogWriter.Zeros(h - off) + f;
    hide LogWriter.FirstFragment;
    var more := if n == |record| then [] else LogWriter.Fragments(h + LogWriter.HEADER_SIZE + n, false, record[n..]);
    assert LogWriter.Fragments(h, true, record) == f + more && LogWriter.Fragments(off, true, record) == LogWriter.Zeros(h - off) + f + more;
    Regroup(LogWriter.Zeros(h - off), f, more);
  }

  // Write batches: sequence number, count, then a tag and strings for each operation.

  lemma Batch()
    ensures WriteBatches.Layout(0x0807_0605_0403_0201, [Store.Op([0x61], Value, [0x62, 0x63]), Store.Op([0x64], Deletion, [])])
         == [1, 2, 3, 4, 5, 6, 7, 8] + [2, 0, 0, 0] + ([1, 1, 0x61, 2, 0x62, 0x63] + [0, 1, 0x64])
  {
    var put, delete := Store.Op([0x61], Value, [0x62, 0x63]), Store.Op([0x64], Deletion, []);
    Numbers();
    SmallCount();
    BatchOps(put, delete);
    hide WriteBatches.EncodeOp, WriteBatches.EncodeOps, EncodeFixed32, EncodeFixed64;
    TwoOps(put, delete);
  }

  lemma SmallCount()
    ensures EncodeFixed32(2) == [2, 0, 0, 0]
  {
    assert Fixed(2, 4) == [2] + Fixed(0, 3);
  }

  lemma BatchOps(put: Store.Op, delete: Store.Op)
    requires put == Store.Op([0x61], Value, [0x62, 0x63]) && delete == Store.Op([0x64], Deletion, [])
    ensures WriteBatches.EncodeOp(put) == [1, 1, 0x61, 2, 0x62, 0x63] && WriteBatches.EncodeOp(delete) == [0, 1, 0x64]
  {
    OneByte(1);
    OneByte(2);
    hide Varint;
    assert LengthPrefixed([0x61]) == [1, 0x61] && LengthPrefixed([0x62, 0x63]) == [2, 0x62, 0x63] && LengthPrefixed([0x64]) == [1, 0x64];
  }

  lemma TwoOps(a: Store.Op, b: Store.Op)
    ensures WriteBatches.EncodeOps([a, b]) == WriteBatches.EncodeOp(a) + WriteBatches.EncodeOp(b)
  {
    hide WriteBatches.EncodeOp;
    assert [a, b][..1] == [a] && [a][..0] == [];
    assert WriteBatches.EncodeOps([a]) == [] + WriteBatches.EncodeOp(a);
  }

  // Internal keys: the user key, then eight bytes of sequence number and type.

  lemma InternalKeyBytes()
    ensures Separators.EncodeKey(InternalKey([0x61], 0x05_0403_0201, Value)) == [0x61] + [1, 1, 2, 3, 4, 5, 0, 0]
    ensures Separators.EncodeKey(InternalKey([0x61], 0x05_0403_0201, Deletion)) == [0x61] + [0, 1, 2, 3, 4, 5, 0, 0]
  {
    assert InternalKey([0x61], 0x05_0403_0201, Value).Packed() == 0x0504_0302_0101;
    assert InternalKey([0x61], 0x05_0403_0201, Deletion).Packed() == 0x0504_0302_0100;
    PackedBytes();
    hide Fixed;
  }

  lemma PackedBytes()
    ensures EncodeFixed64(0x0504_0302_0101) == [1, 1, 2, 3, 4, 5, 0, 0] && EncodeFixed64(0x0504_0302_0100) == [0, 1, 2, 3, 4, 5, 0, 0]
  {
    hide Fixed;
    ByteOut(0x0504_0302_0101, 7, 1, 0x05_0403_0201);
    ByteOut(0x0504_0302_0100, 7, 0, 0x05_0403_0201);
    ByteOut(0x05_0403_0201, 6, 1, 0x0504_0302);
    ByteOut(0x0504_0302, 5, 2, 0x05_0403);
    ByteOut(0x05_0403, 4, 3, 0x0504);
    ByteOut(0x0504, 3, 4, 5);
    ByteOut(5, 2, 5, 0);
    ByteOut(0, 1, 0, 0);
    ByteOut(0, 0, 0, 0);
    NoByte(0);
  }

  // Version edits: tagged fields.

  lemma EditNumbers()
    ensures VersionEdits.Encoded(VersionEdits.Comparator([0x62])) == [1, 1, 0x62]
    ensures VersionEdits.Encoded(VersionEdits.LogNumber(4)) == [2, 4] && VersionEdits.Encoded(VersionEdits.PrevLogNumber(3)) == [9, 3]
    ensures VersionEdits.Encoded(VersionEdits.NextFileNumber(5)) == [3, 5] && VersionEdits.Encoded(VersionEdits.LastSequence(300)) == [4, 0xac, 2]
  {
    Numbers();
    Digits();
    hide Varint, Fixed;
  }

  lemma EditFiles()
    ensures VersionEdits.Encoded(VersionEdits.CompactPointer(2, [0x6b])) == [5, 2, 1, 0x6b]
    ensures VersionEdits.Encoded(VersionEdits.DeletedFile(1, 7)) == [6, 1, 7]
  {
    Digits();
    hide Varint;
  }

  lemma EditNewFile()
    ensures VersionEdits.Encoded(VersionEdits.NewFile(0, VersionEdits.FileMeta(8, 300, [0x61], [0x63])))
         == [7] + ([0] + [8] + [0xac, 2] + [1, 0x61] + [1, 0x63])
  {
    Numbers();
    Digits();
    hide Varint, Fixed;
    assert LengthPrefixed([0x61]) == [1, 0x61] && LengthPrefixed([0x63]) == [1, 0x63];
    hide LengthPrefixed;
  }

  lemma Digits()
    ensures forall v: Byte :: v < 10 ==> Varint(v) == [v]
  {
  }

  /** The fields of an edit come in this order. */
  lemma EditInOrder()
    ensures VersionEdits.Fields(VersionEdits.Edit(Some([0x62]), Some(4), Some(3), Some(5), Some(300), [(2, [0x6b])], [(1, 7)],
                                                  [(0, VersionEdits.FileMeta(8, 300, [0x61], [0x63]))]))
         == [VersionEdits.Comparator([0x62]), VersionEdits.LogNumber(4), VersionEdits.PrevLogNumber(3), VersionEdits.NextFileNumber(5),
             VersionEdits.LastSequence(300), VersionEdits.CompactPointer(2, [0x6b]), VersionEdits.DeletedFile(1, 7),
             VersionEdits.NewFile(0, VersionEdits.FileMeta(8, 300, [0x61], [0x63]))]
  {
  }

  // Blocks: entries that share prefixes, restart offsets, and their number.

  // Two entries after one restart point.
  function TwoEntries(): BlockFormat.Layout {
    BlockFormat.Layout([BlockFormat.Pair([0x61, 0x62], [0x78]), BlockFormat.Pair([0x61, 0x63], [0x79])], [0, 1], [0])
  }

  lemma TwoEntriesRegular()
    ensures BlockBuilders.Regular(TwoEntries(), 16)
  {
    var pairs := TwoEntries().pairs;
    assert BlockFormat.SharesWell(pairs, [0, 1]) by {
      assert pairs[0].key[..1] == [0x61] && pairs[1].key[..1] == [0x61];
    }
    assert BlockFormat.MarksWell([0, 1], [0]);
    CommonOne();
  }

  /** Entries, restart offsets, and their number. */
  lemma Block()
    ensures BlockBuilders.Regular(TwoEntries(), 16)
    ensures BlockFormat.BlockBytes(TwoEntries()) == ([0, 2, 1, 0x61, 0x62, 0x78] + [1, 1, 1, 0x63, 0x79]) + [0, 0, 0, 0] + [1, 0, 0, 0]
  {
    TwoEntriesRegular();
    var l := TwoEntries();
    assert BlockFormat.Sound(l);
    BlockEntries(l);
    SmallNumbers();
    hide Fixed, BlockFormat.Data, BlockFormat.Sound, BlockBuilders.Regular;
    assert BlockFormat.RestartOffsets(l) == [0];
    assert [0][..0] == [];
    assert BlockFormat.Numbers([0]) == [] + Fixed(0, 4);
  }

  lemma CommonOne()
    ensures BlockBuilders.CommonPrefix([0x61, 0x62], [0x61, 0x63]) == 1
  {
    assert [0x61, 0x62][1..] == [0x62] && [0x61, 0x63][1..] == [0x63];
  }

  lemma BlockEntries(l: BlockFormat.Layout)
    requires l == TwoEntries() && BlockFormat.Sound(l)
    ensures BlockFormat.Data(l, 0) == [] && BlockFormat.Data(l, 2) == [0, 2, 1, 0x61, 0x62, 0x78] + [1, 1, 1, 0x63, 0x79]
  {
    Digits();
    hide Varint, BlockFormat.Sound;
    assert BlockFormat.EncodedEntry([0x61, 0x62], [0x78], 0) == [0, 2, 1, 0x61, 0x62, 0x78];
    assert [0x61, 0x63][1..] == [0x63];
    assert BlockFormat.EncodedEntry([0x61, 0x63], [0x79], 1) == [1, 1, 1, 0x63, 0x79];
    assert BlockFormat.Data(l, 1) == [] + BlockFormat.EncodedEntry([0x61, 0x62], [0x78], 0);
  }

  lemma SmallNumbers()
    ensures Fixed(0, 4) == [0, 0, 0, 0] && Fixed(1, 4) == [1, 0, 0, 0]
  {
  }

  /** A restart point every so many entries, where nothing is shared. */
  lemma RestartsAt(l: BlockFormat.Layout, interval: nat, k: nat, at: nat, i: nat)
    requires BlockBuilders.Regular(l, interval) && at == k * interval && at <= i < at + interval && i < |l.pairs|
    ensures |l.shared| == |l.pairs|
    ensures if i == at then l.shared[i] == 0 else l.shared[i] == BlockBuilders.CommonPrefix(l.pairs[i - 1].key, l.pairs[i].key)
  {
    SharedAt(l, interval, i);
    MarkIs(l, interval, k);
    hide BlockBuilders.Regular;
    forall j | 0 <= j < |l.marks| ensures l.marks[j] <= at || l.marks[j] >= at + interval {
      MarkApart(l, interval, j, k, at);
    }
    assert i == at ==> l.marks[k] == i;
  }

  lemma MarkApart(l: BlockFormat.Layout, interval: nat, j: nat, k: nat, at: nat)
    requires BlockBuilders.Regular(l, interval) && at == k * interval && j < |l.marks|
    ensures l.marks[j] <= at || l.marks[j] >= at + interval
  {
    MarkIs(l, interval, j);
    hide BlockBuilders.Regular;
    Multiples(j, k, interval);
  }

  lemma SharedAt(l: BlockFormat.Layout, interval: nat, i: nat)
    requires BlockBuilders.Regular(l, interval) && i < |l.pairs|
    ensures |l.shared| == |l.pairs|
    ensures i in l.marks ==> l.shared[i] == 0
    ensures i !in l.marks ==> i > 0 && l.shared[i] == BlockBuilders.CommonPrefix(l.pairs[i - 1].key, l.pairs[i].key)
  {
    assert l.marks[0] == 0;
  }

  lemma Multiples(j: nat, k: nat, m: nat)
    ensures j <= k ==> j * m <= k * m
    ensures j > k ==> j * m >= k * m + m
  {
    if j <= k {
      assert (k - j) * m >= 0;
      assert k * m == j * m + (k - j) * m;
    } else {
      assert (j - k - 1) * m >= 0;
      assert j * m == k * m + m + (j - k - 1) * m;
    }
  }

  lemma {:induction false} MarkIs(l: BlockFormat.Layout, interval: nat, j: nat)
    requires BlockBuilders.Regular(l, interval)
    ensures j < |l.marks| ==> l.marks[j] == j * interval
    ensures j * interval < |l.pairs| && interval > 0 ==> j < |l.marks|
    decreases j
  {
    if j > 0 {
      MarkIs(l, interval, j - 1);
      assert j * interval == (j - 1) * interval + interval;
    }
    hide BlockFormat.Sound;
  }

  // Names and limits.

  lemma Names()
    ensures var name := "leveldb.BytewiseComparator"; DiskBytes.COMPARATOR == seq(|name|, i requires 0 <= i < |name| => CharByte(name[i]))
    ensures var prefix := "filter."; forall name :: TableFiles.FilterKey(name) == seq(|prefix|, i requires 0 <= i < |prefix| => CharByte(prefix[i])) + name
    ensures MAX_SEQUENCE == 0x100_0000_0000_0000 - 1
  {
  }

  function CharByte(c: char): Byte {
    if c as int < 256 then c as int else 0
  }

  // Table footers: two handles, padded to forty bytes, and the magic number.

  lemma FooterBytes()
    ensures TableFormat.EncodeFooter(TableFormat.Footer(TableFormat.Handle(1, 2), TableFormat.Handle(3, 300)))
         == [1, 2, 3, 0xac, 2] + seq(35, _ => 0) + [0x57, 0xfb, 0x80, 0x8b] + [0x24, 0x75, 0x47, 0xdb]
  {
    Digits();
    Numbers();
    MagicBytes();
    hide Varint, Fixed;
    var a, b := TableFormat.EncodeHandle(TableFormat.Handle(1, 2)), TableFormat.EncodeHandle(TableFormat.Handle(3, 300));
    assert a == [1, 2] && b == [3, 0xac, 2] && a + b == [1, 2, 3, 0xac, 2];
  }

  lemma MagicBytes()
    ensures EncodeFixed32(0x8b80_fb57) == [0x57, 0xfb, 0x80, 0x8b] && EncodeFixed32(0xdb47_7524) == [0x24, 0x75, 0x47, 0xdb]
  {
    hide Fixed;
    ByteOut(0x8b80_fb57, 3, 0x57, 0x8b_80fb);
    ByteOut(0x8b_80fb, 2, 0xfb, 0x8b80);
    ByteOut(0x8b80, 1, 0x80, 0x8b);
    ByteOut(0x8b, 0, 0x8b, 0);
    ByteOut(0xdb47_7524, 3, 0x24, 0xdb_4775);
    ByteOut(0xdb_4775, 2, 0x75, 0xdb47);
    ByteOut(0xdb47, 1, 0x47, 0xdb);
    ByteOut(0xdb, 0, 0xdb, 0);
    NoByte(0);
  }

  // Protocol Buffers: the examples of the Encoding guide.

  /** Field 1 holding 150. */
  lemma MessageNumber()
    ensures ProtoTypes.EncodeTagged(ProtoTypes.Field(1, ProtoTypes.Required, ProtoTypes.SignedVarint(4), None), ProtoTypes.Number(150)) == [0x08, 0x96, 0x01]
  {
    Numbers();
    Tags();
    hide Varint;
  }

  /** Field 2 holding "testing". */
  lemma MessageText()
    ensures ProtoTypes.EncodeTagged(ProtoTypes.Field(2, ProtoTypes.Required, ProtoTypes.Text(8), None),
                                    ProtoTypes.Data([0x74, 0x65, 0x73, 0x74, 0x69, 0x6e, 0x67])) == [0x12] + ([0x07] + [0x74, 0x65, 0x73, 0x74, 0x69, 0x6e, 0x67])
  {
    Tags();
    hide Varint;
  }

  /** Field 4 holding the packed numbers 3, 270 and 86942. */
  lemma MessagePacked()
    ensures ProtoTypes.EncodeArray(ProtoTypes.Field(4, ProtoTypes.Repeated(3), ProtoTypes.SignedVarint(4), None),
                                   [ProtoTypes.Number(3), ProtoTypes.Number(270), ProtoTypes.Number(86942)]) == [0x22] + [0x06] + ([0x03] + [0x8e, 0x02] + [0x9e, 0xa7, 0x05])
  {
    Tags();
    hide Varint;
    PackedItems();
    hide ProtoTypes.EncodeItems;
  }

  /** Field 3 holding 1 in four and in eight bytes. */
  lemma MessageFixed()
    ensures ProtoTypes.EncodeTagged(ProtoTypes.Field(3, ProtoTypes.Required, ProtoTypes.Fixed32, None), ProtoTypes.Number(1)) == [0x1d] + [1, 0, 0, 0]
    ensures ProtoTypes.EncodeTagged(ProtoTypes.Field(3, ProtoTypes.Required, ProtoTypes.Fixed64, None), ProtoTypes.Number(1)) == [0x19] + [1, 0, 0, 0, 0, 0, 0, 0]
  {
    SmallNumbers();
    OneInEight();
    Digits();
    assert Varint(0x1d) == [0x1d] && Varint(0x19) == [0x19];
    hide Varint, Fixed;
  }

  lemma OneInEight()
    ensures Fixed(1, 8) == [1, 0, 0, 0, 0, 0, 0, 0]
  {
    hide Fixed;
    SmallNumbers();
    ByteOut(1, 7, 1, 0);
    ByteOut(0, 6, 0, 0);
    ByteOut(0, 5, 0, 0);
    ByteOut(0, 4, 0, 0);
  }

  lemma Tags()
    ensures Varint(8) == [8] && Varint(0x12) == [0x12] && Varint(0x22) == [0x22] && Varint(7) == [7] && Varint(6) == [6]
    ensures Varint(3) == [3] && Varint(270) == [0x8e, 2]
  {
    MoreBytes(270, 2);
  }

  lemma ItemIs(n: nat)
    requires n < 0x8000_0000
    ensures ProtoTypes.HasShape(ProtoTypes.SignedVarint(4), ProtoTypes.Number(n))
    ensures ProtoTypes.EncodeValue(ProtoTypes.SignedVarint(4), ProtoTypes.Number(n)) == Varint(n)
  {
    hide Varint, ProtoTypes.EncodeAll, ProtoTypes.AllShaped;
    assert ProtoTypes.AsUnsigned(n) == n;
    hide ProtoTypes.AsUnsigned;
  }

  lemma ThreeItems(kind: ProtoTypes.DataType, a: ProtoTypes.Value, b: ProtoTypes.Value, c: ProtoTypes.Value)
    requires ProtoTypes.HasShape(kind, a) && ProtoTypes.HasShape(kind, b) && ProtoTypes.HasShape(kind, c)
    ensures ProtoTypes.EncodeItems(kind, [a, b, c], [])
         == ProtoTypes.EncodeValue(kind, a) + ProtoTypes.EncodeValue(kind, b) + ProtoTypes.EncodeValue(kind, c)
  {
    hide ProtoTypes.EncodeItems, ProtoTypes.EncodeValue, ProtoTypes.HasShape;
    assert [a, b, c][..2] == [a, b] && [a, b][..1] == [a] && [a][..0] == [];
    ProtoTypes.NoItems(kind, [a], []);
    ProtoTypes.EncodeItemsLast(kind, [a], []);
    ProtoTypes.EncodeItemsLast(kind, [a, b], []);
    ProtoTypes.EncodeItemsLast(kind, [a, b, c], []);
    BesideNothing();
  }

  lemma PackedItems()
    ensures ProtoTypes.EncodeItems(ProtoTypes.SignedVarint(4), [ProtoTypes.Number(3), ProtoTypes.Number(270), ProtoTypes.Number(86942)], [])
         == [0x03] + [0x8e, 0x02] + [0x9e, 0xa7, 0x05]
  {
    hide *;
    Numbers();
    Tags();
    ItemIs(3);
    ItemIs(270);
    ItemIs(86942);
    ThreeItems(ProtoTypes.SignedVarint(4), ProtoTypes.Number(3), ProtoTypes.Number(270), ProtoTypes.Number(86942));
  }

  lemma ZigZags()
    ensures ProtoTypes.ZigZagged(0) == 0 && ProtoTypes.ZigZagged(-1) == 1 && ProtoTypes.ZigZagged(1) == 2 && ProtoTypes.ZigZagged(-2) == 3
    ensures ProtoTypes.ZigZagged(0x7fff_ffff) == 0xffff_fffe && ProtoTypes.ZigZagged(-0x8000_0000) == 0xffff_ffff
  {
  }
}
