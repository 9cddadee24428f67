/** What a table file holds, and why one block is enough to look a key up (table/format.h, table/format.cc,
    table/table_builder.cc, table/table.cc). */
module TableFormat {
  import opened Keys
  import opened Contents
  import opened Versions
  import opened Coding
  import opened Separators
  import BlockFormat
  import BlockIters
  import FilterBlocks
  import Crc32c

  const TRAILER: nat := 5

  // Where a block lies in the file.

  datatype Handle = Handle(offset: Uint64, size: Uint64)

  function EncodeHandle(h: Handle): Bytes {
    Varint(h.offset) + Varint(h.size)
  }

  function HandleAt(s: Bytes): Option<Parsed<Handle>> {
    match Varint64At(s)
    case None => None
    case Some(a) => match Varint64At(a.rest)
                    case None => None
                    case Some(b) => Some(Parsed(Handle(a.value, b.value), b.rest))
  }

  function DecodeHandle(s: Bytes): Option<Handle> {
    match HandleAt(s)
    case None => None
    case Some(p) => Some(p.value)
  }

  lemma HandleAtRoundTrip(h: Handle, rest: Bytes)
    ensures HandleAt(EncodeHandle(h) + rest) == Some(Parsed(h, rest))
  {
    hide Varint, Varint64At;
    Regroup(Varint(h.offset), Varint(h.size), rest);
    Varint64RoundTrip(h.offset, Varint(h.size) + rest);
    Varint64RoundTrip(h.size, rest);
  }

  lemma HandleRoundTrip(h: Handle)
    ensures DecodeHandle(EncodeHandle(h)) == Some(h)
  {
    hide EncodeHandle, HandleAt;
    HandleAtRoundTrip(h, []);
    assert EncodeHandle(h) + [] == EncodeHandle(h);
  }

  lemma HandleSize(h: Handle)
    ensures |EncodeHandle(h)| <= 20
  {
    hide Varint, Power;
    VarintPowers();
    VarintSize(h.offset, 10);
    VarintSize(h.size, 10);
  }

  // The footer: where the index and the metaindex lie, padded to a fixed size, and a magic number.

  datatype Footer = Footer(meta: Handle, index: Handle)

  const FOOTER: nat := 48
  const MAGIC_LOW: Uint32 := 0x8b80_fb57
  const MAGIC_HIGH: Uint32 := 0xdb47_7524

  function EncodeFooter(f: Footer): (r: Bytes)
    ensures |r| == FOOTER
  {
    HandleSize(f.meta);
    HandleSize(f.index);
    var handles := EncodeHandle(f.meta) + EncodeHandle(f.index);
    handles + seq(FOOTER - 8 - |handles|, _ => 0) + EncodeFixed32(MAGIC_LOW) + EncodeFixed32(MAGIC_HIGH)
  }

  function DecodeFooter(s: Bytes): Option<Footer>
    requires |s| == FOOTER
  {
    if DecodeFixed32(s[FOOTER - 8..FOOTER - 4]) != MAGIC_LOW || DecodeFixed32(s[FOOTER - 4..]) != MAGIC_HIGH then None else
    match HandleAt(s)
    case None => None
    case Some(meta) => match HandleAt(meta.rest)
                       case None => None
                       case Some(index) => Some(Footer(meta.value, index.value))
  }

  lemma FooterRoundTrip(f: Footer)
    ensures DecodeFooter(EncodeFooter(f)) == Some(f)
  {
    hide EncodeHandle, HandleAt, Fixed, FixedValue;
    HandleSize(f.meta);
    HandleSize(f.index);
    var a, b := EncodeHandle(f.meta), EncodeHandle(f.index);
    var pad: Bytes, low, high := seq(FOOTER - 8 - |a + b|, _ => 0), EncodeFixed32(MAGIC_LOW), EncodeFixed32(MAGIC_HIGH);
    var s := EncodeFooter(f);
    assert s == a + (b + (pad + low + high));
    HandleAtRoundTrip(f.meta, b + (pad + low + high));
    HandleAtRoundTrip(f.index, pad + low + high);
    MagicReads(a + b + pad, low, high, s);
  }

  lemma MagicReads(front: Bytes, low: Bytes, high: Bytes, s: Bytes)
    requires s == front + low + high && |front| == FOOTER - 8
    requires low == EncodeFixed32(MAGIC_LOW) && high == EncodeFixed32(MAGIC_HIGH)
    ensures |s| == FOOTER
    ensures DecodeFixed32(s[FOOTER - 8..FOOTER - 4]) == MAGIC_LOW && DecodeFixed32(s[FOOTER - 4..]) == MAGIC_HIGH
  {
    hide Fixed, FixedValue;
    assert s[FOOTER - 8..FOOTER - 4] == low && s[FOOTER - 4..] == high;
    BlockIters.FixedReads(MAGIC_LOW);
    BlockIters.FixedReads(MAGIC_HIGH);
  }

  // A block in the file, followed by its compression type and checksum.

  function Stored(contents: Bytes): Bytes {
    contents + [0] + EncodeFixed32(Crc32c.Mask(Crc32c.Value(contents + [0])))
  }

  ghost predicate StoredAt(file: Bytes, h: Handle, contents: Bytes) {
    h.size == |contents| && h.offset + h.size + TRAILER <= |file|
    && file[h.offset..h.offset + h.size + TRAILER] == Stored(contents)
  }

  /** ReadBlock, for blocks that are not compressed. Whatever the file, a block that is returned lies where the handle says,
      and with checksums verified it is as it was stored. */
  method ReadBlock(file: Bytes, h: Handle, verify: bool) returns (r: Option<Bytes>)
    ensures forall contents :: StoredAt(file, h, contents) ==> r == Some(contents)
    ensures r.Some? ==> |r.value| == h.size && h.offset + h.size + TRAILER <= |file| && r.value == file[h.offset..h.offset + h.size]
    ensures r.Some? ==> file[h.offset + h.size] == 0 && (verify ==> StoredAt(file, h, r.value))
  {
    hide Crc32c.Value, Crc32c.Mask, Crc32c.Unmask, DecodeFixed32;
    var n := h.size;
    var from := if h.offset < |file| then h.offset else |file|;
    var to := if h.offset + n + TRAILER < |file| then h.offset + n + TRAILER else |file|;
    var data := file[from..to];
    forall contents | StoredAt(file, h, contents)
      ensures |data| == n + TRAILER && data[..n] == contents && data[n] == 0
              && Crc32c.Unmask(DecodeFixed32(data[n + 1..n + 5])) == Crc32c.Value(data[..n + 1])
    {
      StoredParts(data, contents);
    }
    if |data| != n + TRAILER {
      return None;
    }
    if verify {
      var crc := Crc32c.Unmask(DecodeFixed32(data[n + 1..n + 5]));
      var actual := Crc32c.Value(data[..n + 1]);
      if actual != crc {
        return None;
      }
    }
    if data[n] != 0 {
      return None;
    }
    assert data[..n] == file[h.offset..h.offset + n] && data[n] == file[h.offset + n];
    if verify {
      StoredIs(data, n);
    }
    return Some(data[..n]);
  }

  // What passes the checksum is as it was stored.
  lemma StoredIs(data: Bytes, n: nat)
    requires |data| == n + TRAILER && data[n] == 0
    requires Crc32c.Unmask(DecodeFixed32(data[n + 1..n + 5])) == Crc32c.Value(data[..n + 1])
    ensures data == Stored(data[..n])
  {
    hide Crc32c.Value, Crc32c.Mask, Crc32c.Unmask, Fixed, FixedValue;
    var stored := DecodeFixed32(data[n + 1..n + 5]);
    assert data[..n + 1] == data[..n] + [0];
    Crc32c.MaskUnmask(stored);
    FixedBack(data[n + 1..n + 5]);
    assert EncodeFixed32(stored) == data[n + 1..n + 5];
    assert data == data[..n] + [0] + data[n + 1..n + 5];
  }

  lemma StoredParts(data: Bytes, contents: Bytes)
    requires data == Stored(contents)
    ensures var n := |contents|;
            && |data| == n + TRAILER && data[..n] == contents && data[n] == 0
            && Crc32c.Unmask(DecodeFixed32(data[n + 1..n + 5])) == Crc32c.Value(data[..n + 1])
  {
    hide Crc32c.Value, Crc32c.Mask, Crc32c.Unmask, DecodeFixed32;
    var n := |contents|;
    var crc := Crc32c.Value(contents + [0]);
    assert data[n + 1..n + 5] == EncodeFixed32(Crc32c.Mask(crc));
    assert data[..n + 1] == contents + [0];
    Crc32c.UnmaskMask(crc);
  }

  // The blocks of a table.

  function PairsOf(es: seq<Entry>): seq<BlockFormat.Pair> {
    seq(|es|, i requires 0 <= i < |es| => BlockFormat.Pair(EncodeKey(es[i].key), es[i].value))
  }

  function Joined(blocks: seq<seq<Entry>>): seq<Entry> {
    if blocks == [] then [] else Joined(blocks[..|blocks| - 1]) + blocks[|blocks| - 1]
  }

  function IndexPairs(seps: seq<InternalKey>, handles: seq<Handle>): seq<BlockFormat.Pair>
    requires |seps| <= |handles|
  {
    seq(|seps|, i requires 0 <= i < |seps| => BlockFormat.Pair(EncodeKey(seps[i]), EncodeHandle(handles[i])))
  }

  /** A separator comes no earlier than the last key of its block and before the first key of the next block; what
      lies between that last key and the separator has a user key before that of the next block's first. */
  ghost predicate Separates(es: seq<Entry>, sep: InternalKey) {
    |es| > 0 && !KeyLess(sep, es[|es| - 1].key)
  }

  ghost predicate Parts(es: seq<Entry>, sep: InternalKey, next: seq<Entry>) {
    && |es| > 0 && |next| > 0 && KeyLess(sep, next[0].key)
    && forall k :: KeyLess(es[|es| - 1].key, k) && !KeyLess(sep, k) ==> Less(k.user, next[0].key.user)
  }

  ghost predicate SeparatorsOk(blocks: seq<seq<Entry>>, seps: seq<InternalKey>) {
    && |seps| <= |blocks|
    && (forall i :: 0 <= i < |blocks| ==> |blocks[i]| > 0)
    && (forall i :: 0 <= i < |seps| ==> Separates(blocks[i], seps[i]))
    && (forall i :: 0 <= i < |seps| && i + 1 < |blocks| ==> Parts(blocks[i], seps[i], blocks[i + 1]))
  }

  lemma {:induction false} JoinedAt(blocks: seq<seq<Entry>>, b: nat)
    requires b < |blocks|
    ensures Joined(blocks) == Joined(blocks[..b]) + blocks[b] + Joined(blocks[b + 1..])
  {
    var n := |blocks| - 1;
    if b < n {
      JoinedAt(blocks[..n], b);
      assert blocks[..n][..b] == blocks[..b];
      assert blocks[..n][b + 1..] == blocks[b + 1..][..n - b - 1];
      assert blocks[b + 1..][n - b - 1] == blocks[n];
    } else {
      assert blocks[b + 1..] == [];
    }
  }

  // Looking a key up.

  lemma BlockSorted(blocks: seq<seq<Entry>>, b: nat)
    requires Sorted(Joined(blocks)) && b < |blocks|
    ensures Sorted(blocks[b])
  {
    hide Sorted;
    JoinedAt(blocks, b);
    MiddleSorted(Joined(blocks[..b]), blocks[b], Joined(blocks[b + 1..]));
  }

  lemma MiddleSorted(a: seq<Entry>, b: seq<Entry>, c: seq<Entry>)
    requires Sorted(a + b + c)
    ensures Sorted(b)
  {
    hide KeyLess;
    var es := a + b + c;
    forall i, j | 0 <= i < j < |b| ensures KeyLess(b[i].key, b[j].key) {
      assert es[|a| + i] == b[i] && es[|a| + j] == b[j];
    }
  }

  // A block whose separator comes before k has only keys before k.
  lemma BlockBefore(es: seq<Entry>, sep: InternalKey, k: InternalKey)
    requires Sorted(es) && Separates(es, sep) && KeyLess(sep, k)
    ensures forall e :: e in es ==> KeyLess(e.key, k)
  {
    KeyOrder();
    hide KeyLess;
    var n := |es| - 1;
    assert KeyLess(es[n].key, k);
    forall e | e in es ensures KeyLess(e.key, k) {
      var i :| 0 <= i < |es| && es[i] == e;
      assert i < n ==> KeyLess(es[i].key, es[n].key);
    }
  }

  lemma {:induction false} BlocksBefore(blocks: seq<seq<Entry>>, seps: seq<InternalKey>, k: InternalKey, n: nat)
    requires SeparatorsOk(blocks, seps) && n <= |seps| && Sorted(Joined(blocks))
    requires forall i :: 0 <= i < n ==> KeyLess(seps[i], k)
    ensures forall e :: e in Joined(blocks[..n]) ==> KeyLess(e.key, k)
  {
    hide KeyLess;
    if n > 0 {
      BlocksBefore(blocks, seps, k, n - 1);
      BlockSorted(blocks, n - 1);
      BlockBefore(blocks[n - 1], seps[n - 1], k);
      assert blocks[..n][..n - 1] == blocks[..n - 1];
    }
  }

  /** Looking only into the first block whose separator is not before k finds the entry a search of all of them
      would: the same first entry at or after k, or none, and then no entry of the user key sought is at or after k. */
  lemma OneBlockIsEnough(blocks: seq<seq<Entry>>, seps: seq<InternalKey>, user: Bytes, s: SequenceNumber, i: nat, j: nat)
    requires SeparatorsOk(blocks, seps) && |seps| == |blocks| && Sorted(Joined(blocks)) && i <= |seps|
    requires forall m :: 0 <= m < i ==> KeyLess(seps[m], LookupKey(user, s))
    requires i < |seps| ==> !KeyLess(seps[i], LookupKey(user, s))
    requires i < |seps| ==> j == LowerBound(blocks[i], LookupKey(user, s))
    ensures Probe(Joined(blocks), user, s) ==
              if i < |seps| && j < |blocks[i]| && blocks[i][j].key.user == user then Some(blocks[i][j]) else None
  {
    hide KeyLess;
    var k, es := LookupKey(user, s), Joined(blocks);
    BlocksBefore(blocks, seps, k, i);
    if i == |seps| {
      assert blocks[..i] == blocks;
      AllBeforeEnd(es, k);
    } else {
      JoinedAt(blocks, i);
      var n := |Joined(blocks[..i])|;
      FrontThenBlock(Joined(blocks[..i]), blocks[i], Joined(blocks[i + 1..]), k, j);
      if j < |blocks[i]| {
        assert es[n + j] == blocks[i][j];
      } else if i + 1 < |blocks| {
        NextBlock(blocks, seps, k, i);
        LowerBoundIs(es, k, n + j);
      } else {
        assert blocks[i + 1..] == [];
        AllBeforeEnd(es, k);
      }
    }
  }

  lemma AllBeforeEnd(es: seq<Entry>, k: InternalKey)
    requires forall e :: e in es ==> KeyLess(e.key, k)
    ensures LowerBound(es, k) == |es|
  {
    hide KeyLess;
    LowerBoundIs(es, k, |es|);
  }

  lemma FrontThenBlock(front: seq<Entry>, block: seq<Entry>, back: seq<Entry>, k: InternalKey, j: nat)
    requires forall e :: e in front ==> KeyLess(e.key, k)
    requires j == LowerBound(block, k)
    ensures forall i :: 0 <= i < |front| + j ==> KeyLess((front + block + back)[i].key, k)
    ensures j < |block| ==> LowerBound(front + block + back, k) == |front| + j
    ensures j == |block| && back == [] ==> forall e :: e in front + block + back ==> KeyLess(e.key, k)
  {
    hide KeyLess;
    var es := front + block + back;
    forall i | 0 <= i < |front| + j ensures KeyLess(es[i].key, k) {
      if i < |front| {
        assert es[i] == front[i] && front[i] in front;
      } else {
        assert es[i] == block[i - |front|];
      }
    }
    if j < |block| {
      assert es[|front| + j] == block[j];
      LowerBoundIs(es, k, |front| + j);
    }
  }

  // The first entry after a block that ends before k is of a later user key.
  lemma NextBlock(blocks: seq<seq<Entry>>, seps: seq<InternalKey>, k: InternalKey, i: nat)
    requires SeparatorsOk(blocks, seps) && i < |seps| && i + 1 < |blocks| && Sorted(Joined(blocks))
    requires !KeyLess(seps[i], k) && LowerBound(blocks[i], k) == |blocks[i]|
    ensures var at := |Joined(blocks[..i])| + |blocks[i]|;
            && at < |Joined(blocks)| && Joined(blocks)[at] == blocks[i + 1][0]
            && !KeyLess(blocks[i + 1][0].key, k) && blocks[i + 1][0].key.user != k.user
  {
    KeyOrder();
    UserOrder();
    hide KeyLess;
    assert Parts(blocks[i], seps[i], blocks[i + 1]);
    JoinedAt(blocks, i);
    JoinedAt(blocks[i + 1..], 0);
    assert blocks[i + 1..][0] == blocks[i + 1] && blocks[i + 1..][..0] == [];
    assert blocks[i][|blocks[i]| - 1].key == blocks[i][|blocks[i]| - 1].key;
  }
}
