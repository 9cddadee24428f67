/** The log format and its writer: records cut into checksummed fragments that never cross a
    32 KB block (db/log_format.h, db/log_writer.cc). */
module LogWriter {
  import opened Keys
  import Coding
  import Crc32c

  const BLOCK_SIZE: nat := 32768
  const HEADER_SIZE: nat := 7

  // Fragment types.
  const ZERO := 0
  const FULL := 1
  const FIRST := 2
  const MIDDLE := 3
  const LAST := 4

  // Bytes left in the block at a file offset.
  function Room(off: nat): nat {
    BLOCK_SIZE - off % BLOCK_SIZE
  }

  /** Where the next fragment's header goes: past the trailer, when no header fits. */
  function Header(off: nat): nat {
    if Room(off) < HEADER_SIZE then off + Room(off) else off
  }

  // The block offset the writer keeps decides as the file offset does.
  lemma TrailerFills(off: nat, blockOffset: nat)
    requires blockOffset <= BLOCK_SIZE && blockOffset % BLOCK_SIZE == off % BLOCK_SIZE
    ensures var leftover := BLOCK_SIZE - blockOffset;
            if leftover < HEADER_SIZE then Header(off) == off + leftover && Header(off) % BLOCK_SIZE == 0
            else Header(off) == off && off % BLOCK_SIZE == blockOffset
  {
  }

  function TypeOf(begin: bool, end: bool): Byte {
    if begin && end then FULL else if begin then FIRST else if end then LAST else MIDDLE
  }

  function Zeros(n: nat): (r: Bytes)
    ensures |r| == n
  {
    seq(n, _ => 0)
  }

  /** Checksum of type and payload, length, type, payload. */
  function Physical(kind: Byte, data: Bytes): (r: Bytes)
    requires |data| < 0x1_0000
    ensures |r| == HEADER_SIZE + |data|
  {
    Coding.EncodeFixed32(Crc32c.Mask(Crc32c.Value([kind] + data))) + [|data| % 256, |data| / 256, kind] + data
  }

  // The checksum continues from that of the type byte.
  lemma PhysicalIs(kind: Byte, data: Bytes)
    requires |data| < 0x1_0000
    ensures var crc := Crc32c.ToInt(Crc32c.Crc(Crc32c.Crc(Crc32c.Zeros(32), [kind]), data));
            && crc < Coding.TWO32
            && Physical(kind, data)
               == Coding.EncodeFixed32(Crc32c.Mask(crc)) + [|data| % 256, |data| / 256, kind] + data
  {
    hide Crc32c.Crc, Crc32c.Mask, Crc32c.ToInt, Coding.EncodeFixed32;
    Crc32c.ExtendConcat(Crc32c.Zeros(32), [kind], data);
    Crc32c.ValueIs([kind] + data);
  }

  lemma SameInBlock(a: nat, b: nat, n: nat)
    requires a % BLOCK_SIZE == b % BLOCK_SIZE
    ensures (a + n) % BLOCK_SIZE == (b + n) % BLOCK_SIZE
  {
  }

  // How much of data the next fragment takes.
  function Taken(off: nat, data: Bytes): (n: nat)
    ensures n <= |data| && Header(off) + HEADER_SIZE + n <= Header(off) + Room(Header(off))
    ensures n < 0x1_0000
  {
    var room := Room(Header(off)) - HEADER_SIZE;
    if |data| < room then |data| else room
  }

  /** The bytes one record becomes when writing continues at offset `off`. */
  function Fragments(off: nat, begin: bool, data: Bytes): Bytes
    decreases |data|, if off % BLOCK_SIZE == 0 then 0 else 1
  {
    var n := Taken(off, data);
    FirstFragment(off, begin, data)
    + if n == |data| then [] else Fragments(Header(off) + HEADER_SIZE + n, false, data[n..])
  }

  function FirstFragment(off: nat, begin: bool, data: Bytes): (r: Bytes)
    ensures off + |r| == Header(off) + HEADER_SIZE + Taken(off, data)
  {
    var n := Taken(off, data);
    Zeros(Header(off) - off) + Physical(TypeOf(begin, n == |data|), data[..n])
  }

  lemma FragmentIs(dest: Bytes, begin: bool, data: Bytes)
    ensures dest + FirstFragment(|dest|, begin, data)
         == dest + Zeros(Header(|dest|) - |dest|)
            + Physical(TypeOf(begin, Taken(|dest|, data) == |data|), data[..Taken(|dest|, data)])
  {
  }

  lemma FragmentsStep(off: nat, begin: bool, data: Bytes)
    ensures var f, n := FirstFragment(off, begin, data), Taken(off, data);
            Fragments(off, begin, data) == f + if n == |data| then [] else Fragments(off + |f|, false, data[n..])
  {
    hide FirstFragment;
  }

  function Encoded(off: nat, records: seq<Bytes>): Bytes
    decreases |records|
  {
    if records == [] then [] else
    var f := Fragments(off, true, records[0]);
    f + Encoded(off + |f|, records[1..])
  }

  lemma {:induction false} EncodedConcat(off: nat, a: seq<Bytes>, b: seq<Bytes>)
    ensures Encoded(off, a + b) == Encoded(off, a) + Encoded(off + |Encoded(off, a)|, b)
    decreases |a|
  {
    hide Fragments;
    if a == [] {
      assert a + b == b;
    } else {
      var f := Fragments(off, true, a[0]);
      assert (a + b)[0] == a[0] && (a + b)[1..] == a[1..] + b;
      EncodedConcat(off + |f|, a[1..], b);
    }
  }

  // What is still to be written completes what has been.
  ghost predicate Completes(start: Bytes, record: Bytes, dest: Bytes, begin: bool, rest: Bytes) {
    && |start| <= |dest|
    && (begin ==> dest == start && rest == record)
    && start + Fragments(|start|, true, record)
       == dest + if begin || |rest| > 0 then Fragments(|dest|, begin, rest) else []
  }

  lemma NothingWritten(start: Bytes, record: Bytes)
    ensures Completes(start, record, start, true, record)
  {
  }

  lemma AllWritten(start: Bytes, record: Bytes, dest: Bytes)
    requires Completes(start, record, dest, false, [])
    ensures dest == start + Fragments(|start|, true, record)
  {
    assert dest + [] == dest;
  }

  lemma CompletesStep(start: Bytes, record: Bytes, dest: Bytes, begin: bool, rest: Bytes)
    requires Completes(start, record, dest, begin, rest) && (begin || |rest| > 0)
    ensures Completes(start, record, dest + FirstFragment(|dest|, begin, rest), false, rest[Taken(|dest|, rest)..])
  {
    hide Fragments, FirstFragment;
    FragmentsStep(|dest|, begin, rest);
  }

  class Writer {
    // The file appended to.
    var dest: Bytes
    var blockOffset: nat
    var typeCrc: seq<Crc32c.Word>

    ghost predicate Valid()
      reads this
    {
      && blockOffset <= BLOCK_SIZE && blockOffset % BLOCK_SIZE == |dest| % BLOCK_SIZE
      && |typeCrc| == 5
      && forall t: Byte :: t < 5 ==> typeCrc[t] == Crc32c.Crc(Crc32c.Zeros(32), [t])
    }

    /** A writer that continues a file; a new file has no bytes yet. */
    constructor (existing: Bytes)
      ensures Valid() && dest == existing
    {
      hide Crc32c.Crc;
      dest := existing;
      blockOffset := |existing| % BLOCK_SIZE;
      new;
      typeCrc := [];
      for i := 0 to 5
        invariant |typeCrc| == i && dest == existing && blockOffset == |existing| % BLOCK_SIZE
        invariant forall t: Byte :: t < i ==> typeCrc[t] == Crc32c.Crc(Crc32c.Zeros(32), [t])
      {
        var w := Crc32c.Extend(Crc32c.Zeros(32), [i], 0);
        typeCrc := typeCrc + [w];
      }
    }

    /** Appends one record, wherever in a block the file ends. `address` is where the record sits in memory. */
    method AddRecord(record: Bytes, address: nat)
      requires Valid()
      modifies this
      ensures Valid()
      ensures dest == old(dest) + Fragments(|old(dest)|, true, record)
    {
      hide Physical, Fragments, FirstFragment, Zeros, Completes;
      var rest, begin := record, true;
      NothingWritten(dest, record);
      while begin || |rest| > 0
        invariant Valid() && |rest| <= |record|
        invariant Completes(old(dest), record, dest, begin, rest)
        decreases begin, |rest|, if |dest| % BLOCK_SIZE == 0 then 0 else 1
      {
        ghost var before := dest;
        CompletesStep(old(dest), record, dest, begin, rest);
        FillTrailer();
        var avail := BLOCK_SIZE - blockOffset - HEADER_SIZE;
        var n := if |rest| < avail then |rest| else avail;
        assert |dest| == Header(|before|) && n == Taken(|before|, rest);
        var end := |rest| == n;
        EmitPhysicalRecord(TypeOf(begin, end), rest[..n], address + |record| - |rest|);
        FragmentIs(before, begin, rest);
        rest := rest[n..];
        begin := false;
      }
      AllWritten(old(dest), record, dest);
    }

    // Switch to a new block when no header fits.
    method FillTrailer()
      requires Valid()
      modifies this
      ensures Valid() && typeCrc == old(typeCrc)
      ensures dest == old(dest) + Zeros(Header(|old(dest)|) - |old(dest)|)
      ensures blockOffset == |dest| % BLOCK_SIZE <= BLOCK_SIZE - HEADER_SIZE
    {
      hide Header, Room;
      var leftover := BLOCK_SIZE - blockOffset;
      TrailerFills(|dest|, blockOffset);
      if leftover < HEADER_SIZE {
        if leftover > 0 {
          dest := dest + Zeros(leftover);
        }
        blockOffset := 0;
      }
    }

    method EmitPhysicalRecord(kind: Byte, data: Bytes, address: nat)
      requires Valid() && FULL <= kind <= LAST
      requires blockOffset + HEADER_SIZE + |data| <= BLOCK_SIZE
      modifies this
      ensures Valid()
      ensures dest == old(dest) + Physical(kind, data)
      ensures blockOffset == old(blockOffset) + HEADER_SIZE + |data|
    {
      hide Physical, Crc32c.Crc, Crc32c.Mask, Crc32c.ToInt, Coding.EncodeFixed32;
      PhysicalIs(kind, data);
      SameInBlock(blockOffset, |dest|, HEADER_SIZE + |data|);
      ghost var before := dest;
      var crc := Crc32c.Extend(typeCrc[kind], data, address);
      var header := Coding.EncodeFixed32(Crc32c.Mask(Crc32c.ToInt(crc))) + [|data| % 256, |data| / 256, kind];
      assert header + data == Physical(kind, data);
      dest := dest + header;
      dest := dest + data;
      assert dest == before + (header + data);
      blockOffset := blockOffset + HEADER_SIZE + |data|;
    }
  }
}
