/** The log reader (db/log_reader.h, db/log_reader.cc): on any prefix of a written log it returns
    exactly the records that lie wholly inside the prefix. */
module LogReader {
  import opened Keys
  import opened LogWriter
  import opened LogLayout
  import Coding
  import Crc32c

  // Results of reading a fragment, beside its type.
  const EOF := 5
  const BAD_RECORD := 6

  /** The first block that can hold a record starting at or after `initial`. */
  function StartBlock(initial: nat): nat {
    var inBlock := initial % BLOCK_SIZE;
    if inBlock > BLOCK_SIZE - 6 then initial - inBlock + BLOCK_SIZE else initial - inBlock
  }

  lemma StartBlockMisses(initial: nat, off: nat)
    ensures StartBlock(initial) % BLOCK_SIZE == 0
    ensures Header(off) < StartBlock(initial) ==> Header(off) < initial
  {
    if Header(off) < StartBlock(initial) {
      HeaderBeforeBoundary(off, StartBlock(initial));
    }
  }

  function LengthOf(header: Bytes): nat
    requires HEADER_SIZE <= |header|
  {
    var a: nat, b: nat := header[4], header[5];
    a + 256 * b
  }

  /** The front of a buffer that begins with a fragment parses back to it. */
  lemma ParsePhysical(kind: Byte, data: Bytes, s: Bytes)
    requires |data| < 0x1_0000 && HEADER_SIZE <= |s|
    requires s[..HEADER_SIZE] == Physical(kind, data)[..HEADER_SIZE]
    ensures LengthOf(s) == |data| && s[6] == kind
    ensures s[..4] == Coding.EncodeFixed32(Crc32c.Mask(Crc32c.Value([kind] + data)))
  {
    hide Coding.EncodeFixed32, Crc32c.Mask, Crc32c.Value;
    var header := s[..HEADER_SIZE];
    assert header[4] == |data| % 256 && header[5] == |data| / 256 && header[6] == kind;
    assert s[..4] == header[..4];
  }

  // What passes the checksum is a fragment as it is written.
  lemma ChecksumHolds(s: Bytes, length: nat)
    requires HEADER_SIZE + length <= |s| && length == LengthOf(s)
    requires Crc32c.Unmask(Coding.DecodeFixed32(s[..4])) == Crc32c.Value(s[6..HEADER_SIZE + length])
    ensures length < 0x1_0000 && s[..HEADER_SIZE + length] == Physical(s[6], s[HEADER_SIZE..HEADER_SIZE + length])
  {
    hide Crc32c.Value, Crc32c.Mask, Crc32c.Unmask, Coding.FixedValue, Coding.Fixed;
    var stored, data := Coding.DecodeFixed32(s[..4]), s[HEADER_SIZE..HEADER_SIZE + length];
    assert s[6..HEADER_SIZE + length] == [s[6]] + data;
    Crc32c.MaskUnmask(stored);
    Coding.FixedBack(s[..4]);
    assert Coding.EncodeFixed32(stored) == s[..4];
    assert s[4] == length % 256 && s[5] == length / 256;
    assert s[..HEADER_SIZE + length] == s[..4] + [s[4], s[5], s[6]] + data;
  }

  // What a reader returns of any file.

  /** A fragment of this type and payload stands at a place of the file, with the right checksum. */
  ghost predicate Intact(file: Bytes, at: int, kind: nat, data: Bytes) {
    && 0 <= at && at + HEADER_SIZE + |data| <= |file| && kind < 256 && |data| < 0x1_0000
    && file[at..at + HEADER_SIZE + |data|] == Physical(kind, data)
  }

  /** A first fragment and n middle ones after it. */
  ghost predicate Gathered(file: Bytes, from: int, to: int, data: Bytes, n: nat)
    decreases n
  {
    if n == 0 then Intact(file, from, FIRST, data) && from + HEADER_SIZE + |data| <= to else
    exists at, front, more ::
      Gathered(file, from, at, front, n - 1) && Intact(file, at, MIDDLE, more) && at + HEADER_SIZE + |more| <= to && data == front + more
  }

  /** A record whole in one fragment, or put together from a first, middle ones and a last. */
  ghost predicate Authentic(file: Bytes, from: int, to: int, record: Bytes) {
    || (Intact(file, from, FULL, record) && from + HEADER_SIZE + |record| <= to)
    || exists n: nat, at, front, more ::
         Gathered(file, from, at, front, n) && Intact(file, at, LAST, more) && at + HEADER_SIZE + |more| <= to && record == front + more
  }

  ghost predicate Partly(file: Bytes, from: int, to: int, data: Bytes) {
    exists n: nat :: Gathered(file, from, to, data, n)
  }

  lemma GatheredLater(file: Bytes, from: int, to: int, to': int, data: Bytes, n: nat)
    requires Gathered(file, from, to, data, n) && to <= to'
    ensures Gathered(file, from, to', data, n)
  {
    hide Intact;
  }

  // One more fragment of any type.
  lemma FragmentTaken(file: Bytes, from: int, at: int, data: Bytes, kind: nat, fragment: Bytes)
    requires Intact(file, at, kind, fragment)
    ensures var to := at + HEADER_SIZE + |fragment|;
            && (kind == FULL ==> Authentic(file, at, to, fragment))
            && (kind == FIRST ==> Partly(file, at, to, fragment))
            && (kind == MIDDLE && Partly(file, from, at, data) ==> Partly(file, from, to, data + fragment))
            && (kind == LAST && Partly(file, from, at, data) ==> Authentic(file, from, to, data + fragment))
  {
    hide Intact;
    var to := at + HEADER_SIZE + |fragment|;
    if kind == FIRST {
      assert Gathered(file, at, to, fragment, 0);
    }
    if kind == MIDDLE && Partly(file, from, at, data) {
      var n: nat :| Gathered(file, from, at, data, n);
      assert Gathered(file, from, to, data + fragment, n + 1);
    }
  }

  lemma PartlyLater(file: Bytes, from: int, to: int, to': int, data: Bytes)
    requires Partly(file, from, to, data) && to <= to'
    ensures Partly(file, from, to', data)
  {
    hide Gathered;
    var n: nat :| Gathered(file, from, to, data, n);
    GatheredLater(file, from, to, to', data, n);
  }

  lemma ParseChecksum(kind: Byte, data: Bytes, s: Bytes)
    requires |data| < 0x1_0000 && HEADER_SIZE + |data| <= |s|
    requires s[..HEADER_SIZE + |data|] == Physical(kind, data)
    ensures LengthOf(s) == |data| && s[6] == kind
    ensures s[HEADER_SIZE..HEADER_SIZE + |data|] == data
    ensures Crc32c.Unmask(Coding.DecodeFixed32(s[..4])) == Crc32c.Value(s[6..HEADER_SIZE + |data|])
  {
    hide Coding.DecodeFixed32, Crc32c.Mask, Crc32c.Unmask, Crc32c.Value;
    var whole := s[..HEADER_SIZE + |data|];
    assert s[..HEADER_SIZE] == whole[..HEADER_SIZE];
    ParsePhysical(kind, data, s);
    assert s[HEADER_SIZE..HEADER_SIZE + |data|] == whole[HEADER_SIZE..];
    assert s[6..HEADER_SIZE + |data|] == [kind] + data;
    Crc32c.UnmaskMask(Crc32c.Value([kind] + data));
  }

  /** What a buffer that begins at the header of a fragment holds. */
  lemma FragmentInBuffer(file: Bytes, full: Bytes, p: nat, kind: Byte, data: Bytes, q: nat, buffer: Bytes)
    requires file <= full && FragmentAt(full, p, kind, data, q)
    requires HEADER_SIZE <= |buffer| && Header(p) + |buffer| <= |file|
    requires buffer == file[Header(p)..Header(p) + |buffer|]
    ensures LengthOf(buffer) == |data| && buffer[6] == kind && q == Header(p) + HEADER_SIZE + |data|
    ensures |data| <= Room(Header(p)) - HEADER_SIZE && kind != ZERO
    ensures q <= Header(p) + |buffer| ==>
              buffer[HEADER_SIZE..HEADER_SIZE + |data|] == data
              && Crc32c.Unmask(Coding.DecodeFixed32(buffer[..4])) == Crc32c.Value(buffer[6..HEADER_SIZE + |data|])
  {
    hide Physical, Header, Coding.DecodeFixed32, Crc32c.Unmask, Crc32c.Value, LengthOf, Room;
    var h := Header(p);
    assert buffer == full[h..h + |buffer|];
    assert buffer[..HEADER_SIZE] == full[h..q][..HEADER_SIZE];
    ParsePhysical(kind, data, buffer);
    if q <= h + |buffer| {
      assert buffer[..HEADER_SIZE + |data|] == full[h..q];
      ParseChecksum(kind, data, buffer);
    }
  }

  /** A reader at p: record m is next, or partly read. Inside a record whose start was seen, what has been
      collected and what is to come make up the record; inside any other, the record is not to be returned. */
  ghost predicate Reading(records: seq<Bytes>, cut: nat, initial: nat, k: nat, p: nat,
                          inFragment: bool, scratch: Bytes, start: int, m: nat, begin: bool, rest: Bytes) {
    && k <= m <= |records|
    && Readable(records, cut, initial, k) == Readable(records, cut, initial, m)
    && (m == |records| ==> begin && !inFragment && |Log(records)| <= p)
    && (m < |records| ==> At(records, p, begin, rest, m))
    && (inFragment ==> m < |records| && !begin && scratch + rest == records[m] && start == Start(records, m) >= initial)
    && (!inFragment && !begin ==> m < |records| && Start(records, m) < initial)
  }

  // The fragment the reader meets at p.
  ghost predicate Meets(p: nat, begin: bool, rest: Bytes, t: Byte, data: Bytes, q: nat) {
    && t == TypeOf(begin, Taken(p, rest) == |rest|)
    && data == rest[..Taken(p, rest)]
    && q == After(p, rest)
  }

  /** What has been read when the records from m on are still to come. */
  ghost predicate Completed(records: seq<Bytes>, cut: nat, initial: nat, k: nat, found: Found, q: nat, m: nat) {
    && k <= m <= |records| && q == Cut(records, m)
    && Readable(records, cut, initial, k) == [found] + Readable(records, cut, initial, m)
  }

  // The position after a fragment: in the same record, or at the beginning of the next.
  ghost predicate Follows(records: seq<Bytes>, p: nat, m: nat, begin: bool, rest: Bytes, q: nat,
                          m': nat, begin': bool, rest': Bytes) {
    && m < |records| && m' <= |records| && Start(records, m) < q
    && (begin ==> rest == records[m] && Header(p) == Start(records, m))
    && (!begin ==> Start(records, m) < p <= Header(p))
    && Header(p) < q <= Cut(records, m + 1)
    && (m' < |records| ==> At(records, q, begin', rest', m'))
    && (m' == |records| ==> |Log(records)| <= q)
    && var n := Taken(p, rest);
       if n == |rest| then m' == m + 1 && begin' && q == Cut(records, m') else m' == m && !begin' && rest' == rest[n..]
  }

  lemma Follow(records: seq<Bytes>, p: nat, m: nat, begin: bool, rest: Bytes)
    returns (m': nat, begin': bool, rest': Bytes)
    requires At(records, p, begin, rest, m)
    ensures Follows(records, p, m, begin, rest, After(p, rest), m', begin', rest')
  {
    hide Cut, Log, Fragments, Header;
    var n, q := Taken(p, rest), After(p, rest);
    AtStep(records, p, begin, rest, m);
    HeaderStays(p);
    if n < |rest| {
      m', begin', rest' := m, false, rest[n..];
    } else {
      m', begin', rest' := m + 1, true, if m + 1 < |records| then records[m + 1] else [];
      if m' < |records| {
        AtRecord(records, m');
      } else {
        CutWhole(records);
      }
    }
  }

  /** A fragment of a record that is not to be returned. */
  lemma PassOver(records: seq<Bytes>, cut: nat, initial: nat, k: nat, p: nat,
                 inFragment: bool, scratch: Bytes, start: int, m: nat, begin: bool, rest: Bytes,
                 t: Byte, data: Bytes, q: nat, m': nat, begin': bool, rest': Bytes)
    requires m < |records| && Reading(records, cut, initial, k, p, inFragment, scratch, start, m, begin, rest)
    requires Meets(p, begin, rest, t, data, q) && Follows(records, p, m, begin, rest, q, m', begin', rest')
    requires Header(p) < initial || (!inFragment && (t == MIDDLE || t == LAST))
    ensures !inFragment && forall scratch', start' ::
              Reading(records, cut, initial, k, q, false, scratch', start', m', begin', rest')
    ensures Clean(records, initial) ==> Header(p) < initial
  {
    hide Cut, Log, Fragments, Header, At;
    assert Start(records, m) < initial;
  }

  /** The first fragment of a record to be returned. */
  lemma BeginRecord(records: seq<Bytes>, cut: nat, initial: nat, k: nat, p: nat,
                    inFragment: bool, scratch: Bytes, start: int, m: nat, begin: bool, rest: Bytes,
                    t: Byte, data: Bytes, q: nat, m': nat, begin': bool, rest': Bytes)
    requires m < |records| && Reading(records, cut, initial, k, p, inFragment, scratch, start, m, begin, rest)
    requires Meets(p, begin, rest, t, data, q) && Follows(records, p, m, begin, rest, q, m', begin', rest')
    requires q <= cut && Header(p) >= initial && (t == FULL || t == FIRST)
    ensures !inFragment
    ensures t == FULL ==> Completed(records, cut, initial, k, Found(data, Header(p)), q, m')
    ensures t == FIRST ==> Reading(records, cut, initial, k, q, true, data, Header(p), m', begin', rest')
  {
    hide Cut, Log, Fragments, Header, At;
    assert rest == data + rest[Taken(p, rest)..];
    if t == FULL {
      assert data == records[m];
    }
  }

  /** A later fragment of a record that is being collected. */
  lemma ContinueRecord(records: seq<Bytes>, cut: nat, initial: nat, k: nat, p: nat,
                       scratch: Bytes, start: int, m: nat, begin: bool, rest: Bytes,
                       t: Byte, data: Bytes, q: nat, m': nat, begin': bool, rest': Bytes)
    requires m < |records| && Reading(records, cut, initial, k, p, true, scratch, start, m, begin, rest)
    requires Meets(p, begin, rest, t, data, q) && Follows(records, p, m, begin, rest, q, m', begin', rest')
    requires q <= cut
    ensures Header(p) >= initial && (t == MIDDLE || t == LAST)
    ensures t == MIDDLE ==> Reading(records, cut, initial, k, q, true, scratch + data, start, m', begin', rest')
    ensures t == LAST ==> Completed(records, cut, initial, k, Found(scratch + data, start), q, m')
  {
    hide Cut, Log, Fragments, Header, At;
    var n := Taken(p, rest);
    assert scratch + rest == (scratch + data) + rest[n..];
    if n == |rest| {
      assert scratch + data == records[m];
    }
  }

  // The fragment a reader meets next, and the position after it.
  lemma Next(records: seq<Bytes>, cut: nat, initial: nat, k: nat, p: nat,
             inFragment: bool, scratch: Bytes, start: int, m: nat, begin: bool, rest: Bytes)
    returns (t: Byte, data: Bytes, q: nat, m': nat, begin': bool, rest': Bytes)
    requires m < |records| && Reading(records, cut, initial, k, p, inFragment, scratch, start, m, begin, rest)
    ensures Meets(p, begin, rest, t, data, q) && Follows(records, p, m, begin, rest, q, m', begin', rest')
    ensures FragmentAt(Log(records), p, t, data, q) && FULL <= t <= LAST
  {
    hide Cut, Log, Fragments, Header, Follows;
    var n := Taken(p, rest);
    t, data, q := TypeOf(begin, n == |rest|), rest[..n], After(p, rest);
    AtStep(records, p, begin, rest, m);
    m', begin', rest' := Follow(records, p, m, begin, rest);
  }

  // Nothing is left inside the cut.
  lemma Ended(records: seq<Bytes>, cut: nat, initial: nat, k: nat, p: nat,
              inFragment: bool, scratch: Bytes, start: int, m: nat, begin: bool, rest: Bytes,
              q: nat, m': nat, begin': bool, rest': Bytes)
    requires Reading(records, cut, initial, k, p, inFragment, scratch, start, m, begin, rest)
    requires m < |records| ==> Follows(records, p, m, begin, rest, q, m', begin', rest') && cut < q
    ensures Readable(records, cut, initial, k) == []
  {
    hide Cut, Log, Fragments, Header, At;
    NothingReadable(records, cut, initial, m);
  }

  // Inside no record, what was collected before is no matter.
  ghost predicate ReadingAt(records: seq<Bytes>, cut: nat, initial: nat, k: nat, p: nat,
                            inFragment: bool, scratch: Bytes, start: int, m: nat, begin: bool, rest: Bytes) {
    if inFragment then Reading(records, cut, initial, k, p, true, scratch, start, m, begin, rest)
    else Reading(records, cut, initial, k, p, false, [], 0, m, begin, rest)
  }

  /** What the kind of a fragment that has been read means for the record it belongs to. */
  ghost predicate Means(records: seq<Bytes>, cut: nat, initial: nat, k: nat, q: nat,
                        inFragment: bool, scratch: Bytes, start: int, kind: nat, fragment: Bytes,
                        m: nat, begin: bool, rest: Bytes) {
    var offset := q - HEADER_SIZE - |fragment|;
    && (kind == FULL || kind == FIRST || kind == MIDDLE || kind == LAST || kind == BAD_RECORD)
    && (kind == FULL || kind == FIRST || kind == BAD_RECORD ==> !inFragment)
    && (kind == FULL ==> offset >= 0 && Completed(records, cut, initial, k, Found(fragment, offset), q, m))
    && (kind == FIRST ==> Reading(records, cut, initial, k, q, true, fragment, offset, m, begin, rest))
    && (kind == MIDDLE && inFragment ==>
          Reading(records, cut, initial, k, q, true, scratch + fragment, start, m, begin, rest))
    && (kind == LAST && inFragment ==>
          start >= 0 && Completed(records, cut, initial, k, Found(scratch + fragment, start), q, m))
    && (!inFragment && (kind == MIDDLE || kind == LAST) ==>
          !Clean(records, initial) && Reading(records, cut, initial, k, q, false, [], 0, m, begin, rest))
    && (kind == BAD_RECORD ==> Reading(records, cut, initial, k, q, false, [], 0, m, begin, rest))
  }

  lemma MeansNext(records: seq<Bytes>, cut: nat, initial: nat, k: nat, q: nat,
                  inFragment: bool, scratch: Bytes, start: int, kind: nat, fragment: Bytes, m: nat, begin: bool, rest: Bytes)
    requires Means(records, cut, initial, k, q, inFragment, scratch, start, kind, fragment, m, begin, rest)
    ensures FULL <= kind <= LAST || kind == BAD_RECORD
    ensures kind == FULL || kind == FIRST || kind == BAD_RECORD ==> !inFragment
    ensures var offset := q - HEADER_SIZE - |fragment|;
            && (kind == FULL ==> offset >= 0 && Completed(records, cut, initial, k, Found(fragment, offset), q, m))
            && (kind == FIRST ==> ReadingAt(records, cut, initial, k, q, true, fragment, offset, m, begin, rest))
    ensures kind == MIDDLE && inFragment ==>
              ReadingAt(records, cut, initial, k, q, true, scratch + fragment, start, m, begin, rest)
    ensures kind == LAST && inFragment ==>
              start >= 0 && Completed(records, cut, initial, k, Found(scratch + fragment, start), q, m)
    ensures !inFragment && (kind == MIDDLE || kind == LAST || kind == BAD_RECORD) ==>
              ReadingAt(records, cut, initial, k, q, false, scratch, start, m, begin, rest)
  {
    hide Reading, Completed, Clean;
  }

  lemma EndMet(records: seq<Bytes>, cut: nat, initial: nat, k: nat, p: nat,
               inFragment: bool, scratch: Bytes, start: int, m: nat, begin: bool, rest: Bytes)
    requires Reading(records, cut, initial, k, p, inFragment, scratch, start, m, begin, rest)
    ensures m <= |records| && (m == |records| ==> |Log(records)| <= p)
  {
  }

  lemma SameMeaning(records: seq<Bytes>, cut: nat, initial: nat, k: nat, q: nat,
                    inFragment: bool, scratch: Bytes, start: int, kind: nat, fragment: Bytes,
                    m: nat, begin: bool, rest: Bytes)
    requires Means(records, cut, initial, k, q, inFragment, if inFragment then scratch else [],
                   if inFragment then start else 0, kind, fragment, m, begin, rest)
    ensures Means(records, cut, initial, k, q, inFragment, scratch, start, kind, fragment, m, begin, rest)
  {
  }

  lemma Interpret(records: seq<Bytes>, cut: nat, initial: nat, k: nat, p: nat,
                  inFragment: bool, scratch: Bytes, start: int, m: nat, begin: bool, rest: Bytes,
                  t: Byte, data: Bytes, q: nat, kind: nat, fragment: Bytes, m': nat, begin': bool, rest': Bytes)
    requires m < |records| && Reading(records, cut, initial, k, p, inFragment, scratch, start, m, begin, rest)
    requires Meets(p, begin, rest, t, data, q) && Follows(records, p, m, begin, rest, q, m', begin', rest')
    requires FragmentAt(Log(records), p, t, data, q) && q <= cut
    requires if Header(p) < initial then kind == BAD_RECORD && fragment == [] else kind == t && fragment == data
    ensures Means(records, cut, initial, k, q, inFragment, scratch, start, kind, fragment, m', begin', rest')
  {
    hide Cut, Log, Header, Reading, Follows, Completed, Clean, Meets, FragmentAt;
    FragmentSize(Log(records), p, t, data, q);
    if inFragment {
      ContinueRecord(records, cut, initial, k, p, scratch, start, m, begin, rest, t, data, q, m', begin', rest');
      StartKnown(records, cut, initial, k, p, scratch, start, m, begin, rest);
    } else if Header(p) < initial || t == MIDDLE || t == LAST {
      PassOver(records, cut, initial, k, p, inFragment, scratch, start, m, begin, rest, t, data, q, m', begin', rest');
    } else {
      BeginRecord(records, cut, initial, k, p, inFragment, scratch, start, m, begin, rest, t, data, q, m', begin', rest');
    }
  }

  lemma StartKnown(records: seq<Bytes>, cut: nat, initial: nat, k: nat, p: nat,
                   scratch: Bytes, start: int, m: nat, begin: bool, rest: Bytes)
    requires Reading(records, cut, initial, k, p, true, scratch, start, m, begin, rest)
    ensures start >= 0
  {
  }

  // Drops reported for a log that is not damaged.

  /** Record d begins before `initial`, in or before its block, and goes on past that block, and what is in the next
      block of it is wholly inside the cut. */
  ghost predicate Splits(records: seq<Bytes>, cut: nat, initial: nat, d: nat) {
    var next := StartBlock(initial) + BLOCK_SIZE;
    && d < |records| && Start(records, d) < initial && StartBlock(initial) < initial
    && next < Cut(records, d + 1) && (Cut(records, d + 1) <= cut || next + BLOCK_SIZE <= cut)
  }

  ghost predicate Spurious(records: seq<Bytes>, cut: nat, initial: nat) {
    exists d: nat :: Splits(records, cut, initial, d)
  }

  const SPLIT := [seq(40000, _ => 0)]

  /** The log of one record of 40000 bytes, whole, read from an offset inside its first fragment: a drop is reported. */
  lemma IntactLogDrops()
    ensures Spurious(SPLIT, |Log(SPLIT)|, 1)
  {
    hide Log, Cut, Fragments, FirstFragment, Physical;
    CutWhole(SPLIT);
    CutStep(SPLIT, 0);
    LongRecord(SPLIT[0]);
    assert Splits(SPLIT, |Log(SPLIT)|, 1, 0);
  }

  lemma LongRecord(record: Bytes)
    requires |record| > BLOCK_SIZE
    ensures |Fragments(0, true, record)| > BLOCK_SIZE
  {
    hide Fragments, FirstFragment, Physical;
    FragmentsStep(0, true, record);
    FragmentEnds(0, true, record);
    FragmentsStep(BLOCK_SIZE, false, record[BLOCK_SIZE - HEADER_SIZE..]);
    FragmentEnds(BLOCK_SIZE, false, record[BLOCK_SIZE - HEADER_SIZE..]);
  }

  /** An initial offset that splits no record is none of these. */
  lemma CleanIsQuiet(records: seq<Bytes>, cut: nat, initial: nat)
    requires Clean(records, initial)
    ensures !Spurious(records, cut, initial)
  {
    hide Cut, Start;
    assert initial < StartBlock(initial) + BLOCK_SIZE;
  }

  lemma SplitsAhead(records: seq<Bytes>, cut: nat, initial: nat, d: nat, p: nat, m: nat, begin: bool, rest: Bytes)
    requires Splits(records, cut, initial, d) && p <= StartBlock(initial) + BLOCK_SIZE && m <= |records|
    requires if m == |records| then |Log(records)| <= p else At(records, p, begin, rest, m)
    ensures m <= d && m < |records|
    ensures m < d ==> Cut(records, m + 1) < initial
  {
    hide Log, Cut, Header, Fragments;
    CutWhole(records);
    CutsIncrease(records, d + 1, |records|);
    StartsInside(records, d);
    if m < d {
      CutsIncrease(records, m + 1, d);
    } else if d < m < |records| {
      StartsInside(records, m);
      CutsIncrease(records, d + 1, m);
      HeaderOfNext(p, StartBlock(initial));
    }
  }

  lemma StartOfAll()
    ensures StartBlock(0) == 0
  {
  }

  lemma HeaderOfNext(p: nat, b: nat)
    requires b % BLOCK_SIZE == 0 && p <= b + BLOCK_SIZE
    ensures Header(p) <= b + BLOCK_SIZE
    ensures b <= p < b + BLOCK_SIZE && p % BLOCK_SIZE == 0 ==> p == b == Header(p)
    ensures p == b + BLOCK_SIZE ==> Header(p) == p && Room(p) == BLOCK_SIZE
    ensures Header(p) < b + BLOCK_SIZE ==> Header(p) + Room(Header(p)) <= b + BLOCK_SIZE
  {
  }

  /** Up to the next block every fragment lies before `initial`, and there the split record goes on. */
  lemma SplitMet(records: seq<Bytes>, cut: nat, initial: nat, d: nat, p: nat, m: nat, begin: bool, rest: Bytes,
                 t: Byte, data: Bytes, q: nat, m': nat, begin': bool, rest': Bytes)
    requires Splits(records, cut, initial, d) && StartBlock(initial) <= p <= StartBlock(initial) + BLOCK_SIZE
    requires m < |records| && At(records, p, begin, rest, m)
    requires Meets(p, begin, rest, t, data, q) && Follows(records, p, m, begin, rest, q, m', begin', rest')
    ensures q <= cut
    ensures p < StartBlock(initial) + BLOCK_SIZE ==> Header(p) < initial && StartBlock(initial) < q <= StartBlock(initial) + BLOCK_SIZE
    ensures p == StartBlock(initial) + BLOCK_SIZE ==> Header(p) >= initial && (t == MIDDLE || t == LAST)
  {
    hide Log, Cut, Header, Room, Fragments;
    var b := StartBlock(initial);
    StartBlockMisses(initial, 0);
    SplitsAhead(records, cut, initial, d, p, m, begin, rest);
    HeaderOfNext(p, b);
    FillsBlock(p, rest);
    HeaderStays(p);
    assert initial < b + BLOCK_SIZE;
  }

  /** A fragment that belongs to nothing at or after `initial` is one of a split record. */
  lemma DropSplits(records: seq<Bytes>, cut: nat, initial: nat, p: nat, m: nat, begin: bool, rest: Bytes,
                   t: Byte, data: Bytes, q: nat, m': nat, begin': bool, rest': Bytes)
    requires m < |records| && At(records, p, begin, rest, m) && (!begin ==> Start(records, m) < initial)
    requires Meets(p, begin, rest, t, data, q) && Follows(records, p, m, begin, rest, q, m', begin', rest')
    requires q <= cut && initial <= Header(p) && (t == MIDDLE || t == LAST) && StartBlock(initial) < initial
    ensures Splits(records, cut, initial, m)
  {
    hide Log, Cut, Header, Room, Fragments;
    StartBlockMisses(initial, 0);
    HeaderOfNext(p, p);
    FillsBlock(p, rest);
    BlocksApart(StartBlock(initial), p);
  }

  lemma BlocksApart(b: nat, p: nat)
    requires b % BLOCK_SIZE == 0 && p % BLOCK_SIZE == 0 && b < p
    ensures b + BLOCK_SIZE <= p && Header(p) == p && Room(p) == BLOCK_SIZE
  {
  }

  /** What a fragment read outside all records to be returned says about drops. */
  ghost predicate Tells(records: seq<Bytes>, cut: nat, initial: nat, p: nat, begin: bool, kind: nat, q: int, begin': bool) {
    var b := StartBlock(initial);
    && (kind == BAD_RECORD && b <= p ==> b < initial)
    && (kind == MIDDLE || kind == LAST ==> !begin && (b < initial ==> Spurious(records, cut, initial)))
    && (kind == LAST ==> begin')
    && (Spurious(records, cut, initial) && b <= p <= b + BLOCK_SIZE ==>
          if p == b + BLOCK_SIZE then kind == MIDDLE || kind == LAST else kind == BAD_RECORD && b < q <= b + BLOCK_SIZE)
  }

  lemma Tell(records: seq<Bytes>, cut: nat, initial: nat, k: nat, p: nat, m: nat, begin: bool, rest: Bytes,
             t: Byte, data: Bytes, q: nat, m': nat, begin': bool, rest': Bytes, kind: nat, position: int)
    requires Reading(records, cut, initial, k, p, false, [], 0, m, begin, rest)
    requires m < |records| ==> && Meets(p, begin, rest, t, data, q) && Follows(records, p, m, begin, rest, q, m', begin', rest')
                               && if q > cut then kind == EOF
                                  else position == q && kind == if Header(p) < initial then BAD_RECORD else t
    requires m == |records| ==> kind == EOF
    ensures Tells(records, cut, initial, p, begin, kind, position, begin')
  {
    hide Log, Cut, Header, Room, Fragments, At, Readable, Splits;
    HeaderStays(p);
    if Spurious(records, cut, initial) && StartBlock(initial) <= p <= StartBlock(initial) + BLOCK_SIZE {
      var d: nat :| Splits(records, cut, initial, d);
      SplitsAhead(records, cut, initial, d, p, m, begin, rest);
      SplitMet(records, cut, initial, d, p, m, begin, rest, t, data, q, m', begin', rest');
    }
    if (kind == MIDDLE || kind == LAST) && StartBlock(initial) < initial {
      DropSplits(records, cut, initial, p, m, begin, rest, t, data, q, m', begin', rest');
    }
  }

  /** Nothing is reported but for a split record, and a reader that begins before one gets to it without a report. */
  ghost predicate Quiet(records: seq<Bytes>, cut: nat, initial: nat, p: int, inFragment: bool, resyncing: bool,
                        begin: bool, silent: bool, first: bool) {
    var b := StartBlock(initial);
    && b <= p
    && (!inFragment && !begin ==> resyncing || b < initial)
    && (!silent ==> Spurious(records, cut, initial))
    && (first && silent && Spurious(records, cut, initial) ==> !inFragment && p <= b + BLOCK_SIZE && (p > b ==> !resyncing))
  }

  lemma QuietNext(records: seq<Bytes>, cut: nat, initial: nat, p: nat, inFragment: bool, resyncing: bool,
                  begin: bool, silent: bool, first: bool, kind: nat, q: int, begin': bool)
    requires Quiet(records, cut, initial, p, inFragment, resyncing, begin, silent, first)
    requires (inFragment ==> !resyncing) && (!inFragment ==> Tells(records, cut, initial, p, begin, kind, q, begin'))
    ensures p < q && resyncing && (kind == MIDDLE || kind == LAST) ==>
              Quiet(records, cut, initial, q, false, kind == MIDDLE, begin', silent, first)
    ensures p < q && kind == FIRST ==> Quiet(records, cut, initial, q, true, false, begin', silent, first)
    ensures p < q && kind == MIDDLE && inFragment ==> Quiet(records, cut, initial, q, true, false, begin', silent, first)
    ensures p < q && !resyncing && !inFragment && (kind == MIDDLE || kind == LAST) ==>
              Quiet(records, cut, initial, q, false, false, begin', false, first)
    ensures p < q && kind == BAD_RECORD && !inFragment ==> Quiet(records, cut, initial, q, false, false, begin', silent, first)
    ensures kind == FULL || kind == EOF || (kind == LAST && inFragment) ==>
              !(first && silent && Spurious(records, cut, initial))
    ensures StartBlock(initial) <= p && (!silent ==> Spurious(records, cut, initial))
  {
    hide Spurious;
  }

  class Reader {
    const file: Bytes
    const checksum: bool
    const initialOffset: nat
    // How much of the file has been taken.
    var filePos: nat
    var buffer: Bytes
    var eof: bool
    var lastRecordOffset: nat
    var endOfBufferOffset: nat
    var resyncing: bool
    // The sizes of the drops reported.
    var reports: seq<nat>

    /** The buffer holds what the file has before endOfBufferOffset, up to the end of one block. */
    ghost predicate Sound()
      reads this`filePos, this`buffer, this`eof, this`endOfBufferOffset
    {
      && filePos == (if endOfBufferOffset < |file| then endOfBufferOffset else |file|)
      && |buffer| <= filePos && buffer == file[filePos - |buffer|..filePos]
      && (buffer != [] ==> endOfBufferOffset == filePos && |buffer| <= Room(Position()))
      && (eof ==> filePos == |file|)
      && (!eof ==> endOfBufferOffset % BLOCK_SIZE == 0 && (buffer != [] ==> |buffer| == Room(Position())))
    }

    /** Nothing is left to be read. Skipping to the initial offset again leaves such a reader at an offset it has
        nothing for. */
    ghost predicate Spent()
      reads this`filePos, this`buffer, this`eof
    {
      buffer == [] && eof && filePos == |file|
    }

    ghost predicate Valid()
      reads this`filePos, this`buffer, this`eof, this`endOfBufferOffset
    {
      Sound() || Spent()
    }

    function Position(): int
      reads this`buffer, this`endOfBufferOffset
    {
      endOfBufferOffset - |buffer|
    }

    lemma PositionIn()
      requires Valid()
      ensures Position() >= 0
    {
    }

    ghost predicate Fresh()
      reads this
    {
      filePos == 0 && buffer == [] && !eof && lastRecordOffset == 0 && endOfBufferOffset == 0
    }

    constructor (file: Bytes, checksum: bool, initialOffset: nat)
      ensures Valid() && Sound() && Fresh() && reports == [] && resyncing == (initialOffset > 0)
      ensures this.file == file && this.initialOffset == initialOffset
    {
      this.file, this.checksum, this.initialOffset := file, checksum, initialOffset;
      filePos, buffer, eof, lastRecordOffset, endOfBufferOffset := 0, [], false, 0, 0;
      resyncing, reports := initialOffset > 0, [];
    }

    method SkipToInitialBlock()
      requires Fresh() || Spent()
      modifies this`filePos, this`endOfBufferOffset
      ensures buffer == [] && endOfBufferOffset == StartBlock(initialOffset)
      ensures if old(Fresh()) then Sound() else Spent()
    {
      hide Header, Room;
      StartBlockMisses(initialOffset, 0);
      var inBlock := initialOffset % BLOCK_SIZE;
      var start := initialOffset - inBlock;
      if inBlock > BLOCK_SIZE - 6 {
        start := start + BLOCK_SIZE;
      }
      endOfBufferOffset := start;
      if start > 0 {
        filePos := if filePos + start < |file| then filePos + start else |file|;
      }
    }

    method ReportDrop(bytes: nat)
      modifies this`reports
      ensures reports == old(reports) + if Position() - bytes >= initialOffset then [bytes] else []
    {
      if endOfBufferOffset - |buffer| - bytes >= initialOffset {
        reports := reports + [bytes];
      }
    }

    // Take the next block of the file.
    method ReadBlock()
      requires Sound() && !eof && |buffer| < HEADER_SIZE
      modifies this`filePos, this`buffer, this`endOfBufferOffset, this`eof
      ensures Sound() && Position() == old(endOfBufferOffset)
      ensures Position() == Header(old(Position())) == Header(Position())
      ensures eof || |buffer| >= HEADER_SIZE
    {
      HeaderOfBoundary(Position(), endOfBufferOffset);
      var end := if filePos + BLOCK_SIZE < |file| then filePos + BLOCK_SIZE else |file|;
      buffer := file[filePos..end];
      filePos := end;
      endOfBufferOffset := endOfBufferOffset + |buffer|;
      if |buffer| < BLOCK_SIZE {
        eof := true;
      }
    }

    method RemovePrefix(n: nat)
      requires Sound() && n <= |buffer|
      modifies this`buffer
      ensures Sound() && Position() == old(Position()) + n && (n > 0 ==> Position() <= filePos)
    {
      hide Room;
      RoomAfter(Position(), n, |buffer|);
      buffer := buffer[n..];
    }

    method DropBuffer()
      requires Sound()
      modifies this`buffer
      ensures Sound() && buffer == [] && (eof ==> Spent())
      ensures Position() == old(Position()) + |old(buffer)|
    {
      buffer := [];
    }

    // The rest of the block is given up, with a report or without.
    method DropAll(report: bool)
      requires Sound()
      modifies this`buffer, this`reports
      ensures Sound() && buffer == [] && (eof ==> Spent()) && Position() == old(Position()) + |old(buffer)|
      ensures eof && old(buffer) != [] ==> Position() == |file|
      ensures reports == old(reports) + if report && old(Position()) >= initialOffset then [|old(buffer)|] else []
    {
      hide Room;
      var dropSize := |buffer|;
      DropBuffer();
      if report {
        ReportDrop(dropSize);
      }
    }

    // Have a whole header in the buffer, skipping a trailer, unless the file ends.
    method FillBuffer() returns (more: bool)
      requires Valid()
      modifies this`filePos, this`buffer, this`endOfBufferOffset, this`eof
      ensures old(Sound()) ==> Sound()
      ensures more ==> 0 <= Position() && Position() + |buffer| <= |file| && buffer == file[Position()..Position() + |buffer|]
      ensures more && !eof ==> |buffer| == Room(Position())
      ensures more ==> Sound() && !old(Spent()) && old(Position()) <= Position() == Header(old(Position())) && HEADER_SIZE <= |buffer|
      ensures !more ==> Spent() && (old(Sound()) ==> |file| < Header(old(Position())) + HEADER_SIZE)
    {
      hide Header, Room;
      ghost var p := Position();
      HeaderStays(p);
      while |buffer| < HEADER_SIZE
        invariant if old(Sound()) then Sound() && p <= Position() <= Header(p) == Header(Position()) else Spent()
        invariant old(Spent()) ==> Spent()
        decreases if |buffer| >= HEADER_SIZE then 0 else if eof then 1 else 2
      {
        if eof {
          buffer := [];
          return false;
        }
        ReadBlock();
      }
      FullBufferAt(Position(), |buffer|);
      return true;
    }

    lemma BufferIntact(length: nat)
      requires Sound() && HEADER_SIZE + length <= |buffer| && length == LengthOf(buffer)
      requires Crc32c.Unmask(Coding.DecodeFixed32(buffer[..4])) == Crc32c.Value(buffer[6..HEADER_SIZE + length])
      ensures Intact(file, Position(), buffer[6], buffer[HEADER_SIZE..HEADER_SIZE + length])
    {
      hide Room, LengthOf, Crc32c.Unmask, Crc32c.Value, Coding.DecodeFixed32, Physical;
      ChecksumHolds(buffer, length);
      var p := Position();
      assert file[p..p + HEADER_SIZE + length] == file[p..p + |buffer|][..HEADER_SIZE + length];
    }

    // Whether the checksum stored is that of type and payload; then the fragment is as it was written.
    method PassesChecksum(length: nat) returns (b: bool)
      requires HEADER_SIZE + length <= |buffer| && length == LengthOf(buffer)
      ensures b <==> Crc32c.Unmask(Coding.DecodeFixed32(buffer[..4])) == Crc32c.Value(buffer[6..HEADER_SIZE + length])
      ensures b && Sound() ==> Intact(file, Position(), buffer[6], buffer[HEADER_SIZE..HEADER_SIZE + length])
    {
      hide Sound, Intact, LengthOf, Crc32c.Unmask, Crc32c.Value, Coding.DecodeFixed32, Position;
      var expected := Crc32c.Unmask(Coding.DecodeFixed32(buffer[..4]));
      var actual := Crc32c.Value(buffer[6..HEADER_SIZE + length]);
      b := actual == expected;
      if b && Sound() {
        BufferIntact(length);
      }
    }

    /** The next fragment's type and payload. `full` is a whole log of which the file may be a prefix. */
    method ReadPhysicalRecord(ghost full: Bytes, ghost t: Byte, ghost data: Bytes, ghost q: nat)
      returns (kind: nat, fragment: Bytes)
      requires Valid()
      modifies this`filePos, this`buffer, this`endOfBufferOffset, this`eof, this`reports
      ensures Valid() && (old(Sound()) ==> Sound())
      ensures |old(reports)| <= |reports|
      ensures old(Spent()) ==> kind == EOF && reports == old(reports) && Spent()
      ensures kind != EOF ==> Sound() && old(Position()) + HEADER_SIZE <= Position() <= |file|
      ensures kind != EOF && kind != BAD_RECORD ==> Position() - HEADER_SIZE - |fragment| >= initialOffset
      ensures checksum && kind != EOF && kind != BAD_RECORD ==> Intact(file, Position() - HEADER_SIZE - |fragment|, kind, fragment)
      ensures kind != EOF && kind != BAD_RECORD ==> old(Position()) <= Position() - HEADER_SIZE - |fragment|
      ensures old(Position()) >= |file| ==> kind == EOF && reports == old(reports) && Spent()
      ensures old(Sound()) && file <= full && FragmentAt(full, old(Position()), t, data, q) ==>
                reports == old(reports)
                && if q > |file| then kind == EOF && Spent()
                   else Position() == q && if Header(old(Position())) < initialOffset
                        then kind == BAD_RECORD && fragment == [] else kind == t && fragment == data
    {
      hide Intact, Sound, Spent, Header, Room, FragmentAt, LengthOf, Coding.DecodeFixed32, Crc32c.Unmask, Crc32c.Value;
      ghost var p := Position();
      PositionIn();
      ghost var good := Sound() && file <= full && FragmentAt(full, p, t, data, q);
      if good {
        FragmentSize(full, p, t, data, q);
      }
      var more := FillBuffer();
      if !more {
        return EOF, [];
      }
      if good {
        FragmentInBuffer(file, full, p, t, data, q, buffer);
      }
      var length, kind' := LengthOf(buffer), buffer[6];
      if HEADER_SIZE + length > |buffer| {
        if !eof {
          DropAll(true);
          return BAD_RECORD, [];
        }
        DropAll(false);
        return EOF, [];
      }
      if kind' == ZERO && length == 0 {
        DropAll(false);
        return BAD_RECORD, [];
      }
      if checksum {
        var passes := PassesChecksum(length);
        if !passes {
          DropAll(true);
          return BAD_RECORD, [];
        }
      }
      kind, fragment := TakeFragment(kind', length);
    }

    // The fragment leaves the buffer; one that begins before the initial offset is passed over.
    method TakeFragment(kind': nat, length: nat) returns (kind: nat, fragment: Bytes)
      requires Sound() && HEADER_SIZE + length <= |buffer| && length == LengthOf(buffer)
      modifies this`buffer
      ensures Sound() && Position() == old(Position()) + HEADER_SIZE + length <= |file|
      ensures if old(Position()) < initialOffset then kind == BAD_RECORD && fragment == []
              else kind == kind' && fragment == old(buffer)[HEADER_SIZE..HEADER_SIZE + length]
    {
      hide Room, LengthOf;
      fragment := buffer[HEADER_SIZE..HEADER_SIZE + length];
      RemovePrefix(HEADER_SIZE + length);
      if endOfBufferOffset - |buffer| - HEADER_SIZE - length < initialOffset {
        return BAD_RECORD, [];
      }
      return kind', fragment;
    }

    /** The file is the front of a log, and record k is next. A reader that is to start later has not begun. */
    ghost predicate Placed(records: seq<Bytes>, k: nat)
      reads this
    {
      && file <= Log(records) && k <= |records|
      && if lastRecordOffset < initialOffset then Fresh() && resyncing && k == 0
         else Sound() && Position() == Cut(records, k) && !resyncing && StartBlock(initialOffset) <= Position()
    }

    lemma PlaceFirst(records: seq<Bytes>)
      requires Sound() && Fresh() && resyncing == (initialOffset > 0) && file <= Log(records)
      ensures Placed(records, 0)
    {
      hide Log, Cut, Sound, StartBlock;
      CutWhole(records);
      StartOfAll();
    }

    lemma Place(records: seq<Bytes>, k: nat) returns (m: nat, begin: bool, rest: Bytes)
      requires Placed(records, k) && lastRecordOffset >= initialOffset
      ensures Reading(records, |file|, initialOffset, k, Position(), false, [], 0, m, begin, rest) && begin
    {
      m, begin, rest := k, true, if k < |records| then records[k] else [];
      if k < |records| {
        AtRecord(records, k);
      } else {
        CutWhole(records);
      }
    }

    lemma PlaceAtBlock(records: seq<Bytes>) returns (m: nat, begin: bool, rest: Bytes)
      requires file <= Log(records)
      ensures Reading(records, |file|, initialOffset, 0, StartBlock(initialOffset), false, [], 0, m, begin, rest)
    {
      hide Cut, Log, Fragments, Header;
      var s := StartBlock(initialOffset);
      m, begin, rest := |records|, true, [];
      CutWhole(records);
      if records != [] && s <= |Log(records)| {
        AtRecord(records, 0);
        begin, rest, m := BoundaryAt(records, 0, true, records[0], 0, s);
        begin := begin || m == |records|;
      }
      forall j | 0 <= j < |records| && (j < m || !begin) && j <= m ensures Start(records, j) < initialOffset {
        StartsInside(records, j);
        CutsIncrease(records, j + 1, |records|);
        StartBlockMisses(initialOffset, Cut(records, j));
      }
      EarlierSkipped(records, |file|, initialOffset, 0, m);
    }

    /** Reads a fragment, and says what it means if the file is the front of a log. */
    method ReadFragment(ghost records: seq<Bytes>, ghost k: nat, ghost inFragment: bool, ghost scratch: Bytes,
                        ghost start: int, ghost m: nat, ghost begin: bool, ghost rest: Bytes)
      returns (kind: nat, fragment: Bytes, ghost m': nat, ghost begin': bool, ghost rest': Bytes)
      requires Valid()
      modifies this`filePos, this`buffer, this`endOfBufferOffset, this`eof, this`reports
      ensures Valid() && (old(Sound()) ==> Sound())
      ensures |old(reports)| <= |reports|
      ensures old(Spent()) ==> kind == EOF && reports == old(reports) && Spent()
      ensures kind != EOF ==> Sound() && old(Position()) < Position() <= |file|
      ensures kind != EOF && kind != BAD_RECORD ==> Position() - HEADER_SIZE - |fragment| >= initialOffset
      ensures old(Sound()) && file <= Log(records)
              && ReadingAt(records, |file|, initialOffset, k, old(Position()), inFragment, scratch, start, m, begin, rest) ==>
                && reports == old(reports)
                && (kind == EOF ==> Readable(records, |file|, initialOffset, k) == [] && Spent())
                && (kind != EOF ==> Means(records, |file|, initialOffset, k, Position(), inFragment, scratch, start,
                                          kind, fragment, m', begin', rest'))
                && (!inFragment && 0 <= old(Position()) ==>
                      Tells(records, |file|, initialOffset, old(Position()), begin, kind, Position(), begin'))
      ensures checksum && kind != EOF && kind != BAD_RECORD ==> Intact(file, Position() - HEADER_SIZE - |fragment|, kind, fragment)
      ensures kind != EOF && kind != BAD_RECORD ==> old(Position()) <= Position() - HEADER_SIZE - |fragment|
    {
      hide Intact, Header, Room, Log, Cut, FragmentAt, Reading, Follows, Completed, Meets, Readable, Clean, Means, Tells;
      ghost var p: nat := Position();
      ghost var good := Sound() && file <= Log(records)
        && ReadingAt(records, |file|, initialOffset, k, p, inFragment, scratch, start, m, begin, rest);
      ghost var scratch', start' := if inFragment then scratch else [], if inFragment then start else 0;
      ghost var t: Byte, data: Bytes, q: nat := FULL, [], 0;
      m', begin', rest' := m, begin, rest;
      if good {
        EndMet(records, |file|, initialOffset, k, p, inFragment, scratch', start', m, begin, rest);
        if m < |records| {
          t, data, q, m', begin', rest' := Next(records, |file|, initialOffset, k, p, inFragment, scratch', start', m, begin, rest);
        }
      }
      kind, fragment := ReadPhysicalRecord(Log(records), t, data, q);
      if good {
        if !inFragment {
          Tell(records, |file|, initialOffset, k, p, m, begin, rest, t, data, q, m', begin', rest', kind, Position());
        }
        if kind == EOF {
          Ended(records, |file|, initialOffset, k, p, inFragment, scratch', start', m, begin, rest, q, m', begin', rest');
        } else {
          Interpret(records, |file|, initialOffset, k, p, inFragment, scratch', start', m, begin, rest,
                    t, data, q, kind, fragment, m', begin', rest');
          SameMeaning(records, |file|, initialOffset, k, q, inFragment, scratch, start, kind, fragment, m', begin', rest');
        }
      }
    }

    lemma PlacedNext(records: seq<Bytes>, k: nat, found: Found, m: nat)
      requires Sound() && file <= Log(records) && lastRecordOffset >= initialOffset && !resyncing
      requires Completed(records, |file|, initialOffset, k, found, Position(), m) && StartBlock(initialOffset) <= Position()
      ensures Placed(records, m) && m <= |records|
    {
    }

    // Skip to the initial offset, the first time.
    method Begin(ghost records: seq<Bytes>, ghost k: nat) returns (ghost m: nat, ghost begin: bool, ghost rest: Bytes)
      requires Valid() && (lastRecordOffset < initialOffset ==> Fresh() || Spent())
      modifies this`filePos, this`endOfBufferOffset
      ensures Valid() && 0 <= Position() && (!old(Spent()) ==> 0 <= old(Position()) <= Position())
      ensures old(Spent()) ==> Spent()
      ensures old(Placed(records, k)) ==>
                && Sound() && file <= Log(records)
                && ReadingAt(records, |file|, initialOffset, k, Position(), false, [], 0, m, begin, rest)
                && Quiet(records, |file|, initialOffset, Position(), false, resyncing, begin, true, lastRecordOffset < initialOffset)
    {
      hide Header, Room, Log, Cut, Reading, Readable, Clean, Spurious;
      ghost var good := Placed(records, k);
      m, begin, rest := 0, false, [];
      if lastRecordOffset < initialOffset {
        SkipToInitialBlock();
        if good {
          m, begin, rest := PlaceAtBlock(records);
        }
      } else if good {
        m, begin, rest := Place(records, k);
      }
    }

    /** The next record. If the file is the front of a log and record k is next, this is the first of those left to be
        returned; and a drop is reported only when the initial offset splits a record, and then by the first call. */
    method ReadRecord(ghost records: seq<Bytes>, ghost k: nat) returns (ok: bool, record: Bytes, ghost k': nat)
      requires Valid() && (lastRecordOffset < initialOffset ==> Fresh() || Spent())
      modifies this
      ensures Valid()
      ensures old(Spent()) ==> !ok && reports == old(reports) && Spent()
      ensures ok ==> lastRecordOffset >= initialOffset && old(Position()) < Position() <= |file|
      ensures ok && checksum ==> Authentic(file, lastRecordOffset, Position(), record)
      ensures old(Placed(records, k)) ==>
                && (ok ==> k' <= |records| && Placed(records, k'))
                && (ok ==> Completed(records, |file|, initialOffset, k, Found(record, lastRecordOffset), Position(), k'))
                && (!ok ==> Readable(records, |file|, initialOffset, k) == [] && Spent())
                && (|reports| > |old(reports)| ==> Spurious(records, |file|, initialOffset))
                && (old(lastRecordOffset) < initialOffset && Spurious(records, |file|, initialOffset) ==> |reports| > |old(reports)|)
      ensures |old(reports)| <= |reports|
    {
      hide Intact, Authentic, Partly, Header, Room, Log, Cut, Reading, Readable, Clean, Valid, Sound, Spent, Fresh, Completed, Placed, ReadingAt, Means, Tells, Quiet, Spurious, Start, StartBlock, At, FragmentAt, Follows, Meets, LengthOf, Splits, Position;
      ghost var good, first := Placed(records, k), lastRecordOffset < initialOffset;
      ghost var spent, dropped := Spent(), reports;
      ghost var m, begin, rest := Begin(records, k);
      ghost var from := Position();
      var scratch: Bytes, inFragment, start := [], false, 0;
      record := [];
      while true
        invariant Valid() && 0 <= Position()
        invariant inFragment ==> !resyncing && start >= initialOffset
        invariant from <= Position() && (spent ==> Spent() && reports == dropped)
        invariant good ==> Sound() && ReadingAt(records, |file|, initialOffset, k, Position(), inFragment, scratch, start, m, begin, rest)
        invariant |dropped| <= |reports|
        invariant checksum && inFragment ==> Partly(file, start, Position(), scratch)
        invariant good ==> Quiet(records, |file|, initialOffset, Position(), inFragment, resyncing, begin, |reports| == |dropped|, first)
        decreases |file| - Position()
      {
        var kind, fragment;
        ghost var here, p: nat, begin0 := Position(), Position(), begin;
        kind, fragment, m, begin, rest := ReadFragment(records, k, inFragment, scratch, start, m, begin, rest);
        if good {
          QuietNext(records, |file|, initialOffset, p, inFragment, resyncing, begin0, |reports| == |dropped|, first, kind, Position(), begin);
          if kind != EOF {
            MeansNext(records, |file|, initialOffset, k, Position(), inFragment, scratch, start, kind, fragment, m, begin, rest);
          }
        }
        if kind == EOF {
          resyncing := false;
          return false, [], k;
        }
        var offset := Position() - HEADER_SIZE - |fragment|;
        if checksum && kind != BAD_RECORD {
          Takes(here, offset, start, inFragment, scratch, kind, fragment);
        }
        var done;
        done, record, inFragment, scratch, start := Collect(kind, fragment, offset, inFragment, scratch, start);
        if done {
          if good {
            PlacedNext(records, k, Found(record, lastRecordOffset), m);
          }
          return true, record, m;
        }
      }
    }

    // A fragment that passed the checksum goes on with what was gathered.
    lemma Takes(before: int, at: int, from: int, inFragment: bool, scratch: Bytes, kind: nat, fragment: Bytes)
      requires Intact(file, at, kind, fragment) && before <= at && (inFragment ==> Partly(file, from, before, scratch))
      ensures var to := at + HEADER_SIZE + |fragment|;
              && (kind == FULL ==> Authentic(file, at, to, fragment))
              && (kind == FIRST ==> Partly(file, at, to, fragment))
              && (kind == MIDDLE && inFragment ==> Partly(file, from, to, scratch + fragment))
              && (kind == LAST && inFragment ==> Authentic(file, from, to, scratch + fragment))
              && (inFragment ==> Partly(file, from, to, scratch))
    {
      hide Intact, Authentic, Partly;
      if inFragment {
        PartlyLater(file, from, before, at, scratch);
        PartlyLater(file, from, at, at + HEADER_SIZE + |fragment|, scratch);
      }
      FragmentTaken(file, from, at, scratch, kind, fragment);
    }

    /** What a fragment means for the record being collected. */
    method Collect(kind: nat, fragment: Bytes, offset: int, inFragment: bool, scratch: Bytes, start: int)
      returns (done: bool, record: Bytes, inFragment': bool, scratch': Bytes, start': int)
      requires kind != EOF && offset == Position() - HEADER_SIZE - |fragment|
      requires kind != BAD_RECORD ==> offset >= initialOffset
      requires inFragment ==> !resyncing && start >= initialOffset
      modifies this`lastRecordOffset, this`resyncing, this`reports
      ensures Passes(old(resyncing), kind) ==> !done && resyncing == (kind == MIDDLE) && reports == old(reports)
                                               && (inFragment', scratch', start') == (inFragment, scratch, start)
      ensures !Passes(old(resyncing), kind) ==>
                && !resyncing && done == (kind == FULL || (kind == LAST && inFragment))
                && inFragment' == (kind == FIRST || (kind == MIDDLE && inFragment))
                && (kind == FULL ==> record == fragment && lastRecordOffset == offset)
                && (kind == LAST && inFragment ==> record == scratch + fragment && lastRecordOffset == start)
                && (kind == FIRST ==> scratch' == fragment && start' == offset)
                && (kind == MIDDLE && inFragment ==> scratch' == scratch + fragment && start' == start)
                && (if kind == MIDDLE || kind == LAST then |reports| == |old(reports)| + if inFragment then 0 else 1
                    else (kind == FULL || kind == FIRST || kind == BAD_RECORD) && !inFragment ==> reports == old(reports))
                && (!inFragment && (kind == MIDDLE || kind == LAST || kind == BAD_RECORD) ==> scratch' == scratch && start' == start)
      ensures done ==> lastRecordOffset >= initialOffset
      ensures !done ==> lastRecordOffset == old(lastRecordOffset)
      ensures |old(reports)| <= |reports|
      ensures inFragment' ==> !resyncing && start' >= initialOffset
    {
      done, record, inFragment', scratch', start' := false, [], inFragment, scratch, start;
      if resyncing && (kind == MIDDLE || kind == LAST) {
        resyncing := kind == MIDDLE;
        return;
      }
      resyncing := false;
      match kind
      case 1 =>
        if inFragment && scratch != [] {
          ReportDrop(|scratch|);
        }
        lastRecordOffset := offset;
        done, record, inFragment' := true, fragment, false;
      case 2 =>
        if inFragment && scratch != [] {
          ReportDrop(|scratch|);
        }
        start', scratch', inFragment' := offset, fragment, true;
      case 3 =>
        if !inFragment {
          ReportDrop(|fragment|);
        } else {
          scratch' := scratch + fragment;
        }
      case 4 =>
        if !inFragment {
          ReportDrop(|fragment|);
        } else {
          lastRecordOffset := start;
          done, record, inFragment' := true, scratch + fragment, false;
        }
      case 6 =>
        if inFragment {
          ReportDrop(|scratch|);
          inFragment', scratch' := false, [];
        }
      case _ =>
        ReportDrop(|fragment| + if inFragment then |scratch| else 0);
        inFragment', scratch' := false, [];
    }
  }

  // A reader that began inside a record passes over the rest of it.
  predicate Passes(resyncing: bool, kind: nat) {
    resyncing && (kind == MIDDLE || kind == LAST)
  }

  /** Everything a new reader returns from a file. If the file is the front of a log, these are the records
      wholly inside it that start at or after the initial offset, each with its offset. Drops are reported if and only
      if the initial offset splits a record that goes on in the next block. */
  method ReadLog(file: Bytes, checksum: bool, initialOffset: nat, ghost records: seq<Bytes>)
    returns (found: seq<Found>, reports: seq<nat>)
    ensures file <= Log(records) ==> found == Readable(records, |file|, initialOffset, 0)
    ensures file <= Log(records) ==> (reports == [] <==> !Spurious(records, |file|, initialOffset))
    ensures file <= Log(records) && Clean(records, initialOffset) ==> reports == []
  {
    hide Log, Cut, Readable, Clean, Reader.Valid, Reader.Sound, Reader.Spent, Reader.Fresh, Reader.Placed, Spurious;
    var reader := new Reader(file, checksum, initialOffset);
    ghost var good, drops := file <= Log(records), Spurious(records, |file|, initialOffset);
    ghost var k: nat := 0;
    found := [];
    if good {
      reader.PlaceFirst(records);
    }
    NothingDropped(records, |file|, initialOffset);
    var more := true;
    while more
      invariant reader.Valid() && fresh(reader) && reader.file == file && reader.initialOffset == initialOffset
      invariant more && reader.lastRecordOffset < initialOffset ==> reader.Fresh()
      invariant good && more ==> reader.Placed(records, k)
      invariant good && more ==> k <= |records|
      invariant good && more ==>
                  Readable(records, |file|, initialOffset, 0) == found + Readable(records, |file|, initialOffset, k)
      invariant good && !more ==> Readable(records, |file|, initialOffset, 0) == found
      invariant good && reader.reports != [] ==> drops
      invariant good && drops && (!more || reader.lastRecordOffset >= initialOffset) ==> reader.reports != []
      decreases more, |file| - reader.Position()
    {
      var record;
      more, record, k := reader.ReadRecord(records, k);
      if more {
        found := found + [Found(record, reader.lastRecordOffset)];
      }
    }
    reports := reader.reports;
  }

  lemma NothingDropped(records: seq<Bytes>, cut: nat, initial: nat)
    ensures Clean(records, initial) || initial == 0 ==> !Spurious(records, cut, initial)
  {
    if Clean(records, initial) {
      CleanIsQuiet(records, cut, initial);
    }
  }

  lemma RoomAfter(p: int, n: nat, size: nat)
    requires n <= size && (size > 0 ==> 0 <= p && size <= Room(p))
    ensures n < size ==> Room(p + n) == Room(p) - n
  {
  }

  lemma FragmentSize(full: Bytes, p: nat, kind: Byte, data: Bytes, q: nat)
    requires FragmentAt(full, p, kind, data, q)
    ensures q == Header(p) + HEADER_SIZE + |data| && FULL <= kind <= LAST
  {
  }

  lemma FullBufferAt(p: nat, n: nat)
    requires HEADER_SIZE <= n <= Room(p)
    ensures Header(p) == p
  {
  }

  lemma HeaderOfBoundary(p: nat, s: nat)
    requires s % BLOCK_SIZE == 0 && (s == p || s == p + Room(p)) && s < p + HEADER_SIZE
    ensures Header(p) == s && Header(s) == s && Room(s) == BLOCK_SIZE
  {
  }
}
