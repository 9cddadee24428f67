/** Where the records of a log lie: what a reader meets at each position of a file the writer made. */
module LogLayout {
  import opened Keys
  import opened LogWriter

  function Log(records: seq<Bytes>): Bytes {
    Encoded(0, records)
  }

  /** The offset at which writing of record k began, and that of record k - 1 ended. */
  function Cut(records: seq<Bytes>, k: nat): nat
    requires k <= |records|
  {
    |Log(records[..k])|
  }

  /** The offset of the first header of record k. */
  function Start(records: seq<Bytes>, k: nat): nat
    requires k < |records|
  {
    Header(Cut(records, k))
  }

  lemma CutStep(records: seq<Bytes>, k: nat)
    requires k < |records|
    ensures Cut(records, k + 1) == Cut(records, k) + |Fragments(Cut(records, k), true, records[k])|
    ensures Cut(records, k + 1) <= |Log(records)|
    ensures Log(records)[Cut(records, k)..Cut(records, k + 1)] == Fragments(Cut(records, k), true, records[k])
  {
    hide Fragments;
    var one := [records[k]];
    var f := Fragments(Cut(records, k), true, records[k]);
    assert records[..k+1] == records[..k] + one;
    EncodedConcat(0, records[..k], one);
    assert one[1..] == [] && Encoded(Cut(records, k), one) == f + [];
    assert records == records[..k+1] + records[k+1..];
    EncodedConcat(0, records[..k+1], records[k+1..]);
  }

  /** What the writer appends for one more record makes the log of one more record. */
  lemma LogExtends(records: seq<Bytes>, record: Bytes)
    ensures Log(records) + Fragments(|Log(records)|, true, record) == Log(records + [record])
  {
    hide Fragments;
    EncodedConcat(0, records, [record]);
    var f := Fragments(|Log(records)|, true, record);
    assert [record][1..] == [] && Encoded(|Log(records)|, [record]) == f + [];
  }

  lemma CutWhole(records: seq<Bytes>)
    ensures Cut(records, 0) == 0 && Cut(records, |records|) == |Log(records)|
  {
    assert records[..|records|] == records;
  }

  lemma StartsInside(records: seq<Bytes>, k: nat)
    requires k < |records|
    ensures Cut(records, k) <= Start(records, k) && Start(records, k) + HEADER_SIZE <= Cut(records, k + 1)
  {
    CutStep(records, k);
    FragmentsStep(Cut(records, k), true, records[k]);
  }

  lemma {:induction false} CutsIncrease(records: seq<Bytes>, j: nat, k: nat)
    requires j <= k <= |records|
    ensures Cut(records, j) <= Cut(records, k)
    decreases k - j
  {
    hide Log;
    if j < k {
      StartsInside(records, j);
      CutsIncrease(records, j + 1, k);
    }
  }

  /** Position p of the log is inside record k, or at its beginning: `rest` is still to come. */
  ghost predicate At(records: seq<Bytes>, p: nat, begin: bool, rest: Bytes, k: nat) {
    && k < |records|
    && p <= Cut(records, k + 1) <= |Log(records)|
    && Log(records)[p..Cut(records, k + 1)] == Fragments(p, begin, rest)
    && if begin then rest == records[k] && Header(p) == Start(records, k) else Start(records, k) < p && p % BLOCK_SIZE == 0
  }

  /** At p, past a trailer if there is one, the file holds one whole fragment, ending at q. */
  ghost predicate FragmentAt(full: Bytes, p: nat, kind: Byte, data: Bytes, q: nat) {
    && FULL <= kind <= LAST
    && |data| < 0x1_0000
    && HEADER_SIZE + |data| <= Room(Header(p))
    && q == Header(p) + HEADER_SIZE + |data| <= |full|
    && full[Header(p)..q] == Physical(kind, data)
  }

  lemma AtRecord(records: seq<Bytes>, k: nat)
    requires k < |records|
    ensures At(records, Cut(records, k), true, records[k], k)
  {
    hide Fragments;
    CutStep(records, k);
  }

  // The end of the first fragment.
  function After(p: nat, rest: Bytes): nat {
    Header(p) + HEADER_SIZE + Taken(p, rest)
  }

  lemma SplitSlice(s: Bytes, p: nat, q: nat, c: nat, a: Bytes, b: Bytes)
    requires p <= q <= c <= |s| && s[p..c] == a + b && q == p + |a|
    ensures s[p..q] == a && s[q..c] == b
  {
    assert s[p..q] == s[p..c][..|a|] && s[q..c] == s[p..c][|a|..];
  }

  lemma AtStep(records: seq<Bytes>, p: nat, begin: bool, rest: Bytes, k: nat)
    requires At(records, p, begin, rest, k)
    ensures var n, q := Taken(p, rest), After(p, rest);
            && p < q <= Cut(records, k + 1)
            && FragmentAt(Log(records), p, TypeOf(begin, n == |rest|), rest[..n], q)
            && if n == |rest| then q == Cut(records, k + 1) else At(records, q, false, rest[n..], k)
  {
    hide Fragments, Log, FirstFragment, Physical;
    var n, q, c := Taken(p, rest), After(p, rest), Cut(records, k + 1);
    var f := FirstFragment(p, begin, rest);
    var tail := if n == |rest| then [] else Fragments(p + |f|, false, rest[n..]);
    FragmentsStep(p, begin, rest);
    assert |Log(records)[p..c]| == |f| + |tail|;
    SplitSlice(Log(records), p, q, c, f, tail);
    FragmentEnds(p, begin, rest);
    var h := Header(p);
    SplitSlice(Log(records), p, h, q, Zeros(h - p), Physical(TypeOf(begin, n == |rest|), rest[..n]));
    FillsBlock(p, rest);
  }

  // A fragment that is not the last one reaches the end of its block, and no fragment reaches further.
  lemma FillsBlock(p: nat, rest: Bytes)
    ensures var h, q := Header(p), After(p, rest);
            && (Taken(p, rest) < |rest| ==> q % BLOCK_SIZE == 0 && q == h + Room(h))
            && q <= h + Room(h)
  {
  }

  lemma FragmentEnds(p: nat, begin: bool, rest: Bytes)
    ensures FirstFragment(p, begin, rest)
         == Zeros(Header(p) - p) + Physical(TypeOf(begin, Taken(p, rest) == |rest|), rest[..Taken(p, rest)])
  {
  }

  lemma SkipTrailer(records: seq<Bytes>, p: nat, begin: bool, rest: Bytes, k: nat)
    requires At(records, p, begin, rest, k)
    ensures At(records, Header(p), begin, rest, k)
  {
    hide Fragments, Log, Physical;
    var h, c := Header(p), Cut(records, k + 1);
    AtStep(records, p, begin, rest, k);
    FragmentsStep(p, begin, rest);
    FragmentsStep(h, begin, rest);
    HeaderStays(p);
    var z := Zeros(h - p);
    assert FirstFragment(p, begin, rest) == z + FirstFragment(h, begin, rest);
    assert Fragments(p, begin, rest) == z + Fragments(h, begin, rest);
    SplitSlice(Log(records), p, h, c, z, Fragments(h, begin, rest));
  }

  lemma HeaderStays(p: nat)
    ensures p <= Header(p) == Header(Header(p))
  {
  }

  // A block boundary s is not inside a fragment.
  lemma BoundaryOutside(p: nat, s: nat)
    requires p <= s && s % BLOCK_SIZE == 0
    ensures s == p || s == Header(p) || Header(p) + Room(Header(p)) <= s
  {
  }

  /** A header lies at least its own size before any later block boundary. */
  lemma HeaderBeforeBoundary(p: nat, s: nat)
    requires Header(p) < s && s % BLOCK_SIZE == 0
    ensures Header(p) + HEADER_SIZE <= s
  {
  }

  lemma InRecord(records: seq<Bytes>, p: nat, begin: bool, rest: Bytes, k: nat)
    requires At(records, p, begin, rest, k)
    ensures k < |records|
  {
  }

  /** A block boundary of the log lies at a fragment. */
  lemma {:induction false} BoundaryAt(records: seq<Bytes>, p: nat, begin: bool, rest: Bytes, k: nat, s: nat)
    returns (begin': bool, rest': Bytes, k': nat)
    requires At(records, p, begin, rest, k)
    requires p <= s <= |Log(records)| && s % BLOCK_SIZE == 0
    ensures k <= k' <= |records|
    ensures k' == |records| ==> s == |Log(records)|
    ensures k' < |records| ==> At(records, s, begin', rest', k')
    ensures forall j :: k < j <= k' ==> Cut(records, j) <= s
    decreases s - p
  {
    hide Log, Cut, Header, Room, Fragments, At, FragmentAt, Start;
    InRecord(records, p, begin, rest, k);
    FillsBlock(p, rest);
    BoundaryOutside(p, s);
    SkipTrailer(records, p, begin, rest, k);
    AtStep(records, p, begin, rest, k);
    begin', rest', k' := begin, rest, k;
    if s != p && s != Header(p) {
      var n, q := Taken(p, rest), After(p, rest);
      if n < |rest| {
        begin', rest', k' := BoundaryAt(records, q, false, rest[n..], k, s);
      } else if k + 1 == |records| {
        CutWhole(records);
        k' := k + 1;
      } else {
        AtRecord(records, k + 1);
        begin', rest', k' := BoundaryAt(records, q, true, records[k + 1], k + 1, s);
      }
    }
  }

  /** A record found in a log, and where its first fragment starts. */
  datatype Found = Found(data: Bytes, offset: nat)

  /** What a reader of the first `cut` bytes should return from record k on: the records wholly
      inside the cut that start at or after `initial`. */
  function Readable(records: seq<Bytes>, cut: nat, initial: nat, k: nat): seq<Found>
    requires k <= |records|
    decreases |records| - k
  {
    if k == |records| then [] else
    (if Cut(records, k + 1) <= cut && initial <= Start(records, k)
     then [Found(records[k], Start(records, k))] else [])
    + Readable(records, cut, initial, k + 1)
  }

  lemma {:induction false} NothingReadable(records: seq<Bytes>, cut: nat, initial: nat, k: nat)
    requires k <= |records|
    requires k < |records| ==> cut < Cut(records, k + 1)
    ensures Readable(records, cut, initial, k) == []
    decreases |records| - k
  {
    hide Cut, Start;
    if k < |records| {
      if k + 1 < |records| {
        CutsIncrease(records, k + 1, k + 2);
      }
      NothingReadable(records, cut, initial, k + 1);
    }
  }

  lemma {:induction false} EarlierSkipped(records: seq<Bytes>, cut: nat, initial: nat, k: nat, m: nat)
    requires k <= m <= |records|
    requires forall j :: k <= j < m ==> Start(records, j) < initial
    ensures Readable(records, cut, initial, k) == Readable(records, cut, initial, m)
    decreases m - k
  {
    hide Cut, Start;
    if k < m {
      EarlierSkipped(records, cut, initial, k + 1, m);
    }
  }

  function Datas(found: seq<Found>): seq<Bytes> {
    if found == [] then [] else [found[0].data] + Datas(found[1..])
  }

  /** Read from the beginning, a cut log gives back a prefix of the records: all that lie inside the cut. */
  lemma {:induction false} PrefixReadable(records: seq<Bytes>, cut: nat, k: nat) returns (m: nat)
    requires k <= |records|
    ensures k <= m <= |records|
    ensures Datas(Readable(records, cut, 0, k)) == records[k..m]
    ensures k < m ==> Cut(records, m) <= cut
    ensures m < |records| ==> cut < Cut(records, m + 1)
    decreases |records| - k
  {
    hide Cut, Start;
    if k == |records| || cut < Cut(records, k + 1) {
      m := k;
      NothingReadable(records, cut, 0, k);
    } else {
      m := PrefixReadable(records, cut, k + 1);
      var found := Readable(records, cut, 0, k);
      assert found[1..] == Readable(records, cut, 0, k + 1);
      assert records[k..m] == [records[k]] + records[k+1..m];
    }
  }

  /** No record starts before `initial` and ends after it. */
  ghost predicate Clean(records: seq<Bytes>, initial: nat) {
    forall k :: 0 <= k < |records| && Start(records, k) < initial ==> Cut(records, k + 1) <= initial
  }

  /** Starting at the offset of a record, or at zero, splits none. */
  lemma CleanStarts(records: seq<Bytes>, initial: nat)
    requires initial == 0 || exists j :: 0 <= j < |records| && initial == Start(records, j)
    ensures Clean(records, initial)
  {
    hide Cut;
    if initial > 0 {
      var j :| 0 <= j < |records| && initial == Start(records, j);
      forall k | 0 <= k < |records| && Start(records, k) < initial ensures Cut(records, k + 1) <= initial {
        StartsInside(records, j);
        if k < j {
          CutsIncrease(records, k + 1, j);
        } else {
          CutsIncrease(records, j, k);
          StartsInside(records, k);
          StartsIncrease(records, j, k);
        }
      }
    }
  }

  lemma StartsIncrease(records: seq<Bytes>, j: nat, k: nat)
    requires j <= k < |records|
    ensures Start(records, j) <= Start(records, k)
  {
    hide Cut;
    if j < k {
      StartsInside(records, j);
      StartsInside(records, k);
      CutsIncrease(records, j + 1, k);
    }
  }
}
