/** The layout of a block: entries that leave out the bytes their key shares with the one before, and an
    array of the points where nothing is left out (table/block_builder.cc). */
module BlockFormat {
  import opened Keys
  import opened Coding

  datatype Pair = Pair(key: Bytes, value: Bytes)

  /** The pairs of a block, how many leading bytes each key shares with the one before it, and the indices of
      the pairs at the restart points. */
  datatype Layout = Layout(pairs: seq<Pair>, shared: seq<nat>, marks: seq<nat>)

  function EncodedEntry(key: Bytes, value: Bytes, shared: nat): Bytes
    requires shared <= |key|
  {
    Varint(shared) + Varint(|key| - shared) + Varint(|value|) + key[shared..] + value
  }

  /** A key shares with the one before it at least the bytes left out. */
  ghost predicate SharesWell(pairs: seq<Pair>, shared: seq<nat>) {
    && |shared| == |pairs|
    && (forall i :: 0 <= i < |pairs| ==> shared[i] <= |pairs[i].key|)
    && (forall i :: 0 < i < |pairs| ==>
          shared[i] <= |pairs[i - 1].key| && pairs[i - 1].key[..shared[i]] == pairs[i].key[..shared[i]])
  }

  /** Restart points come in order, from the first pair on, and nothing is left out there. */
  ghost predicate MarksWell(shared: seq<nat>, marks: seq<nat>) {
    && |marks| > 0 && marks[0] == 0
    && (forall j :: 0 < j < |marks| ==> marks[j] < |shared|)
    && (forall i, j :: 0 <= i < j < |marks| ==> marks[i] < marks[j])
    && (forall j :: 0 <= j < |marks| && marks[j] < |shared| ==> shared[marks[j]] == 0)
  }

  ghost predicate Sound(l: Layout) {
    SharesWell(l.pairs, l.shared) && MarksWell(l.shared, l.marks)
  }

  lemma Sizes(l: Layout)
    requires Sound(l)
    ensures |l.shared| == |l.pairs| && |l.marks| > 0
    ensures forall i :: 0 <= i < |l.pairs| ==> l.shared[i] <= |l.pairs[i].key|
  {
  }

  /** The first n entries. */
  function Data(l: Layout, n: nat): Bytes
    requires Sound(l) && n <= |l.pairs|
  {
    if n == 0 then [] else Data(l, n - 1) + EncodedEntry(l.pairs[n - 1].key, l.pairs[n - 1].value, l.shared[n - 1])
  }

  function Offset(l: Layout, n: nat): nat
    requires Sound(l) && n <= |l.pairs|
  {
    |Data(l, n)|
  }

  function Numbers(ns: seq<nat>): Bytes {
    if ns == [] then [] else Numbers(ns[..|ns| - 1]) + Fixed(ns[|ns| - 1], 4)
  }

  function RestartOffsets(l: Layout): seq<nat>
    requires Sound(l)
  {
    seq(|l.marks|, j requires 0 <= j < |l.marks| => Offset(l, l.marks[j]))
  }

  /** The whole block: the entries, the offsets of the restart points, and how many these are. */
  function BlockBytes(l: Layout): Bytes
    requires Sound(l)
  {
    Data(l, |l.pairs|) + Numbers(RestartOffsets(l)) + Fixed(|l.marks|, 4)
  }

  // Appending numbers to what is there already.

  lemma NoNumbers(data: Bytes, ns: seq<nat>)
    ensures data + Numbers(ns[..0]) == data
  {
  }

  lemma OneMoreNumber(data: Bytes, ns: seq<nat>, i: nat)
    requires i < |ns|
    ensures data + Numbers(ns[..i]) + Fixed(ns[i], 4) == data + Numbers(ns[..i + 1])
  {
    assert ns[..i + 1][..i] == ns[..i];
  }

  lemma {:induction false} NumbersSize(ns: seq<nat>)
    ensures |Numbers(ns)| == 4 * |ns|
  {
    if ns != [] {
      NumbersSize(ns[..|ns| - 1]);
    }
  }

  lemma {:induction false} NumberAt(ns: seq<nat>, j: nat)
    requires j < |ns|
    ensures |Numbers(ns)| == 4 * |ns| && Numbers(ns)[4 * j..4 * j + 4] == Fixed(ns[j], 4)
  {
    var n := |ns| - 1;
    NumbersSize(ns);
    NumbersSize(ns[..n]);
    if j < n {
      NumberAt(ns[..n], j);
      assert Numbers(ns)[4 * j..4 * j + 4] == Numbers(ns[..n])[4 * j..4 * j + 4];
    }
  }

  lemma EntrySize(key: Bytes, value: Bytes, shared: nat)
    requires shared <= |key|
    ensures |EncodedEntry(key, value, shared)| >= 3 + |key| - shared + |value|
  {
    VarintNotEmpty(shared);
    VarintNotEmpty(|key| - shared);
    VarintNotEmpty(|value|);
  }

  lemma VarintNotEmpty(v: nat)
    ensures |Varint(v)| >= 1
  {
  }

  lemma {:induction false} OffsetsIncrease(l: Layout, i: nat, j: nat)
    requires Sound(l) && i <= j <= |l.pairs|
    ensures Offset(l, i) <= Offset(l, j) && (i < j ==> Offset(l, i) + 3 <= Offset(l, j))
    ensures Data(l, j)[..Offset(l, i)] == Data(l, i)
    decreases j - i
  {
    hide EncodedEntry, Sound;
    if i < j {
      OffsetsIncrease(l, i, j - 1);
      OffsetStep(l, j - 1);
    }
  }

  lemma OffsetStep(l: Layout, i: nat)
    requires Sound(l) && i < |l.pairs|
    ensures l.shared[i] <= |l.pairs[i].key|
    ensures var e := EncodedEntry(l.pairs[i].key, l.pairs[i].value, l.shared[i]);
            Data(l, i + 1) == Data(l, i) + e && |e| >= 3 + |l.pairs[i].key| - l.shared[i] + |l.pairs[i].value|
  {
    hide EncodedEntry;
    EntrySize(l.pairs[i].key, l.pairs[i].value, l.shared[i]);
  }

  /** Offsets of restart points tell which of two positions comes first. */
  lemma OffsetOrder(l: Layout, i: nat, j: nat)
    requires Sound(l) && i <= |l.pairs| && j <= |l.pairs|
    ensures Offset(l, i) < Offset(l, j) <==> i < j
  {
    hide Data, Sound;
    if i <= j {
      OffsetsIncrease(l, i, j);
    } else {
      OffsetsIncrease(l, j, i);
    }
  }

  /** An entry lies in the block where its offset says. */
  lemma EntryAt(l: Layout, i: nat)
    requires Sound(l) && i < |l.pairs| && l.shared[i] <= |l.pairs[i].key|
    ensures Offset(l, i) + 3 <= Offset(l, i + 1) <= Offset(l, |l.pairs|) <= |BlockBytes(l)|
    ensures BlockBytes(l)[Offset(l, i)..Offset(l, i + 1)] == EncodedEntry(l.pairs[i].key, l.pairs[i].value, l.shared[i])
  {
    hide EncodedEntry, Sound, Numbers, Fixed, RestartOffsets;
    var n := |l.pairs|;
    OffsetStep(l, i);
    OffsetsIncrease(l, i + 1, n);
    var block := BlockBytes(l);
    assert block[..Offset(l, n)] == Data(l, n);
    assert block[..Offset(l, i + 1)] == Data(l, n)[..Offset(l, i + 1)] == Data(l, i + 1);
    assert block[Offset(l, i)..Offset(l, i + 1)] == block[..Offset(l, i + 1)][Offset(l, i)..];
  }

  lemma RestartAt(l: Layout, j: nat)
    requires Sound(l) && j < |l.marks| && l.marks[j] <= |l.pairs|
    ensures var block, r := BlockBytes(l), Offset(l, |l.pairs|);
            && |block| == r + 4 * |l.marks| + 4
            && block[r + 4 * j..r + 4 * j + 4] == Fixed(Offset(l, l.marks[j]), 4)
            && block[|block| - 4..] == Fixed(|l.marks|, 4)
  {
    hide Data, Fixed, Numbers;
    var ns := RestartOffsets(l);
    NumberAt(ns, j);
    var d, numbers, count := Data(l, |l.pairs|), Numbers(ns), Fixed(|l.marks|, 4);
    var block := BlockBytes(l);
    assert block == d + numbers + count;
    assert block[|d| + 4 * j..|d| + 4 * j + 4] == numbers[4 * j..4 * j + 4];
  }
}
