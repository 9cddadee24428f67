/** The block builder (table/block_builder.cc). */
module BlockBuilders {
  import opened Keys
  import opened Coding
  import opened BlockFormat

  /** How many leading bytes two strings share. */
  function CommonPrefix(a: Bytes, b: Bytes): (n: nat)
    ensures n <= |a| && n <= |b| && a[..n] == b[..n]
    ensures n < |a| && n < |b| ==> a[n] != b[n]
  {
    if a == [] || b == [] || a[0] != b[0] then 0 else
    var n := 1 + CommonPrefix(a[1..], b[1..]);
    assert a[..n] == [a[0]] + a[1..][..n - 1] && b[..n] == [b[0]] + b[1..][..n - 1];
    n
  }

  lemma {:induction false} CommonPrefixIs(a: Bytes, b: Bytes, n: nat)
    requires n <= |a| && n <= |b| && a[..n] == b[..n] && (n == |a| || n == |b| || a[n] != b[n])
    ensures n == CommonPrefix(a, b)
  {
    var m := CommonPrefix(a, b);
    assert forall i :: 0 <= i < m ==> a[..m][i] == b[..m][i];
    assert forall i :: 0 <= i < n ==> a[..n][i] == b[..n][i];
  }

  /** The layout the builder is to make of some pairs: a restart point every `interval` of them, and between
      those every key without all it shares with the one before. */
  ghost predicate Regular(l: Layout, interval: nat) {
    && Sound(l)
    && (forall j :: 0 < j < |l.marks| ==> l.marks[j] == l.marks[j - 1] + interval)
    && l.marks[|l.marks| - 1] <= |l.pairs| <= l.marks[|l.marks| - 1] + interval
    && (forall i :: 0 < i < |l.pairs| && i !in l.marks ==>
          l.shared[i] == CommonPrefix(l.pairs[i - 1].key, l.pairs[i].key))
  }

  function Extended(l: Layout, key: Bytes, value: Bytes, shared: nat, restart: bool): Layout {
    Layout(l.pairs + [Pair(key, value)], l.shared + [shared], if restart then l.marks + [|l.pairs|] else l.marks)
  }

  lemma ExtendedParts(l: Layout, key: Bytes, value: Bytes, shared: nat, restart: bool)
    ensures var l' := Extended(l, key, value, shared, restart);
            && l'.pairs == l.pairs + [Pair(key, value)]
            && l'.marks == l.marks + if restart then [|l.pairs|] else []
  {
  }

  lemma ExtendedSound(l: Layout, key: Bytes, value: Bytes, shared: nat, restart: bool)
    requires Sound(l) && shared <= |key| && (|l.pairs| == 0 || restart ==> shared == 0)
    requires |l.pairs| > 0 ==> var last := l.pairs[|l.pairs| - 1].key; shared <= |last| && last[..shared] == key[..shared]
    requires restart ==> l.marks[|l.marks| - 1] < |l.pairs|
    ensures Sound(Extended(l, key, value, shared, restart))
  {
    if restart {
      MarkAdded(l.shared, l.marks);
    }
    SharedAdded(if restart then l.marks + [|l.pairs|] else l.marks, l.shared, shared);
  }

  lemma MarkAdded(shared: seq<nat>, marks: seq<nat>)
    requires MarksWell(shared, marks) && marks[|marks| - 1] < |shared|
    ensures MarksWell(shared + [0], marks + [|shared|])
  {
    var n := |marks| - 1;
    assert forall i :: 0 <= i < n ==> marks[i] < marks[n];
  }

  lemma SharedAdded(marks: seq<nat>, shared: seq<nat>, s: nat)
    requires MarksWell(shared, marks) || (MarksWell(shared + [0], marks) && s == 0)
    requires |shared| == 0 ==> s == 0
    ensures MarksWell(shared + [s], marks)
  {
  }

  lemma {:induction false} ExtendedData(l: Layout, key: Bytes, value: Bytes, shared: nat, restart: bool, n: nat)
    requires Sound(l) && Sound(Extended(l, key, value, shared, restart)) && n <= |l.pairs|
    ensures Data(Extended(l, key, value, shared, restart), n) == Data(l, n)
  {
    hide EncodedEntry, Sound;
    Sizes(l);
    if n > 0 {
      ExtendedData(l, key, value, shared, restart, n - 1);
      OffsetStep(l, n - 1);
      OffsetStep(Extended(l, key, value, shared, restart), n - 1);
    }
  }

  lemma ExtendedBytes(l: Layout, key: Bytes, value: Bytes, shared: nat, restart: bool)
    requires Sound(l) && shared <= |key| && Sound(Extended(l, key, value, shared, restart))
    ensures var l' := Extended(l, key, value, shared, restart);
            && Data(l', |l'.pairs|) == Data(l, |l.pairs|) + EncodedEntry(key, value, shared)
            && (forall j :: 0 <= j < |l.marks| && l.marks[j] <= |l.pairs| ==> Offset(l', l.marks[j]) == Offset(l, l.marks[j]))
            && Offset(l', |l.pairs|) == Offset(l, |l.pairs|)
  {
    var l' := Extended(l, key, value, shared, restart);
    hide EncodedEntry, Sound;
    Sizes(l);
    ExtendedData(l, key, value, shared, restart, |l.pairs|);
    OffsetStep(l', |l.pairs|);
    forall j | 0 <= j < |l.marks| && l.marks[j] <= |l.pairs| ensures Offset(l', l.marks[j]) == Offset(l, l.marks[j]) {
      ExtendedData(l, key, value, shared, restart, l.marks[j]);
    }
  }

  lemma ExtendedRegular(l: Layout, interval: nat, key: Bytes, value: Bytes, shared: nat, restart: bool)
    requires Regular(l, interval) && interval >= 1 && Sound(Extended(l, key, value, shared, restart))
    requires restart == (|l.pairs| == l.marks[|l.marks| - 1] + interval)
    requires |l.pairs| > 0 && !restart ==> shared == CommonPrefix(l.pairs[|l.pairs| - 1].key, key)
    ensures Regular(Extended(l, key, value, shared, restart), interval)
  {
    hide Sound, CommonPrefix;
    Sizes(l);
    var l' := Extended(l, key, value, shared, restart);
    forall i | 0 < i < |l'.pairs| && i !in l'.marks
      ensures l'.shared[i] == CommonPrefix(l'.pairs[i - 1].key, l'.pairs[i].key)
    {
      assert restart ==> |l.pairs| in l'.marks by {
        assert restart ==> l'.marks[|l'.marks| - 1] == |l.pairs|;
      }
      assert forall m :: m in l.marks ==> m in l'.marks;
    }
  }

  function Empty(): Layout {
    Layout([], [], [0])
  }

  lemma EmptyRegular(interval: nat)
    ensures Regular(Empty(), interval) && Data(Empty(), 0) == [] && RestartOffsets(Empty()) == [0]
  {
  }

  /** What a builder keeps beside the bytes: the restart points, the entries since the last one, and the last key. */
  ghost predicate Tracks(l: Layout, interval: nat, restarts: seq<nat>, counter: nat, lastKey: Bytes) {
    && interval >= 1 && Regular(l, interval)
    && restarts == RestartOffsets(l) && counter == |l.pairs| - l.marks[|l.marks| - 1]
    && lastKey == (if l.pairs == [] then [] else l.pairs[|l.pairs| - 1].key)
    && Offset(l, |l.pairs|) < TWO32
  }

  /** One more pair, with a restart point if it is due. */
  lemma TracksMore(l: Layout, interval: nat, restarts: seq<nat>, counter: nat, lastKey: Bytes, key: Bytes, value: Bytes, shared: nat)
    requires Tracks(l, interval, restarts, counter, lastKey)
    requires Offset(l, |l.pairs|) + |key| + |value| + 15 < TWO32
    requires shared == if counter >= interval then 0 else CommonPrefix(lastKey, key)
    ensures var l' := Extended(l, key, value, shared, counter >= interval);
            && Tracks(l', interval, if counter >= interval then restarts + [Offset(l, |l.pairs|)] else restarts,
                      1 + if counter >= interval then 0 else counter, key)
            && l'.pairs == l.pairs + [Pair(key, value)] && shared <= |key|
            && Data(l', |l'.pairs|) == Data(l, |l.pairs|) + EncodedEntry(key, value, shared)
            && |BlockBytes(l')| <= |BlockBytes(l)| + |key| + |value| + 19
  {
    hide Sound, Data, Regular, EncodedEntry, CommonPrefix, RestartOffsets, Extended, BlockBytes;
    RegularSizes(l, interval);
    ExtendsRegularly(l, interval, key, value, shared, counter >= interval, lastKey);
    EntryFits(key, value, shared);
    ExtendedParts(l, key, value, shared, counter >= interval);
    BlockSize(l);
    BlockSize(Extended(l, key, value, shared, counter >= interval));
  }

  class BlockBuilder {
    const interval: nat
    var buffer: Bytes
    var restarts: seq<nat>
    // Entries since the last restart point.
    var counter: nat
    var finished: bool
    var lastKey: Bytes
    ghost var layout: Layout

    ghost predicate Valid()
      reads this
    {
      && Tracks(layout, interval, restarts, counter, lastKey)
      && (!finished ==> buffer == Data(layout, |layout.pairs|))
    }

    constructor (interval: nat)
      requires interval >= 1
      ensures Valid() && !finished && layout == Empty() && this.interval == interval && buffer == []
      ensures CurrentSizeEstimate() == 8
    {
      this.interval := interval;
      buffer, restarts, counter, finished, lastKey := [], [0], 0, false, [];
      layout := Empty();
      EmptyRegular(interval);
    }

    /** The size the block would have if it were finished now. */
    function CurrentSizeEstimate(): (n: nat)
      requires Valid() && !finished
      reads this
      ensures n == |BlockBytes(layout)|
    {
      BlockSize(layout);
      |buffer| + |restarts| * 4 + 4
    }

    predicate IsEmpty()
      requires Valid() && !finished
      reads this
      ensures IsEmpty() <==> layout.pairs == []
    {
      OffsetSpread(layout, |layout.pairs|);
      buffer == []
    }

    method Reset()
      requires Valid()
      modifies this
      ensures Valid() && !finished && layout == Empty() && CurrentSizeEstimate() == 8
    {
      buffer, restarts, counter, finished, lastKey := [], [0], 0, false, [];
      layout := Empty();
      EmptyRegular(interval);
    }

    method Add(key: Bytes, value: Bytes)
      requires Valid() && !finished && |buffer| + |key| + |value| + 15 < TWO32
      modifies this
      ensures Valid() && !finished && layout.pairs == old(layout.pairs) + [Pair(key, value)]
      ensures CurrentSizeEstimate() <= old(CurrentSizeEstimate()) + |key| + |value| + 19
    {
      hide Sound, Data, Regular, EncodedEntry, CommonPrefix, RestartOffsets, Extended, BlockBytes, Tracks;
      var shared, restart := 0, counter >= interval;
      if !restart {
        shared := SharedWithLast(key);
      }
      TracksMore(layout, interval, restarts, counter, lastKey, key, value, shared);
      if restart {
        restarts := restarts + [|buffer|];
        counter := 0;
      }
      AppendEntry(key, value, shared);
      lastKey := key[..shared];
      lastKey := lastKey + key[shared..];
      assert lastKey == key;
      layout := Extended(layout, key, value, shared, restart);
      counter := counter + 1;
    }

    method SharedWithLast(key: Bytes) returns (shared: nat)
      ensures shared == CommonPrefix(lastKey, key)
    {
      shared := 0;
      var minLength := if |lastKey| < |key| then |lastKey| else |key|;
      while shared < minLength && lastKey[shared] == key[shared]
        invariant shared <= minLength && lastKey[..shared] == key[..shared]
      {
        assert lastKey[..shared + 1] == lastKey[..shared] + [lastKey[shared]] && key[..shared + 1] == key[..shared] + [key[shared]];
        shared := shared + 1;
      }
      CommonPrefixIs(lastKey, key, shared);
    }

    // The three lengths, the part of the key that is not shared, and the value.
    method AppendEntry(key: Bytes, value: Bytes, shared: nat)
      requires shared <= |key| < TWO32 && |value| < TWO32
      modifies this`buffer
      ensures buffer == old(buffer) + EncodedEntry(key, value, shared)
    {
      hide Varint;
      var a := EncodeVarint32(shared);
      var b := EncodeVarint32(|key| - shared);
      var c := EncodeVarint32(|value|);
      buffer := buffer + a;
      buffer := buffer + b;
      buffer := buffer + c;
      buffer := buffer + key[shared..];
      buffer := buffer + value;
    }

    /** The finished block holds the pairs added, laid out as the layout says. */
    method Finish() returns (block: Bytes)
      requires Valid() && !finished
      modifies this`buffer, this`finished
      ensures Valid() && finished
      ensures block == BlockBytes(layout)
    {
      hide Sound, Data, Regular, Numbers, Fixed, RestartOffsets;
      OffsetsFit(layout, interval);
      ghost var data := buffer;
      NoNumbers(data, restarts);
      for i := 0 to |restarts|
        invariant buffer == data + Numbers(restarts[..i])
      {
        OneMoreNumber(data, restarts, i);
        buffer := buffer + EncodeFixed32(restarts[i]);
      }
      assert restarts[..|restarts|] == restarts;
      buffer := buffer + EncodeFixed32(|restarts|);
      finished := true;
      block := buffer;
    }
  }

  lemma BlockSize(l: Layout)
    requires Sound(l)
    ensures |BlockBytes(l)| == |Data(l, |l.pairs|)| + 4 * |RestartOffsets(l)| + 4
  {
    hide Data, Fixed, Numbers, Sound;
    NumbersSize(RestartOffsets(l));
  }

  lemma RegularSizes(l: Layout, interval: nat)
    requires Regular(l, interval)
    ensures Sound(l) && |l.shared| == |l.pairs| && |l.marks| > 0
    ensures l.marks[|l.marks| - 1] <= |l.pairs| <= l.marks[|l.marks| - 1] + interval
  {
  }

  lemma {:induction false} MarksSpread(l: Layout, j: nat)
    requires Sound(l) && j < |l.marks|
    ensures j <= l.marks[j] && l.marks[j] <= |l.pairs|
  {
    if j > 0 {
      MarksSpread(l, j - 1);
      assert l.marks[j - 1] < l.marks[j];
    }
  }

  lemma {:induction false} OffsetSpread(l: Layout, n: nat)
    requires Sound(l) && n <= |l.pairs|
    ensures 3 * n <= Offset(l, n)
  {
    hide EncodedEntry, Sound;
    if n > 0 {
      OffsetSpread(l, n - 1);
      OffsetStep(l, n - 1);
    }
  }

  /** The restart offsets, and their number, fit 32 bits when the entries do. */
  lemma OffsetsFit(l: Layout, interval: nat)
    requires Regular(l, interval) && Offset(l, |l.pairs|) < TWO32
    ensures |RestartOffsets(l)| < TWO32 && forall j :: 0 <= j < |l.marks| ==> RestartOffsets(l)[j] < TWO32
    ensures |RestartOffsets(l)| == |l.marks|
  {
    hide Data;
    var n := |l.marks| - 1;
    MarksSpread(l, n);
    OffsetSpread(l, |l.pairs|);
    forall j | 0 <= j < |l.marks| ensures RestartOffsets(l)[j] < TWO32 {
      MarksSpread(l, j);
      OffsetsIncrease(l, l.marks[j], |l.pairs|);
    }
  }

  lemma EntryFits(key: Bytes, value: Bytes, shared: nat)
    requires shared <= |key| < TWO32 && |value| < TWO32
    ensures |EncodedEntry(key, value, shared)| <= 15 + |key| + |value|
  {
    hide Varint, Power;
    VarintPowers();
    VarintSize(shared, 5);
    VarintSize(|key| - shared, 5);
    VarintSize(|value|, 5);
  }

  /** One more pair, with a restart point if it is due, keeps the layout regular. */
  lemma ExtendsRegularly(l: Layout, interval: nat, key: Bytes, value: Bytes, shared: nat, restart: bool, last: Bytes)
    requires Regular(l, interval) && interval >= 1 && shared <= |key|
    requires last == (if l.pairs == [] then [] else l.pairs[|l.pairs| - 1].key)
    requires restart == (|l.pairs| - l.marks[|l.marks| - 1] >= interval)
    requires shared == if restart then 0 else CommonPrefix(last, key)
    ensures var l' := Extended(l, key, value, shared, restart);
            && Regular(l', interval) && Sound(l')
            && Data(l', |l'.pairs|) == Data(l, |l.pairs|) + EncodedEntry(key, value, shared)
            && RestartOffsets(l') == RestartOffsets(l) + if restart then [Offset(l, |l.pairs|)] else []
  {
    hide Data, EncodedEntry;
    RegularSizes(l, interval);
    ExtendedSound(l, key, value, shared, restart);
    ExtendedRegular(l, interval, key, value, shared, restart);
    ExtendedBytes(l, key, value, shared, restart);
    var l' := Extended(l, key, value, shared, restart);
    forall j | 0 <= j < |l.marks| ensures Offset(l', l.marks[j]) == Offset(l, l.marks[j]) && l.marks[j] <= |l.pairs| {
      MarksSpread(l, j);
    }
    assert RestartOffsets(l') == RestartOffsets(l) + if restart then [Offset(l, |l.pairs|)] else [];
  }
}
