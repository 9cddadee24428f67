/** The iterator over a block (table/block.cc): whatever the block was laid out from, it moves as a cursor on the
    list of pairs does. */
module BlockIters {
  import opened Keys
  import opened Coding
  import opened BlockFormat
  import opened BlockReader

  ghost predicate StrictOrder(less: (Bytes, Bytes) -> bool) {
    && (forall a :: !less(a, a))
    && (forall a, b, c {:trigger less(a, b), less(b, c)} :: less(a, b) && less(b, c) ==> less(a, c))
    && (forall a, b, c {:trigger less(a, b), less(a, c)} :: less(a, b) ==> less(a, c) || less(c, b))
  }

  ghost predicate SortedPairs(less: (Bytes, Bytes) -> bool, pairs: seq<Pair>) {
    forall i, j :: 0 <= i < j < |pairs| ==> less(pairs[i].key, pairs[j].key)
  }

  /** The first pair at or after a key. */
  ghost predicate LowerBoundOf(less: (Bytes, Bytes) -> bool, pairs: seq<Pair>, target: Bytes, at: nat) {
    && at <= |pairs|
    && (forall i :: 0 <= i < at ==> less(pairs[i].key, target))
    && (at < |pairs| ==> !less(pairs[at].key, target))
  }

  // The pairs before position n are before the target.
  ghost predicate AllLess(less: (Bytes, Bytes) -> bool, pairs: seq<Pair>, n: nat, target: Bytes) {
    forall i :: 0 <= i < n && i < |pairs| ==> less(pairs[i].key, target)
  }

  /** Restart index r is that of the last restart point before position i, or at it. */
  /** No restart point after this one has a key before the target. */
  ghost predicate NoneLess(less: (Bytes, Bytes) -> bool, l: Layout, r: nat, target: Bytes) {
    forall j :: r < j < |l.marks| ==> l.marks[j] < |l.pairs| && !less(l.pairs[l.marks[j]].key, target)
  }

  ghost predicate Near(l: Layout, r: nat, i: nat)
    requires Sound(l)
  {
    r < |l.marks| && l.marks[r] <= i && (r + 1 < |l.marks| ==> i <= l.marks[r + 1])
  }

  ghost predicate KeysFit(l: Layout) {
    forall i :: 0 <= i < |l.pairs| ==> |l.pairs[i].key| < TWO32
  }

  /** The offset of a restart point, read from the block. */
  lemma RestartRead(l: Layout, j: nat)
    requires Sound(l) && j < |l.marks| && |BlockBytes(l)| < TWO32
    ensures l.marks[j] <= |l.pairs| && Offset(l, l.marks[j]) <= Offset(l, |l.pairs|)
    ensures var block, r := BlockBytes(l), Offset(l, |l.pairs|);
            && |block| == r + 4 * |l.marks| + 4
            && DecodeFixed32(block[r + 4 * j..r + 4 * j + 4]) == Offset(l, l.marks[j])
            && DecodeFixed32(block[|block| - 4..]) == |l.marks|
  {
    hide Data, Fixed, Numbers, FixedValue;
    RestartAt(l, j);
    OffsetsIncrease(l, l.marks[j], |l.pairs|);
    FixedReads(Offset(l, l.marks[j]));
    FixedReads(|l.marks|);
  }

  lemma FixedReads(v: Uint32)
    ensures DecodeFixed32(Fixed(v, 4)) == v
  {
    assert DecodeFixed32(EncodeFixed32(v)) == v;
  }

  class BlockIter {
    const less: (Bytes, Bytes) -> bool
    const data: Bytes
    // Where the restart array begins, and how many restart points there are.
    const restarts: nat
    const numRestarts: nat
    // The offset of the current entry; at or past `restarts` there is none.
    var current: nat
    var restartIndex: nat
    var key: Bytes
    // Where the value lies in the block.
    var valueStart: nat
    var valueLength: nat
    var status: bool
    // What the block was laid out from, unless it is corrupted.
    ghost const layout: Option<Layout>
    ghost var pos: nat

    /** What holds of any block at all. */
    ghost predicate Frame() {
      && |data| < TWO32 && numRestarts > 0 && restarts + 4 * numRestarts + 4 <= |data|
      && Laid()
    }

    ghost predicate Bounds()
      reads this
    {
      && Frame() && current <= restarts
      && (current < restarts ==> restartIndex < numRestarts && valueStart + valueLength <= restarts)
    }

    ghost predicate Laid() {
      layout.Some? ==>
        var l := layout.value;
        && Sound(l) && KeysFit(l) && data == BlockBytes(l) && |data| < TWO32
        && restarts == Offset(l, |l.pairs|) && numRestarts == |l.marks|
    }

    /** The iterator is at pair i, or past the last one. */
    ghost predicate At(l: Layout, i: nat)
      requires Sound(l)
      reads this
    {
      && i <= |l.pairs|
      && if i == |l.pairs| then current == restarts else
         && current == Offset(l, i) && key == l.pairs[i].key
         && valueStart + valueLength == Offset(l, i + 1) <= |data|
         && data[valueStart..valueStart + valueLength] == l.pairs[i].value
         && Near(l, restartIndex, i)
    }

    ghost predicate Valid()
      reads this
    {
      Bounds() && (layout.Some? ==> At(layout.value, pos))
    }

    /** The next entry to parse is that of pair i. */
    ghost predicate Ready(l: Layout, i: nat)
      requires Sound(l)
      reads this
    {
      && i <= |l.pairs| && valueStart + valueLength == Offset(l, i)
      && restartIndex < |l.marks| && l.marks[restartIndex] <= i
      && (i < |l.pairs| ==> l.shared[i] == 0 || (0 < i && key == l.pairs[i - 1].key))
    }

    predicate HasEntry()
      reads this
    {
      current < restarts
    }

    function Value(): Bytes
      requires Bounds() && HasEntry()
      reads this
    {
      data[valueStart..valueStart + valueLength]
    }

    constructor (less: (Bytes, Bytes) -> bool, data: Bytes, restarts: nat, numRestarts: nat, ghost layout: Option<Layout>)
      requires |data| < TWO32 && numRestarts > 0 && restarts + 4 * numRestarts + 4 <= |data|
      requires layout.Some? ==> var l := layout.value;
        && Sound(l) && KeysFit(l) && data == BlockBytes(l) && restarts == Offset(l, |l.pairs|) && numRestarts == |l.marks|
      ensures Valid() && this.less == less && this.layout == layout && this.data == data
      ensures layout.Some? ==> pos == |layout.value.pairs|
      ensures !HasEntry()
    {
      this.less, this.data, this.restarts, this.numRestarts, this.layout := less, data, restarts, numRestarts, layout;
      current, restartIndex, key, valueStart, valueLength, status := restarts, numRestarts, [], 0, 0, true;
      pos := if layout.Some? then |layout.value.pairs| else 0;
    }

    function GetRestartPoint(index: nat): (r: nat)
      requires Frame() && index < numRestarts
      ensures layout.Some? ==> layout.value.marks[index] <= |layout.value.pairs| && r == Offset(layout.value, layout.value.marks[index])
    {
      RestartPointIs(index);
      DecodeFixed32(data[restarts + 4 * index..restarts + 4 * index + 4])
    }

    lemma RestartPointIs(index: nat)
      requires Frame() && index < numRestarts
      ensures layout.Some? ==>
                && layout.value.marks[index] <= |layout.value.pairs|
                && DecodeFixed32(data[restarts + 4 * index..restarts + 4 * index + 4])
                   == Offset(layout.value, layout.value.marks[index])
    {
      hide Sound, Data, Fixed, Numbers, FixedValue;
      if layout.Some? {
        RestartRead(layout.value, index);
      }
    }

    method SeekToRestartPoint(index: nat)
      requires Frame() && index < numRestarts
      modifies this`key, this`restartIndex, this`valueStart, this`valueLength
      ensures restartIndex == index
      ensures layout.Some? ==> Ready(layout.value, layout.value.marks[index])
    {
      hide Data, DecodeFixed32;
      key := [];
      restartIndex := index;
      valueStart := GetRestartPoint(index);
      valueLength := 0;
      RestartPointIs(index);
    }

    method CorruptionError()
      requires Frame()
      modifies this`current, this`restartIndex, this`status, this`key, this`valueStart, this`valueLength
      ensures Bounds() && !HasEntry()
    {
      current, restartIndex, status, key, valueStart, valueLength := restarts, numRestarts, false, [], 0, 0;
    }

    /** Parses the entry after the current value. */
    method ParseNextKey(ghost i: nat) returns (more: bool)
      requires Frame() && restartIndex < numRestarts
      requires layout.Some? ==> Ready(layout.value, i)
      modifies this`current, this`restartIndex, this`status, this`key, this`valueStart, this`valueLength, this`pos
      ensures Valid() && more == HasEntry()
      ensures more ==> current == old(valueStart + valueLength) && current + 3 <= valueStart + valueLength
      ensures layout.Some? ==> pos == i && (more <==> i < |layout.value.pairs|)
    {
      hide Data, DecodeFixed32, HeadAt, Sound, Near, Numbers, RestartOffsets, BlockBytes;
      pos := i;
      ghost var known := layout.Some? && i < |layout.value.pairs|;
      current := valueStart + valueLength;
      if known {
        NextEntry(layout.value, i, key);
      }
      if current >= restarts {
        current, restartIndex := restarts, numRestarts;
        return false;
      }
      assert layout.Some? ==> known;
      var head := DecodeEntry(data, current, restarts);
      HeadFits(data, current, restarts);
      if head.None? || |key| < head.value.shared {
        CorruptionError();
        return false;
      }
      var h := head.value;
      key := key[..h.shared];
      key := key + data[h.keyStart..h.keyStart + h.nonShared];
      valueStart := h.keyStart + h.nonShared;
      valueLength := h.valueLength;
      AdvanceRestartIndex(i);
      return true;
    }

    // Go to the last restart point before the current entry.
    method AdvanceRestartIndex(ghost i: nat)
      requires Frame() && restartIndex < numRestarts && current < restarts
      requires layout.Some? ==> i < |layout.value.pairs| && current == Offset(layout.value, i)
                                && layout.value.marks[restartIndex] <= i
      modifies this`restartIndex
      ensures restartIndex < numRestarts
      ensures layout.Some? ==> Near(layout.value, restartIndex, i)
    {
      hide Data, DecodeFixed32, Sound;
      while restartIndex + 1 < numRestarts && GetRestartPoint(restartIndex + 1) < current
        invariant restartIndex < numRestarts
        invariant layout.Some? ==> layout.value.marks[restartIndex] <= i
        decreases numRestarts - restartIndex
      {
        RestartBefore(restartIndex + 1, i);
        restartIndex := restartIndex + 1;
      }
      if restartIndex + 1 < numRestarts {
        RestartBefore(restartIndex + 1, i);
      }
    }

    lemma RestartBefore(index: nat, i: nat)
      requires Frame() && index < numRestarts
      ensures layout.Some? && i <= |layout.value.pairs| ==>
                layout.value.marks[index] <= |layout.value.pairs|
                && (GetRestartPoint(index) < Offset(layout.value, i) <==> layout.value.marks[index] < i)
    {
      hide Data, DecodeFixed32, Sound;
      RestartPointIs(index);
      if layout.Some? && i <= |layout.value.pairs| {
        OffsetOrder(layout.value, layout.value.marks[index], i);
      }
    }

    method Next()
      requires Valid() && HasEntry()
      modifies this`current, this`restartIndex, this`status, this`key, this`valueStart, this`valueLength, this`pos
      ensures Valid()
      ensures layout.Some? ==> pos == old(pos) + 1
    {
      hide Data, DecodeFixed32;
      var more := ParseNextKey(pos + 1);
    }

    method SeekToFirst()
      requires Valid()
      modifies this`current, this`restartIndex, this`status, this`key, this`valueStart, this`valueLength, this`pos
      ensures Valid()
      ensures layout.Some? ==> pos == 0
    {
      hide Data, DecodeFixed32;
      SeekToRestartPoint(0);
      var more := ParseNextKey(0);
    }

    method SeekToLast()
      requires Valid()
      modifies this`current, this`restartIndex, this`status, this`key, this`valueStart, this`valueLength, this`pos
      ensures Valid()
      ensures layout.Some? ==> pos == if layout.value.pairs == [] then 0 else |layout.value.pairs| - 1
    {
      hide Data, DecodeFixed32;
      SeekToRestartPoint(numRestarts - 1);
      ghost var i := if layout.Some? then layout.value.marks[numRestarts - 1] else 0;
      ParseUpTo(i, if layout.Some? then |layout.value.pairs| else 0, restarts);
    }

    // Parse entries until one ends at `stop` or after it, the offset of pair n.
    method ParseUpTo(ghost i: nat, ghost n: nat, stop: nat)
      requires Frame() && restartIndex < numRestarts
      requires layout.Some? ==> Ready(layout.value, i) && i <= n <= |layout.value.pairs| && stop == Offset(layout.value, n)
      requires layout.Some? && i == n ==> n == |layout.value.pairs|
      modifies this`current, this`restartIndex, this`status, this`key, this`valueStart, this`valueLength, this`pos
      ensures Valid()
      ensures layout.Some? ==> pos == if i == n then i else n - 1
    {
      hide Data, DecodeFixed32, Sound;
      var more := ParseNextKey(i);
      while more && valueStart + valueLength < stop
        invariant Valid() && more == HasEntry() && (more ==> current < valueStart + valueLength)
        invariant layout.Some? ==> pos <= n && (more ==> pos < n) && (!more ==> i == n == pos)
        decreases if more then restarts - current else 0
      {
        if layout.Some? {
          OffsetOrder(layout.value, pos + 1, n);
        }
        more := ParseNextKey(pos + 1);
      }
      if layout.Some? && more {
        OffsetOrder(layout.value, pos + 1, n);
      }
    }

    /** Back to the restart point before the current entry, and from there up to the entry that ends where this
        one begins. */
    method Prev()
      requires Valid() && HasEntry()
      modifies this`current, this`restartIndex, this`status, this`key, this`valueStart, this`valueLength, this`pos
      ensures Valid()
      ensures layout.Some? ==> pos == if old(pos) == 0 then |layout.value.pairs| else old(pos) - 1
    {
      hide Data, DecodeFixed32, Sound;
      var original := current;
      ghost var at := pos;
      RestartBefore(restartIndex, at);
      while GetRestartPoint(restartIndex) >= original
        invariant restartIndex < numRestarts && pos == at && current == original
        invariant layout.Some? ==> (GetRestartPoint(restartIndex) < original <==> layout.value.marks[restartIndex] < at)
        decreases restartIndex
      {
        if restartIndex == 0 {
          FirstRestart();
          current := restarts;
          restartIndex := numRestarts;
          pos := if layout.Some? then |layout.value.pairs| else 0;
          return;
        }
        restartIndex := restartIndex - 1;
        RestartBefore(restartIndex, at);
      }
      SeekToRestartPoint(restartIndex);
      ParseUpTo(if layout.Some? then layout.value.marks[restartIndex] else 0, at, original);
    }

    lemma FirstRestart()
      requires Frame()
      ensures layout.Some? ==> layout.value.marks[0] == 0
    {
    }

    /** To the first entry at or after the target: a binary search of the restart points, then entry by entry. */
    method Seek(target: Bytes)
      requires Valid()
      modifies this`current, this`restartIndex, this`status, this`key, this`valueStart, this`valueLength, this`pos
      ensures Valid()
      ensures layout.Some? && StrictOrder(less) && SortedPairs(less, layout.value.pairs) ==>
                LowerBoundOf(less, layout.value.pairs, target, pos)
    {
      hide Data, DecodeFixed32, Sound, HeadAt, StrictOrder, SortedPairs;
      ghost var sorted := layout.Some? && StrictOrder(less) && SortedPairs(less, layout.value.pairs);
      var left := FindRestart(target);
      if left.None? {
        CorruptionError();
        return;
      }
      SeekToRestartPoint(left.value);
      var more := ParseNextKey(if layout.Some? then layout.value.marks[left.value] else 0);
      while more && less(key, target)
        invariant Valid() && more == HasEntry() && (more ==> current < valueStart + valueLength)
        invariant layout.Some? ==> pos <= |layout.value.pairs| && (more <==> pos < |layout.value.pairs|)
        invariant sorted ==> AllLess(less, layout.value.pairs, pos, target)
        decreases if more then restarts - current else 0
      {
        more := ParseNextKey(pos + 1);
      }
    }

    /** The last restart point with a key before the target, or the first one; none if a restart point is corrupted. */
    method FindRestart(target: Bytes) returns (r: Option<nat>)
      requires Frame()
      ensures layout.Some? ==> r.Some?
      ensures r.Some? ==> r.value < numRestarts
      ensures layout.Some? && StrictOrder(less) && SortedPairs(less, layout.value.pairs) ==>
                AllLess(less, layout.value.pairs, layout.value.marks[r.value], target) && NoneLess(less, layout.value, r.value, target)
    {
      hide Data, DecodeFixed32, Sound, HeadAt, StrictOrder, SortedPairs;
      ghost var sorted := layout.Some? && StrictOrder(less) && SortedPairs(less, layout.value.pairs);
      var left: nat, right: nat := 0, numRestarts - 1;
      FirstRestart();
      while left < right
        invariant left <= right < numRestarts
        invariant sorted ==> AllLess(less, layout.value.pairs, layout.value.marks[left], target) && NoneLess(less, layout.value, right, target)
      {
        var mid := (left + right + 1) / 2;
        var regionOffset := GetRestartPoint(mid);
        var head := None;
        MidKey(mid);
        if regionOffset <= restarts {
          head := DecodeEntry(data, regionOffset, restarts);
          HeadFits(data, regionOffset, restarts);
        }
        if head.None? || head.value.shared != 0 {
          return None;
        }
        var h := head.value;
        var midKey := data[h.keyStart..h.keyStart + h.nonShared];
        if less(midKey, target) {
          if sorted {
            AllBefore(layout.value.pairs, layout.value.marks[mid], target);
          }
          left := mid;
        } else {
          if sorted {
            NoneAfter(layout.value, mid, target);
          }
          right := mid - 1;
        }
      }
      return Some(left);
    }

    lemma NoneAfter(l: Layout, mid: nat, target: Bytes)
      requires Sound(l) && StrictOrder(less) && SortedPairs(less, l.pairs) && 0 < mid < |l.marks|
      requires l.marks[mid] < |l.pairs| && !less(l.pairs[l.marks[mid]].key, target)
      ensures NoneLess(less, l, mid - 1, target)
    {
      forall j | mid - 1 < j < |l.marks| ensures l.marks[j] < |l.pairs| && !less(l.pairs[l.marks[j]].key, target) {
        if mid < j {
          var a, b := l.pairs[l.marks[mid]].key, l.pairs[l.marks[j]].key;
          assert l.marks[mid] < l.marks[j] && less(a, b);
          assert less(a, target) || less(target, b);
          assert less(b, target) ==> less(target, target) by {
            assert less(target, b) && less(b, target) ==> less(target, target);
          }
        }
      }
    }

    // The key at a restart point stands there in full.
    lemma MidKey(mid: nat)
      requires Frame() && 0 < mid < numRestarts
      ensures layout.Some? ==>
                var l := layout.value;
                && l.marks[mid] < |l.pairs| && GetRestartPoint(mid) == Offset(l, l.marks[mid]) <= restarts
                && var head := HeadAt(data, Offset(l, l.marks[mid]), restarts);
                   && head.Some? && head.value.shared == 0
                   && head.value.keyStart + head.value.nonShared <= |data|
                   && data[head.value.keyStart..head.value.keyStart + head.value.nonShared] == l.pairs[l.marks[mid]].key
    {
      hide Data, DecodeFixed32, HeadAt;
      if layout.Some? {
        var l := layout.value;
        RestartPointIs(mid);
        assert l.shared[l.marks[mid]] == 0;
        hide Sound;
        NextEntry(l, l.marks[mid], []);
      }
    }

    lemma AllBefore(pairs: seq<Pair>, at: nat, target: Bytes)
      requires StrictOrder(less) && SortedPairs(less, pairs) && at < |pairs| && less(pairs[at].key, target)
      ensures AllLess(less, pairs, at, target)
    {
    }
  }

  /** In step with a cursor: the iterator has an entry exactly when its position is one, and then it is that pair. */
  lemma InStep(it: BlockIter)
    requires it.Valid() && it.layout.Some?
    ensures var pairs := it.layout.value.pairs;
            && it.pos <= |pairs| && (it.HasEntry() <==> it.pos < |pairs|)
            && (it.HasEntry() ==> it.key == pairs[it.pos].key && it.Value() == pairs[it.pos].value)
  {
    var l := it.layout.value;
    hide Data, Sound;
    OffsetOrder(l, it.pos, |l.pairs|);
  }

  lemma {:induction false} KeyBound(l: Layout, i: nat)
    requires Sound(l) && i < |l.pairs|
    ensures |l.pairs[i].key| <= Offset(l, i + 1)
  {
    hide Data;
    OffsetStep(l, i);
    if i > 0 {
      KeyBound(l, i - 1);
    }
  }

  /** A block that fits 32 bits has keys that do. */
  lemma KeysInBlock(l: Layout)
    requires Sound(l) && |BlockBytes(l)| < TWO32
    ensures KeysFit(l)
  {
    hide Data, Numbers, Fixed;
    forall i | 0 <= i < |l.pairs| ensures |l.pairs[i].key| < TWO32 {
      KeyBound(l, i);
      OffsetsIncrease(l, i + 1, |l.pairs|);
    }
  }

  datatype Opened = BadBlock | NoRestarts | Iterating(it: BlockIter)

  /** A block's contents are checked for room for its restart points before they are iterated over. */
  method NewIterator(less: (Bytes, Bytes) -> bool, contents: Bytes, ghost layout: Option<Layout>) returns (r: Opened)
    requires |contents| < TWO32
    requires layout.Some? ==> Sound(layout.value) && contents == BlockBytes(layout.value)
    ensures layout.Some? ==> r.Iterating?
    ensures r.Iterating? ==> fresh(r.it) && r.it.Valid() && r.it.layout == layout && r.it.less == less && !r.it.HasEntry()
  {
    hide Data, Numbers, Fixed, DecodeFixed32, Sound;
    if layout.Some? {
      BlockShape(layout.value);
      KeysInBlock(layout.value);
    }
    if |contents| < 4 {
      return BadBlock;
    }
    var maxRestarts := (|contents| - 4) / 4;
    var numRestarts := DecodeFixed32(contents[|contents| - 4..]);
    if numRestarts > maxRestarts {
      return BadBlock;
    }
    if numRestarts == 0 {
      return NoRestarts;
    }
    var restarts := |contents| - (1 + numRestarts) * 4;
    var it := new BlockIter(less, contents, restarts, numRestarts, layout);
    return Iterating(it);
  }

  lemma BlockShape(l: Layout)
    requires Sound(l) && |BlockBytes(l)| < TWO32
    ensures var block := BlockBytes(l);
            && |l.marks| > 0 && |block| == Offset(l, |l.pairs|) + 4 * |l.marks| + 4
            && DecodeFixed32(block[|block| - 4..]) == |l.marks|
  {
    Sizes(l);
    hide Data, Numbers, Fixed, DecodeFixed32, Sound;
    RestartRead(l, 0);
  }
}
