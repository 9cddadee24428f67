/** The two-level iterator: an index over blocks, some of which may be empty, in step with a cursor on all their
    entries joined (table/two_level_iterator.cc). */
module TwoLevel {
  import opened Keys
  import opened Contents
  import opened Versions
  import opened Cursors
  import opened TableFormat

  /** The key of a block in the index comes no earlier than any of its entries, and before all those of later blocks. */
  ghost predicate IndexFits(index: seq<InternalKey>, blocks: seq<seq<Entry>>) {
    && |index| == |blocks| && Sorted(Joined(blocks))
    && (forall i, e :: 0 <= i < |index| && e in blocks[i] ==> !KeyLess(index[i], e.key))
    && (forall i, j, e :: 0 <= i < j < |index| && e in blocks[j] ==> KeyLess(index[i], e.key))
  }

  /** Where block b begins among all entries. */
  function Base(blocks: seq<seq<Entry>>, b: nat): nat
    requires b <= |blocks|
  {
    |Joined(blocks[..b])|
  }

  lemma BaseNext(blocks: seq<seq<Entry>>, b: nat)
    requires b < |blocks|
    ensures Base(blocks, b + 1) == Base(blocks, b) + |blocks[b]| <= |Joined(blocks)|
    ensures forall i :: 0 <= i < |blocks[b]| ==> Joined(blocks)[Base(blocks, b) + i] == blocks[b][i]
  {
    JoinedAt(blocks, b);
    assert blocks[..b + 1][..b] == blocks[..b];
  }

  lemma BaseEnds(blocks: seq<seq<Entry>>)
    ensures Base(blocks, 0) == 0 && Base(blocks, |blocks|) == |Joined(blocks)|
  {
    assert blocks[..|blocks|] == blocks;
  }

  // The first index entry at or after a key.
  function IndexBound(index: seq<InternalKey>, target: InternalKey): (r: nat)
    ensures r <= |index| && (forall i :: 0 <= i < r ==> KeyLess(index[i], target))
    ensures r < |index| ==> !KeyLess(index[r], target)
  {
    if index == [] || !KeyLess(index[0], target) then 0 else 1 + IndexBound(index[1..], target)
  }

  // The block an entry lies in.
  lemma BlockOf(blocks: seq<seq<Entry>>, lower: nat, upper: nat, i: nat) returns (b: nat)
    requires lower <= upper <= |blocks| && Base(blocks, lower) <= i < Base(blocks, upper)
    ensures lower <= b < upper && i < |Joined(blocks)| && Joined(blocks)[i] in blocks[b]
    decreases upper
  {
    BaseNext(blocks, upper - 1);
    if i < Base(blocks, upper - 1) {
      b := BlockOf(blocks, lower, upper - 1, i);
    } else {
      b := upper - 1;
      assert Joined(blocks)[Base(blocks, b) + (i - Base(blocks, b))] == blocks[b][i - Base(blocks, b)];
    }
  }

  // Where seeking in the index and then in the block it names leads.
  function Bound(index: seq<InternalKey>, blocks: seq<seq<Entry>>, target: InternalKey): nat
    requires |index| == |blocks|
  {
    var b := IndexBound(index, target);
    if b < |blocks| then Base(blocks, b) + LowerBound(blocks[b], target) else Base(blocks, b)
  }

  lemma EarlierEntry(index: seq<InternalKey>, blocks: seq<seq<Entry>>, target: InternalKey, i: nat)
    requires IndexFits(index, blocks) && i < Bound(index, blocks, target)
    ensures i < |Joined(blocks)| && KeyLess(Joined(blocks)[i].key, target)
  {
    KeyOrder();
    hide KeyLess, Joined;
    var b := IndexBound(index, target);
    BaseEnds(blocks);
    if i < Base(blocks, b) {
      var c := BlockOf(blocks, 0, b, i);
      assert KeyLess(index[c], target);
    } else {
      BaseNext(blocks, b);
      assert Joined(blocks)[Base(blocks, b) + (i - Base(blocks, b))] == blocks[b][i - Base(blocks, b)];
    }
  }

  lemma AfterBound(index: seq<InternalKey>, blocks: seq<seq<Entry>>, target: InternalKey)
    requires IndexFits(index, blocks)
    ensures var at := Bound(index, blocks, target);
            at <= |Joined(blocks)| && (at < |Joined(blocks)| ==> !KeyLess(Joined(blocks)[at].key, target))
  {
    var b := IndexBound(index, target);
    assert |index| == |blocks|;
    hide KeyLess, Joined, IndexFits, LowerBound, IndexBound;
    BaseEnds(blocks);
    if b < |blocks| {
      BaseNext(blocks, b);
      var j := LowerBound(blocks[b], target);
      if j < |blocks[b]| {
        assert Joined(blocks)[Base(blocks, b) + j] == blocks[b][j];
      } else if Base(blocks, b + 1) < |Joined(blocks)| {
        LaterEntry(index, blocks, b, target);
      }
    }
  }

  /** Seeking in the index and then in the block it names leads to the first entry at or after the target, or to
      the end of that block when this entry lies in a later one. */
  lemma SeekBound(index: seq<InternalKey>, blocks: seq<seq<Entry>>, target: InternalKey)
    requires IndexFits(index, blocks)
    ensures LowerBound(Joined(blocks), target) == Bound(index, blocks, target)
  {
    assert |index| == |blocks|;
    hide KeyLess, Joined, IndexFits, LowerBound, IndexBound, Bound;
    var at := Bound(index, blocks, target);
    AfterBound(index, blocks, target);
    forall i | 0 <= i < at ensures KeyLess(Joined(blocks)[i].key, target) {
      EarlierEntry(index, blocks, target, i);
    }
    LowerBoundIs(Joined(blocks), target, at);
  }

  lemma LaterEntry(index: seq<InternalKey>, blocks: seq<seq<Entry>>, b: nat, target: InternalKey)
    requires IndexFits(index, blocks) && b < |blocks| && !KeyLess(index[b], target)
    requires Base(blocks, b + 1) < |Joined(blocks)|
    ensures !KeyLess(Joined(blocks)[Base(blocks, b + 1)].key, target)
  {
    KeyOrder();
    hide KeyLess;
    BaseEnds(blocks);
    var d := BlockOf(blocks, b + 1, |blocks|, Base(blocks, b + 1));
    assert KeyLess(index[b], Joined(blocks)[Base(blocks, b + 1)].key);
  }

  class TwoLevelIterator {
    const index: seq<InternalKey>
    const blocks: seq<seq<Entry>>
    // The position in the index; past the end it is invalid.
    var indexPos: nat
    // An iterator over one block, and which one that is.
    var data: Option<Cursor>
    var dataBlock: nat
    // The position among all entries.
    ghost var pos: nat

    predicate HasEntry()
      reads this
    {
      data.Some? && data.value.Valid()
    }

    function Current(): Entry
      requires HasEntry()
      reads this
    {
      data.value.Entry()
    }

    /** The data iterator is over the block the index is at. */
    ghost predicate Open()
      reads this
    {
      && |index| == |blocks| && indexPos <= |index|
      && (data.Some? ==> dataBlock < |blocks| && data.value.list == blocks[dataBlock])
      && (if indexPos < |index| then data.Some? && dataBlock == indexPos else data.None?)
    }

    ghost predicate Valid()
      reads this
    {
      && Open() && pos <= |Joined(blocks)|
      && (if HasEntry() then pos < |Joined(blocks)| && Joined(blocks)[pos] == Current() && pos == Base(blocks, indexPos) + data.value.pos
          else indexPos == |index| && pos == |Joined(blocks)|)
    }

    constructor (index: seq<InternalKey>, blocks: seq<seq<Entry>>)
      requires |index| == |blocks|
      ensures Valid() && !HasEntry() && this.index == index && this.blocks == blocks
    {
      this.index, this.blocks := index, blocks;
      indexPos, data, dataBlock, pos := |index|, None, 0, |Joined(blocks)|;
    }

    // A new iterator over the block the index is at, unless there is one already.
    method InitDataBlock()
      requires |index| == |blocks| && indexPos <= |index|
      requires data.Some? ==> dataBlock < |blocks| && data.value.list == blocks[dataBlock]
      modifies this`data, this`dataBlock
      ensures Open()
    {
      if indexPos >= |index| {
        data := None;
      } else if data.Some? && dataBlock == indexPos {
      } else {
        data := Some(Cursor(blocks[indexPos], |blocks[indexPos]|));
        dataBlock := indexPos;
      }
    }

    /** On to the next block that has an entry. */
    method SkipEmptyDataBlocksForward()
      requires Open() && (data.Some? ==> data.value.pos <= |data.value.list|)
      requires pos == Base(blocks, indexPos) + if data.Some? then data.value.pos else 0
      modifies this`indexPos, this`data, this`dataBlock
      ensures Valid()
    {
      hide Joined;
      BaseEnds(blocks);
      while data.None? || !data.value.Valid()
        invariant Open() && (data.Some? ==> data.value.pos <= |data.value.list|)
        invariant pos == Base(blocks, indexPos) + if data.Some? then data.value.pos else 0
        decreases |index| - indexPos
      {
        if indexPos >= |index| {
          data := None;
          return;
        }
        BaseNext(blocks, indexPos);
        indexPos := indexPos + 1;
        InitDataBlock();
        if data.Some? {
          data := Some(data.value.SeekToFirst());
        }
      }
      BaseNext(blocks, indexPos);
    }

    /** Back to the last block before this one that has an entry; `end` is where what lies behind ends. */
    method SkipEmptyDataBlocksBackward()
      requires Open()
      requires !HasEntry() ==> pos == if indexPos < |index| then Base(blocks, indexPos) else 0
      requires HasEntry() ==> pos == Base(blocks, indexPos) + data.value.pos + 1
      requires data.None? ==> pos == 0
      modifies this`indexPos, this`data, this`dataBlock, this`pos
      ensures Valid() && pos == if old(pos) == 0 then |Joined(blocks)| else old(pos) - 1
    {
      hide Joined;
      BaseEnds(blocks);
      ghost var end := pos;
      while data.None? || !data.value.Valid()
        invariant Open() && (data.None? ==> end == 0 && indexPos == |index|)
        invariant data.Some? && !HasEntry() ==> end == Base(blocks, indexPos)
        invariant HasEntry() ==> end == Base(blocks, indexPos) + data.value.pos + 1
        decreases if indexPos < |index| then indexPos + 1 else 0
      {
        if indexPos >= |index| {
          data := None;
          pos := |Joined(blocks)|;
          return;
        }
        indexPos := if indexPos == 0 then |index| else indexPos - 1;
        InitDataBlock();
        if data.Some? {
          BaseNext(blocks, indexPos);
          data := Some(data.value.SeekToLast());
        }
      }
      BaseNext(blocks, indexPos);
      pos := end - 1;
    }

    method SeekToFirst()
      requires Valid()
      modifies this
      ensures Valid() && pos == 0
    {
      hide Joined;
      BaseEnds(blocks);
      indexPos := 0;
      InitDataBlock();
      if data.Some? {
        data := Some(data.value.SeekToFirst());
      }
      pos := 0;
      SkipEmptyDataBlocksForward();
    }

    method SeekToLast()
      requires Valid()
      modifies this
      ensures Valid() && pos == if Joined(blocks) == [] then 0 else |Joined(blocks)| - 1
    {
      hide Joined;
      BaseEnds(blocks);
      indexPos := if |index| == 0 then 0 else |index| - 1;
      InitDataBlock();
      pos := 0;
      if data.Some? {
        BaseNext(blocks, indexPos);
        data := Some(data.value.SeekToLast());
        pos := |Joined(blocks)|;
      }
      SkipEmptyDataBlocksBackward();
    }

    method Seek(target: InternalKey)
      requires Valid() && IndexFits(index, blocks)
      modifies this
      ensures Valid() && pos == LowerBound(Joined(blocks), target)
    {
      hide Joined, KeyLess, Sorted;
      SeekBound(index, blocks, target);
      indexPos := IndexBound(index, target);
      InitDataBlock();
      if data.Some? {
        data := Some(data.value.Seek(target));
      }
      pos := LowerBound(Joined(blocks), target);
      SkipEmptyDataBlocksForward();
    }

    method Next()
      requires Valid() && HasEntry()
      modifies this
      ensures Valid() && pos == old(pos) + 1
    {
      hide Joined;
      data := Some(data.value.Next());
      pos := pos + 1;
      SkipEmptyDataBlocksForward();
    }

    method Prev()
      requires Valid() && HasEntry()
      modifies this
      ensures Valid() && pos == if old(pos) == 0 then |Joined(blocks)| else old(pos) - 1
    {
      hide Joined;
      data := Some(data.value.Prev());
      SkipEmptyDataBlocksBackward();
    }
  }
}
