/** The table builder (table/table_builder.cc): data blocks, the separators between them, and the filter. */
module TableBuilders {
  import opened Keys
  import opened Contents
  import opened Coding
  import opened Separators
  import opened BlockFormat
  import opened BlockBuilders
  import opened FilterBlocks
  import opened TableFormat
  import opened Tables
  import opened TableFiles
  import Crc32c

  // How a table grows.

  // The blocks, with the one being filled.
  function WithCurrent(blocks: seq<seq<Entry>>, current: seq<Entry>): seq<seq<Entry>> {
    if current == [] then blocks else blocks + [current]
  }

  lemma JoinedAppend(blocks: seq<seq<Entry>>, es: seq<Entry>)
    ensures Joined(blocks + [es]) == Joined(blocks) + es
  {
    assert (blocks + [es])[..|blocks|] == blocks;
  }

  lemma PairsAppend(es: seq<Entry>, e: Entry)
    ensures PairsOf(es + [e]) == PairsOf(es) + [Pair(EncodeKey(e.key), e.value)]
  {
    hide EncodeKey;
  }

  lemma StoredStays(file: Bytes, more: Bytes, h: Handle, contents: Bytes)
    requires StoredAt(file, h, contents)
    ensures StoredAt(file + more, h, contents)
  {
    hide Stored;
    assert (file + more)[h.offset..h.offset + h.size + TRAILER] == file[h.offset..h.offset + h.size + TRAILER];
  }

  lemma BlocksStay(file: Bytes, more: Bytes, t: Table)
    requires BlocksStored(file, t)
    ensures BlocksStored(file + more, t)
  {
    hide StoredAt, BlockBytes, Sound;
    forall i | 0 <= i < |t.blocks| ensures BlockStored(file + more, t.handles[i], t.blocks[i], t.layouts[i]) {
      assert BlockStored(file, t.handles[i], t.blocks[i], t.layouts[i]);
      StoredStays(file, more, t.handles[i], BlockBytes(t.layouts[i]));
    }
  }

  // A further entry in the block being filled changes nothing about the separators.
  lemma EntryAdded(blocks: seq<seq<Entry>>, current: seq<Entry>, seps: seq<InternalKey>, e: Entry)
    requires SeparatorsOk(WithCurrent(blocks, current), seps) && current != [] && |seps| <= |blocks|
    ensures SeparatorsOk(WithCurrent(blocks, current + [e]), seps)
  {
    hide KeyLess;
    var a, b := WithCurrent(blocks, current), WithCurrent(blocks, current + [e]);
    forall i | 0 <= i < |b| ensures |b[i]| > 0 {
      assert i < |blocks| ==> |a[i]| > 0;
    }
    forall i | 0 <= i < |seps| ensures Separates(b[i], seps[i]) {
      assert Separates(a[i], seps[i]) && a[i] == b[i];
    }
    forall i | 0 <= i < |seps| && i + 1 < |b| ensures Parts(b[i], seps[i], b[i + 1]) {
      assert Parts(a[i], seps[i], a[i + 1]);
    }
  }

  lemma FirstEntryAdded(blocks: seq<seq<Entry>>, seps: seq<InternalKey>, sep: InternalKey, e: Entry)
    requires SeparatorsOk(blocks, seps) && |seps| + 1 == |blocks|
    requires var es := blocks[|blocks| - 1]; KeyLess(es[|es| - 1].key, e.key) && sep == InternalSeparator(es[|es| - 1].key, e.key)
    ensures SeparatorsOk(WithCurrent(blocks, [e]), seps + [sep])
  {
    hide KeyLess, InternalSeparator;
    var n := |blocks| - 1;
    var es := blocks[n];
    var b, seps' := WithCurrent(blocks, [e]), seps + [sep];
    forall k ensures !KeyLess(sep, es[|es| - 1].key) && KeyLess(sep, e.key)
                     && (KeyLess(es[|es| - 1].key, k) && !KeyLess(sep, k) ==> Less(k.user, e.key.user))
    {
      InternalSeparatorBetween(es[|es| - 1].key, e.key, k);
    }
    assert Separates(es, sep) && Parts(es, sep, [e]);
    forall i | 0 <= i < |seps'| ensures Separates(b[i], seps'[i]) && (i + 1 < |b| ==> Parts(b[i], seps'[i], b[i + 1])) {
      if i < n {
        assert Separates(blocks[i], seps[i]) && Parts(blocks[i], seps[i], blocks[i + 1]);
      }
    }
  }

  lemma LastSeparator(blocks: seq<seq<Entry>>, seps: seq<InternalKey>, sep: InternalKey)
    requires SeparatorsOk(blocks, seps) && |seps| + 1 == |blocks|
    requires var es := blocks[|blocks| - 1]; sep == InternalSuccessor(es[|es| - 1].key)
    ensures SeparatorsOk(blocks, seps + [sep])
  {
    hide KeyLess, InternalSuccessor;
    var n := |blocks| - 1;
    var es := blocks[n];
    InternalSuccessorAfter(es[|es| - 1].key);
    var seps' := seps + [sep];
    forall i | 0 <= i < |seps'| ensures Separates(blocks[i], seps'[i]) && (i + 1 < |blocks| ==> Parts(blocks[i], seps'[i], blocks[i + 1])) {
      if i < n {
        assert Separates(blocks[i], seps[i]);
      }
    }
  }

  lemma IndexAppend(seps: seq<InternalKey>, handles: seq<Handle>, sep: InternalKey)
    requires |seps| < |handles|
    ensures IndexPairs(seps + [sep], handles) == IndexPairs(seps, handles) + [Pair(EncodeKey(sep), EncodeHandle(handles[|seps|]))]
  {
    hide EncodeKey, EncodeHandle;
  }

  lemma SortedAppend(es: seq<Entry>, e: Entry)
    requires Sorted(es) && (es != [] ==> KeyLess(es[|es| - 1].key, e.key))
    ensures Sorted(es + [e])
  {
    KeyOrder();
    hide KeyLess;
    forall i | 0 <= i < |es| ensures KeyLess(es[i].key, e.key) {
      assert i == |es| - 1 || KeyLess(es[i].key, es[|es| - 1].key);
    }
  }

  // The filter of a key: that of the part of the file its block begins in, if it is made already, or else the
  // one being gathered.
  ghost predicate InGroup(groups: seq<seq<Bytes>>, pending: seq<Bytes>, g: nat, key: Bytes) {
    if g < |groups| then key in groups[g] else g == |groups| && key in pending
  }

  ghost predicate FilterKeeps(blocks: seq<seq<Entry>>, offsets: seq<nat>, groups: seq<seq<Bytes>>, pending: seq<Bytes>) {
    && |offsets| == |blocks|
    && forall i, e :: 0 <= i < |blocks| && e in blocks[i] ==> InGroup(groups, pending, offsets[i] / FILTER_BASE, EncodeKey(e.key))
  }

  /** Starting a block moves the keys gathered to the filter of the part of the file they belong to. */
  lemma GroupsMove(blocks: seq<seq<Entry>>, offsets: seq<nat>, groups: seq<seq<Bytes>>, pending: seq<Bytes>,
                   groups': seq<seq<Bytes>>, pending': seq<Bytes>)
    requires FilterKeeps(blocks, offsets, groups, pending) && groups <= groups'
    requires |groups'| == |groups| ==> pending' == pending
    requires |groups'| > |groups| ==> groups'[|groups|] == pending
    ensures FilterKeeps(blocks, offsets, groups', pending')
  {
    hide EncodeKey;
    forall i, e | 0 <= i < |blocks| && e in blocks[i] ensures InGroup(groups', pending', offsets[i] / FILTER_BASE, EncodeKey(e.key)) {
      assert InGroup(groups, pending, offsets[i] / FILTER_BASE, EncodeKey(e.key));
    }
  }

  function Offsets(handles: seq<Handle>): seq<nat> {
    seq(|handles|, i requires 0 <= i < |handles| => handles[i].offset)
  }

  function LastOf(es: seq<Entry>): InternalKey
    requires es != []
  {
    es[|es| - 1].key
  }

  /** Every key added is in the filter of its block, or among the keys gathered for it. */
  ghost predicate FilterFits(t: Table, current: seq<Entry>, offset: nat, groups: seq<seq<Bytes>>, pending: seq<Bytes>) {
    && |groups| == offset / FILTER_BASE
    && FilterKeeps(t.blocks + [current], Offsets(t.handles) + [offset], groups, pending)
  }

  // The index entries written are those of the separators known.
  ghost predicate Indexed(t: Table, pairs: seq<Pair>) {
    |t.seps| <= |t.handles| && pairs == IndexPairs(t.seps, t.handles)
  }

  /** What the file, the index entries and the last key say about the entries so far. */
  ghost predicate Built(file: Bytes, t: Table, current: seq<Entry>, lastKey: InternalKey, numEntries: nat,
                        pendingIndexEntry: bool, pendingHandle: Handle) {
    && BlocksStored(file, t)
    && |t.seps| + (if pendingIndexEntry then 1 else 0) == |t.blocks|
    && (pendingIndexEntry ==> current == [] && t.handles[|t.seps|] == pendingHandle)
    && (!pendingIndexEntry && current == [] ==> t.blocks == [])
    && SeparatorsOk(WithCurrent(t.blocks, current), t.seps)
    && Sorted(Joined(t.blocks) + current) && numEntries == |Joined(t.blocks) + current|
    && (numEntries > 0 ==> lastKey == LastOf(Joined(t.blocks) + current))
  }

  lemma NothingBuilt()
    ensures Built([], Table([], [], [], []), [], InternalKey([], 0, Deletion), 0, false, Handle(0, 0))
    ensures PairsOf([]) == [] && Indexed(Table([], [], [], []), []) && Joined([]) + [] == []
    ensures FilterFits(Table([], [], [], []), [], 0, [], [])
  {
  }

  lemma NoPairs(es: seq<Entry>)
    ensures PairsOf(es) == [] <==> es == []
  {
    assert |PairsOf(es)| == |es|;
  }

  lemma NotPending(file: Bytes, t: Table, current: seq<Entry>, lastKey: InternalKey, numEntries: nat,
                   pendingIndexEntry: bool, pendingHandle: Handle)
    requires Built(file, t, current, lastKey, numEntries, pendingIndexEntry, pendingHandle) && current != []
    ensures !pendingIndexEntry
  {
  }

  // The block being filled becomes one of the blocks; the keys gathered are still those of its part of the file.
  lemma FilterStarts(t: Table, current: seq<Entry>, offset: nat, groups: seq<seq<Bytes>>, pending: seq<Bytes>,
                     h: Handle, l: Layout, offset': nat)
    requires FilterFits(t, current, offset, groups, pending) && h.offset == offset && offset <= offset'
    ensures |groups| <= offset' / FILTER_BASE && |groups| == offset / FILTER_BASE
    ensures var t' := t.(blocks := t.blocks + [current], layouts := t.layouts + [l], handles := t.handles + [h]);
            FilterKeeps(t'.blocks, Offsets(t'.handles), groups, pending)
  {
    hide InGroup;
    assert Offsets(t.handles + [h]) == Offsets(t.handles) + [offset];
  }

  lemma FilterMoves(t: Table, offset: nat, groups: seq<seq<Bytes>>, pending: seq<Bytes>,
                    offset': nat, groups': seq<seq<Bytes>>, pending': seq<Bytes>)
    requires FilterKeeps(t.blocks, Offsets(t.handles), groups, pending) && groups <= groups'
    requires |groups'| == offset' / FILTER_BASE
    requires |groups'| == |groups| ==> pending' == pending
    requires |groups'| > |groups| ==> groups'[|groups|] == pending
    ensures FilterFits(t, [], offset', groups', pending')
  {
    GroupsMove(t.blocks, Offsets(t.handles), groups, pending, groups', pending');
    hide InGroup;
  }

  lemma LastOfBlocks(blocks: seq<seq<Entry>>, seps: seq<InternalKey>)
    requires SeparatorsOk(blocks, seps) && blocks != []
    ensures |blocks[|blocks| - 1]| > 0 && Joined(blocks) != [] && LastOf(Joined(blocks)) == LastOf(blocks[|blocks| - 1])
  {
  }

  // The separator before the next key, if a block waits for one, and its index entry.
  function Separated(t: Table, pending: bool, lastKey: InternalKey, next: InternalKey): (r: Table)
    ensures r.blocks == t.blocks && r.handles == t.handles && r.layouts == t.layouts
  {
    if pending then t.(seps := t.seps + [InternalSeparator(lastKey, next)]) else t
  }

  function IndexMore(pairs: seq<Pair>, pending: bool, lastKey: InternalKey, next: InternalKey, h: Handle): seq<Pair> {
    if pending then pairs + [Pair(EncodeKey(InternalSeparator(lastKey, next)), EncodeHandle(h))] else pairs
  }

  // Adding an entry, with the separator its block calls for.
  lemma BuiltMore(file: Bytes, t: Table, current: seq<Entry>, lastKey: InternalKey, numEntries: nat,
                  pendingIndexEntry: bool, pendingHandle: Handle, pairs: seq<Pair>, e: Entry)
    requires Indexed(t, pairs)
    requires Built(file, t, current, lastKey, numEntries, pendingIndexEntry, pendingHandle)
    requires numEntries > 0 ==> KeyLess(lastKey, e.key)
    ensures var t' := Separated(t, pendingIndexEntry, lastKey, e.key);
            && Built(file, t', current + [e], e.key, numEntries + 1, false, pendingHandle)
            && Indexed(t', IndexMore(pairs, pendingIndexEntry, lastKey, e.key, pendingHandle))
  {
    hide KeyLess, EncodeKey, EncodeHandle, InternalSeparator, Sorted, SeparatorsOk, StoredAt, BlockStored;
    var es := Joined(t.blocks) + current;
    SortedAppend(es, e);
    assert es + [e] == Joined(t.blocks) + (current + [e]);
    if pendingIndexEntry {
      assert es == Joined(t.blocks);
      LastOfBlocks(t.blocks, t.seps);
      FirstEntryAdded(t.blocks, t.seps, InternalSeparator(lastKey, e.key), e);
      IndexAppend(t.seps, t.handles, InternalSeparator(lastKey, e.key));
      assert current + [e] == [e];
    } else if current != [] {
      EntryAdded(t.blocks, current, t.seps, e);
    } else {
      OnlyBlock(e);
    }
  }

  lemma OnlyBlock(e: Entry)
    ensures SeparatorsOk(WithCurrent([], [] + [e]), [])
  {
  }

  // Writing out the block being filled.
  lemma BuiltBlock(file: Bytes, t: Table, current: seq<Entry>, lastKey: InternalKey, numEntries: nat, pendingHandle: Handle,
                   more: Bytes, l: Layout, h: Handle, pairs: seq<Pair>)
    requires Indexed(t, pairs)
    requires Built(file, t, current, lastKey, numEntries, false, pendingHandle) && current != []
    requires BlockStored(file + more, h, current, l)
    ensures var t' := t.(blocks := t.blocks + [current], layouts := t.layouts + [l], handles := t.handles + [h]);
            && Built(file + more, t', [], lastKey, numEntries, true, h)
            && Indexed(t', pairs)
  {
    hide KeyLess, Sorted, SeparatorsOk, BlockStored, EncodeKey, EncodeHandle;
    var t' := t.(blocks := t.blocks + [current], layouts := t.layouts + [l], handles := t.handles + [h]);
    BlocksStay(file, more, t);
    JoinedAppend(t.blocks, current);
    assert Joined(t'.blocks) + [] == Joined(t.blocks) + current;
  }

  // The entry of the last block, at the end.
  lemma BuiltAll(file: Bytes, t: Table, lastKey: InternalKey, numEntries: nat, pendingHandle: Handle)
    requires Built(file, t, [], lastKey, numEntries, true, pendingHandle)
    ensures var t' := t.(seps := t.seps + [InternalSuccessor(lastKey)]);
            && SeparatorsOk(t'.blocks, t'.seps) && |t'.seps| == |t'.blocks| && BlocksStored(file, t')
            && forall pairs :: Indexed(t, pairs) ==>
                 Indexed(t', pairs + [Pair(EncodeKey(InternalSuccessor(lastKey)), EncodeHandle(pendingHandle))])
  {
    hide KeyLess, Sorted, SeparatorsOk, BlockStored, EncodeKey, EncodeHandle, InternalSuccessor;
    assert Joined(t.blocks) + [] == Joined(t.blocks);
    LastOfBlocks(t.blocks, t.seps);
    LastSeparator(t.blocks, t.seps, InternalSuccessor(lastKey));
    IndexAppend(t.seps, t.handles, InternalSuccessor(lastKey));
  }

  // How large the parts of the file can become.

  function KeyBytes(es: seq<Entry>): nat {
    if es == [] then 0 else KeyBytes(es[..|es| - 1]) + |es[|es| - 1].key.user|
  }

  function ValueBytes(es: seq<Entry>): nat {
    if es == [] then 0 else ValueBytes(es[..|es| - 1]) + |es[|es| - 1].value|
  }

  /** The data blocks, with every entry in a block of its own. */
  function DataBound(es: seq<Entry>): nat {
    8 + KeyBytes(es) + ValueBytes(es) + 40 * |es|
  }

  function IndexBound(es: seq<Entry>): nat {
    55 + KeyBytes(es) + 47 * |es|
  }

  /** The filter block of n keys, when the data blocks take up so much. */
  function FilterBound(policy: Option<Policy>, n: nat, data: nat): nat {
    if policy.None? then 0 else FilterRoom(n, policy.value.bitsPerKey) + 4 * (data / FILTER_BASE + 1) + 5 + TRAILER
  }

  function MetaBound(policy: Option<Policy>): nat {
    if policy.None? then 8 + TRAILER else |policy.value.name| + 64
  }

  /** No table file of these entries is larger. */
  function SizeBound(es: seq<Entry>, policy: Option<Policy>): nat {
    DataBound(es) + FilterBound(policy, |es|, DataBound(es)) + MetaBound(policy) + IndexBound(es) + TRAILER + FOOTER
  }

  lemma BytesMore(es: seq<Entry>, e: Entry)
    ensures KeyBytes(es + [e]) == KeyBytes(es) + |e.key.user| && ValueBytes(es + [e]) == ValueBytes(es) + |e.value|
  {
    assert (es + [e])[..|es|] == es;
  }

  lemma {:induction false} BytesOfPrefix(es: seq<Entry>, n: nat)
    requires n <= |es|
    ensures KeyBytes(es[..n]) <= KeyBytes(es) && ValueBytes(es[..n]) <= ValueBytes(es)
  {
    if n < |es| {
      BytesOfPrefix(es[..|es| - 1], n);
      assert es[..|es| - 1][..n] == es[..n];
    } else {
      assert es[..n] == es;
    }
  }

  /** The file with the block being filled, and the index with the entry of that block, stay within their bounds. */
  ghost predicate Sized(data: nat, index: nat, current: seq<Entry>, lastKey: InternalKey, es: seq<Entry>) {
    && data + (if current == [] then 0 else 8 + TRAILER) <= DataBound(es)
    && index + |lastKey.user| + 47 <= IndexBound(es)
  }

  lemma SizedMore(data: nat, index: nat, current: seq<Entry>, lastKey: InternalKey, es: seq<Entry>, e: Entry, data': nat, index': nat)
    requires Sized(data, index, current, lastKey, es)
    requires data' <= data + |e.key.user| + |e.value| + 27 && index' <= index + |lastKey.user| + 47
    ensures Sized(data', index', current + [e], e.key, es + [e])
  {
    BytesMore(es, e);
  }

  lemma SizedBlock(data: nat, index: nat, current: seq<Entry>, lastKey: InternalKey, es: seq<Entry>)
    requires Sized(data, index, current, lastKey, es) && current != []
    ensures Sized(data + TRAILER + 8, index, [], lastKey, es)
  {
  }

  // Where blocks end.

  /** A block is ended by the entry with which it reaches the size asked for, and not before. */
  ghost predicate Cut(es: seq<Entry>, l: Layout, interval: nat, blockSize: nat) {
    && es != [] && Regular(l, interval) && |BlockBytes(l)| >= blockSize
    && (|es| > 1 ==> Smaller(es[..|es| - 1], interval, blockSize))
  }

  ghost predicate Smaller(es: seq<Entry>, interval: nat, blockSize: nat) {
    exists l :: Regular(l, interval) && l.pairs == PairsOf(es) && |BlockBytes(l)| < blockSize
  }

  ghost predicate AllCut(t: Table, interval: nat, blockSize: nat) {
    |t.layouts| == |t.blocks| && forall i :: 0 <= i < |t.blocks| ==> Cut(t.blocks[i], t.layouts[i], interval, blockSize)
  }

  /** All blocks but the last end where they have to; the last holds the rest. */
  ghost predicate WellCut(t: Table, interval: nat, blockSize: nat) {
    && |t.layouts| == |t.blocks| && (forall i :: 0 <= i < |t.blocks| ==> Regular(t.layouts[i], interval))
    && forall i :: 0 <= i < |t.blocks| - 1 ==> Cut(t.blocks[i], t.layouts[i], interval, blockSize)
  }

  lemma CutMore(t: Table, t': Table, es: seq<Entry>, l: Layout, interval: nat, blockSize: nat)
    requires AllCut(t, interval, blockSize) && t'.blocks == t.blocks + [es] && t'.layouts == t.layouts + [l]
    ensures Cut(es, l, interval, blockSize) ==> AllCut(t', interval, blockSize)
    ensures Regular(l, interval) ==> WellCut(t', interval, blockSize)
  {
    hide Cut, Regular;
    assert forall i :: 0 <= i < |t.blocks| ==> Cut(t.blocks[i], t.layouts[i], interval, blockSize);
    CutRegular(t, interval, blockSize);
  }

  lemma CutHere(es: seq<Entry>, e: Entry, l: Layout, l': Layout, interval: nat, blockSize: nat)
    requires Regular(l, interval) && l.pairs == PairsOf(es) && Regular(l', interval)
    ensures (es != [] ==> |BlockBytes(l)| < blockSize) && |BlockBytes(l')| >= blockSize ==> Cut(es + [e], l', interval, blockSize)
  {
    hide Regular, BlockBytes;
    assert (es + [e])[..|es|] == es;
  }

  lemma SameCuts(t: Table, t': Table, interval: nat, blockSize: nat)
    requires t'.blocks == t.blocks && t'.layouts == t.layouts
    ensures AllCut(t', interval, blockSize) == AllCut(t, interval, blockSize)
  {
    hide Cut;
  }

  lemma SameWellCut(t: Table, t': Table, interval: nat, blockSize: nat)
    requires t'.blocks == t.blocks && t'.layouts == t.layouts
    ensures WellCut(t', interval, blockSize) == WellCut(t, interval, blockSize)
  {
    hide Cut, Regular;
  }

  // The last block holds what is left.
  lemma LastCut(t: Table, es: seq<Entry>, l: Layout, t': Table, interval: nat, blockSize: nat)
    requires Regular(l, interval)
    requires if es == [] then t'.blocks == t.blocks && t'.layouts == t.layouts else t'.blocks == t.blocks + [es] && t'.layouts == t.layouts + [l]
    ensures AllCut(t, interval, blockSize) ==> WellCut(t', interval, blockSize)
  {
    hide Cut, Regular, AllCut, WellCut;
    if AllCut(t, interval, blockSize) {
      if es == [] {
        SameCuts(t, t', interval, blockSize);
        CutRegular(t', interval, blockSize);
      } else {
        CutMore(t, t', es, l, interval, blockSize);
      }
    }
  }

  lemma CutRegular(t: Table, interval: nat, blockSize: nat)
    requires AllCut(t, interval, blockSize)
    ensures forall i :: 0 <= i < |t.blocks| ==> Regular(t.layouts[i], interval)
    ensures WellCut(t, interval, blockSize)
  {
    hide Regular, Smaller;
  }

  class TableBuilder {
    const blockSize: nat
    const dataBlock: BlockBuilder
    const indexBlock: BlockBuilder
    const policy: Option<Policy>
    const filterBlock: FilterBlockBuilder?
    var file: Bytes
    var offset: nat
    var lastKey: InternalKey
    var numEntries: nat
    // Set while the index entry of the last block waits for the first key of the next.
    var pendingIndexEntry: bool
    var pendingHandle: Handle
    var closed: bool
    ghost var t: Table
    ghost var current: seq<Entry>

    ghost predicate Valid()
      reads this, dataBlock, indexBlock, filterBlock
    {
      && dataBlock != indexBlock
      && dataBlock.Valid() && indexBlock.Valid() && (!closed ==> !dataBlock.finished && !indexBlock.finished)
      && offset == |file|
      && Built(file, t, current, lastKey, numEntries, pendingIndexEntry, pendingHandle)
      && dataBlock.layout.pairs == PairsOf(current)
      && Indexed(t, indexBlock.layout.pairs)
      && (filterBlock == null <==> policy.None?)
      && (filterBlock != null ==>
            && filterBlock.hash == UserHash(policy.value.hash) && filterBlock.bitsPerKey == policy.value.bitsPerKey
            && filterBlock.Valid() && FilterFits(t, current, offset, filterBlock.groups, filterBlock.pending)
            && filterBlock.Gathered() == numEntries)
      && (!closed ==> Sized(offset + dataBlock.CurrentSizeEstimate(), indexBlock.CurrentSizeEstimate(), current, lastKey, Entries()))
    }

    ghost function Entries(): seq<Entry>
      reads this
    {
      Joined(t.blocks) + current
    }

    constructor (blockSize: nat, interval: nat, policy: Option<Policy>)
      requires interval >= 1 && (policy.Some? ==> 1 <= policy.value.probes <= 30)
      ensures Valid() && !closed && Entries() == [] && numEntries == 0 && this.policy == policy
      ensures this.blockSize == blockSize && dataBlock.interval == interval && indexBlock.interval == 1
      ensures t.blocks == [] && t.layouts == [] && current == []
      ensures fresh(dataBlock) && fresh(indexBlock) && (filterBlock != null ==> fresh(filterBlock))
    {
      hide Built, FilterFits, Joined, PairsOf, Indexed, BlockBuilder.Valid, FilterBlockBuilder.Valid;
      this.blockSize, this.policy := blockSize, policy;
      if policy.Some? {
        filterBlock := new FilterBlockBuilder(UserHash(policy.value.hash), policy.value.bitsPerKey, policy.value.probes);
      } else {
        filterBlock := null;
      }
      dataBlock := new BlockBuilder(interval);
      indexBlock := new BlockBuilder(1);
      file, offset, lastKey, numEntries := [], 0, InternalKey([], 0, Deletion), 0;
      pendingIndexEntry, pendingHandle, closed := false, Handle(0, 0), false;
      t, current := Table([], [], [], []), [];
      new;
      NothingBuilt();
    }

    lemma Parts()
      requires Valid()
      ensures dataBlock.Valid() && indexBlock.Valid() && (!closed ==> !dataBlock.finished && !indexBlock.finished)
      ensures dataBlock != indexBlock
    {
    }

    lemma Sizes()
      requires Valid() && !closed
      ensures offset + dataBlock.CurrentSizeEstimate() <= DataBound(Entries())
      ensures indexBlock.CurrentSizeEstimate() + |lastKey.user| + 47 <= IndexBound(Entries())
    {
    }

    lemma LastAdded()
      requires Valid()
      ensures numEntries == |Entries()| && (numEntries > 0 ==> lastKey == Entries()[numEntries - 1].key)
    {
    }

    /** The next entry, after all before it. Sizes stay within 32 bits. */
    method Add(e: Entry)
      requires Valid() && !closed && (numEntries > 0 ==> KeyLess(lastKey, e.key))
      requires offset + dataBlock.CurrentSizeEstimate() + |e.key.user| + |e.value| + 64 < TWO32
      requires indexBlock.CurrentSizeEstimate() + |lastKey.user| + 64 < TWO32
      modifies this, dataBlock, indexBlock, filterBlock
      ensures Valid() && !closed && Entries() == old(Entries()) + [e]
      ensures old(InProgress()) ==> InProgress()
    {
      hide Valid, KeyLess, Joined, BlockBuilder.Valid, Cut, AllCut, Regular, BlockBytes, BlockBuilder.CurrentSizeEstimate;
      BlockSoFar();
      ghost var before, earlier, layout, wasCut := t, current, dataBlock.layout, InProgress();
      AddPair(e);
      BlockSoFar();
      CutHere(earlier, e, layout, dataBlock.layout, dataBlock.interval, blockSize);
      SameCuts(before, t, dataBlock.interval, blockSize);
      if dataBlock.CurrentSizeEstimate() >= blockSize {
        ghost var grown, es, l := t, current, dataBlock.layout;
        Flush();
        BlockSoFar();
        if wasCut {
          CutMore(grown, t, es, l, dataBlock.interval, blockSize);
        }
      }
    }

    /** Blocks end where they have to, and the one being filled has not reached the size asked for. */
    ghost predicate InProgress()
      reads this, dataBlock
    {
      && dataBlock.Valid() && !dataBlock.finished && AllCut(t, dataBlock.interval, blockSize)
      && (current != [] ==> dataBlock.CurrentSizeEstimate() < blockSize)
    }

    lemma Progress()
      requires InProgress()
      ensures AllCut(t, dataBlock.interval, blockSize)
    {
    }

    lemma BlockSoFar()
      requires Valid() && !closed
      ensures dataBlock.Valid() && !dataBlock.finished && dataBlock.layout.pairs == PairsOf(current) && Regular(dataBlock.layout, dataBlock.interval)
    {
    }

    // The pending index entry, the filter and the data block take the entry.
    method AddPair(e: Entry)
      requires Valid() && !closed && (numEntries > 0 ==> KeyLess(lastKey, e.key))
      requires offset + dataBlock.CurrentSizeEstimate() + |e.key.user| + |e.value| + 64 < TWO32
      requires indexBlock.CurrentSizeEstimate() + |lastKey.user| + 64 < TWO32
      modifies this, dataBlock, indexBlock, filterBlock
      ensures Valid() && !closed && Entries() == old(Entries()) + [e]
      ensures dataBlock.Valid() && !dataBlock.finished && offset + dataBlock.CurrentSizeEstimate() + TRAILER < TWO32
      ensures t.blocks == old(t.blocks) && t.layouts == old(t.layouts) && current == old(current) + [e]
    {
      hide KeyLess, EncodeKey, EncodeHandle, InternalSeparator, Sorted, SeparatorsOk, StoredAt, BlockStored, Built, Indexed,
           PairsOf, FilterFits, Joined, BlockBuilder.Valid, FilterBlockBuilder.Valid, FilterBlockBuilder.Gathered, Sized,
           Separated, IndexMore, BlockBytes, BlockBuilder.CurrentSizeEstimate;
      ghost var data, index, es := offset + dataBlock.CurrentSizeEstimate(), indexBlock.CurrentSizeEstimate(), Entries();
      ghost var t' := Separated(t, pendingIndexEntry, lastKey, e.key);
      BuiltMore(file, t, current, lastKey, numEntries, pendingIndexEntry, pendingHandle, indexBlock.layout.pairs, e);
      FilterMore(e, t');
      PairsAppend(current, e);
      EntriesMore(t.blocks, current, e);
      TakePair(e);
      assert t == t' && Indexed(t, indexBlock.layout.pairs);
      SizedMore(data, index, current, lastKey, es, e, offset + dataBlock.CurrentSizeEstimate(), indexBlock.CurrentSizeEstimate());
      lastKey := e.key;
      numEntries := numEntries + 1;
      current := current + [e];
    }

    lemma FilterMore(e: Entry, t': Table)
      requires Valid() && t'.blocks == t.blocks && t'.handles == t.handles
      ensures filterBlock != null ==>
                FilterFits(t', current + [e], offset, filterBlock.groups, filterBlock.pending + [EncodeKey(e.key)])
    {
      hide EncodeKey, Built;
      if filterBlock != null {
        KeyGathered(t.blocks, current, e, Offsets(t.handles), offset, filterBlock.groups, filterBlock.pending);
      }
    }

    method TakePair(e: Entry)
      requires dataBlock != indexBlock && dataBlock.Valid() && !dataBlock.finished && indexBlock.Valid() && !indexBlock.finished
      requires dataBlock.CurrentSizeEstimate() + |e.key.user| + |e.value| + 64 < TWO32
      requires indexBlock.CurrentSizeEstimate() + |lastKey.user| + 64 < TWO32
      requires filterBlock != null ==> filterBlock.Valid()
      modifies this`pendingIndexEntry, this`t, dataBlock, indexBlock, filterBlock
      ensures dataBlock.Valid() && !dataBlock.finished && indexBlock.Valid() && !indexBlock.finished && !pendingIndexEntry
      ensures t == old(Separated(t, pendingIndexEntry, lastKey, e.key))
      ensures indexBlock.layout.pairs == old(IndexMore(indexBlock.layout.pairs, pendingIndexEntry, lastKey, e.key, pendingHandle))
      ensures dataBlock.layout.pairs == old(dataBlock.layout.pairs) + [Pair(EncodeKey(e.key), e.value)]
      ensures indexBlock.CurrentSizeEstimate() <= old(indexBlock.CurrentSizeEstimate() + |lastKey.user|) + 47
      ensures dataBlock.CurrentSizeEstimate() <= old(dataBlock.CurrentSizeEstimate()) + |e.key.user| + |e.value| + 27
      ensures filterBlock != null ==>
                && filterBlock.Valid() && filterBlock.groups == old(filterBlock.groups)
                && filterBlock.pending == old(filterBlock.pending) + [EncodeKey(e.key)] && filterBlock.Gathered() == old(filterBlock.Gathered()) + 1
    {
      hide EncodeKey, EncodeHandle, Separated, IndexMore, BlockBuilder.Valid, FilterBlockBuilder.Valid, FilterBlockBuilder.Gathered;
      IndexPending(e.key);
      if filterBlock != null {
        filterBlock.AddKey(EncodeKey(e.key));
      }
      dataBlock.Add(EncodeKey(e.key), e.value);
    }

    // The index entry that waits, if any, for the key that comes next.
    method IndexPending(next: InternalKey)
      requires indexBlock.Valid() && !indexBlock.finished && indexBlock.CurrentSizeEstimate() + |lastKey.user| + 64 < TWO32
      modifies this`pendingIndexEntry, this`t, indexBlock
      ensures indexBlock.Valid() && !indexBlock.finished && !pendingIndexEntry
      ensures t == old(Separated(t, pendingIndexEntry, lastKey, next))
      ensures indexBlock.CurrentSizeEstimate() <= old(indexBlock.CurrentSizeEstimate() + |lastKey.user|) + 47
      ensures indexBlock.layout.pairs == old(IndexMore(indexBlock.layout.pairs, pendingIndexEntry, lastKey, next, pendingHandle))
    {
      hide EncodeKey, EncodeHandle, InternalSeparator, BlockBuilder.Valid;
      if pendingIndexEntry {
        var sep := FindInternalSeparator(lastKey, next);
        SeparatorSize(lastKey, next);
        AddIndexEntry(sep);
      }
    }

    // The index entry of the last block, now that its separator is known.
    method AddIndexEntry(sep: InternalKey)
      requires indexBlock.Valid() && !indexBlock.finished && pendingIndexEntry
      requires |sep.user| <= |lastKey.user| && indexBlock.CurrentSizeEstimate() + |lastKey.user| + 64 < TWO32
      modifies this`pendingIndexEntry, this`t, indexBlock
      ensures indexBlock.Valid() && !indexBlock.finished && !pendingIndexEntry
      ensures t == old(t).(seps := old(t).seps + [sep])
      ensures indexBlock.CurrentSizeEstimate() <= old(indexBlock.CurrentSizeEstimate() + |lastKey.user|) + 47
      ensures indexBlock.layout.pairs == old(indexBlock.layout.pairs) + [Pair(EncodeKey(sep), EncodeHandle(pendingHandle))]
    {
      hide EncodeKey, EncodeHandle;
      HandleSize(pendingHandle);
      indexBlock.Add(EncodeKey(sep), EncodeHandle(pendingHandle));
      pendingIndexEntry := false;
      t := t.(seps := t.seps + [sep]);
    }

    /** The data block is written out, and its index entry waits for the next key. */
    method Flush()
      requires Valid() && !closed && offset + dataBlock.CurrentSizeEstimate() + TRAILER < TWO32
      modifies this`file, this`offset, this`pendingIndexEntry, this`pendingHandle, this`t, this`current, dataBlock, filterBlock
      ensures Valid() && !closed && Entries() == old(Entries()) && current == []
      ensures if old(current) == [] then t.blocks == old(t.blocks) && t.layouts == old(t.layouts)
              else t.blocks == old(t.blocks) + [old(current)] && t.layouts == old(t.layouts) + [old(dataBlock.layout)]
    {
      hide KeyLess, Sorted, SeparatorsOk, StoredAt, Stored, Built, Indexed, PairsOf, FilterFits, Joined, BlockBuilder.Valid, FilterBlockBuilder.Valid, Sound, BlockBytes,
           BlockBuilder.CurrentSizeEstimate, FilterBlockBuilder.Gathered, Sized;
      NoPairs(current);
      NoPairs([]);
      if dataBlock.IsEmpty() {
        return;
      }
      ghost var l, before := dataBlock.layout, file;
      LayoutSound(dataBlock);
      NotPending(file, t, current, lastKey, numEntries, pendingIndexEntry, pendingHandle);
      SizedBlock(offset + dataBlock.CurrentSizeEstimate(), indexBlock.CurrentSizeEstimate(), current, lastKey, Entries());
      var raw := dataBlock.Finish();
      var h := WriteRawBlock(raw);
      dataBlock.Reset();
      BuiltBlock(before, t, current, lastKey, numEntries, pendingHandle, Stored(raw), l, h, indexBlock.layout.pairs);
      ghost var t' := t.(blocks := t.blocks + [current], layouts := t.layouts + [l], handles := t.handles + [h]);
      if filterBlock != null {
        FilterStarts(t, current, old(offset), filterBlock.groups, filterBlock.pending, h, l, offset);
        filterBlock.StartBlock(offset);
        FilterMoves(t', old(offset), old(filterBlock.groups), old(filterBlock.pending), offset, filterBlock.groups, filterBlock.pending);
      }
      JoinedAppend(t.blocks, current);
      assert Joined(t'.blocks) + [] == Joined(t'.blocks);
      pendingHandle := h;
      pendingIndexEntry := true;
      t := t';
      current := [];
    }

    /** Writes the filter, the metaindex, the index and the footer. The file is then a table file of all the entries added,
        in order; it is given up only if it outgrows 32 bits, which it does not while the bound on its size fits them. */
    method Finish() returns (ok: bool, ghost p: TableParts)
      requires Valid() && !closed && offset + dataBlock.CurrentSizeEstimate() + TRAILER < TWO32
      requires indexBlock.CurrentSizeEstimate() + |lastKey.user| + 64 < TWO32
      modifies this, dataBlock, indexBlock, filterBlock
      ensures closed
      ensures ok ==> IsTableFile(file, policy, p) && Joined(p.t.blocks) == old(Entries()) && offset == |file| <= SizeBound(old(Entries()), policy)
      ensures SizeBound(old(Entries()), policy) < TWO32 ==> ok
      ensures ok && old(AllCut(t, dataBlock.interval, blockSize)) ==> WellCut(p.t, dataBlock.interval, blockSize)
      ensures ok ==> Regular(p.index, indexBlock.interval)
    {
      hide Valid, Joined, IsTableFile, BlockBuilder.Valid, BlockBuilder.CurrentSizeEstimate, SizeBound, Regular, Cut, AllCut, WellCut;
      ghost var before, last, layout := t, current, dataBlock.layout;
      Parts();
      BlockSoFar();
      Flush();
      Parts();
      ghost var flushed := t;
      LastCut(before, last, layout, flushed, dataBlock.interval, blockSize);
      ok, p := WriteParts();
      if ok {
        SameWellCut(flushed, p.t, dataBlock.interval, blockSize);
      }
    }

    // All that follows the data blocks.
    method WriteParts() returns (ok: bool, ghost p: TableParts)
      requires Valid() && !closed && current == [] && indexBlock.CurrentSizeEstimate() + |lastKey.user| + 64 < TWO32
      modifies this, indexBlock, filterBlock
      ensures closed
      ensures ok ==> IsTableFile(file, policy, p) && Joined(p.t.blocks) == old(Entries()) && offset == |file| <= SizeBound(old(Entries()), policy)
      ensures SizeBound(old(Entries()), policy) < TWO32 ==> ok
      ensures ok ==> p.t.blocks == old(t.blocks) && p.t.layouts == old(t.layouts) && Regular(p.index, indexBlock.interval)
    {
      hide KeyLess, Sorted, SeparatorsOk, StoredAt, Stored, Built, Indexed, PairsOf, FilterFits, Joined, BlockBuilder.Valid,
           FilterBlockBuilder.Valid, Sound, BlockBytes, IsFilterBlock, Filtered, BlocksStored, EncodeKey, EncodeHandle, IsTableFile,
           MetaPairs, InternalSuccessor, EncodeFooter, BlockBuilder.CurrentSizeEstimate, FilterBlockBuilder.Gathered, FilterBound, MetaBound, DataBound, IndexBound,
           Sized, IsFilter, IsIndex, WithLast, Regular;
      p := TableParts(t, Empty(), Empty(), Footer(Handle(0, 0), Handle(0, 0)), Handle(0, 0), [], []);
      LayoutSound(dataBlock);
      ghost var es := Entries();
      LastAdded();
      Sizes();
      closed := true;
      ghost var flushed, done := file, WithLast(t, lastKey, pendingIndexEntry);
      AllBuilt(flushed, t, lastKey, numEntries, pendingIndexEntry, pendingHandle, indexBlock.layout.pairs);
      var filterHandle, metaHandle, indexHandle;
      ghost var filter, groups, meta, index;
      ok, filterHandle, filter, groups := WriteFilter(done, DataBound(es));
      if !ok {
        return;
      }
      ghost var withFilter := file;
      ok, metaHandle, meta := WriteMeta(filterHandle);
      if !ok {
        return;
      }
      ghost var withMeta := file;
      ok, indexHandle, index := WriteIndex(done);
      if !ok {
        return;
      }
      ghost var withIndex := file;
      var footer := Footer(metaHandle, indexHandle);
      if offset + FOOTER >= TWO32 {
        ok := false;
        return;
      }
      file := file + EncodeFooter(footer);
      offset := offset + FOOTER;
      p := TableParts(done, index, meta, footer, filterHandle, filter, groups);
      Finished(flushed, withFilter, withMeta, withIndex, file, policy, p);
    }

    // The filter, if there is one.
    method WriteFilter(ghost done: Table, ghost data: nat) returns (ok: bool, h: Handle, ghost filter: Bytes, ghost groups: seq<seq<Bytes>>)
      requires offset == |file| && done.blocks == t.blocks && done.handles == t.handles && (filterBlock == null <==> policy.None?)
      requires filterBlock != null ==>
                 && filterBlock.hash == UserHash(policy.value.hash) && filterBlock.Valid()
                 && filterBlock.bitsPerKey == policy.value.bitsPerKey && filterBlock.Gathered() == numEntries
                 && FilterFits(t, [], offset, filterBlock.groups, filterBlock.pending)
      requires offset <= data
      modifies this`file, this`offset, filterBlock
      ensures offset == |file| && old(file) <= file
      ensures ok ==> offset <= data + FilterBound(policy, numEntries, data)
      ensures data + FilterBound(policy, numEntries, data) < TWO32 ==> ok
      ensures ok && policy.Some? ==> StoredAt(file, h, filter) && IsFilter(Some(filter), policy.value.hash, done, groups)
    {
      hide StoredAt, Stored, FilterFits, FilterBlockBuilder.Valid, IsFilterBlock, Filtered, FilterBlockBuilder.Gathered, FilterRoom;
      h, filter, groups := Handle(0, 0), [], [];
      if filterBlock != null {
        ghost var before, pending := filterBlock.groups, filterBlock.pending;
        var contents := filterBlock.Finish();
        filter, groups := contents, filterBlock.groups;
        FilterDone(t, done, offset, before, pending, groups);
        GroupCount(t, offset, before, pending);
        FilterSize(policy, numEntries, offset, data, |contents|);
        if offset + |contents| + TRAILER >= TWO32 {
          return false, h, filter, groups;
        }
        h := WriteRawBlock(contents);
      }
      ok := true;
    }

    // The metaindex, which names the filter.
    method WriteMeta(filterHandle: Handle) returns (ok: bool, h: Handle, ghost meta: Layout)
      requires offset == |file| && dataBlock.interval >= 1
      modifies this`file, this`offset
      ensures offset == |file| && old(file) <= file
      ensures ok ==> offset <= old(offset) + MetaBound(policy)
      ensures old(offset) + MetaBound(policy) < TWO32 ==> ok
      ensures ok ==> Sound(meta) && |BlockBytes(meta)| < TWO32 && meta.pairs == MetaPairs(policy, filterHandle) && StoredAt(file, h, BlockBytes(meta))
    {
      hide StoredAt, Stored, BlockBuilder.Valid, Sound, BlockBytes, EncodeHandle;
      meta := Empty();
      var metaBlock := new BlockBuilder(dataBlock.interval);
      if policy.Some? {
        if |policy.value.name| + 64 >= TWO32 {
          return false, Handle(0, 0), meta;
        }
        HandleSize(filterHandle);
        metaBlock.Add(FilterKey(policy.value.name), EncodeHandle(filterHandle));
      }
      ok, h, meta := WriteBlock(metaBlock);
    }

    // The index, with the entry of the last block.
    method WriteIndex(ghost done: Table) returns (ok: bool, h: Handle, ghost index: Layout)
      requires offset == |file| && indexBlock.Valid() && !indexBlock.finished
      requires done == WithLast(t, lastKey, pendingIndexEntry) && |done.seps| == |done.blocks| == |done.handles|
      requires Indexed(done, if pendingIndexEntry
                             then indexBlock.layout.pairs + [Pair(EncodeKey(InternalSuccessor(lastKey)), EncodeHandle(pendingHandle))]
                             else indexBlock.layout.pairs)
      requires indexBlock.CurrentSizeEstimate() + |lastKey.user| + 64 < TWO32
      modifies this`file, this`offset, this`pendingIndexEntry, this`t, indexBlock
      ensures offset == |file| && old(file) <= file
      ensures ok ==> offset <= old(offset + indexBlock.CurrentSizeEstimate() + |lastKey.user|) + 47 + TRAILER
      ensures old(offset + indexBlock.CurrentSizeEstimate() + |lastKey.user|) + 47 + TRAILER < TWO32 ==> ok
      ensures ok ==> Sound(index) && IsIndex(BlockBytes(index), done, index) && StoredAt(file, h, BlockBytes(index))
      ensures ok ==> Regular(index, indexBlock.interval)
    {
      hide StoredAt, Stored, BlockBuilder.Valid, Sound, Regular, BlockBytes, EncodeHandle, EncodeKey, InternalSuccessor, Indexed;
      if pendingIndexEntry {
        var sep := FindInternalSuccessor(lastKey);
        SuccessorSize(lastKey);
        AddIndexEntry(sep);
      }
      ok, h, index := WriteBlock(indexBlock);
      if ok {
        IndexedIs(done, BlockBytes(index), index);
      }
    }

    /** WriteBlock, for blocks that are not compressed. */
    method WriteBlock(block: BlockBuilder) returns (ok: bool, h: Handle, ghost l: Layout)
      requires offset == |file| && block.Valid() && !block.finished
      modifies this`file, this`offset, block
      ensures offset == |file| && old(file) <= file && l == old(block.layout)
      ensures ok <==> old(offset + block.CurrentSizeEstimate()) + TRAILER < TWO32
      ensures ok ==> block.Valid() && !block.finished && block.layout == Empty()
      ensures ok ==> offset == old(offset + block.CurrentSizeEstimate()) + TRAILER
      ensures ok ==> Sound(l) && |BlockBytes(l)| < TWO32 && StoredAt(file, h, BlockBytes(l)) && Regular(l, block.interval)
    {
      hide StoredAt, Stored, BlockBuilder.Valid, Sound, Regular, BlockBytes;
      ok, h, l := false, Handle(0, 0), block.layout;
      if offset + block.CurrentSizeEstimate() + TRAILER >= TWO32 {
        return;
      }
      LayoutSound(block);
      var raw := block.Finish();
      h := WriteRawBlock(raw);
      block.Reset();
      ok := true;
    }

    method WriteRawBlock(contents: Bytes) returns (h: Handle)
      requires offset == |file| && offset + |contents| + TRAILER < TWO32
      modifies this`file, this`offset
      ensures file == old(file) + Stored(contents) && offset == |file| == old(offset) + |contents| + TRAILER
      ensures h == Handle(old(offset), |contents|) && StoredAt(file, h, contents)
    {
      hide Crc32c.Crc, Crc32c.Mask, Crc32c.ToInt, EncodeFixed32;
      h := Handle(offset, |contents|);
      var crc := Crc32c.Extend(Crc32c.Zeros(32), contents, 0);
      crc := Crc32c.Extend(crc, [0], 0);
      Crc32c.ExtendConcat(Crc32c.Zeros(32), contents, [0]);
      Crc32c.ValueIs(contents + [0]);
      var trailer := [0] + EncodeFixed32(Crc32c.Mask(Crc32c.ToInt(crc)));
      ghost var before := file;
      file := file + contents;
      file := file + trailer;
      assert file == before + Stored(contents);
      offset := offset + |contents| + TRAILER;
    }
  }

  lemma GroupCount(t: Table, offset: nat, groups: seq<seq<Bytes>>, pending: seq<Bytes>)
    requires FilterFits(t, [], offset, groups, pending)
    ensures |groups| == offset / FILTER_BASE
  {
  }

  lemma FilterSize(policy: Option<Policy>, n: nat, offset: nat, data: nat, size: nat)
    requires policy.Some? && offset <= data && size <= FilterRoom(n, policy.value.bitsPerKey) + 4 * (offset / FILTER_BASE + 1) + 5
    ensures offset + size + TRAILER <= data + FilterBound(policy, n, data)
  {
  }

  lemma LayoutSound(block: BlockBuilder)
    requires block.Valid()
    ensures Sound(block.layout) && block.interval >= 1 && Regular(block.layout, block.interval)
  {
  }

  // The parts of the file are where they were written.
  lemma Finished(flushed: Bytes, withFilter: Bytes, withMeta: Bytes, withIndex: Bytes, file: Bytes, policy: Option<Policy>, p: TableParts)
    requires flushed <= withFilter <= withMeta <= withIndex && file == withIndex + EncodeFooter(p.footer) && |file| < TWO32
    requires BlocksStored(flushed, p.t) && SeparatorsOk(p.t.blocks, p.t.seps) && Sorted(Joined(p.t.blocks))
    requires policy.Some? ==> StoredAt(withFilter, p.filterHandle, p.filter) && IsFilter(Some(p.filter), policy.value.hash, p.t, p.groups)
    requires Layouts(p) && p.meta.pairs == MetaPairs(policy, p.filterHandle) && StoredAt(withMeta, p.footer.meta, BlockBytes(p.meta))
    requires IsIndex(BlockBytes(p.index), p.t, p.index) && StoredAt(withIndex, p.footer.index, BlockBytes(p.index))
    ensures IsTableFile(file, policy, p)
  {
    hide StoredAt, BlocksStored, SeparatorsOk, Sorted, Joined, IsFilter, IsIndex, BlockBytes, Sound, EncodeFooter, MetaPairs;
    var footer := EncodeFooter(p.footer);
    BlocksStay(flushed, file[|flushed|..], p.t);
    StoredStays(withMeta, file[|withMeta|..], p.footer.meta, BlockBytes(p.meta));
    StoredStays(withIndex, footer, p.footer.index, BlockBytes(p.index));
    if policy.Some? {
      StoredStays(withFilter, file[|withFilter|..], p.filterHandle, p.filter);
    }
    assert flushed + file[|flushed|..] == file && withFilter + file[|withFilter|..] == file && withMeta + file[|withMeta|..] == file;
    assert file[|file| - FOOTER..] == footer;
  }

  lemma SeparatorSize(start: InternalKey, limit: InternalKey)
    ensures |InternalSeparator(start, limit).user| <= |start.user|
  {
  }

  lemma SuccessorSize(k: InternalKey)
    ensures |InternalSuccessor(k).user| <= |k.user|
  {
  }

  // The table, with the separator after the last block.
  function WithLast(t: Table, lastKey: InternalKey, pending: bool): Table {
    if pending then t.(seps := t.seps + [InternalSuccessor(lastKey)]) else t
  }

  lemma AllBuilt(file: Bytes, t: Table, lastKey: InternalKey, numEntries: nat, pendingIndexEntry: bool, pendingHandle: Handle, pairs: seq<Pair>)
    requires Built(file, t, [], lastKey, numEntries, pendingIndexEntry, pendingHandle) && Indexed(t, pairs)
    ensures var t' := WithLast(t, lastKey, pendingIndexEntry);
            && SeparatorsOk(t'.blocks, t'.seps) && |t'.seps| == |t'.blocks| && BlocksStored(file, t') && Sorted(Joined(t'.blocks))
            && Indexed(t', if pendingIndexEntry then pairs + [Pair(EncodeKey(InternalSuccessor(lastKey)), EncodeHandle(pendingHandle))] else pairs)
            && Joined(t.blocks) + [] == Joined(t'.blocks) && |t'.handles| == |t'.blocks|
            && t'.blocks == t.blocks && t'.handles == t.handles && t'.layouts == t.layouts
  {
    hide KeyLess, Sorted, BlockStored, EncodeKey, EncodeHandle, InternalSuccessor, Indexed;
    assert Joined(t.blocks) + [] == Joined(t.blocks);
    if pendingIndexEntry {
      BuiltAll(file, t, lastKey, numEntries, pendingHandle);
    }
  }

  // Once the last filter is made, every key is in the filter of its block.
  lemma FilterDone(t: Table, t': Table, offset: nat, groups: seq<seq<Bytes>>, pending: seq<Bytes>, groups': seq<seq<Bytes>>)
    requires FilterFits(t, [], offset, groups, pending) && t'.blocks == t.blocks && t'.handles == t.handles
    requires groups' == groups + if pending == [] then [] else [pending]
    ensures Filtered(t', groups')
  {
    hide EncodeKey;
    var blocks, offsets := t.blocks + [[]], Offsets(t.handles) + [offset];
    assert |offsets| == |blocks| && |t'.blocks| == |t'.handles|;
    forall i, e: Entry | 0 <= i < |t'.blocks| && e in t'.blocks[i]
      ensures KeyIn(groups', t'.handles[i].offset / FILTER_BASE, EncodeKey(e.key))
    {
      assert e in blocks[i] && InGroup(groups, pending, offsets[i] / FILTER_BASE, EncodeKey(e.key));
    }
  }

  lemma IndexedIs(t: Table, index: Bytes, l: Layout)
    requires Indexed(t, l.pairs) && |t.seps| == |t.blocks| && Sound(l) && index == BlockBytes(l) && |index| < TWO32
    requires |t.blocks| == |t.handles|
    ensures IsIndex(index, t, l)
  {
  }

  lemma EntriesMore(blocks: seq<seq<Entry>>, current: seq<Entry>, e: Entry)
    ensures Joined(blocks) + (current + [e]) == Joined(blocks) + current + [e]
  {
  }

  lemma KeyGathered(blocks: seq<seq<Entry>>, current: seq<Entry>, e: Entry, offsets: seq<nat>, offset: nat,
                    groups: seq<seq<Bytes>>, pending: seq<Bytes>)
    requires FilterKeeps(blocks + [current], offsets + [offset], groups, pending) && |groups| == offset / FILTER_BASE
    ensures FilterKeeps(blocks + [current + [e]], offsets + [offset], groups, pending + [EncodeKey(e.key)])
  {
    hide EncodeKey;
    var a, b, o := blocks + [current], blocks + [current + [e]], offsets + [offset];
    forall i, x: Entry | 0 <= i < |b| && x in b[i] ensures InGroup(groups, pending + [EncodeKey(e.key)], o[i] / FILTER_BASE, EncodeKey(x.key)) {
      if x in a[i] {
        assert InGroup(groups, pending, o[i] / FILTER_BASE, EncodeKey(x.key));
      }
    }
  }
}
