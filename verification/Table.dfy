/** Looking a key up in a table file (table/table.cc): through the index, the filter and one block, without ever
    missing an entry. */
module Tables {
  import opened Keys
  import opened Contents
  import opened Versions
  import opened Coding
  import opened Separators
  import opened BlockFormat
  import opened BlockIters
  import opened FilterBlocks
  import opened TableFormat

  /** What a table file was built from. */
  datatype Table = Table(blocks: seq<seq<Entry>>, layouts: seq<Layout>, handles: seq<Handle>, seps: seq<InternalKey>)

  ghost predicate BlockStored(file: Bytes, h: Handle, es: seq<Entry>, l: Layout) {
    && Sound(l) && l.pairs == PairsOf(es) && |BlockBytes(l)| < TWO32
    && StoredAt(file, h, BlockBytes(l))
  }

  ghost predicate BlocksStored(file: Bytes, t: Table) {
    && |t.layouts| == |t.blocks| == |t.handles|
    && forall i :: 0 <= i < |t.blocks| ==> BlockStored(file, t.handles[i], t.blocks[i], t.layouts[i])
  }

  /** Every key is in the filter group of the part of the file its block begins in. */
  ghost predicate Filtered(t: Table, groups: seq<seq<Bytes>>) {
    && |t.blocks| == |t.handles|
    && forall i, e :: 0 <= i < |t.blocks| && e in t.blocks[i] ==>
         KeyIn(groups, t.handles[i].offset / FILTER_BASE, EncodeKey(e.key))
  }

  predicate KeyIn(groups: seq<seq<Bytes>>, g: nat, key: Bytes) {
    g < |groups| && key in groups[g]
  }

  ghost predicate IsIndex(index: Bytes, t: Table, l: Layout) {
    && |t.seps| == |t.blocks| == |t.handles|
    && Sound(l) && index == BlockBytes(l) && |index| < TWO32 && l.pairs == IndexPairs(t.seps, t.handles)
  }

  ghost predicate IsTable(file: Bytes, index: Bytes, t: Table, l: Layout) {
    BlocksStored(file, t) && SeparatorsOk(t.blocks, t.seps) && Sorted(Joined(t.blocks)) && IsIndex(index, t, l)
  }

  // The orders of encoded and decoded keys agree.

  lemma PairsSorted(es: seq<Entry>)
    requires Sorted(es)
    ensures SortedPairs(BytesLess, PairsOf(es))
  {
    hide KeyLess, BytesLess, EncodeKey;
    var pairs := PairsOf(es);
    forall i, j | 0 <= i < j < |pairs| ensures BytesLess(pairs[i].key, pairs[j].key) {
      EncodedOrder(es[i].key, es[j].key);
    }
  }

  lemma BoundInBlock(es: seq<Entry>, k: InternalKey, pos: nat)
    requires LowerBoundOf(BytesLess, PairsOf(es), EncodeKey(k), pos)
    ensures pos <= |es| && LowerBound(es, k) == pos
  {
    hide KeyLess, BytesLess, EncodeKey;
    var pairs := PairsOf(es);
    forall i | 0 <= i < |es| ensures KeyLess(es[i].key, k) <==> BytesLess(pairs[i].key, EncodeKey(k)) {
      EncodedOrder(es[i].key, k);
    }
    LowerBoundIs(es, k, pos);
  }

  lemma {:induction false} SeparatorsSorted(blocks: seq<seq<Entry>>, seps: seq<InternalKey>, i: nat, j: nat)
    requires SeparatorsOk(blocks, seps) && Sorted(Joined(blocks)) && i < j < |seps|
    ensures KeyLess(seps[i], seps[j])
  {
    KeyOrder();
    hide KeyLess;
    if i + 1 < j {
      SeparatorsSorted(blocks, seps, i, j - 1);
    }
    assert Parts(blocks[j - 1], seps[j - 1], blocks[j]) && Separates(blocks[j], seps[j]);
    BlockSorted(blocks, j);
    var last := |blocks[j]| - 1;
    assert last == 0 || KeyLess(blocks[j][0].key, blocks[j][last].key);
  }

  lemma IndexSorted(t: Table)
    requires SeparatorsOk(t.blocks, t.seps) && Sorted(Joined(t.blocks)) && |t.seps| <= |t.handles|
    ensures SortedPairs(BytesLess, IndexPairs(t.seps, t.handles))
  {
    hide KeyLess, BytesLess, EncodeKey, EncodeHandle, SeparatorsOk, Sorted;
    var pairs := IndexPairs(t.seps, t.handles);
    forall i, j | 0 <= i < j < |pairs| ensures BytesLess(pairs[i].key, pairs[j].key) {
      SeparatorsSorted(t.blocks, t.seps, i, j);
      EncodedOrder(t.seps[i], t.seps[j]);
    }
  }

  lemma BoundInIndex(t: Table, k: InternalKey, pos: nat)
    requires |t.seps| <= |t.handles| && LowerBoundOf(BytesLess, IndexPairs(t.seps, t.handles), EncodeKey(k), pos)
    ensures pos <= |t.seps| && (forall m :: 0 <= m < pos ==> KeyLess(t.seps[m], k))
    ensures pos < |t.seps| ==> !KeyLess(t.seps[pos], k)
  {
    hide KeyLess, BytesLess, EncodeKey, EncodeHandle;
    var pairs := IndexPairs(t.seps, t.handles);
    forall i | 0 <= i < |t.seps| ensures KeyLess(t.seps[i], k) <==> BytesLess(pairs[i].key, EncodeKey(k)) {
      EncodedOrder(t.seps[i], k);
    }
  }

  /** Seeking in the index: the position of the first separator not before the key, and the handle there. */
  method SeekIndex(index: Bytes, k: InternalKey, ghost t: Table, ghost l: Layout, ghost known: bool)
    returns (handle: Option<Bytes>, ghost i: nat)
    requires |index| < TWO32
    requires known ==> SeparatorsOk(t.blocks, t.seps) && Sorted(Joined(t.blocks)) && IsIndex(index, t, l)
    ensures known ==>
              && i <= |t.seps| == |t.handles| && (forall m :: 0 <= m < i ==> KeyLess(t.seps[m], k))
              && (i < |t.seps| ==> !KeyLess(t.seps[i], k) && handle == Some(EncodeHandle(t.handles[i])))
              && (i == |t.seps| ==> handle == None)
  {
    hide KeyLess, BytesLess, EncodeKey, EncodeHandle, SeparatorsOk, Sorted, StrictOrder, SortedPairs, Data, BlockFormat.Sound, LowerBoundOf;
    i := 0;
    var reading := NewIterator(BytesLess, index, if known then Some(l) else None);
    if reading.Iterating? {
      var it := reading.it;
      it.Seek(EncodeKey(k));
      if known {
        BytesOrder();
        IndexSorted(t);
        i := it.pos;
        BoundInIndex(t, k, i);
        InStep(it);
      }
      if it.HasEntry() {
        return Some(it.Value()), i;
      }
    }
    return None, i;
  }

  /** Reading the block a handle names and seeking in it. */
  method SeekBlock(file: Bytes, handleBytes: Bytes, k: InternalKey, verify: bool,
                   ghost h: Handle, ghost es: seq<Entry>, ghost l: Layout, ghost known: bool)
    returns (saved: Option<Pair>)
    requires |file| < TWO32
    requires known ==> handleBytes == EncodeHandle(h) && BlockStored(file, h, es, l) && Sorted(es)
    ensures known ==> var j := LowerBound(es, k);
                      saved == if j < |es| then Some(Pair(EncodeKey(es[j].key), es[j].value)) else None
  {
    hide KeyLess, BytesLess, EncodeKey, EncodeHandle, Sorted, StrictOrder, SortedPairs, Data, BlockFormat.Sound, LowerBoundOf, StoredAt;
    if known {
      HandleRoundTrip(h);
    }
    var handle := DecodeHandle(handleBytes);
    if handle.None? {
      return None;
    }
    var contents := ReadBlock(file, handle.value, verify);
    if contents.None? {
      return None;
    }
    var reading := NewIterator(BytesLess, contents.value, if known then Some(l) else None);
    if reading.Iterating? {
      var it := reading.it;
      it.Seek(EncodeKey(k));
      if known {
        BytesOrder();
        PairsSorted(es);
        BoundInBlock(es, k, it.pos);
        InStep(it);
      }
      if it.HasEntry() {
        return Some(Pair(it.key, it.Value()));
      }
    }
    return None;
  }

  /** The filter policy of a table hashes the user key only. */
  function UserHash(hash: Bytes -> Uint32): Bytes -> Uint32 {
    key => hash(ExtractUserKey(key))
  }

  /** What is handed to the caller decides its read exactly as a search of all the table's entries would. */
  ghost predicate Answers(saved: Option<Pair>, es: seq<Entry>, user: Bytes, s: SequenceNumber) {
    match Probe(es, user, s)
    case Some(e) => saved == Some(Pair(EncodeKey(e.key), e.value))
    case None => saved.None? || ExtractUserKey(saved.value.key) != user
  }

  ghost predicate IsFilter(filter: Option<Bytes>, hash: Bytes -> Uint32, t: Table, groups: seq<seq<Bytes>>) {
    filter.Some? ==>
      |filter.value| < TWO32 && IsFilterBlock(UserHash(hash), filter.value, groups) && Filtered(t, groups)
  }

  // A filter that denies a key has no entry of its user key in the block.
  lemma DeniedUser(hash: Bytes -> Uint32, t: Table, groups: seq<seq<Bytes>>, i: nat, k: InternalKey)
    requires Filtered(t, groups) && i < |t.blocks|
    ensures var g := t.handles[i].offset / FILTER_BASE;
            forall e :: e in t.blocks[i] && e.key.user == k.user ==> g < |groups| && HashIn(UserHash(hash), groups[g], EncodeKey(k))
  {
    hide EncodeKey;
    var g := t.handles[i].offset / FILTER_BASE;
    forall e | e in t.blocks[i] && e.key.user == k.user ensures g < |groups| && HashIn(UserHash(hash), groups[g], EncodeKey(k)) {
      ExtractEncoded(e.key);
      ExtractEncoded(k);
      assert KeyIn(groups, g, EncodeKey(e.key));
    }
  }

  lemma FoundInBlock(t: Table, user: Bytes, s: SequenceNumber, i: nat, saved: Option<Pair>)
    requires SeparatorsOk(t.blocks, t.seps) && |t.seps| == |t.blocks| && Sorted(Joined(t.blocks)) && i <= |t.seps|
    requires forall m :: 0 <= m < i ==> KeyLess(t.seps[m], LookupKey(user, s))
    requires i < |t.seps| ==> !KeyLess(t.seps[i], LookupKey(user, s))
    requires saved.None? ==> i == |t.seps| || NoEntry(t.blocks[i], user, s)
    requires saved.Some? ==> i < |t.seps| && var j := LowerBound(t.blocks[i], LookupKey(user, s));
                                             j < |t.blocks[i]| && saved.value == Pair(EncodeKey(t.blocks[i][j].key), t.blocks[i][j].value)
    ensures Answers(saved, Joined(t.blocks), user, s)
  {
    hide KeyLess, EncodeKey, SeparatorsOk, Sorted;
    OneBlockIsEnough(t.blocks, t.seps, user, s, i, if i < |t.seps| then LowerBound(t.blocks[i], LookupKey(user, s)) else 0);
    if saved.Some? {
      ExtractEncoded(t.blocks[i][LowerBound(t.blocks[i], LookupKey(user, s))].key);
    }
  }

  // The first entry at or after the lookup key is not of its user key.
  ghost predicate NoEntry(es: seq<Entry>, user: Bytes, s: SequenceNumber) {
    var j := LowerBound(es, LookupKey(user, s));
    j == |es| || es[j].key.user != user
  }

  /** Table::InternalGet: if what it hands on is not an entry of the user key sought, the table has none for it at
      or below the sequence number, whether there is a filter or not. */
  method InternalGet(file: Bytes, index: Bytes, filter: Option<Bytes>, hash: Bytes -> Uint32, user: Bytes, s: SequenceNumber,
                     verify: bool, ghost t: Table, ghost l: Layout, ghost groups: seq<seq<Bytes>>) returns (saved: Option<Pair>)
    requires |file| < TWO32 && |index| < TWO32
    ensures IsTable(file, index, t, l) && IsFilter(filter, hash, t, groups) ==> Answers(saved, Joined(t.blocks), user, s)
  {
    hide KeyLess, BytesLess, EncodeKey, EncodeHandle, SeparatorsOk, Sorted, Answers, BlockStored, IsIndex, IsFilterBlock, Filtered, Joined, HashIn;
    var k := LookupKey(user, s);
    ghost var known := IsTable(file, index, t, l) && IsFilter(filter, hash, t, groups);
    ghost var i: nat;
    var handle;
    handle, i := SeekIndex(index, k, t, l, known);
    if known {
      TableSizes(file, index, t, l);
    }
    if handle.None? {
      if known {
        FoundInBlock(t, user, s, i, None);
      }
      return None;
    }
    ghost var here := known && i < |t.seps|;
    if here {
      HandleRoundTrip(t.handles[i]);
      BlockSorted(t.blocks, i);
      if filter.Some? {
        DeniedUser(hash, t, groups, i, k);
      }
    }
    var h := DecodeHandle(handle.value);
    if filter.Some? && h.Some? {
      var may := MayMatchBlock(UserHash(hash), filter.value, h.value.offset, EncodeKey(k), groups);
      if !may {
        if here {
          NoneOfUser(t.blocks[i], user, s);
          FoundInBlock(t, user, s, i, None);
        }
        return None;
      }
    }
    saved := SeekBlock(file, handle.value, k, verify, if here then t.handles[i] else Handle(0, 0),
                       if here then t.blocks[i] else [], if here then t.layouts[i] else l, here);
    if here {
      FoundInBlock(t, user, s, i, saved);
    }
  }

  lemma TableSizes(file: Bytes, index: Bytes, t: Table, l: Layout)
    requires IsTable(file, index, t, l)
    ensures |t.seps| == |t.blocks| == |t.handles| == |t.layouts|
    ensures forall i :: 0 <= i < |t.blocks| ==> BlockStored(file, t.handles[i], t.blocks[i], t.layouts[i])
  {
  }

  lemma NoneOfUser(es: seq<Entry>, user: Bytes, s: SequenceNumber)
    requires forall e :: e in es ==> e.key.user != user
    ensures NoEntry(es, user, s)
  {
    var j := LowerBound(es, LookupKey(user, s));
    if j < |es| {
      assert es[j] in es;
    }
  }
}
