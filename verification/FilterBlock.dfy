/** The filter block of a table: one filter for the keys of the blocks that begin in each 2 KB of the file
    (table/filter_block.cc). */
module FilterBlocks {
  import opened Keys
  import opened Coding
  import opened Bloom
  import BlockFormat

  const FILTER_BASE_LG := 11
  const FILTER_BASE: nat := 2048

  /** Where filter g ends: where the next one begins, or the filters end. */
  function End(offsets: seq<nat>, size: nat, g: nat): nat
    requires g < |offsets|
  {
    if g + 1 < |offsets| then offsets[g + 1] else size
  }

  /** Filter g denies none of the keys of group g. */
  ghost predicate Admits(hash: Bytes -> Uint32, result: Bytes, offsets: seq<nat>, g: nat, keys: seq<Bytes>)
    requires g < |offsets|
  {
    && offsets[g] <= End(offsets, |result|, g) <= |result|
    && forall key :: key in keys ==> MayMatch(result[offsets[g]..End(offsets, |result|, g)], hash(key))
  }

  ghost predicate AllAdmit(hash: Bytes -> Uint32, result: Bytes, offsets: seq<nat>, groups: seq<seq<Bytes>>) {
    && |offsets| == |groups|
    && forall g :: 0 <= g < |groups| ==> Admits(hash, result, offsets, g, groups[g])
  }

  function Flat(keys: seq<Bytes>): Bytes {
    if keys == [] then [] else Flat(keys[..|keys| - 1]) + keys[|keys| - 1]
  }

  /** Where each key begins in the flattened keys. */
  ghost predicate Starts(keys: seq<Bytes>, starts: seq<nat>) {
    |starts| == |keys| && forall i :: 0 <= i < |keys| ==> starts[i] == |Flat(keys[..i])|
  }

  lemma FlatAppend(keys: seq<Bytes>, key: Bytes)
    ensures Flat(keys + [key]) == Flat(keys) + key
    ensures forall i :: 0 <= i <= |keys| ==> (keys + [key])[..i] == keys[..i]
  {
    assert (keys + [key])[..|keys|] == keys;
  }

  lemma {:induction false} FlatSlice(keys: seq<Bytes>, i: nat)
    requires i < |keys|
    ensures |Flat(keys[..i])| + |keys[i]| == |Flat(keys[..i + 1])| <= |Flat(keys)|
    ensures Flat(keys)[|Flat(keys[..i])|..|Flat(keys[..i + 1])|] == keys[i]
  {
    var n := |keys| - 1;
    if i < n {
      FlatSlice(keys[..n], i);
      assert keys[..n][..i] == keys[..i] && keys[..n][..i + 1] == keys[..i + 1];
    } else {
      assert keys[..i + 1] == keys;
    }
  }

  lemma AdmitsAfter(hash: Bytes -> Uint32, result: Bytes, offsets: seq<nat>, groups: seq<seq<Bytes>>,
                    filter: Bytes, keys: seq<Bytes>)
    requires AllAdmit(hash, result, offsets, groups)
    requires forall key :: key in keys ==> MayMatch(filter, hash(key))
    ensures AllAdmit(hash, result + filter, offsets + [|result|], groups + [keys])
  {
    hide MayMatch;
    var result', offsets', groups' := result + filter, offsets + [|result|], groups + [keys];
    forall g | 0 <= g < |groups'| ensures Admits(hash, result', offsets', g, groups'[g]) {
      if g < |groups| {
        assert Admits(hash, result, offsets, g, groups[g]);
        assert End(offsets', |result'|, g) == End(offsets, |result|, g);
        assert result'[offsets[g]..End(offsets, |result|, g)] == result[offsets[g]..End(offsets, |result|, g)];
      } else {
        assert result'[|result|..|result'|] == filter;
      }
    }
  }

  function KeyCount(groups: seq<seq<Bytes>>): nat {
    if groups == [] then 0 else KeyCount(groups[..|groups| - 1]) + |groups[|groups| - 1]|
  }

  /** What the filters of n keys take up at most, however the keys are grouped. */
  function FilterRoom(n: nat, bitsPerKey: nat): nat {
    n * (bitsPerKey + 9)
  }

  lemma OneMoreGroup(groups: seq<seq<Bytes>>, keys: seq<Bytes>)
    ensures KeyCount(groups + [keys]) == KeyCount(groups) + |keys|
  {
    assert (groups + [keys])[..|groups|] == groups;
  }

  lemma OneMoreFilter(n: nat, m: nat, bitsPerKey: nat, size: nat)
    requires m > 0 && size == (if m * bitsPerKey < 64 then 8 else (m * bitsPerKey + 7) / 8)
    ensures FilterRoom(n, bitsPerKey) + size + 1 <= FilterRoom(n + m, bitsPerKey)
  {
    assert size <= 8 + m * bitsPerKey;
    assert (n + m) * (bitsPerKey + 9) == n * (bitsPerKey + 9) + (m * bitsPerKey + 9 * m);
  }

  class FilterBlockBuilder {
    const hash: Bytes -> Uint32
    const bitsPerKey: nat
    const k: nat
    // The keys not yet in a filter, flattened, and where each begins.
    var keys: Bytes
    var start: seq<nat>
    var result: Bytes
    var filterOffsets: seq<nat>
    ghost var pending: seq<Bytes>
    // The keys in each filter.
    ghost var groups: seq<seq<Bytes>>

    ghost predicate Valid()
      reads this
    {
      && 1 <= k <= 30
      && keys == Flat(pending) && Starts(pending, start)
      && AllAdmit(hash, result, filterOffsets, groups)
      && (forall g :: 0 <= g < |filterOffsets| ==> filterOffsets[g] <= |result|)
      && |result| <= FilterRoom(KeyCount(groups), bitsPerKey)
    }

    // How many keys have been added.
    ghost function Gathered(): nat
      reads this
    {
      KeyCount(groups) + |pending|
    }

    constructor (hash: Bytes -> Uint32, bitsPerKey: nat, k: nat)
      requires 1 <= k <= 30
      ensures Valid() && pending == [] && groups == [] && this.hash == hash && this.bitsPerKey == bitsPerKey
    {
      this.hash, this.bitsPerKey, this.k := hash, bitsPerKey, k;
      keys, start, result, filterOffsets, pending, groups := [], [], [], [], [], [];
    }

    method AddKey(key: Bytes)
      requires Valid()
      modifies this`keys, this`start, this`pending
      ensures Valid() && pending == old(pending) + [key] && Gathered() == old(Gathered()) + 1
    {
      hide Flat, AllAdmit, KeyCount, FilterRoom;
      FlatAppend(pending, key);
      start := start + [|keys|];
      keys := keys + key;
      pending := pending + [key];
    }

    /** The keys gathered so far become the next filter; without any it is empty. */
    method GenerateFilter()
      requires Valid()
      modifies this
      ensures Valid() && pending == [] && groups == old(groups) + [old(pending)] && Gathered() == old(Gathered())
    {
      hide Flat, MayMatch, Matches, AllAdmit, KeyCount, FilterRoom;
      OneMoreGroup(groups, pending);
      SameStarts(pending, start);
      if |start| == 0 {
        NoKeys();
        AdmitsAfter(hash, result, filterOffsets, groups, [], []);
        assert result + [] == result;
        filterOffsets := filterOffsets + [|result|];
        groups := groups + [[]];
        assert pending == [];
        return;
      }
      start := start + [|keys|];
      var tmpKeys := SplitKeys(keys, start, pending);
      var filter := CreateFilter(hash, tmpKeys, bitsPerKey, k);
      Created(hash, filter, pending, k);
      OneMoreFilter(KeyCount(groups), |pending|, bitsPerKey, |filter| - 1);
      AdmitsAfter(hash, result, filterOffsets, groups, filter, pending);
      filterOffsets := filterOffsets + [|result|];
      result := result + filter;
      groups := groups + [pending];
      keys, start, pending := [], [], [];
      NoKeys();
    }

    /** A new block begins at this offset: filters are made for the parts of the file before its own. */
    method StartBlock(blockOffset: nat)
      requires Valid() && |groups| <= blockOffset / FILTER_BASE
      modifies this
      ensures Valid() && |groups| == blockOffset / 2048 && old(groups) <= groups
      ensures |groups| == |old(groups)| ==> pending == old(pending)
      ensures |groups| > |old(groups)| ==> groups[|old(groups)|] == old(pending) && pending == []
      ensures Gathered() == old(Gathered())
    {
      hide Flat, AllAdmit, Starts, Gathered;
      var filterIndex := blockOffset / FILTER_BASE;
      SameCount(hash, result, filterOffsets, groups);
      while filterIndex > |filterOffsets|
        invariant Valid() && |groups| == |filterOffsets| <= filterIndex && old(groups) <= groups && Gathered() == old(Gathered())
        invariant |groups| == |old(groups)| ==> pending == old(pending)
        invariant |groups| > |old(groups)| ==> groups[|old(groups)|] == old(pending) && pending == []
        decreases filterIndex - |filterOffsets|
      {
        GenerateFilter();
        SameCount(hash, result, filterOffsets, groups);
      }
    }

    /** The filters, where each begins, where these numbers begin, and the size of a part of the file. */
    method Finish() returns (contents: Bytes)
      requires Valid()
      modifies this
      ensures Valid()
      ensures groups == old(groups) + if old(pending) == [] then [] else [old(pending)]
      ensures IsFilterBlock(hash, contents, groups)
      ensures |contents| <= FilterRoom(old(Gathered()), bitsPerKey) + 4 * (|old(groups)| + 1) + 5
    {
      hide Flat, AllAdmit, Starts, BlockFormat.Numbers, Fixed, KeyCount, FilterRoom;
      SameStarts(pending, start);
      ghost var n := Gathered();
      assert start == [] ==> pending == [] && groups == groups + [];
      if start != [] {
        GenerateFilter();
      }
      contents := AppendNumbers(result, filterOffsets);
      contents := contents + Fixed(|result|, 4);
      contents := contents + [FILTER_BASE_LG];
      assert contents == FilterContents(result, filterOffsets);
      SameCount(hash, result, filterOffsets, groups);
      BlockFormat.NumbersSize(filterOffsets);
      assert |result| <= FilterRoom(n, bitsPerKey) by {
        assert KeyCount(groups) == n;
      }
    }
  }

  method AppendNumbers(data: Bytes, ns: seq<nat>) returns (r: Bytes)
    ensures r == data + BlockFormat.Numbers(ns)
  {
    hide BlockFormat.Numbers, Fixed;
    BlockFormat.NoNumbers(data, ns);
    r := data;
    for i := 0 to |ns|
      invariant r == data + BlockFormat.Numbers(ns[..i])
    {
      BlockFormat.OneMoreNumber(data, ns, i);
      r := r + Fixed(ns[i], 4);
    }
    assert ns[..|ns|] == ns;
  }

  function FilterContents(result: Bytes, offsets: seq<nat>): Bytes {
    result + BlockFormat.Numbers(offsets) + Fixed(|result|, 4) + [FILTER_BASE_LG]
  }

  /** A filter block in which filter g denies no key of group g. */
  ghost predicate IsFilterBlock(hash: Bytes -> Uint32, contents: Bytes, groups: seq<seq<Bytes>>) {
    exists result, offsets :: contents == FilterContents(result, offsets) && AllAdmit(hash, result, offsets, groups)
  }

  lemma SameStarts(keys: seq<Bytes>, start: seq<nat>)
    requires Starts(keys, start)
    ensures |keys| == |start|
  {
  }

  // What the reader finds where.
  lemma ContentsParts(result: Bytes, offsets: seq<nat>)
    requires |FilterContents(result, offsets)| < TWO32
    ensures var c, n := FilterContents(result, offsets), |offsets|;
            && |c| == |result| + 4 * n + 5 && c[|c| - 1] == 11
            && DecodeFixed32(c[|c| - 5..|c| - 1]) == |result| && c[..|result|] == result
  {
    hide BlockFormat.Numbers, Fixed;
    BlockFormat.NumbersSize(offsets);
    var numbers, last := BlockFormat.Numbers(offsets), Fixed(|result|, 4);
    var c := result + numbers + last + [FILTER_BASE_LG];
    assert c[|c| - 5..|c| - 1] == last;
    assert last == EncodeFixed32(|result|);
    assert c == result + (numbers + last + [FILTER_BASE_LG]);
  }

  lemma OffsetRead(result: Bytes, offsets: seq<nat>, g: nat)
    requires |FilterContents(result, offsets)| < TWO32 && g < |offsets|
    requires forall i :: 0 <= i < |offsets| ==> offsets[i] <= |result|
    ensures var c, at := FilterContents(result, offsets), |result| + 4 * g;
            && at + 8 <= |c|
            && DecodeFixed32(c[at..at + 4]) == offsets[g]
            && DecodeFixed32(c[at + 4..at + 8]) == End(offsets, |result|, g)
  {
    hide BlockFormat.Numbers, Fixed;
    ContentsParts(result, offsets);
    var c := FilterContents(result, offsets);
    NumberInContents(result, offsets, g);
    assert Fixed(offsets[g], 4) == EncodeFixed32(offsets[g]);
    if g + 1 < |offsets| {
      NumberInContents(result, offsets, g + 1);
      assert Fixed(offsets[g + 1], 4) == EncodeFixed32(offsets[g + 1]);
    } else {
      assert |result| + 4 * g + 4 == |c| - 5;
    }
  }

  lemma NumberInContents(result: Bytes, offsets: seq<nat>, g: nat)
    requires g < |offsets|
    ensures var c, at := FilterContents(result, offsets), |result| + 4 * g;
            at + 4 <= |c| && c[at..at + 4] == Fixed(offsets[g], 4)
  {
    hide BlockFormat.Numbers, Fixed;
    BlockFormat.NumberAt(offsets, g);
    var numbers := BlockFormat.Numbers(offsets);
    var c := result + numbers + (Fixed(|result|, 4) + [FILTER_BASE_LG]);
    assert c == FilterContents(result, offsets);
    assert c[|result| + 4 * g..|result| + 4 * g + 4] == numbers[4 * g..4 * g + 4];
  }

  /** Some key of a group has the hash of this one. */
  ghost predicate HashIn(hash: Bytes -> Uint32, group: seq<Bytes>, key: Bytes) {
    exists other :: other in group && hash(other) == hash(key)
  }

  /** A filter block that holds these filters, one after another. */
  ghost predicate Filled(contents: Bytes, result: Bytes, offsets: seq<nat>) {
    && |contents| < TWO32 && contents == FilterContents(result, offsets)
    && forall g :: 0 <= g < |offsets| ==> offsets[g] <= End(offsets, |result|, g) <= |result|
  }

  /** What filter g says of a key with this hash. */
  ghost predicate Asks(result: Bytes, offsets: seq<nat>, g: nat, h: Uint32)
    requires g < |offsets|
  {
    && offsets[g] <= End(offsets, |result|, g) <= |result|
    && MayMatch(result[offsets[g]..End(offsets, |result|, g)], h)
  }

  /** FilterBlockReader: a block asks the filter for the part of the file it begins in, and counts as a match if there is none.
      So a key that went into that filter is never denied. Anything that does not parse counts as a match. */
  method MayMatchBlock(hash: Bytes -> Uint32, contents: Bytes, blockOffset: nat, key: Bytes, ghost groups: seq<seq<Bytes>>)
    returns (r: bool)
    ensures forall result, offsets :: Filled(contents, result, offsets) ==>
              var g := blockOffset / FILTER_BASE;
              (r <==> g < |offsets| ==> Asks(result, offsets, g, hash(key)))
    ensures |contents| < 5 || DecodeFixed32(contents[|contents| - 5..|contents| - 1]) > |contents| - 5 ==> r
    ensures (|contents| < TWO32 && IsFilterBlock(hash, contents, groups)
             && blockOffset / FILTER_BASE < |groups| && HashIn(hash, groups[blockOffset / FILTER_BASE], key)) ==> r
  {
    hide FilterContents, DecodeFixed32, MayMatch, AllAdmit, Filled, End;
    ghost var g := blockOffset / FILTER_BASE;
    ghost var held, begins := [], [];
    if result, offsets :| Filled(contents, result, offsets) {
      held, begins := result, offsets;
      FilledRead(contents, held, begins, g);
    }
    r := AskFilter(hash, contents, blockOffset, key, held, begins);
    forall result, offsets | Filled(contents, result, offsets)
      ensures r <==> g < |offsets| ==> Asks(result, offsets, g, hash(key))
    {
      FilledRead(contents, result, offsets, g);
      OneReading(contents, held, begins, result, offsets, g, hash(key));
    }
    if |contents| < TWO32 && IsFilterBlock(hash, contents, groups) && g < |groups| && HashIn(hash, groups[g], key) {
      ghost var result, offsets :| contents == FilterContents(result, offsets) && AllAdmit(hash, result, offsets, groups);
      AdmittedFilled(hash, contents, result, offsets, groups, g, key);
    }
  }

  // What the reader finds in the block.
  ghost predicate ReadsAs(contents: Bytes, result: Bytes, offsets: seq<nat>, g: nat) {
    var n, at := |contents|, |result| + 4 * g;
    && n >= 5 && n == |result| + 4 * |offsets| + 5 && contents[n - 1] == FILTER_BASE_LG
    && DecodeFixed32(contents[n - 5..n - 1]) == |result|
    && (g < |offsets| ==>
          && offsets[g] <= End(offsets, |result|, g) <= |result| && at + 8 <= n
          && DecodeFixed32(contents[at..at + 4]) == offsets[g] && DecodeFixed32(contents[at + 4..at + 8]) == End(offsets, |result|, g)
          && contents[offsets[g]..End(offsets, |result|, g)] == result[offsets[g]..End(offsets, |result|, g)])
  }

  lemma FilledRead(contents: Bytes, result: Bytes, offsets: seq<nat>, g: nat)
    requires Filled(contents, result, offsets)
    ensures ReadsAs(contents, result, offsets, g)
  {
    hide FilterContents, DecodeFixed32;
    ContentsParts(result, offsets);
    if g < |offsets| {
      forall i | 0 <= i < |offsets| ensures offsets[i] <= |result| {
        assert offsets[i] <= End(offsets, |result|, i);
      }
      OffsetRead(result, offsets, g);
      var start, limit := offsets[g], End(offsets, |result|, g);
      assert contents[start..limit] == contents[..|result|][start..limit];
    }
  }

  lemma OneReading(contents: Bytes, result: Bytes, offsets: seq<nat>, result': Bytes, offsets': seq<nat>, g: nat, h: Uint32)
    requires ReadsAs(contents, result, offsets, g) && ReadsAs(contents, result', offsets', g)
    ensures |offsets| == |offsets'| && (g < |offsets| ==> (Asks(result, offsets, g, h) <==> Asks(result', offsets', g, h)))
  {
    hide DecodeFixed32, MayMatch, End;
  }

  method AskFilter(hash: Bytes -> Uint32, contents: Bytes, blockOffset: nat, key: Bytes, ghost result: Bytes, ghost offsets: seq<nat>)
    returns (r: bool)
    ensures var g := blockOffset / FILTER_BASE;
            ReadsAs(contents, result, offsets, g) ==> (r <==> g < |offsets| ==> Asks(result, offsets, g, hash(key)))
    ensures |contents| < 5 || DecodeFixed32(contents[|contents| - 5..|contents| - 1]) > |contents| - 5 ==> r
  {
    hide DecodeFixed32, MayMatch, FilterIndex, End;
    IndexIs(blockOffset);
    var n := |contents|;
    if n < 5 {
      return true;
    }
    var baseLg: nat := contents[n - 1];
    var lastWord := DecodeFixed32(contents[n - 5..n - 1]);
    if lastWord > n - 5 {
      return true;
    }
    var num := (n - 5 - lastWord) / 4;
    var index := FilterIndex(blockOffset, baseLg);
    if index < num {
      var at := lastWord + index * 4;
      var start, limit := DecodeFixed32(contents[at..at + 4]), DecodeFixed32(contents[at + 4..at + 8]);
      if start <= limit <= lastWord {
        r := KeyMayMatch(hash, key, contents[start..limit]);
        return r;
      } else if start == limit {
        return false;
      }
    }
    return true;
  }

  lemma IndexIs(blockOffset: nat)
    ensures FilterIndex(blockOffset, FILTER_BASE_LG) == blockOffset / FILTER_BASE
  {
    assert Power(2, 5) == 32;
  }

  lemma AdmittedFilled(hash: Bytes -> Uint32, contents: Bytes, result: Bytes, offsets: seq<nat>, groups: seq<seq<Bytes>>, g: nat, key: Bytes)
    requires |contents| < TWO32 && contents == FilterContents(result, offsets) && AllAdmit(hash, result, offsets, groups)
    requires g < |groups| && HashIn(hash, groups[g], key)
    ensures Filled(contents, result, offsets) && g < |offsets| && Asks(result, offsets, g, hash(key))
  {
    hide FilterContents, MayMatch;
    forall i | 0 <= i < |offsets| ensures offsets[i] <= End(offsets, |result|, i) <= |result| {
      assert Admits(hash, result, offsets, i, groups[i]);
    }
    assert Admits(hash, result, offsets, g, groups[g]);
  }

  // blockOffset >> baseLg
  function FilterIndex(blockOffset: nat, baseLg: nat): nat {
    PowerPositive(baseLg);
    blockOffset / Power(2, baseLg)
  }

  lemma PowerPositive(n: nat)
    ensures Power(2, n) > 0
  {
  }

  // The keys, from the flattened form.
  method SplitKeys(flat: Bytes, starts: seq<nat>, ghost keys: seq<Bytes>) returns (r: seq<Bytes>)
    requires flat == Flat(keys) && |starts| == |keys| + 1 && Starts(keys, starts[..|keys|]) && starts[|keys|] == |flat|
    ensures r == keys
  {
    hide Flat;
    r := [];
    FlatWhole(keys);
    for i := 0 to |starts| - 1
      invariant r == keys[..i]
    {
      FlatSlice(keys, i);
      assert starts[i] == starts[..|keys|][i] == |Flat(keys[..i])|;
      assert starts[i + 1] == |Flat(keys[..i + 1])| by {
        if i + 1 < |keys| {
          assert starts[i + 1] == starts[..|keys|][i + 1];
        }
      }
      r := r + [flat[starts[i]..starts[i + 1]]];
    }
  }

  lemma SameCount(hash: Bytes -> Uint32, result: Bytes, offsets: seq<nat>, groups: seq<seq<Bytes>>)
    requires AllAdmit(hash, result, offsets, groups)
    ensures |offsets| == |groups|
  {
  }

  lemma NoKeys()
    ensures Flat([]) == [] && Starts([], [])
  {
  }

  lemma FlatWhole(keys: seq<Bytes>)
    ensures keys[..|keys|] == keys
  {
  }

  lemma Created(hash: Bytes -> Uint32, filter: Bytes, keys: seq<Bytes>, k: nat)
    requires |filter| >= 2 && filter[|filter| - 1] == k <= 30
    requires forall key :: key in keys ==> Matches(filter[..|filter| - 1], hash(key), k)
    ensures forall key :: key in keys ==> MayMatch(filter, hash(key))
  {
    hide Matches;
  }
}
