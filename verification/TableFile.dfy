/** A whole table file, and opening and reading it from nothing but its bytes (table/table.cc, db/table_cache.cc). */
module TableFiles {
  import opened Keys
  import opened Contents
  import opened Versions
  import opened Coding
  import opened Separators
  import opened BlockFormat
  import opened BlockIters
  import opened FilterBlocks
  import opened TableFormat
  import opened Tables

  /** A filter policy: its name, the hash of a user key, and the size and number of hashes of its filters. */
  datatype Policy = Policy(name: Bytes, hash: Bytes -> Uint32, bitsPerKey: nat, probes: nat)

  /** What a file was built from. */
  datatype TableParts = TableParts(t: Table, index: Layout, meta: Layout, footer: Footer, filterHandle: Handle, filter: Bytes,
                                   groups: seq<seq<Bytes>>)

  // "filter." and the name of the policy.
  function FilterKey(name: Bytes): Bytes {
    [0x66, 0x69, 0x6c, 0x74, 0x65, 0x72, 0x2e] + name
  }

  function MetaPairs(policy: Option<Policy>, filterHandle: Handle): seq<Pair> {
    if policy.None? then [] else [Pair(FilterKey(policy.value.name), EncodeHandle(filterHandle))]
  }

  ghost predicate Layouts(p: TableParts) {
    Sound(p.index) && Sound(p.meta) && |BlockBytes(p.meta)| < TWO32
  }

  /** The file ends in a footer that names its metaindex and its index; the metaindex names its filter. */
  ghost predicate IsTableFile(file: Bytes, policy: Option<Policy>, p: TableParts) {
    && Layouts(p) && FOOTER <= |file| < TWO32 && file[|file| - FOOTER..] == EncodeFooter(p.footer)
    && StoredAt(file, p.footer.index, BlockBytes(p.index)) && IsTable(file, BlockBytes(p.index), p.t, p.index)
    && StoredAt(file, p.footer.meta, BlockBytes(p.meta)) && p.meta.pairs == MetaPairs(policy, p.filterHandle)
    && (policy.Some? ==> StoredAt(file, p.filterHandle, p.filter) && IsFilter(Some(p.filter), policy.value.hash, p.t, p.groups))
  }

  /** Two policies of one name are one. */
  predicate SameNames(a: Option<Policy>, b: Option<Policy>) {
    a.Some? && b.Some? && a.value.name == b.value.name
  }

  ghost predicate Agree(a: Option<Policy>, b: Option<Policy>) {
    SameNames(a, b) ==> a.value.hash == b.value.hash
  }

  datatype Opened = Opened(index: Bytes, filter: Option<Bytes>)

  /** Table::Open: the index is read, and the filter if the file has one of the policy's name. */
  method Open(file: Bytes, policy: Option<Policy>, verify: bool, ghost built: Option<Policy>, ghost p: TableParts)
    returns (r: Option<Opened>)
    requires |file| < TWO32
    ensures IsTableFile(file, built, p) ==>
              r == Some(Opened(BlockBytes(p.index), if SameNames(policy, built) then Some(p.filter) else None))
    ensures r.Some? ==> |r.value.index| < TWO32
  {
    hide StoredAt, IsTable, IsFilter, EncodeFooter, DecodeFooter, BlockBytes, Sound;
    if |file| < FOOTER {
      return None;
    }
    FooterRoundTrip(p.footer);
    var footer := DecodeFooter(file[|file| - FOOTER..]);
    if footer.None? {
      return None;
    }
    var index := ReadBlock(file, footer.value.index, verify);
    if index.None? {
      return None;
    }
    var filter := ReadMeta(file, footer.value.meta, policy, verify, built, p);
    return Some(Opened(index.value, filter));
  }

  /** ReadMeta and ReadFilter: whatever is amiss with them, the table can be read without its filter. */
  method ReadMeta(file: Bytes, meta: Handle, policy: Option<Policy>, verify: bool, ghost built: Option<Policy>, ghost p: TableParts)
    returns (filter: Option<Bytes>)
    requires |file| < TWO32
    ensures IsTableFile(file, built, p) && meta == p.footer.meta ==>
              filter == if SameNames(policy, built) then Some(p.filter) else None
  {
    hide StoredAt, IsTable, IsFilter, EncodeFooter, EncodeHandle, DecodeHandle, BlockBytes, Sound, Data, Less, FilterKey, StrictOrder;
    if policy.None? {
      return None;
    }
    ghost var known := IsTableFile(file, built, p) && meta == p.footer.meta;
    var contents := ReadBlock(file, meta, verify);
    if contents.None? {
      return None;
    }
    var reading := BlockIters.NewIterator(Less, contents.value, if known then Some(p.meta) else None);
    if !reading.Iterating? {
      return None;
    }
    var it := reading.it;
    var key := FilterKey(policy.value.name);
    it.Seek(key);
    if known {
      UserKeysOrder();
      InStep(it);
      FilterKeys(policy.value.name, built, p.filterHandle, it.pos);
      HandleRoundTrip(p.filterHandle);
    }
    if it.HasEntry() && it.key == key {
      var h := DecodeHandle(it.Value());
      if h.Some? {
        filter := ReadBlock(file, h.value, verify);
        return;
      }
    }
    return None;
  }

  lemma UserKeysOrder()
    ensures StrictOrder(Less)
  {
    UserOrder();
    var less := Less;
    forall a, b, c {:trigger less(a, b), less(a, c)} | less(a, b) ensures less(a, c) || less(c, b) {
    }
  }

  // Seeking the key of a policy finds it if the filter is that policy's.
  lemma FilterKeys(name: Bytes, built: Option<Policy>, h: Handle, at: nat)
    requires LowerBoundOf(Less, MetaPairs(built, h), FilterKey(name), at)
    ensures built.Some? && built.value.name == name ==> at == 0
    ensures at < |MetaPairs(built, h)| ==>
              built.Some? && at == 0 && (MetaPairs(built, h)[at].key == FilterKey(name) <==> built.value.name == name)
  {
    UserOrder();
    if built.Some? {
      var other := FilterKey(built.value.name);
      assert !Less(other, other) && MetaPairs(built, h)[0].key == other;
      assert other[7..] == built.value.name && FilterKey(name)[7..] == name;
    }
  }

  /** TableCache::Get: of a file that was built from some entries, what is handed on decides the read as a search of
      these entries would. */
  method Get(file: Bytes, policy: Option<Policy>, user: Bytes, s: SequenceNumber, verify: bool,
             ghost built: Option<Policy>, ghost p: TableParts)
    returns (ok: bool, saved: Option<Pair>)
    requires |file| < TWO32
    ensures IsTableFile(file, built, p) && Agree(policy, built) ==> ok && Answers(saved, Joined(p.t.blocks), user, s)
  {
    hide StoredAt, IsTable, EncodeFooter, BlockBytes, Sound, Answers, Joined, IsFilterBlock, Filtered;
    var table := Open(file, policy, verify, built, p);
    if table.None? {
      return false, None;
    }
    var hash := if policy.Some? then policy.value.hash else (key: Bytes) => 0;
    saved := InternalGet(file, table.value.index, table.value.filter, hash, user, s, verify, p.t, p.index, p.groups);
    ok := true;
  }
}
