/** Building a table file from sorted entries and reading it again (db/builder.cc, db/table_cache.cc). */
module TableBuilding {
  import opened Keys
  import opened Contents
  import opened Versions
  import opened Coding
  import opened BlockFormat
  import opened BlockBuilders
  import opened TableFormat
  import opened Tables
  import opened TableFiles
  import opened TableBuilders

  /** BuildTable: every entry is added, in order. There is no file for no entries; a file that would outgrow 32 bits is
      given up, and none does while the bound on its size fits them. */
  method BuildTable(es: seq<Entry>, blockSize: nat, interval: nat, policy: Option<Policy>)
    returns (file: Option<Bytes>, ghost p: TableParts)
    requires Sorted(es) && interval >= 1 && (policy.Some? ==> 1 <= policy.value.probes <= 30)
    ensures es == [] ==> file.None?
    ensures file.Some? ==> IsTableFile(file.value, policy, p) && Joined(p.t.blocks) == es && |file.value| <= SizeBound(es, policy)
    ensures es != [] && SizeBound(es, policy) < TWO32 ==> file.Some?
    ensures file.Some? ==> WellCut(p.t, interval, blockSize) && Regular(p.index, 1)
  {
    hide KeyLess, IsTableFile, Joined, BlockBuilder.Valid, BlockBuilder.CurrentSizeEstimate, BlockBytes, TableBuilder.Valid,
         TableBuilder.Entries, SizeBound, DataBound, IndexBound,
         AllCut, WellCut, Regular, TableBuilder.InProgress;
    p := TableParts(Table([], [], [], []), Empty(), Empty(), Footer(Handle(0, 0), Handle(0, 0)), Handle(0, 0), [], []);
    if es == [] {
      return None, p;
    }
    var builder := new TableBuilder(blockSize, interval, policy);
    NothingCut(builder);
    for i := 0 to |es|
      invariant builder.Valid() && !builder.closed && builder.Entries() == es[..i] && builder.policy == policy
      invariant builder.dataBlock.interval == interval && builder.indexBlock.interval == 1 && builder.blockSize == blockSize
      invariant builder.InProgress()
      invariant fresh(builder) && fresh(builder.dataBlock) && fresh(builder.indexBlock)
      invariant builder.filterBlock != null ==> fresh(builder.filterBlock)
    {
      builder.Parts();
      builder.LastAdded();
      builder.Sizes();
      RoomLeft(es, i, policy);
      if !Room(builder, |es[i].key.user| + |es[i].value|) {
        return None, p;
      }
      assert i > 0 ==> KeyLess(es[i - 1].key, es[i].key);
      builder.Add(es[i]);
    }
    assert es[..|es|] == es;
    builder.Parts();
    builder.Sizes();
    WholeRoom(es, policy);
    builder.Progress();
    if !Room(builder, 0) {
      return None, p;
    }
    var ok;
    ok, p := builder.Finish();
    file := if ok then Some(builder.file) else None;
  }

  lemma NothingCut(builder: TableBuilder)
    requires builder.Valid() && !builder.closed && builder.t.blocks == [] && builder.t.layouts == [] && builder.current == []
    ensures builder.InProgress()
  {
    hide Built, FilterFits, Sized;
  }

  lemma RoomLeft(es: seq<Entry>, i: nat, policy: Option<Policy>)
    requires i < |es|
    ensures DataBound(es[..i]) + |es[i].key.user| + |es[i].value| + 64 <= SizeBound(es, policy)
    ensures IndexBound(es[..i]) + 64 <= SizeBound(es, policy)
  {
    assert es[..i + 1] == es[..i] + [es[i]];
    BytesMore(es[..i], es[i]);
    BytesOfPrefix(es, i + 1);
  }

  lemma WholeRoom(es: seq<Entry>, policy: Option<Policy>)
    ensures DataBound(es) + 64 <= SizeBound(es, policy) && IndexBound(es) + 64 <= SizeBound(es, policy)
  {
  }

  // Offsets stay within 32 bits.
  predicate Room(builder: TableBuilder, n: nat)
    requires builder.dataBlock.Valid() && !builder.dataBlock.finished && builder.indexBlock.Valid() && !builder.indexBlock.finished
    reads builder, builder.dataBlock, builder.indexBlock
  {
    && builder.offset + builder.dataBlock.CurrentSizeEstimate() + n + 64 < TWO32
    && builder.indexBlock.CurrentSizeEstimate() + |builder.lastKey.user| + 64 < TWO32
  }

  /** From builder to lookup: what a table built from some entries hands on decides every read as a search of these
      entries would, with a filter or without, and also for a reader that knows of no filter. There is such a table
      whenever the bound on its size fits 32 bits. */
  method ReadBack(es: seq<Entry>, blockSize: nat, interval: nat, built: Option<Policy>, policy: Option<Policy>,
                  user: Bytes, s: SequenceNumber, verify: bool)
    returns (ok: bool, saved: Option<Pair>)
    requires Sorted(es) && interval >= 1 && (built.Some? ==> 1 <= built.value.probes <= 30) && Agree(policy, built)
    ensures ok ==> Answers(saved, es, user, s)
    ensures es != [] && SizeBound(es, built) < TWO32 ==> ok && Answers(saved, es, user, s)
  {
    hide SizeBound, IsTableFile, Joined, Answers, Sorted;
    var file;
    ghost var p;
    file, p := BuildTable(es, blockSize, interval, built);
    if file.None? {
      return false, None;
    }
    FileSize(file.value, built, p);
    ok, saved := Get(file.value, policy, user, s, verify, built, p);
  }

  lemma FileSize(file: Bytes, policy: Option<Policy>, p: TableParts)
    requires IsTableFile(file, policy, p)
    ensures |file| < TWO32
  {
  }
}
