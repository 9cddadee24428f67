/** One version of the store's files: seven levels of sorted tables, the searches over them and
    the reads they answer (db/version_set.cc). */
module Versions {
  import opened Keys
  import opened Contents

  const NUM_LEVELS := 7
  const MAX_MEM_COMPACT_LEVEL := 2

  datatype File = File(number: nat, size: nat, smallest: InternalKey, largest: InternalKey, entries: seq<Entry>)

  type Levels = seq<seq<File>>

  ghost predicate ValidFile(f: File) {
    f.entries != [] && Sorted(f.entries) &&
    f.smallest == f.entries[0].key && f.largest == f.entries[|f.entries|-1].key
  }

  ghost predicate ValidFiles(files: seq<File>) {
    forall f :: f in files ==> ValidFile(f)
  }

  /** The files of a level from 1 on, in order and without overlap in internal keys. */
  ghost predicate Disjoint(files: seq<File>) {
    forall i, j :: 0 <= i < j < |files| ==> KeyLess(files[i].largest, files[j].smallest)
  }

  ghost function FileContents(files: seq<File>): set<Entry> {
    set f, e | f in files && e in f.entries :: e
  }

  ghost function LevelContents(levels: Levels): set<Entry> {
    set l, f, e | 0 <= l < |levels| && f in levels[l] && e in f.entries :: e
  }

  ghost predicate ValidLevels(levels: Levels) {
    |levels| == NUM_LEVELS &&
    (forall l :: 0 <= l < NUM_LEVELS ==> ValidFiles(levels[l])) &&
    (forall l :: 1 <= l < NUM_LEVELS ==> Disjoint(levels[l]))
  }

  /** Level-0 files are told apart, and ordered by age, by their numbers. */
  ghost predicate NewerByNumber(files: seq<File>) {
    forall f, g :: f in files && g in files && f != g ==>
                     f.number != g.number && (f.number > g.number ==> Newer(Elems(f.entries), Elems(g.entries)))
  }

  /** Per user key, every level holds newer entries than the levels below it. */
  ghost predicate Layered(levels: Levels)
    requires |levels| == NUM_LEVELS
  {
    NewerByNumber(levels[0]) &&
    forall l, m :: 0 <= l < m < NUM_LEVELS ==> Newer(FileContents(levels[l]), FileContents(levels[m]))
  }

  lemma FileBounds(f: File, e: Entry)
    requires ValidFile(f) && e in f.entries
    ensures !KeyLess(e.key, f.smallest) && !KeyLess(f.largest, e.key)
    ensures !Less(e.key.user, f.smallest.user) && !Less(f.largest.user, e.key.user)
  {
    KeyOrder();
    UserOrder();
    var i :| 0 <= i < |f.entries| && f.entries[i] == e;
    assert i == 0 || KeyLess(f.entries[0].key, f.entries[i].key);
    assert i == |f.entries| - 1 || KeyLess(f.entries[i].key, f.entries[|f.entries|-1].key);
  }

  lemma DisjointLargest(files: seq<File>, i: int, j: int)
    requires ValidFiles(files) && Disjoint(files) && 0 <= i < j < |files|
    ensures KeyLess(files[i].largest, files[j].largest) && KeyLess(files[i].smallest, files[j].smallest)
    ensures !Less(files[j].smallest.user, files[i].largest.user)
  {
    KeyOrder();
    UserOrder();
    var f, g := files[i], files[j];
    assert ValidFile(f) && ValidFile(g);
    FileBounds(f, f.entries[0]);
    FileBounds(g, g.entries[0]);
  }

  /** The index of the first entry at or after a key. */
  function LowerBound(es: seq<Entry>, key: InternalKey): (r: nat)
    ensures r <= |es|
    ensures forall i :: 0 <= i < r ==> KeyLess(es[i].key, key)
    ensures r < |es| ==> !KeyLess(es[r].key, key)
  {
    if es == [] || !KeyLess(es[0].key, key) then 0 else 1 + LowerBound(es[1..], key)
  }

  lemma LowerBoundIs(es: seq<Entry>, key: InternalKey, at: nat)
    requires at <= |es|
    requires forall i :: 0 <= i < at ==> KeyLess(es[i].key, key)
    requires at < |es| ==> !KeyLess(es[at].key, key)
    ensures LowerBound(es, key) == at
  {
    var bound := LowerBound(es, key);
  }

  function LookupKey(user: Bytes, s: SequenceNumber): InternalKey {
    InternalKey(user, s, KIND_FOR_SEEK)
  }

  /** What a table or memtable lookup hands back: the first entry at or after the lookup key, if
      it belongs to the sought user key. */
  function Probe(es: seq<Entry>, user: Bytes, s: SequenceNumber): Option<Entry> {
    var i := LowerBound(es, LookupKey(user, s));
    if i < |es| && es[i].key.user == user then Some(es[i]) else None
  }

  /** The result of searching one source, or several in order, for a user key at a sequence number. */
  ghost predicate FindsNewest(E: set<Entry>, user: Bytes, s: nat, r: Option<Entry>) {
    match r
    case Some(e) => IsNewest(E, user, s, e)
    case None => forall e :: e in E ==> !Visible(e, user, s)
  }

  lemma LookupKeySplits(e: InternalKey, user: Bytes, s: SequenceNumber)
    requires e.user == user
    ensures KeyLess(e, LookupKey(user, s)) <==> e.seqno > s
  {
    UserOrder();
    assert e.kind.Code() <= 1 == KIND_FOR_SEEK.Code();
  }

  lemma ProbeFindsNewest(es: seq<Entry>, user: Bytes, s: SequenceNumber)
    requires Sorted(es)
    ensures FindsNewest(Elems(es), user, s, Probe(es, user, s))
  {
    KeyOrder();
    UserOrder();
    var key := LookupKey(user, s);
    var r := LowerBound(es, key);
    forall i | 0 <= i < |es| && Visible(es[i], user, s)
      ensures r <= i && Probe(es, user, s).Some? && es[i].key.seqno <= es[r].key.seqno
    {
      LookupKeySplits(es[i].key, user, s);
      assert i == r || KeyLess(es[r].key, es[i].key);
    }
    if Probe(es, user, s).Some? {
      LookupKeySplits(es[r].key, user, s);
    }
  }

  /** Binary search for the earliest file whose largest key is at or after key. */
  method FindFile(files: seq<File>, key: InternalKey) returns (index: nat)
    requires ValidFiles(files) && Disjoint(files)
    ensures index <= |files|
    ensures forall i :: 0 <= i < index ==> KeyLess(files[i].largest, key)
    ensures forall i :: index <= i < |files| ==> !KeyLess(files[i].largest, key)
  {
    KeyOrder();
    var left, right := 0, |files|;
    while left < right
      invariant 0 <= left <= right <= |files|
      invariant forall i :: 0 <= i < left ==> KeyLess(files[i].largest, key)
      invariant forall i :: right <= i < |files| ==> !KeyLess(files[i].largest, key)
    {
      var mid := (left + right) / 2;
      if KeyLess(files[mid].largest, key) {
        forall i | left <= i < mid ensures KeyLess(files[i].largest, key) {
          DisjointLargest(files, i, mid);
        }
        left := mid + 1;
      } else {
        forall i | mid < i < right ensures !KeyLess(files[i].largest, key) {
          DisjointLargest(files, mid, i);
        }
        right := mid;
      }
    }
    index := right;
  }

  ghost predicate NewestFirst(files: seq<File>) {
    forall i, j :: 0 <= i < j < |files| ==> files[i].number >= files[j].number
  }

  method SortNewestFirst(files: seq<File>) returns (sorted: seq<File>)
    ensures forall f :: f in sorted <==> f in files
    ensures NewestFirst(sorted)
  {
    sorted := [];
    for n := 0 to |files|
      invariant forall f :: f in sorted <==> f in files[..n]
      invariant NewestFirst(sorted)
    {
      sorted := InsertNewestFirst(sorted, files[n]);
      assert files[..n+1] == files[..n] + [files[n]];
    }
    assert files[..|files|] == files;
  }

  method InsertNewestFirst(files: seq<File>, f: File) returns (r: seq<File>)
    requires NewestFirst(files)
    ensures NewestFirst(r)
    ensures forall g :: g in r <==> g in files || g == f
  {
    var at := 0;
    while at < |files| && files[at].number > f.number
      invariant 0 <= at <= |files|
      invariant forall i :: 0 <= i < at ==> files[i].number > f.number
    {
      at := at + 1;
    }
    assert files == files[..at] + files[at..];
    r := files[..at] + [f] + files[at..];
  }

  /** The files whose user-key range holds a key; the others have no entry for it. */
  method FilesAround(files: seq<File>, user: Bytes) returns (tmp: seq<File>)
    requires ValidFiles(files)
    ensures forall f :: f in tmp ==> f in files
    ensures forall f, e :: f in files && e in f.entries && e.key.user == user ==> f in tmp
  {
    tmp := [];
    for i := 0 to |files|
      invariant forall f :: f in tmp ==> f in files
      invariant forall j, e :: 0 <= j < i && e in files[j].entries && e.key.user == user ==> files[j] in tmp
    {
      var f := files[i];
      if !Less(user, f.smallest.user) && !Less(f.largest.user, user) {
        tmp := tmp + [f];
      } else {
        forall e | e in f.entries ensures e.key.user != user {
          FileBounds(f, e);
        }
      }
    }
  }

  /** Level 0: every file whose user-key range holds the key, newest first, until one has it. */
  method GetLevel0(files: seq<File>, user: Bytes, s: SequenceNumber) returns (r: Option<Entry>)
    requires ValidFiles(files) && NewerByNumber(files)
    ensures FindsNewest(FileContents(files), user, s, r)
  {
    var tmp := FilesAround(files, user);
    tmp := SortNewestFirst(tmp);
    for i := 0 to |tmp|
      invariant forall j :: 0 <= j < i ==> FindsNewest(Elems(tmp[j].entries), user, s, None)
    {
      var f := tmp[i];
      assert f in tmp;
      ProbeFindsNewest(f.entries, user, s);
      r := Probe(f.entries, user, s);
      if r.Some? {
        NewestFileWins(files, tmp, i, user, s, r.value);
        return;
      }
    }
    forall e | e in FileContents(files) ensures !Visible(e, user, s) {
      var g :| g in files && e in g.entries;
      if g in tmp {
        var j :| 0 <= j < |tmp| && tmp[j] == g;
        assert e in Elems(g.entries);
      }
    }
    r := None;
  }

  lemma NewestFileWins(files: seq<File>, tmp: seq<File>, i: int, user: Bytes, s: nat, e: Entry)
    requires NewerByNumber(files) && 0 <= i < |tmp|
    requires forall f :: f in tmp ==> f in files
    requires forall f, e :: f in files && e in f.entries && e.key.user == user ==> f in tmp
    requires NewestFirst(tmp)
    requires forall j :: 0 <= j < i ==> FindsNewest(Elems(tmp[j].entries), user, s, None)
    requires IsNewest(Elems(tmp[i].entries), user, s, e)
    ensures IsNewest(FileContents(files), user, s, e)
  {
    var f := tmp[i];
    assert f in tmp && e in f.entries;
    forall o | o in FileContents(files) && Visible(o, user, s) ensures o.key.seqno <= e.key.seqno {
      var g :| g in files && o in g.entries;
      var j :| 0 <= j < |tmp| && tmp[j] == g;
      assert o in Elems(g.entries) && i <= j;
      assert g == f || Newer(Elems(f.entries), Elems(g.entries));
    }
  }

  /** A level from 1 on: at most one file can hold the newest visible entry. */
  method GetDeeper(files: seq<File>, user: Bytes, s: SequenceNumber) returns (r: Option<Entry>)
    requires ValidFiles(files) && Disjoint(files)
    ensures FindsNewest(FileContents(files), user, s, r)
  {
    KeyOrder();
    UserOrder();
    ghost var E := FileContents(files);
    var key := LookupKey(user, s);
    var index := FindFile(files, key);
    forall e | e in E && Visible(e, user, s)
      ensures exists j :: index <= j < |files| && e in files[j].entries
    {
      var f :| f in files && e in f.entries;
      var j :| 0 <= j < |files| && files[j] == f;
      FileBounds(f, e);
      LookupKeySplits(e.key, user, s);
    }
    if index >= |files| {
      return None;
    }
    var f := files[index];
    assert ValidFile(f);
    if Less(user, f.smallest.user) {
      forall e | e in E ensures !Visible(e, user, s) {
        if Visible(e, user, s) {
          var j :| index <= j < |files| && e in files[j].entries;
          UserBeforeFiles(files, index, j, user, e);
        }
      }
      return None;
    }
    ProbeFindsNewest(f.entries, user, s);
    r := Probe(f.entries, user, s);
    ghost var n := LowerBound(f.entries, key);
    assert n < |f.entries| by {
      assert !KeyLess(f.largest, key);
    }
    forall e | e in E && Visible(e, user, s)
      ensures r.Some? && e.key.seqno <= r.value.key.seqno
    {
      var j :| index <= j < |files| && e in files[j].entries;
      if j == index {
        assert e in Elems(f.entries);
      } else {
        LaterFileLater(files, index, j, n, e);
        assert KeyLess(f.entries[n].key, e.key);
        LookupKeySplits(e.key, user, s);
        SqueezeUser(key, f.entries[n].key, e.key);
      }
    }
    assert r.Some? ==> r.value in E;
  }

  // A user key before the start of a file is in none of the files from there on.
  lemma UserBeforeFiles(files: seq<File>, i: int, j: int, user: Bytes, e: Entry)
    requires ValidFiles(files) && Disjoint(files) && 0 <= i <= j < |files|
    requires Less(user, files[i].smallest.user) && e in files[j].entries
    ensures e.key.user != user
  {
    KeyOrder();
    UserOrder();
    FileBounds(files[j], e);
    if i < j {
      DisjointLargest(files, i, j);
    }
  }

  // Entries of a later file of the level come after all entries of an earlier one.
  lemma LaterFileLater(files: seq<File>, i: int, j: int, n: int, e: Entry)
    requires ValidFiles(files) && Disjoint(files) && 0 <= i < j < |files|
    requires 0 <= n < |files[i].entries| && e in files[j].entries
    ensures KeyLess(files[i].entries[n].key, e.key)
  {
    KeyOrder();
    FileBounds(files[i], files[i].entries[n]);
    FileBounds(files[j], e);
    assert KeyLess(files[i].largest, files[j].smallest);
  }

  lemma SqueezeUser(a: InternalKey, b: InternalKey, c: InternalKey)
    requires !KeyLess(b, a) && KeyLess(b, c) && a.user == c.user
    ensures b.user == a.user && b.seqno >= c.seqno
  {
    KeyOrder();
    UserOrder();
  }

  /** A hit in one level is the newest visible entry of all levels when the levels searched before
      it hold nothing visible. */
  lemma HitIsNewest(levels: Levels, level: int, user: Bytes, s: nat, e: Entry)
    requires |levels| == NUM_LEVELS && Layered(levels) && 0 <= level < NUM_LEVELS
    requires forall l :: 0 <= l < level ==> FindsNewest(FileContents(levels[l]), user, s, None)
    requires IsNewest(FileContents(levels[level]), user, s, e)
    ensures IsNewest(LevelContents(levels), user, s, e)
  {
    var E := LevelContents(levels);
    assert e in E by {
      var f :| f in levels[level] && e in f.entries;
    }
    forall o | o in E && Visible(o, user, s) ensures o.key.seqno <= e.key.seqno {
      var l, f :| 0 <= l < |levels| && f in levels[l] && o in f.entries;
      assert o in FileContents(levels[l]);
      if l > level {
        assert Newer(FileContents(levels[level]), FileContents(levels[l]));
      }
    }
  }

  /** What a search gives that goes through the levels in turn and stops at the first hit. */
  ghost predicate FirstHit(levels: Levels, user: Bytes, s: nat, r: Option<Entry>) {
    match r
    case None => forall l :: 0 <= l < |levels| ==> FindsNewest(FileContents(levels[l]), user, s, None)
    case Some(e) => exists l :: 0 <= l < |levels| && HitAt(levels, l, user, s, e)
  }

  ghost predicate HitAt(levels: Levels, l: nat, user: Bytes, s: nat, e: Entry)
    requires l < |levels|
  {
    && IsNewest(FileContents(levels[l]), user, s, e)
    && forall k :: 0 <= k < l ==> FindsNewest(FileContents(levels[k]), user, s, None)
  }

  /** Where every level is newer than those below it, the first hit answers the read exactly. */
  lemma FirstHitIsNewest(levels: Levels, user: Bytes, s: nat, r: Option<Entry>)
    requires |levels| == NUM_LEVELS && Layered(levels) && FirstHit(levels, user, s, r)
    ensures FindsNewest(LevelContents(levels), user, s, r)
  {
    if r.Some? {
      var l: nat :| l < |levels| && HitAt(levels, l, user, s, r.value);
      HitIsNewest(levels, l, user, s, r.value);
    } else {
      forall e | e in LevelContents(levels) ensures !Visible(e, user, s) {
        var l, f :| 0 <= l < |levels| && f in levels[l] && e in f.entries;
        assert e in FileContents(levels[l]);
      }
    }
  }

  lemma TopLayered(levels: Levels)
    requires |levels| == NUM_LEVELS && Layered(levels)
    ensures NewerByNumber(levels[0])
  {
  }

  /** Searching the levels in turn and stopping at the first hit. */
  method VersionGet(levels: Levels, user: Bytes, s: SequenceNumber) returns (r: Option<Entry>)
    requires ValidLevels(levels) && NewerByNumber(levels[0])
    ensures FirstHit(levels, user, s, r)
    ensures Layered(levels) ==> FindsNewest(LevelContents(levels), user, s, r)
  {
    for level := 0 to NUM_LEVELS
      invariant forall l :: 0 <= l < level ==> FindsNewest(FileContents(levels[l]), user, s, None)
    {
      if |levels[level]| > 0 {
        if level == 0 {
          r := GetLevel0(levels[0], user, s);
        } else {
          r := GetDeeper(levels[level], user, s);
        }
        if r.Some? {
          assert HitAt(levels, level, user, s, r.value);
          if Layered(levels) {
            FirstHitIsNewest(levels, user, s, r);
          }
          return;
        }
      }
    }
    r := None;
    if Layered(levels) {
      FirstHitIsNewest(levels, user, s, r);
    }
  }
}
