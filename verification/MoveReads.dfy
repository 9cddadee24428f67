/** When reads are still right after a trivial move (db/db_impl.cc, db/version_set.cc). */
module MoveReads {
  import opened Keys
  import opened Contents
  import opened Versions
  import opened Compactions
  import opened VersionBuilder
  import opened Store
  import opened StoreCompaction
  import opened StoreRuns

  /** What a read finds that goes through the memtable, the immutable memtable and then the levels, and stops at the first hit. */
  ghost predicate Searched(db: Db, user: Bytes, s: nat, r: Option<Entry>) {
    if Seen(Elems(db.mem), user, s) then r.Some? && IsNewest(Elems(db.mem), user, s, r.value)
    else if Seen(ImmElems(db), user, s) then r.Some? && IsNewest(ImmElems(db), user, s, r.value)
    else FirstHit(db.levels, user, s, r)
  }

  ghost predicate Seen(E: set<Entry>, user: Bytes, s: nat) {
    exists e :: e in E && Visible(e, user, s)
  }

  /** What a reader makes of it. */
  function Answer(r: Option<Entry>): Option<Bytes> {
    if r.Some? && r.value.key.kind == Value then Some(r.value.value) else None
  }

  ghost predicate Permitted(db: Db, s: nat) {
    s == db.lastSequence || s in db.snapshots
  }

  /** Every read still permitted is answered as the map of the operations up to it would. */
  ghost predicate ReadsRight(db: Db, history: seq<Op>) {
    forall user, s: nat, r :: Permitted(db, s) && s <= |history| && Searched(db, user, s, r) ==> Answer(r) == Lookup(Replay(history[..s]), user)
  }

  ghost function Left(db: Db, level: nat, f: File): set<Entry>
    requires level < |db.levels|
  {
    SetContents(Files(db.levels[level]) - {f})
  }

  /** A reader's newest entry for a key is in the file, and the newest one left behind in its level says something else. */
  ghost predicate Hides(db: Db, level: nat, f: File, user: Bytes, s: nat, n: Entry, o: Entry)
    requires level < |db.levels|
  {
    && Permitted(db, s) && n in f.entries && IsNewest(All(db), user, s, n) && IsNewest(Left(db, level, f), user, s, o)
    && Answer(Some(n)) != Answer(Some(o))
  }

  ghost predicate Misleads(db: Db, level: nat, f: File)
    requires level < |db.levels|
  {
    exists user, s: nat, n, o :: Hides(db, level, f, user, s, n, o)
  }

  // The levels before and after.

  ghost predicate MovedLevels(levels: Levels, level: nat, f: File, levels': Levels)
  {
    && |levels| == |levels'| == NUM_LEVELS && level + 1 < NUM_LEVELS
    && FileContents(levels[level]) == SetContents(Files(levels[level]) - {f}) + Elems(f.entries)
    && FileContents(levels'[level]) == SetContents(Files(levels[level]) - {f})
    && FileContents(levels'[level+1]) == FileContents(levels[level+1]) + Elems(f.entries)
    && forall l :: 0 <= l < NUM_LEVELS && l != level && l != level + 1 ==> FileContents(levels'[l]) == FileContents(levels[l])
  }

  lemma MoveLevels(db: Db, level: nat, f: File, db': Db)
    requires Shape(db) && MoveStep(db, level, f, db')
    ensures MovedLevels(db.levels, level, f, db'.levels)
  {
    PickedInputs(db.levels, level, [f], []);
    MoveEdit(db, level, f, db'.levels);
    var removed := RemovedAt(level, Files([f]), Files([]));
    assert Files([f]) == {f} && Files([]) == {} && f in [f] && f in db.levels[level];
    hide *;
    MovedContents(db.levels, removed, level, f, db'.levels);
  }

  lemma MovedContents(levels: Levels, removed: seq<set<File>>, level: nat, f: File, levels': Levels)
    requires Replaced(levels, removed, level + 1, {f}, levels') && removed == RemovedAt(level, {f}, {})
    requires level + 1 < NUM_LEVELS && f in levels[level]
    ensures MovedLevels(levels, level, f, levels')
  {
    assert |levels| == |levels'| == |removed| == NUM_LEVELS;
    hide Replaced, SetContents, FileContents, Files;
    ReplacedContents(levels, removed, level + 1, {f}, levels', level);
    ReplacedContents(levels, removed, level + 1, {f}, levels', level + 1);
    OneFile(f);
    Parts(levels[level], f);
    NoneRemoved(levels[level+1]);
    forall l | 0 <= l < NUM_LEVELS && l != level && l != level + 1 ensures FileContents(levels'[l]) == FileContents(levels[l]) {
      ReplacedContents(levels, removed, level + 1, {f}, levels', l);
      NoneRemoved(levels[l]);
    }
  }

  lemma OneFile(f: File)
    ensures SetContents({f}) == Elems(f.entries)
  {
  }

  lemma NoneRemoved(files: seq<File>)
    ensures SetContents(Files(files) - {}) == FileContents(files)
  {
  }

  lemma Parts(files: seq<File>, f: File)
    requires f in files
    ensures FileContents(files) == SetContents(Files(files) - {f}) + Elems(f.entries)
  {
  }

  // A level that has nothing visible.
  ghost predicate Silent(levels: Levels, l: nat, user: Bytes, s: nat)
    requires l < |levels|
  {
    FindsNewest(FileContents(levels[l]), user, s, None)
  }

  /** A hit above the file's level, or below the level it goes to, is a hit before the move too. */
  lemma HitElsewhere(db: Db, level: nat, f: File, levels': Levels, user: Bytes, s: nat, l: nat, e: Entry)
    requires MovedLevels(db.levels, level, f, levels') && l < NUM_LEVELS && l != level && HitAt(levels', l, user, s, e)
    requires Layered(db.levels)
    ensures IsNewest(LevelContents(db.levels), user, s, e)
  {
    hide IsNewest, SetContents, FileContents;
    if l == level + 1 {
      NewestOfTwo(db, level, f, levels', user, s, e);
    } else {
      assert forall k: nat :: k < l ==> Silent(levels', k, user, s);
      if l > level {
        SilentBoth(db.levels, level, f, levels', user, s);
      }
      forall k: nat | k < l ensures Silent(db.levels, k, user, s) {
        assert Silent(levels', k, user, s);
      }
      HitIsNewest(db.levels, l, user, s, e);
    }
  }

  lemma SilentBoth(levels: Levels, level: nat, f: File, levels': Levels, user: Bytes, s: nat)
    requires MovedLevels(levels, level, f, levels') && Silent(levels', level, user, s) && Silent(levels', level + 1, user, s)
    ensures Silent(levels, level, user, s) && Silent(levels, level + 1, user, s)
  {
  }

  // The level the file goes to holds the newest entry of both.
  lemma NewestOfTwo(db: Db, level: nat, f: File, levels': Levels, user: Bytes, s: nat, e: Entry)
    requires MovedLevels(db.levels, level, f, levels') && HitAt(levels', level + 1, user, s, e) && Layered(db.levels)
    ensures IsNewest(LevelContents(db.levels), user, s, e)
  {
    assert forall k: nat :: k <= level ==> Silent(levels', k, user, s);
    hide SetContents, FileContents, NewerByNumber;
    forall o | o in LevelContents(db.levels) && Visible(o, user, s) ensures o.key.seqno <= e.key.seqno {
      LevelContentsParts(db.levels, o);
      var l: nat :| l < |db.levels| && o in FileContents(db.levels[l]);
      if l <= level {
        assert Silent(levels', l, user, s);
      }
      if l > level + 1 {
        OlderBelow(db.levels, level, f, levels', user, s, e, o, l);
      }
    }
    LevelContentsParts(db.levels, e);
    assert e in FileContents(db.levels[level]) || e in FileContents(db.levels[level+1]);
  }

  lemma OlderBelow(levels: Levels, level: nat, f: File, levels': Levels, user: Bytes, s: nat, e: Entry, o: Entry, l: nat)
    requires MovedLevels(levels, level, f, levels') && Layered(levels) && level + 1 < l < NUM_LEVELS
    requires IsNewest(FileContents(levels'[level+1]), user, s, e) && o in FileContents(levels[l]) && o.key.user == user
    ensures o.key.seqno <= e.key.seqno
  {
    hide SetContents, FileContents, NewerByNumber;
    assert Newer(FileContents(levels[level]), FileContents(levels[l])) && Newer(FileContents(levels[level+1]), FileContents(levels[l]));
  }

  // A hit in the level the file has left.
  lemma HitLeft(db: Db, level: nat, f: File, levels': Levels, user: Bytes, s: nat, e: Entry, n: Entry)
    requires MovedLevels(db.levels, level, f, levels') && Layered(db.levels) && HitAt(levels', level, user, s, e)
    requires IsNewest(LevelContents(db.levels), user, s, n)
    ensures IsNewest(Left(db, level, f), user, s, e) && (n in Left(db, level, f) || n in f.entries)
  {
    hide SetContents, FileContents, Layered, LevelContents;
    LevelContentsParts(db.levels, n);
    LevelContentsParts(db.levels, e);
    forall k: nat | k < level ensures n !in FileContents(db.levels[k]) {
      assert Silent(levels', k, user, s);
    }
    forall k: nat | level < k < NUM_LEVELS ensures n !in FileContents(db.levels[k]) {
      NotBelow(db.levels, level, k, e, n);
    }
  }

  lemma NotBelow(levels: Levels, l: nat, k: nat, e: Entry, n: Entry)
    requires |levels| == NUM_LEVELS && Layered(levels) && l < k < NUM_LEVELS
    requires e in FileContents(levels[l]) && e.key.user == n.key.user && e.key.seqno <= n.key.seqno
    ensures n !in FileContents(levels[k])
  {
    hide FileContents;
    assert Newer(FileContents(levels[l]), FileContents(levels[k]));
  }

  lemma LayeredPart(db: Db)
    requires |db.levels| == NUM_LEVELS && NewestAbove(db)
    ensures Layered(db.levels)
  {
  }

  // What the memtables hold is newest of all.
  lemma AboveIsNewest(db: Db, user: Bytes, s: nat, e: Entry)
    requires |db.levels| == NUM_LEVELS && NewestAbove(db)
    requires IsNewest(Elems(db.mem), user, s, e) || (!Seen(Elems(db.mem), user, s) && IsNewest(ImmElems(db), user, s, e))
    ensures IsNewest(All(db), user, s, e)
  {
    hide LevelContents, Layered;
  }

  lemma FilesAreAll(db: Db, user: Bytes, s: nat, e: Entry)
    requires !Seen(Elems(db.mem), user, s) && !Seen(ImmElems(db), user, s)
    ensures IsNewest(All(db), user, s, e) <==> IsNewest(LevelContents(db.levels), user, s, e)
  {
    hide LevelContents;
  }

  lemma NothingStored(db: Db, level: nat, f: File, levels': Levels, user: Bytes, s: nat)
    requires MovedLevels(db.levels, level, f, levels') && FirstHit(levels', user, s, None)
    requires !Seen(Elems(db.mem), user, s) && !Seen(ImmElems(db), user, s)
    ensures forall e :: e in All(db) ==> !Visible(e, user, s)
  {
    hide SetContents, FileContents;
    assert forall k: nat :: k < NUM_LEVELS ==> Silent(levels', k, user, s);
    forall e | e in LevelContents(db.levels) ensures !Visible(e, user, s) {
      LevelContentsParts(db.levels, e);
      var l: nat :| l < |db.levels| && e in FileContents(db.levels[l]);
      assert Silent(levels', l, user, s);
      assert Silent(levels', level + 1, user, s);
    }
  }

  /** Where nothing is hidden, what the search finds says what a read of everything would. */
  lemma SearchRight(db: Db, level: nat, f: File, db': Db, user: Bytes, s: nat, r: Option<Entry>)
    requires |db.levels| == NUM_LEVELS && NewestAbove(db) && Coherent(All(db)) && Permitted(db, s)
    requires MovedLevels(db.levels, level, f, db'.levels) && db'.mem == db.mem && db'.imm == db.imm
    requires !Misleads(db, level, f) && Searched(db', user, s, r)
    ensures Answer(r) == ReadAt(All(db), user, s)
  {
    hide LevelContents, MovedLevels, NewestAbove, ReadAt, Coherent, Left, Misleads, HitAt;
    LayeredPart(db);
    if Seen(Elems(db.mem), user, s) || Seen(ImmElems(db), user, s) {
      AboveIsNewest(db, user, s, r.value);
      ReadNewest(All(db), user, s, r.value);
    } else if r.None? {
      NothingStored(db, level, f, db'.levels, user, s);
      ReadNothing(All(db), user, s);
    } else {
      var l: nat :| l < |db'.levels| && HitAt(db'.levels, l, user, s, r.value);
      if l == level {
        LeftRight(db, level, f, db', user, s, r.value);
      } else {
        SizeOf(db.levels, level, f, db'.levels);
        HitElsewhere(db, level, f, db'.levels, user, s, l, r.value);
        FilesAreAll(db, user, s, r.value);
        ReadNewest(All(db), user, s, r.value);
      }
    }
  }

  lemma SizeOf(levels: Levels, level: nat, f: File, levels': Levels)
    requires MovedLevels(levels, level, f, levels')
    ensures |levels'| == NUM_LEVELS
  {
  }

  lemma LeftRight(db: Db, level: nat, f: File, db': Db, user: Bytes, s: nat, e: Entry)
    requires |db.levels| == NUM_LEVELS && NewestAbove(db) && Coherent(All(db)) && Permitted(db, s)
    requires MovedLevels(db.levels, level, f, db'.levels) && HitAt(db'.levels, level, user, s, e)
    requires !Seen(Elems(db.mem), user, s) && !Seen(ImmElems(db), user, s) && !Misleads(db, level, f)
    ensures Answer(Some(e)) == ReadAt(All(db), user, s)
  {
    hide LevelContents, NewestAbove, ReadAt, FileContents, SetContents;
    LayeredPart(db);
    HitStored(db, level, f, db'.levels, user, s, e);
    var n := NewestExists(All(db), user, s, e);
    FilesAreAll(db, user, s, n);
    HitLeft(db, level, f, db'.levels, user, s, e, n);
    ReadNewest(All(db), user, s, n);
    assert !Hides(db, level, f, user, s, n, e);
  }

  lemma HitStored(db: Db, level: nat, f: File, levels': Levels, user: Bytes, s: nat, e: Entry)
    requires MovedLevels(db.levels, level, f, levels') && HitAt(levels', level, user, s, e)
    ensures e in All(db) && Visible(e, user, s)
  {
    hide SetContents, FileContents;
    LevelContentsParts(db.levels, e);
    assert e in FileContents(db.levels[level]);
  }

  /** Where an entry is hidden, the search finds the one left behind. */
  lemma SearchMisled(db: Db, level: nat, f: File, db': Db, user: Bytes, s: nat, n: Entry, o: Entry)
    requires |db.levels| == NUM_LEVELS && NewestAbove(db) && level < NUM_LEVELS && f in db.levels[level]
    requires MovedLevels(db.levels, level, f, db'.levels) && db'.mem == db.mem && db'.imm == db.imm
    requires Hides(db, level, f, user, s, n, o)
    ensures Searched(db', user, s, Some(o))
  {
    hide SetContents, FileContents, NewerByNumber;
    LevelContentsParts(db.levels, n);
    assert n in Elems(f.entries) && n in FileContents(db.levels[level]);
    forall k | 0 <= k < level ensures FindsNewest(FileContents(db'.levels[k]), user, s, None) {
      assert Newer(FileContents(db.levels[k]), FileContents(db.levels[level]));
      forall e | e in FileContents(db.levels[k]) ensures !Visible(e, user, s) {
        LevelContentsParts(db.levels, e);
      }
    }
    assert HitAt(db'.levels, level, user, s, o);
  }

  /** After a trivial move every permitted read is right if and only if no permitted reader's newest entry for a key is in the
      file while the newest one left behind in its level says something else. */
  lemma MoveReadsIff(db: Db, history: seq<Op>, level: nat, f: File, db': Db)
    requires Inv(db, history) && MoveStep(db, level, f, db')
    ensures ReadsRight(db', history) <==> !Misleads(db, level, f)
  {
    MoveLevels(db, level, f, db');
    RecordedCoherent(All(db), history);
    PickedInputs(db.levels, level, [f], []);
    assert f in [f];
    hide MovedLevels, NewestAbove, Shape, Searched, ReadAt, Recorded, Agrees, Misleads, Hides, All, Replay, Coherent;
    if Misleads(db, level, f) {
      MisledReads(db, history, level, f, db');
    } else {
      forall user, s: nat, r | Permitted(db', s) && s <= |history| && Searched(db', user, s, r)
        ensures Answer(r) == Lookup(Replay(history[..s]), user)
      {
        SearchRight(db, level, f, db', user, s, r);
        ReadersAgree(db, history, user, s);
      }
    }
  }

  lemma MisledReads(db: Db, history: seq<Op>, level: nat, f: File, db': Db)
    requires Inv(db, history) && level < |db.levels| == NUM_LEVELS && f in db.levels[level] && Misleads(db, level, f)
    requires MovedLevels(db.levels, level, f, db'.levels) && db' == db.(levels := db'.levels)
    ensures !ReadsRight(db', history)
  {
    hide MovedLevels, Shape, Searched, ReadAt, Recorded, Agrees, Replay, NewestAbove;
    var user, s: nat, n, o :| Hides(db, level, f, user, s, n, o);
    SearchMisled(db, level, f, db', user, s, n, o);
    RecordedCoherent(All(db), history);
    ReadNewest(All(db), user, s, n);
    ReadersAgree(db, history, user, s);
  }
}
