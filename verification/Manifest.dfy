/** The manifest: the records of version edits that make up the file lists, kept in step with every
    edit and read back when the store is opened (db/version_set.cc). */
module Manifests {
  import opened Keys
  import opened Contents
  import opened Versions
  import opened VersionBuilder
  import opened Store

  datatype Meta = Meta(logNumber: nat, nextFile: nat, lastSequence: nat)

  /** One manifest record. A snapshot of a version names files only. */
  datatype Record = Record(files: FileEdit, meta: Option<Meta>)

  function Edits(manifest: seq<Record>): (r: seq<FileEdit>)
    ensures |r| == |manifest|
  {
    seq(|manifest|, i requires 0 <= i < |manifest| => manifest[i].files)
  }

  // The numbers a reader of the manifest is left with: the last ones named.
  function LastMeta(manifest: seq<Record>): Option<Meta> {
    if manifest == [] then None
    else if manifest[|manifest| - 1].meta.Some? then manifest[|manifest| - 1].meta
    else LastMeta(manifest[..|manifest| - 1])
  }

  /** No number is added twice to a level, within an edit or over all of them. */
  ghost predicate Feedable(edits: seq<FileEdit>) {
    edits != [] ==>
      var before, edit := edits[..|edits| - 1], edits[|edits| - 1];
      && Feedable(before) && EditLevels(edit)
      && forall l :: 0 <= l < NUM_LEVELS ==> FreshNumbers(edit, l, AllAdded(before, l))
  }

  lemma {:induction false} FeedableNeverTwice(edits: seq<FileEdit>, l: nat)
    requires Feedable(edits) && l < NUM_LEVELS
    ensures NeverAddedTwice({}, edits, l)
  {
    if edits != [] {
      var before, edit := edits[..|edits| - 1], edits[|edits| - 1];
      FeedableNeverTwice(before, l);
      assert FreshNumbers(edit, l, AllAdded(before, l));
      assert {} + AllAdded(before, l) == AllAdded(before, l);
    }
  }

  /** The file lists the manifest stands for. */
  ghost predicate ManifestHolds(manifest: seq<Record>, levels: Levels) {
    |levels| == NUM_LEVELS &&
    forall l :: 0 <= l < NUM_LEVELS ==>
                  SortedBySmallest(levels[l]) && Files(levels[l]) == EditedAll({}, Edits(manifest), l)
  }

  // Files only ever move to deeper levels.
  ghost predicate Descending(edits: seq<FileEdit>, levels: Levels) {
    forall l, g: File, m, f: File ::
      (0 <= l < NUM_LEVELS && 0 <= m < |levels| && g in AllAdded(edits, l) && f in levels[m] && f.number == g.number) ==>
      l <= m
  }

  ghost predicate NumbersBelow(edits: seq<FileEdit>, bound: nat) {
    forall l, f :: 0 <= l < NUM_LEVELS && f in AllAdded(edits, l) ==> f.number < bound
  }

  /** The manifest is in step with the file lists, and names no file number from `bound` on. */
  ghost predicate ManifestFiles(manifest: seq<Record>, levels: Levels, bound: nat) {
    && ManifestHolds(manifest, levels) && Feedable(Edits(manifest)) && Descending(Edits(manifest), levels)
    && NumbersBelow(Edits(manifest), bound)
  }

  lemma {:induction false} EditedIsAdded(edits: seq<FileEdit>, l: nat)
    ensures EditedAll({}, edits, l) <= AllAdded(edits, l)
  {
    if edits != [] {
      EditedIsAdded(edits[..|edits| - 1], l);
    }
  }

  lemma ListedIsAdded(manifest: seq<Record>, levels: Levels, l: nat, f: File)
    requires ManifestHolds(manifest, levels) && l < NUM_LEVELS && f in levels[l]
    ensures f in AllAdded(Edits(manifest), l)
  {
    EditedIsAdded(Edits(manifest), l);
    assert f in Files(levels[l]);
  }

  lemma OneMoreEdit(manifest: seq<Record>, record: Record)
    ensures var edits := Edits(manifest + [record]);
            edits[..|edits| - 1] == Edits(manifest) && edits[|edits| - 1] == record.files
    ensures forall l :: EditedAll({}, Edits(manifest + [record]), l) == Edited(EditedAll({}, Edits(manifest), l), record.files, l)
    ensures forall l :: AllAdded(Edits(manifest + [record]), l) == AllAdded(Edits(manifest), l) + Added(record.files, l)
    ensures record.meta.Some? ==> LastMeta(manifest + [record]) == record.meta
  {
    var edits := Edits(manifest + [record]);
    assert edits[..|edits| - 1] == Edits(manifest);
  }

  /** Appending a record for an edit keeps the manifest in step with the file lists. */
  lemma RecordAppended(manifest: seq<Record>, levels: Levels, bound: nat,
                         record: Record, levels': Levels, bound': nat)
    requires ManifestFiles(manifest, levels, bound) && LevelsEdited(levels, record.files, levels')
    requires EditLevels(record.files) && bound <= bound'
    requires forall l :: 0 <= l < NUM_LEVELS ==> FreshNumbers(record.files, l, AllAdded(Edits(manifest), l))
    requires forall l, f :: 0 <= l < NUM_LEVELS && f in Added(record.files, l) ==> f.number < bound'
    requires Descending(Edits(manifest + [record]), levels')
    ensures ManifestFiles(manifest + [record], levels', bound')
  {
    hide FreshNumbers, Edits, Added, AllAdded, EditedAll, Edited, Descending;
    OneMoreEdit(manifest, record);
  }

  // New files get numbers nothing in the manifest has.
  ghost predicate AddsNew(edit: FileEdit, target: nat, bound: nat, next: nat) {
    && EditLevels(edit)
    && (forall a :: a in edit.newFiles ==> a.0 == target && bound <= a.1.number < next)
    && (forall i, j :: 0 <= i < j < |edit.newFiles| ==> edit.newFiles[i].1.number != edit.newFiles[j].1.number)
  }

  lemma NewFilesAppended(manifest: seq<Record>, levels: Levels, bound: nat, record: Record, levels': Levels,
                         target: nat, bound': nat)
    requires ManifestFiles(manifest, levels, bound) && LevelsEdited(levels, record.files, levels')
    requires AddsNew(record.files, target, bound, bound') && bound <= bound'
    ensures ManifestFiles(manifest + [record], levels', bound')
  {
    OneMoreEdit(manifest, record);
    forall l | 0 <= l < NUM_LEVELS ensures FreshNumbers(record.files, l, AllAdded(Edits(manifest), l)) {
    }
    forall l, g: File, m, f: File | 0 <= l < NUM_LEVELS && 0 <= m < |levels'| && f in levels'[m] && f.number == g.number &&
                        g in AllAdded(Edits(manifest + [record]), l) ensures l <= m
    {
      NewFileLevel(manifest, levels, bound, record.files, levels', m, f);
    }
    RecordAppended(manifest, levels, bound, record, levels', bound');
  }

  lemma NewFileLevel(manifest: seq<Record>, levels: Levels, bound: nat, edit: FileEdit, levels': Levels, m: nat, f: File)
    requires ManifestFiles(manifest, levels, bound) && LevelsEdited(levels, edit, levels') && m < NUM_LEVELS && f in levels'[m]
    ensures f in Added(edit, m) || (f in levels[m] && f in AllAdded(Edits(manifest), m))
  {
    assert f in Files(levels'[m]);
    if f !in Added(edit, m) {
      assert f in Files(levels[m]);
      ListedIsAdded(manifest, levels, m, f);
    }
  }

  lemma NumberPlaces(db: Db, l: nat, f: File, m: nat, g: File)
    requires UniqueNumbers(db) && l < |db.levels| && m < |db.levels| && f in db.levels[l] && g in db.levels[m]
    ensures f.number == g.number ==> l == m && f == g
  {
  }

  lemma MoveFresh(manifest: seq<Record>, levels: Levels, bound: nat, level: nat, f: File)
    requires ManifestFiles(manifest, levels, bound) && level + 1 < NUM_LEVELS && f in levels[level]
    ensures var edit := FileEdit([(level, f.number)], [(level + 1, f)]);
            forall l :: 0 <= l < NUM_LEVELS ==>
                          Added(edit, l) == (if l == level + 1 then {f} else {})
                          && FreshNumbers(edit, l, AllAdded(Edits(manifest), l))
  {
    hide AllAdded, Edits, Feedable, NumbersBelow, LastMeta;
    var edit := FileEdit([(level, f.number)], [(level + 1, f)]);
    forall g | g in AllAdded(Edits(manifest), level + 1) ensures g.number != f.number {
      assert g.number == f.number ==> level + 1 <= level;
    }
  }

  lemma MovedAway(levels: Levels, level: nat, f: File, levels': Levels)
    requires level < NUM_LEVELS && LevelsEdited(levels, FileEdit([(level, f.number)], [(level + 1, f)]), levels')
    ensures f !in levels'[level]
  {
    var edit := FileEdit([(level, f.number)], [(level + 1, f)]);
    assert edit.deletedFiles[0] == (level, f.number);
    assert f.number in Deleted(edit, level);
    assert f in levels'[level] <==> f in Files(levels'[level]);
  }

  lemma MoveDescends(manifest: seq<Record>, db: Db, bound: nat, level: nat, f: File, levels': Levels, l: nat, g: File, m: nat, h: File)
    requires ManifestFiles(manifest, db.levels, bound) && UniqueNumbers(db) && level + 1 < NUM_LEVELS && f in db.levels[level]
    requires LevelsEdited(db.levels, FileEdit([(level, f.number)], [(level + 1, f)]), levels')
    requires l < NUM_LEVELS && m < NUM_LEVELS && h in levels'[m] && h.number == g.number
    requires g in AllAdded(Edits(manifest), l) || (l == level + 1 && g == f)
    ensures l <= m
  {
    hide AllAdded, Edits, Feedable, NumbersBelow, LastMeta, UniqueNumbers, SortedBySmallest;
    var edit := FileEdit([(level, f.number)], [(level + 1, f)]);
    MoveFresh(manifest, db.levels, bound, level, f);
    ListedIsAdded(manifest, db.levels, level, f);
    NewFileLevel(manifest, db.levels, bound, edit, levels', m, h);
    if h in Added(edit, m) {
      assert m == level + 1 && h == f;
    } else if l == level + 1 && g == f {
      MovedAway(db.levels, level, f, levels');
      NumberPlaces(db, level, f, m, h);
    }
  }

  lemma MoveAppended(manifest: seq<Record>, db: Db, bound: nat, level: nat, f: File, meta: Option<Meta>, levels': Levels, bound': nat)
    requires ManifestFiles(manifest, db.levels, bound) && UniqueNumbers(db) && level + 1 < NUM_LEVELS && f in db.levels[level]
    requires LevelsEdited(db.levels, FileEdit([(level, f.number)], [(level + 1, f)]), levels')
    requires bound <= bound'
    ensures ManifestFiles(manifest + [Record(FileEdit([(level, f.number)], [(level + 1, f)]), meta)], levels', bound')
  {
    hide AllAdded, Edits, Feedable, LastMeta, UniqueNumbers, FreshNumbers, LevelsEdited;
    var edit := FileEdit([(level, f.number)], [(level + 1, f)]);
    MoveFresh(manifest, db.levels, bound, level, f);
    ListedIsAdded(manifest, db.levels, level, f);
    OneMoreEdit(manifest, Record(edit, meta));
    EditedSize(db.levels, edit, levels');
    forall l, g: File, m, h: File | 0 <= l < NUM_LEVELS && 0 <= m < |levels'| && h in levels'[m] && h.number == g.number &&
                        g in AllAdded(Edits(manifest + [Record(edit, meta)]), l) ensures l <= m
    {
      MoveDescends(manifest, db, bound, level, f, levels', l, g, m, h);
    }
    assert f.number < bound;
    RecordAppended(manifest, db.levels, bound, Record(edit, meta), levels', bound');
  }

  lemma EditedSize(levels: Levels, edit: FileEdit, levels': Levels)
    requires LevelsEdited(levels, edit, levels')
    ensures |levels| == |levels'| == NUM_LEVELS
  {
  }

  // Snapshots.

  /** The files of every level, as additions. */
  function AllFiles(levels: Levels): seq<(nat, File)> {
    if levels == [] then [] else AllFiles(levels[..|levels| - 1]) + AddPairs(|levels| - 1, levels[|levels| - 1])
  }

  function Snapshot(levels: Levels): FileEdit {
    FileEdit([], AllFiles(levels))
  }

  lemma {:induction false} AllFilesAre(levels: Levels)
    ensures forall a :: a in AllFiles(levels) <==> a.0 < |levels| && a.1 in levels[a.0]
  {
    if levels != [] {
      var n := |levels| - 1;
      AllFilesAre(levels[..n]);
      forall a ensures a in AddPairs(n, levels[n]) <==> a.0 == n && a.1 in levels[n] {
        if a.0 == n && a.1 in levels[n] {
          var i :| 0 <= i < |levels[n]| && levels[n][i] == a.1;
          assert AddPairs(n, levels[n])[i] == a;
        }
      }
    }
  }

  lemma SnapshotAdds(levels: Levels)
    requires |levels| == NUM_LEVELS
    ensures EditLevels(Snapshot(levels))
    ensures forall l :: 0 <= l < NUM_LEVELS ==> Added(Snapshot(levels), l) == Files(levels[l])
  {
    AllFilesAre(levels);
    forall l, f | 0 <= l < NUM_LEVELS ensures f in Added(Snapshot(levels), l) <==> f in levels[l] {
      assert (l, f) in AllFiles(levels) <==> f in levels[l];
    }
  }

  ghost predicate DistinctNumbers(files: seq<File>) {
    forall i, j :: 0 <= i < j < |files| ==> files[i].number != files[j].number
  }

  lemma EarlierLevels(levels: Levels, i: nat)
    requires levels != [] && i < |AllFiles(levels[..|levels| - 1])|
    ensures AllFiles(levels)[i].0 < |levels| - 1
  {
    var front := AllFiles(levels[..|levels| - 1]);
    AllFilesAre(levels[..|levels| - 1]);
    assert front[i] in front;
  }

  lemma {:induction false} AllFilesDistinct(levels: Levels, i: nat, j: nat)
    requires forall l :: 0 <= l < |levels| ==> DistinctNumbers(levels[l])
    requires i < j < |AllFiles(levels)| && AllFiles(levels)[i].0 == AllFiles(levels)[j].0
    ensures AllFiles(levels)[i].1.number != AllFiles(levels)[j].1.number
  {
    var n := |levels| - 1;
    var front, back := AllFiles(levels[..n]), AddPairs(n, levels[n]);
    if j < |front| {
      AllFilesDistinct(levels[..n], i, j);
    } else if i < |front| {
      EarlierLevels(levels, i);
    } else {
      assert DistinctNumbers(levels[n]);
    }
  }

  /** A new manifest that begins with a snapshot of the file lists stands for them. */
  lemma SnapshotHolds(levels: Levels, bound: nat, meta: Option<Meta>)
    requires |levels| == NUM_LEVELS
    requires forall l :: 0 <= l < NUM_LEVELS ==> SortedBySmallest(levels[l]) && DistinctNumbers(levels[l])
    requires forall l, f :: 0 <= l < NUM_LEVELS && f in levels[l] ==> f.number < bound
    requires forall l, f: File, m, g: File :: (0 <= l < NUM_LEVELS && 0 <= m < NUM_LEVELS && f in levels[l] && g in levels[m]
                                         && f.number == g.number) ==> l == m
    ensures ManifestFiles([Record(Snapshot(levels), meta)], levels, bound)
  {
    hide SortedBySmallest, DistinctNumbers;
    var record := Record(Snapshot(levels), meta);
    OneMoreEdit([], record);
    assert [] + [record] == [record] && Edits([]) == [];
    assert Edits([record]) == [record.files] && [record.files][..0] == [];
    SnapshotAdds(levels);
    forall l | 0 <= l < NUM_LEVELS ensures FreshNumbers(record.files, l, AllAdded([], l)) {
      forall i, j | 0 <= i < j < |AllFiles(levels)| && AllFiles(levels)[i].0 == AllFiles(levels)[j].0
        ensures AllFiles(levels)[i].1.number != AllFiles(levels)[j].1.number
      {
        AllFilesDistinct(levels, i, j);
      }
    }
    assert Feedable([]);
    assert Feedable(Edits([record]));
    forall l | 0 <= l < NUM_LEVELS ensures EditedAll({}, Edits([record]), l) == Files(levels[l]) == AllAdded(Edits([record]), l) {
      assert EditedAll({}, Edits([]), l) == {} && AllAdded(Edits([]), l) == {};
    }
    assert ManifestHolds([record], levels);
    assert Descending(Edits([record]), levels);
  }

  // Reading the manifest.

  lemma {:induction false} FeedablePrefix(edits: seq<FileEdit>, k: nat)
    requires Feedable(edits) && k <= |edits|
    ensures Feedable(edits[..k])
  {
    hide FreshNumbers, AllAdded;
    if k < |edits| {
      FeedablePrefix(edits[..|edits| - 1], k);
      assert edits[..|edits| - 1][..k] == edits[..k];
    } else {
      assert edits[..k] == edits;
    }
  }

  lemma FeedStep(manifest: seq<Record>, i: nat)
    requires Feedable(Edits(manifest)) && i < |manifest|
    ensures var edit, before := manifest[i].files, Edits(manifest[..i]);
            && EditLevels(edit)
            && forall l :: 0 <= l < NUM_LEVELS ==>
                 && FreshNumbers(edit, l, AppliedAll(before, l).added)
                 && AppliedAll(Edits(manifest[..i+1]), l) == Applied(AppliedAll(before, l), edit, l)
    ensures LastMeta(manifest[..i+1]) == if manifest[i].meta.Some? then manifest[i].meta else LastMeta(manifest[..i])
  {
    hide FreshNumbers, AllAdded, Applied;
    var edits := Edits(manifest);
    FeedablePrefix(edits, i + 1);
    FeedablePrefix(edits, i);
    assert manifest[..i+1][..i] == manifest[..i];
    assert Edits(manifest[..i+1]) == edits[..i+1] && Edits(manifest[..i]) == edits[..i];
    assert edits[..i+1][..i] == edits[..i];
    forall l | 0 <= l < NUM_LEVELS ensures FreshNumbers(manifest[i].files, l, AppliedAll(edits[..i], l).added) {
      FeedableNeverTwice(edits[..i], l);
      OneBuilderForAllEdits({}, edits[..i], l);
    }
  }

  lemma AllFed(manifest: seq<Record>, l: nat)
    requires Feedable(Edits(manifest)) && l < NUM_LEVELS
    ensures Saved({}, AppliedAll(Edits(manifest), l)) == EditedAll({}, Edits(manifest), l)
  {
    FeedableNeverTwice(Edits(manifest), l);
    OneBuilderForAllEdits({}, Edits(manifest), l);
  }

  /** VersionSet::Recover: one builder takes every edit and saves once, and the last numbers named are kept.
      A manifest that names no numbers is refused. */
  method ReadManifest(manifest: seq<Record>) returns (levels: Levels, meta: Option<Meta>)
    requires Feedable(Edits(manifest))
    ensures meta == LastMeta(manifest)
    ensures ManifestHolds(manifest, levels)
  {
    hide Edits, AllAdded, AppliedAll, Applied, EditedAll, FreshNumbers, Feedable, Saved, LastMeta;
    var empty: Levels := seq(NUM_LEVELS, _ => []);
    var builder := new Builder(empty);
    meta := None;
    assert manifest[..0] == [];
    NothingFed();
    for i := 0 to |manifest|
      invariant builder.Valid() && fresh(builder) && builder.base == empty
      invariant meta == LastMeta(manifest[..i])
      invariant forall l :: 0 <= l < NUM_LEVELS ==> builder.State(l) == AppliedAll(Edits(manifest[..i]), l)
    {
      FeedStep(manifest, i);
      builder.Apply(manifest[i].files);
      if manifest[i].meta.Some? {
        meta := manifest[i].meta;
      }
    }
    assert manifest[..|manifest|] == manifest;
    NoNumbers();
    levels := builder.SaveTo();
    forall l | 0 <= l < NUM_LEVELS ensures Files(levels[l]) == EditedAll({}, Edits(manifest), l) {
      AllFed(manifest, l);
    }
  }

  lemma NothingFed()
    ensures LastMeta([]) == None && forall l :: AppliedAll(Edits([]), l) == LevelState({}, {})
  {
  }

  lemma NoNumbers()
    ensures Files([]) == {} && Numbers({}) == {}
  {
  }
}
