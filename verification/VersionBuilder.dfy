/** Applying version edits: one builder that accumulates any number of edits and saves once, against
    the plain meaning of applying each edit to the file list in turn (db/version_set.cc). */
module VersionBuilder {
  import opened Keys
  import opened Versions

  /** The file changes of a version edit: deletions happen before additions. */
  datatype FileEdit = FileEdit(deletedFiles: seq<(nat, nat)>, newFiles: seq<(nat, File)>)

  ghost predicate BySmallest(f: File, g: File) {
    KeyLess(f.smallest, g.smallest) || (f.smallest == g.smallest && f.number < g.number)
  }

  predicate BySmallestKey(f: File, g: File) {
    if f.smallest != g.smallest then KeyLess(f.smallest, g.smallest) else f.number < g.number
  }

  ghost predicate SortedBySmallest(files: seq<File>) {
    forall i, j :: 0 <= i < j < |files| ==> BySmallest(files[i], files[j])
  }

  ghost function Files(files: seq<File>): set<File> {
    set f | f in files
  }

  ghost function Numbers(files: set<File>): set<nat> {
    set f | f in files :: f.number
  }

  ghost function Deleted(edit: FileEdit, level: nat): set<nat> {
    set d | d in edit.deletedFiles && d.0 == level :: d.1
  }

  ghost function Added(edit: FileEdit, level: nat): set<File> {
    set a | a in edit.newFiles && a.0 == level :: a.1
  }

  ghost predicate EditLevels(edit: FileEdit) {
    (forall d :: d in edit.deletedFiles ==> d.0 < NUM_LEVELS) &&
    (forall a :: a in edit.newFiles ==> a.0 < NUM_LEVELS)
  }

  /** The plain meaning of an edit on the files of a level. */
  ghost function Edited(files: set<File>, edit: FileEdit, level: nat): set<File> {
    (set f | f in files && f.number !in Deleted(edit, level)) + Added(edit, level)
  }

  ghost function EditedAll(files: set<File>, edits: seq<FileEdit>, level: nat): set<File> {
    if edits == [] then files else
      Edited(EditedAll(files, edits[..|edits|-1], level), edits[|edits|-1], level)
  }

  /** What the builder remembers about a level. */
  datatype LevelState = LevelState(deleted: set<nat>, added: set<File>)

  ghost function Applied(st: LevelState, edit: FileEdit, level: nat): LevelState {
    LevelState(st.deleted + Deleted(edit, level) - Numbers(Added(edit, level)), st.added + Added(edit, level))
  }

  ghost function AppliedAll(edits: seq<FileEdit>, level: nat): LevelState {
    if edits == [] then LevelState({}, {}) else
      Applied(AppliedAll(edits[..|edits|-1], level), edits[|edits|-1], level)
  }

  ghost function Saved(base: set<File>, st: LevelState): set<File> {
    set f | f in base + st.added && f.number !in st.deleted
  }

  ghost function AllAdded(edits: seq<FileEdit>, level: nat): set<File> {
    if edits == [] then {} else AllAdded(edits[..|edits|-1], level) + Added(edits[|edits|-1], level)
  }

  /** No (level, number) pair is added twice: each edit adds numbers that neither the base nor any
      earlier edit used at that level. */
  ghost predicate NeverAddedTwice(base: set<File>, edits: seq<FileEdit>, level: nat) {
    edits != [] ==>
      NeverAddedTwice(base, edits[..|edits|-1], level) &&
      Numbers(Added(edits[|edits|-1], level)) !! Numbers(base + AllAdded(edits[..|edits|-1], level))
  }

  /** Feeding any list of edits to one builder and saving once leaves the same files in each level
      as applying the edits one by one. */
  lemma {:induction false} OneBuilderForAllEdits(base: set<File>, edits: seq<FileEdit>, level: nat)
    requires NeverAddedTwice(base, edits, level)
    ensures Saved(base, AppliedAll(edits, level)) == EditedAll(base, edits, level)
    ensures AppliedAll(edits, level).added == AllAdded(edits, level)
  {
    if edits != [] {
      var before, edit := edits[..|edits|-1], edits[|edits|-1];
      OneBuilderForAllEdits(base, before, level);
      var st, st' := AppliedAll(before, level), AppliedAll(edits, level);
      var added := Added(edit, level);
      forall f | f in base + st.added ensures f.number !in Numbers(added) {
        assert f.number in Numbers(base + AllAdded(before, level));
      }
      forall f | f in added ensures f.number !in st'.deleted {
        assert f.number in Numbers(added);
      }
      assert Saved(base, st') == Edited(Saved(base, st), edit, level);
    }
  }

  lemma BySmallestOrder(f: File, g: File, h: File)
    ensures !BySmallest(f, f)
    ensures BySmallest(f, g) && BySmallest(g, h) ==> BySmallest(f, h)
    ensures BySmallest(f, g) || BySmallest(g, f) || (f.smallest == g.smallest && f.number == g.number)
    ensures BySmallestKey(f, g) == BySmallest(f, g)
  {
    KeyOrder();
  }

  /** A list sorted by smallest key and number is determined by its set of files. */
  lemma {:induction false} SortedUnique(a: seq<File>, b: seq<File>)
    requires SortedBySmallest(a) && SortedBySmallest(b) && Files(a) == Files(b)
    ensures a == b
  {
    forall f | f in b ensures f in a {
      assert f in Files(b);
    }
    assert b == [] || b[0] in a;
    if a != [] {
      assert a[0] in Files(b);
      var j :| 0 <= j < |b| && b[j] == a[0];
      assert b[0] in Files(a);
      var i :| 0 <= i < |a| && a[i] == b[0];
      BySmallestOrder(a[0], b[0], a[0]);
      assert a[0] == b[0];
      forall f ensures f in a[1..] <==> f in b[1..] {
        assert f in a <==> f in b by { assert f in Files(a) <==> f in Files(b); }
        assert forall k :: 1 <= k < |a| ==> BySmallest(a[0], a[k]);
        assert forall k :: 1 <= k < |b| ==> BySmallest(b[0], b[k]);
        BySmallestOrder(a[0], a[0], a[0]);
      }
      SortedUnique(a[1..], b[1..]);
    }
  }

  class Builder {
    const base: Levels
    var deletedFiles: seq<set<nat>>
    var addedFiles: seq<seq<File>>

    ghost predicate Valid()
      reads this
    {
      |base| == NUM_LEVELS && |deletedFiles| == NUM_LEVELS && |addedFiles| == NUM_LEVELS &&
      forall l :: 0 <= l < NUM_LEVELS ==> SortedBySmallest(base[l]) && SortedBySmallest(addedFiles[l])
    }

    ghost function State(level: nat): LevelState
      requires Valid() && level < NUM_LEVELS
      reads this
    {
      LevelState(deletedFiles[level], Files(addedFiles[level]))
    }

    constructor (base: Levels)
      requires |base| == NUM_LEVELS && forall l :: 0 <= l < NUM_LEVELS ==> SortedBySmallest(base[l])
      ensures Valid() && this.base == base
      ensures forall l :: 0 <= l < NUM_LEVELS ==> State(l) == LevelState({}, {})
    {
      this.base := base;
      deletedFiles := seq(NUM_LEVELS, _ => {});
      addedFiles := seq(NUM_LEVELS, _ => []);
    }

    /** Applies an edit that adds no number the builder holds already. */
    method Apply(edit: FileEdit)
      requires Valid() && EditLevels(edit)
      requires forall l :: 0 <= l < NUM_LEVELS ==> FreshNumbers(edit, l, State(l).added)
      modifies this
      ensures Valid()
      ensures forall l :: 0 <= l < NUM_LEVELS ==> State(l) == Applied(old(State(l)), edit, l)
    {
      DeleteFiles(edit);
      AddFiles(edit);
    }

    method DeleteFiles(edit: FileEdit)
      requires Valid() && EditLevels(edit)
      modifies this
      ensures Valid()
      ensures forall l :: 0 <= l < NUM_LEVELS ==>
                            State(l) == LevelState(old(State(l)).deleted + Deleted(edit, l), old(State(l)).added)
    {
      for i := 0 to |edit.deletedFiles|
        invariant Valid() && addedFiles == old(addedFiles)
        invariant forall l :: 0 <= l < NUM_LEVELS ==>
                                deletedFiles[l] == old(deletedFiles[l]) + Deleted(FileEdit(edit.deletedFiles[..i], []), l)
      {
        var (level, number) := edit.deletedFiles[i];
        assert edit.deletedFiles[i] in edit.deletedFiles;
        DeletedOneMore(edit, i);
        deletedFiles := deletedFiles[level := deletedFiles[level] + {number}];
      }
      assert edit.deletedFiles[..|edit.deletedFiles|] == edit.deletedFiles;
    }

    method AddFiles(edit: FileEdit)
      requires Valid() && EditLevels(edit)
      requires forall l :: 0 <= l < NUM_LEVELS ==> FreshNumbers(edit, l, State(l).added)
      modifies this
      ensures Valid()
      ensures forall l :: 0 <= l < NUM_LEVELS ==> State(l) == Applied(old(State(l)), FileEdit([], edit.newFiles), l)
    {
      for i := 0 to |edit.newFiles|
        invariant Valid()
        invariant forall l :: 0 <= l < NUM_LEVELS ==>
                                State(l) == Applied(old(State(l)), FileEdit([], edit.newFiles[..i]), l)
      {
        var (level, f) := edit.newFiles[i];
        assert edit.newFiles[i] in edit.newFiles;
        AppliedOneMore(edit, i, old(State(level)));
        AddedOneMore(edit, i);
        AddFile(level, f);
      }
      assert edit.newFiles[..|edit.newFiles|] == edit.newFiles;
    }

    method AddFile(level: nat, f: File)
      requires Valid() && level < NUM_LEVELS
      requires forall g :: g in State(level).added ==> g.number != f.number
      modifies this
      ensures Valid()
      ensures State(level) == LevelState(old(State(level)).deleted - {f.number}, old(State(level)).added + {f})
      ensures forall l :: 0 <= l < NUM_LEVELS && l != level ==> State(l) == old(State(l))
    {
      deletedFiles := deletedFiles[level := deletedFiles[level] - {f.number}];
      assert forall g :: g in addedFiles[level] ==> g in State(level).added;
      var files := InsertBySmallest(addedFiles[level], f);
      addedFiles := addedFiles[level := files];
    }

    /** The surviving base and added files of every level, merged in order. */
    method SaveTo() returns (levels: Levels)
      requires Valid()
      requires forall l :: 0 <= l < NUM_LEVELS ==> Numbers(Files(base[l])) !! Numbers(State(l).added)
      ensures |levels| == NUM_LEVELS
      ensures forall l :: 0 <= l < NUM_LEVELS ==>
                            SortedBySmallest(levels[l]) && Files(levels[l]) == Saved(Files(base[l]), State(l))
    {
      levels := [];
      for level := 0 to NUM_LEVELS
        invariant |levels| == level
        invariant forall l :: 0 <= l < level ==>
                                SortedBySmallest(levels[l]) && Files(levels[l]) == Saved(Files(base[l]), State(l))
      {
        var files := SaveLevel(base[level], addedFiles[level], deletedFiles[level]);
        levels := levels + [files];
      }
    }
  }

  /** The numbers an edit adds to a level are pairwise different and not among those of some files. */
  ghost predicate FreshNumbers(edit: FileEdit, level: nat, files: set<File>) {
    Numbers(Added(edit, level)) !! Numbers(files) &&
    forall i, j :: 0 <= i < j < |edit.newFiles| && edit.newFiles[i].0 == level == edit.newFiles[j].0 ==>
                     edit.newFiles[i].1.number != edit.newFiles[j].1.number
  }

  lemma DeletedOneMore(edit: FileEdit, i: nat)
    requires i < |edit.deletedFiles|
    ensures forall l :: Deleted(FileEdit(edit.deletedFiles[..i+1], []), l) ==
                          Deleted(FileEdit(edit.deletedFiles[..i], []), l) +
                          if edit.deletedFiles[i].0 == l then {edit.deletedFiles[i].1} else {}
  {
    assert edit.deletedFiles[..i+1] == edit.deletedFiles[..i] + [edit.deletedFiles[i]];
  }

  lemma AddedOneMore(edit: FileEdit, i: nat)
    requires i < |edit.newFiles|
    ensures forall l :: Added(FileEdit([], edit.newFiles[..i+1]), l) ==
                          Added(FileEdit([], edit.newFiles[..i]), l) +
                          if edit.newFiles[i].0 == l then {edit.newFiles[i].1} else {}
  {
    assert edit.newFiles[..i+1] == edit.newFiles[..i] + [edit.newFiles[i]];
  }

  lemma AppliedOneMore(edit: FileEdit, i: nat, st: LevelState)
    requires i < |edit.newFiles|
    requires FreshNumbers(edit, edit.newFiles[i].0, st.added)
    ensures var (level, f) := edit.newFiles[i];
            var before := Applied(st, FileEdit([], edit.newFiles[..i]), level);
            Applied(st, FileEdit([], edit.newFiles[..i+1]), level) ==
              LevelState(before.deleted - {f.number}, before.added + {f}) &&
            forall g :: g in before.added ==> g.number != f.number
  {
    AddedOneMore(edit, i);
    var (level, f) := edit.newFiles[i];
    var added := Added(FileEdit([], edit.newFiles[..i]), level);
    assert edit.newFiles[i] in edit.newFiles && f in Added(edit, level);
    assert f.number in Numbers(Added(edit, level));
    forall g | g in st.added ensures g.number != f.number {
      assert g.number in Numbers(st.added);
    }
    assert Numbers(added + {f}) == Numbers(added) + {f.number};
  }

  method InsertBySmallest(files: seq<File>, f: File) returns (r: seq<File>)
    requires SortedBySmallest(files) && forall g :: g in files ==> g.number != f.number
    ensures SortedBySmallest(r) && Files(r) == Files(files) + {f}
  {
    var at := 0;
    while at < |files| && BySmallestKey(files[at], f)
      invariant 0 <= at <= |files|
      invariant forall i :: 0 <= i < at ==> BySmallest(files[i], f)
    {
      BySmallestOrder(files[at], f, f);
      at := at + 1;
    }
    forall i | at <= i < |files| ensures BySmallest(f, files[i]) {
      assert files[at] in files;
      BySmallestOrder(files[at], f, f);
      BySmallestOrder(f, files[at], files[i]);
    }
    r := files[..at] + [f] + files[at..];
    InsertKeepsOrder(files, f, at);
  }

  lemma InsertKeepsOrder(files: seq<File>, f: File, at: nat)
    requires SortedBySmallest(files) && at <= |files|
    requires forall i :: 0 <= i < at ==> BySmallest(files[i], f)
    requires forall i :: at <= i < |files| ==> BySmallest(f, files[i])
    ensures var r := files[..at] + [f] + files[at..]; SortedBySmallest(r) && Files(r) == Files(files) + {f}
  {
    var r := files[..at] + [f] + files[at..];
    assert files == files[..at] + files[at..];
    assert forall g :: g in r <==> g in files || g == f;
  }

  ghost predicate AllBefore(files: seq<File>, g: File) {
    forall f :: f in files ==> BySmallest(f, g)
  }

  // Both lists are sorted and share no number, so one merge pass keeps the order.
  method SaveLevel(baseFiles: seq<File>, added: seq<File>, deleted: set<nat>) returns (files: seq<File>)
    requires SortedBySmallest(baseFiles) && SortedBySmallest(added)
    requires Numbers(Files(baseFiles)) !! Numbers(Files(added))
    ensures SortedBySmallest(files)
    ensures Files(files) == Saved(Files(baseFiles), LevelState(deleted, Files(added)))
  {
    files := [];
    var b := 0;
    for a := 0 to |added|
      invariant 0 <= b <= |baseFiles|
      invariant Merged(files, baseFiles, b, added, a, deleted)
    {
      while b < |baseFiles| && !BySmallestKey(added[a], baseFiles[b])
        invariant 0 <= b <= |baseFiles|
        invariant Merged(files, baseFiles, b, added, a, deleted)
      {
        assert BySmallest(baseFiles[b], added[a]) by {
          BySmallestOrder(added[a], baseFiles[b], added[a]);
          assert baseFiles[b].number in Numbers(Files(baseFiles)) && added[a].number in Numbers(Files(added));
        }
        MergeStepBase(files, baseFiles, b, added, a, deleted);
        if baseFiles[b].number !in deleted {
          files := files + [baseFiles[b]];
        }
        b := b + 1;
      }
      MergeStepAdded(files, baseFiles, b, added, a, deleted);
      if added[a].number !in deleted {
        files := files + [added[a]];
      }
    }
    while b < |baseFiles|
      invariant 0 <= b <= |baseFiles|
      invariant Merged(files, baseFiles, b, added, |added|, deleted)
    {
      MergeStepBase(files, baseFiles, b, added, |added|, deleted);
      if baseFiles[b].number !in deleted {
        files := files + [baseFiles[b]];
      }
      b := b + 1;
    }
  }

  ghost predicate Merged(files: seq<File>, baseFiles: seq<File>, b: nat, added: seq<File>, a: nat, deleted: set<nat>)
    requires b <= |baseFiles| && a <= |added|
  {
    SortedBySmallest(files) &&
    (forall i :: b <= i < |baseFiles| ==> AllBefore(files, baseFiles[i])) &&
    (forall i :: a <= i < |added| ==> AllBefore(files, added[i])) &&
    forall f :: f in files <==> (f in baseFiles[..b] || f in added[..a]) && f.number !in deleted
  }

  lemma MergeStepBase(files: seq<File>, baseFiles: seq<File>, b: nat, added: seq<File>, a: nat, deleted: set<nat>)
    requires SortedBySmallest(baseFiles) && SortedBySmallest(added)
    requires b < |baseFiles| && a <= |added| && Merged(files, baseFiles, b, added, a, deleted)
    requires a < |added| ==> BySmallest(baseFiles[b], added[a])
    ensures Merged(if baseFiles[b].number !in deleted then files + [baseFiles[b]] else files,
                   baseFiles, b + 1, added, a, deleted)
  {
    var f := baseFiles[b];
    assert baseFiles[..b+1] == baseFiles[..b] + [f];
    forall i | a <= i < |added| ensures BySmallest(f, added[i]) {
      BySmallestOrder(f, added[a], added[i]);
    }
    assert AllBefore(files, f);
  }

  lemma MergeStepAdded(files: seq<File>, baseFiles: seq<File>, b: nat, added: seq<File>, a: nat, deleted: set<nat>)
    requires SortedBySmallest(baseFiles) && SortedBySmallest(added)
    requires b <= |baseFiles| && a < |added| && Merged(files, baseFiles, b, added, a, deleted)
    requires b < |baseFiles| ==> BySmallestKey(added[a], baseFiles[b])
    ensures Merged(if added[a].number !in deleted then files + [added[a]] else files,
                   baseFiles, b, added, a + 1, deleted)
  {
    var f := added[a];
    assert added[..a+1] == added[..a] + [f];
    forall i | b <= i < |baseFiles| ensures BySmallest(f, baseFiles[i]) {
      BySmallestOrder(f, baseFiles[b], baseFiles[i]);
    }
    assert AllBefore(files, f);
  }
}
