/** What goes wrong when a pick is not closed under user key, on runs the store takes from its empty beginning: a snapshot
    keeps a value and the deletion marker over it apart, an output is cut between them, and the one or the other way the
    deleted key is back (db/db_impl.cc, db/version_set.cc). */
module OpenPicks {
  import opened Keys
  import opened Contents
  import opened Versions
  import opened Overlaps
  import opened Compactions
  import opened VersionBuilder
  import opened Store
  import opened StoreCompaction
  import opened StoreRuns

  /** Three keys, the value of each write by its sequence number, the size of every file, and how much of the level after
      the next a file may overlap. */
  datatype Case = Case(c: Bytes, d: Bytes, x: Bytes, v: nat -> Bytes, size: nat, limit: nat)

  predicate Fits(k: Case) {
    Less(k.c, k.d) && Less(k.d, k.x) && k.size <= k.limit
  }

  // The writes, as entries.

  function C1(k: Case): Entry { Entry(InternalKey(k.c, 1, Value), k.v(1)) }
  function C2(k: Case): Entry { Entry(InternalKey(k.c, 2, Value), k.v(2)) }
  function X3(k: Case): Entry { Entry(InternalKey(k.x, 3, Value), k.v(3)) }
  function C4(k: Case): Entry { Entry(InternalKey(k.c, 4, Value), k.v(4)) }
  function D5(k: Case): Entry { Entry(InternalKey(k.d, 5, Value), k.v(5)) }
  function X6(k: Case): Entry { Entry(InternalKey(k.x, 6, Deletion), []) }
  function D7(k: Case): Entry { Entry(InternalKey(k.d, 7, Value), k.v(7)) }

  function Both(k: Case): seq<Entry> { [C4(k), C2(k), D5(k), X6(k), X3(k)] }
  function Later(k: Case): seq<Entry> { [C4(k), D5(k), X6(k), X3(k)] }

  // The tables, with the numbers they are given.

  function FileWith(k: Case, number: nat, es: seq<Entry>): File
    requires es != []
  {
    File(number, k.size, es[0].key, es[|es| - 1].key, es)
  }

  function Bottom(k: Case): File { FileWith(k, 3, [C1(k)]) }
  function Middle(k: Case): File { FileWith(k, 5, [C2(k)]) }
  function Top(k: Case): File { FileWith(k, 7, Later(k)) }
  function Cs(k: Case): File { FileWith(k, 8, [C4(k), C2(k)]) }
  function Marker(k: Case): File { FileWith(k, 9, [D5(k), X6(k)]) }
  function Covered(k: Case): File { FileWith(k, 10, [X3(k)]) }
  function Again(k: Case): File { FileWith(k, 12, [D7(k)]) }
  function Merged(k: Case): File { FileWith(k, 13, [D7(k)]) }

  function Stacked(top: seq<File>, first: seq<File>, second: seq<File>): Levels {
    [top, first, second, [], [], [], []]
  }

  // The states.

  function Empty(): Db { Db([], None, Stacked([], [], []), 0, 2, []) }
  function S1(k: Case): Db { Empty().(mem := [C1(k)], lastSequence := 1) }
  function S2(k: Case): Db { S1(k).(mem := [], imm := Some([C1(k)]), nextFile := 3) }
  function S3(k: Case): Db { S2(k).(imm := None, nextFile := 4, levels := Stacked([], [], [Bottom(k)])) }
  function S4(k: Case): Db { S3(k).(mem := [C2(k)], lastSequence := 2) }
  function S5(k: Case): Db { S4(k).(mem := [], imm := Some([C2(k)]), nextFile := 5) }
  function S6(k: Case): Db { S5(k).(imm := None, nextFile := 6, levels := Stacked([], [Middle(k)], [Bottom(k)])) }
  function S7(k: Case): Db { S6(k).(mem := [X3(k)], lastSequence := 3) }
  function S8(k: Case): Db { S7(k).(snapshots := [3]) }
  function S9(k: Case): Db { S8(k).(mem := Later(k), lastSequence := 6) }
  function S10(k: Case): Db { S9(k).(mem := [], imm := Some(Later(k)), nextFile := 7) }
  function S11(k: Case): Db { S10(k).(imm := None, nextFile := 8, levels := Stacked([Top(k)], [Middle(k)], [Bottom(k)])) }
  function Cut(k: Case): Db {
    S11(k).(nextFile := 11, levels := Stacked([], [Cs(k), Marker(k), Covered(k)], [Bottom(k)]))
  }

  function Moved(k: Case): Db { Cut(k).(levels := Stacked([], [Cs(k), Covered(k)], [Bottom(k), Marker(k)])) }

  function R1(k: Case): Db { Cut(k).(snapshots := []) }
  function R2(k: Case): Db { R1(k).(mem := [D7(k)], lastSequence := 7) }
  function R3(k: Case): Db { R2(k).(mem := [], imm := Some([D7(k)]), nextFile := 12) }
  function R4(k: Case): Db {
    R3(k).(imm := None, nextFile := 13, levels := Stacked([Again(k)], [Cs(k), Marker(k), Covered(k)], [Bottom(k)]))
  }
  function Lost(k: Case): Db {
    R4(k).(nextFile := 14, levels := Stacked([], [Cs(k), Merged(k), Covered(k)], [Bottom(k)]))
  }

  // The actions and what they write.

  function PutC(k: Case, n: nat): seq<Op> { [Op(k.c, Value, k.v(n))] }
  function PutX(k: Case): seq<Op> { [Op(k.x, Value, k.v(3))] }
  function PutPutDelete(k: Case): seq<Op> { [Op(k.c, Value, k.v(4)), Op(k.d, Value, k.v(5)), Op(k.x, Deletion, [])] }
  function PutD(k: Case): seq<Op> { [Op(k.d, Value, k.v(7))] }

  function FirstMerge(k: Case): Action {
    Compact(0, [Top(k)], [Middle(k)], Both(k), [Cs(k), Marker(k), Covered(k)])
  }

  function SecondMerge(k: Case): Action {
    Compact(0, [Again(k)], [Marker(k)], [D7(k), D5(k), X6(k)], [Merged(k)])
  }

  // The keys' order.

  lemma Ordering(k: Case)
    requires Fits(k)
    ensures Less(k.c, k.x) && !Less(k.c, k.c) && !Less(k.d, k.d) && !Less(k.x, k.x)
    ensures !Less(k.d, k.c) && !Less(k.x, k.d) && !Less(k.x, k.c) && k.c != k.d && k.d != k.x && k.c != k.x
  {
    UserOrder();
  }

  lemma EntriesInOrder(k: Case)
    requires Fits(k)
    ensures Sorted(Both(k)) && Sorted(Later(k)) && Sorted([C4(k), C2(k)]) && Sorted([D5(k), X6(k)])
    ensures Sorted([D7(k), D5(k), X6(k)]) && forall e :: Sorted([e])
  {
    Ordering(k);
    hide Less;
  }

  lemma FilesAreValid(k: Case)
    requires Fits(k)
    ensures ValidFile(Bottom(k)) && ValidFile(Middle(k)) && ValidFile(Top(k)) && ValidFile(Cs(k)) && ValidFile(Marker(k))
    ensures ValidFile(Covered(k)) && ValidFile(Again(k)) && ValidFile(Merged(k))
  {
    EntriesInOrder(k);
    hide Sorted;
  }

  lemma FilesInOrder(k: Case)
    requires Fits(k)
    ensures SortedBySmallest([Cs(k), Marker(k), Covered(k)]) && SortedBySmallest([Cs(k), Covered(k)])
    ensures SortedBySmallest([Bottom(k), Marker(k)]) && SortedBySmallest([Cs(k), Merged(k), Covered(k)])
    ensures SortedBySmallest([]) && forall f :: SortedBySmallest([f])
  {
    Ordering(k);
    hide Less;
  }

  // Steps on the three levels in use.

  ghost predicate Upper(edit: FileEdit) {
    (forall d :: d in edit.deletedFiles ==> d.0 < 3) && (forall a :: a in edit.newFiles ==> a.0 < 3)
  }

  lemma StackEdited(l0: seq<File>, l1: seq<File>, l2: seq<File>, edit: FileEdit, m0: seq<File>, m1: seq<File>, m2: seq<File>)
    requires Upper(edit) && SortedBySmallest(m0) && SortedBySmallest(m1) && SortedBySmallest(m2)
    requires Files(m0) == Edited(Files(l0), edit, 0) && Files(m1) == Edited(Files(l1), edit, 1) && Files(m2) == Edited(Files(l2), edit, 2)
    ensures LevelsEdited(Stacked(l0, l1, l2), edit, Stacked(m0, m1, m2))
  {
    hide SortedBySmallest;
    assert SortedBySmallest([]) by {
      NothingToSort();
    }
    forall l | 3 <= l < NUM_LEVELS ensures Deleted(edit, l) == {} && Added(edit, l) == {} {
    }
  }

  lemma NothingToSort()
    ensures SortedBySmallest([])
  {
  }

  // No file of these overlaps the range.
  lemma InNone(files: seq<File>, begin: Bytes, end: Bytes)
    requires forall i :: 0 <= i < |files| ==> !InRange(files[i], Some(begin), Some(end))
    ensures !Overlapped(files, begin, end) && FilesInRange(files, Some(begin), Some(end)) == []
  {
    if files != [] {
      InNone(files[..|files| - 1], begin, end);
    }
  }

  lemma OneInRange(f: File, begin: Bytes, end: Bytes)
    requires InRange(f, Some(begin), Some(end))
    ensures Overlapped([f], begin, end) && FilesInRange([f], Some(begin), Some(end)) == [f] && TotalFileSize([f]) == f.size
  {
    assert [f][..0] == [] && f in [f];
  }

  // Writes.

  lemma OneWrite(db: Db, op: Op, e: Entry, db': Db)
    requires db.mem == [] && db.lastSequence + 1 < MAX_SEQUENCE && e == NewEntry(op, db.lastSequence + 1)
    requires db' == db.(mem := [e], lastSequence := db.lastSequence + 1)
    ensures WriteStep(db, [op], db')
  {
    assert NewEntries([op], db.lastSequence) == {e} by {
      assert [op][0] == op;
    }
    assert Elems([e]) == {e} && Elems([]) == {};
  }

  lemma ThreeWrites(k: Case)
    requires Fits(k)
    ensures WriteStep(S8(k), PutPutDelete(k), S9(k))
  {
    EntriesInOrder(k);
    hide Sorted, Less, KeyLess;
    var ops := PutPutDelete(k);
    assert NewEntry(ops[0], 4) == C4(k) && NewEntry(ops[1], 5) == D5(k) && NewEntry(ops[2], 6) == X6(k);
    assert NewEntries(ops, 3) == {C4(k), D5(k), X6(k)};
    assert Elems(Later(k)) == {C4(k), D5(k), X6(k), X3(k)} && Elems([X3(k)]) == {X3(k)};
  }

  // Flushes.

  lemma FlushTaken(db: Db, f: File, level: nat, limit: nat, db': Db)
    requires |db.levels| == NUM_LEVELS && MemTableFile(db, f) && f.entries != []
    requires MemTableLevel(db.levels, f.smallest.user, f.largest.user, limit, level)
    requires LevelsEdited(db.levels, FileEdit([], [(level, f)]), db'.levels)
    requires db' == db.(imm := None, nextFile := db.nextFile + 1, levels := db'.levels)
    ensures Step(db, FlushMemTable(level), db') && Chosen(db, FlushMemTable(level), limit)
  {
    hide MemTableLevel, LevelsEdited;
    MemTableLevelBound(db.levels, f.smallest.user, f.largest.user, limit, level);
    assert FlushLevel(db, f, level);
  }

  lemma NewFileOnly(level: nat, f: File, l: nat)
    ensures Deleted(FileEdit([], [(level, f)]), l) == {} && Added(FileEdit([], [(level, f)]), l) == if l == level then {f} else {}
    ensures Files([f]) == {f} && Files([]) == {}
  {
  }

  lemma PlacedAt(level: nat, f: File, l0: seq<File>, l1: seq<File>, l2: seq<File>, m0: seq<File>, m1: seq<File>, m2: seq<File>)
    requires SortedBySmallest(m0) && SortedBySmallest(m1) && SortedBySmallest(m2)
    requires level < 3 && (if level == 0 then l0 == [] && m0 == [f] else m0 == l0)
    requires if level == 1 then l1 == [] && m1 == [f] else m1 == l1
    requires if level == 2 then l2 == [] && m2 == [f] else m2 == l2
    ensures LevelsEdited(Stacked(l0, l1, l2), FileEdit([], [(level, f)]), Stacked(m0, m1, m2))
  {
    NewFileOnly(level, f, 0);
    NewFileOnly(level, f, 1);
    NewFileOnly(level, f, 2);
    hide SortedBySmallest;
    StackEdited(l0, l1, l2, FileEdit([], [(level, f)]), m0, m1, m2);
  }

  lemma FirstFlush(k: Case)
    requires Fits(k)
    ensures Step(S2(k), FlushMemTable(2), S3(k)) && Chosen(S2(k), FlushMemTable(2), k.limit)
  {
    var f, levels := Bottom(k), S2(k).levels;
    FilesAreValid(k);
    FilesInOrder(k);
    InNone([], k.c, k.c);
    hide Less, KeyLess, SortedBySmallest, Overlapped, FilesInRange, ValidFile, Step, Chosen, LevelsEdited;
    assert GoesBelow(levels, 0, k.c, k.c, k.limit) && GoesBelow(levels, 1, k.c, k.c, k.limit);
    PlacedAt(2, f, [], [], [], [], [], [f]);
    FlushTaken(S2(k), f, 2, k.limit, S3(k));
  }

  lemma SecondFlush(k: Case)
    requires Fits(k)
    ensures Step(S5(k), FlushMemTable(1), S6(k)) && Chosen(S5(k), FlushMemTable(1), k.limit)
  {
    var f, b, levels := Middle(k), Bottom(k), S5(k).levels;
    FilesAreValid(k);
    FilesInOrder(k);
    Ordering(k);
    InNone([], k.c, k.c);
    OneInRange(b, k.c, k.c);
    hide Less, KeyLess, SortedBySmallest, Overlapped, FilesInRange, ValidFile, TotalFileSize, Step, Chosen, LevelsEdited;
    assert GoesBelow(levels, 0, k.c, k.c, k.limit) && !GoesBelow(levels, 1, k.c, k.c, k.limit);
    PlacedAt(1, f, [], [], [b], [], [f], [b]);
    FlushTaken(S5(k), f, 1, k.limit, S6(k));
  }

  lemma ThirdFlush(k: Case)
    requires Fits(k)
    ensures Step(S10(k), FlushMemTable(0), S11(k)) && Chosen(S10(k), FlushMemTable(0), k.limit)
  {
    var f, m, b, levels := Top(k), Middle(k), Bottom(k), S10(k).levels;
    FilesAreValid(k);
    FilesInOrder(k);
    Ordering(k);
    InNone([], k.c, k.x);
    OneInRange(m, k.c, k.x);
    hide Less, KeyLess, SortedBySmallest, Overlapped, FilesInRange, ValidFile, TotalFileSize, Step, Chosen, LevelsEdited;
    assert !GoesBelow(levels, 0, k.c, k.x, k.limit);
    PlacedAt(0, f, [], [m], [b], [f], [m], [b]);
    FlushTaken(S10(k), f, 0, k.limit, S11(k));
  }

  lemma FourthFlush(k: Case)
    requires Fits(k)
    ensures Step(R3(k), FlushMemTable(0), R4(k)) && Chosen(R3(k), FlushMemTable(0), k.limit)
  {
    var f, cut, b, levels := Again(k), [Cs(k), Marker(k), Covered(k)], Bottom(k), R3(k).levels;
    FilesAreValid(k);
    FilesInOrder(k);
    Ordering(k);
    InNone([], k.d, k.d);
    assert cut[1] == Marker(k) && Marker(k) in cut && InRange(Marker(k), Some(k.d), Some(k.d));
    assert Overlapped(cut, k.d, k.d);
    hide Less, KeyLess, SortedBySmallest, Overlapped, FilesInRange, ValidFile, TotalFileSize, Step, Chosen, LevelsEdited;
    assert !GoesBelow(levels, 0, k.d, k.d, k.limit);
    PlacedAt(0, f, [], cut, [b], [f], cut, [b]);
    FlushTaken(R3(k), f, 0, k.limit, R4(k));
  }

  // Merges.

  lemma KeptNext(es: seq<Entry>, smallest: nat, base: Bytes -> bool, e: Entry)
    ensures Kept(es + [e], smallest, base)
         == Kept(es, smallest, base) + if Dropped(es + [e], smallest, base, |es|) then [] else [e]
  {
    assert (es + [e])[..|es|] == es;
  }

  lemma NothingDropped(k: Case, base: Bytes -> bool)
    requires Fits(k)
    ensures Kept(Both(k), 3, base) == Both(k)
  {
    Ordering(k);
    hide Less, Kept;
    var a: seq<Entry> := [];
    assert Kept(a, 3, base) == [] by {
      KeptNone(3, base);
    }
    KeptNext([], 3, base, C4(k));
    KeptNext([C4(k)], 3, base, C2(k));
    KeptNext([C4(k), C2(k)], 3, base, D5(k));
    KeptNext([C4(k), C2(k), D5(k)], 3, base, X6(k));
    KeptNext([C4(k), C2(k), D5(k), X6(k)], 3, base, X3(k));
    assert [] + [C4(k)] == [C4(k)] && [C4(k)] + [C2(k)] == [C4(k), C2(k)];
    assert [C4(k), C2(k)] + [D5(k)] == [C4(k), C2(k), D5(k)] && [C4(k), C2(k), D5(k)] + [X6(k)] == [C4(k), C2(k), D5(k), X6(k)];
    assert [C4(k), C2(k), D5(k), X6(k)] + [X3(k)] == Both(k);
  }

  lemma KeptNone(smallest: nat, base: Bytes -> bool)
    ensures Kept([], smallest, base) == []
  {
  }

  lemma MarkerDropped(k: Case, base: Bytes -> bool)
    requires Fits(k) && base(k.x)
    ensures Kept([D7(k), D5(k), X6(k)], 7, base) == [D7(k)]
  {
    Ordering(k);
    hide Less, Kept;
    NewestKept(D7(k), D5(k), X6(k), 7, base);
  }

  lemma NewestKept(a: Entry, b: Entry, d: Entry, smallest: nat, base: Bytes -> bool)
    requires a.key.kind == Value && a.key.user == b.key.user != d.key.user && a.key.seqno <= smallest
    requires d.key.kind == Deletion && d.key.seqno <= smallest && base(d.key.user)
    ensures Kept([a, b, d], smallest, base) == [a]
  {
    KeptNone(smallest, base);
    hide Kept;
    KeptNext([], smallest, base, a);
    KeptNext([a], smallest, base, b);
    KeptNext([a, b], smallest, base, d);
    assert [] + [a] == [a] && [a] + [b] == [a, b] && [a, b] + [d] == [a, b, d];
  }

  lemma FlattenNext(files: seq<File>, f: File)
    ensures Flatten(files + [f]) == Flatten(files) + f.entries
  {
    assert (files + [f])[..|files|] == files;
  }

  lemma ContentsNext(files: seq<File>, f: File)
    ensures FileContents(files + [f]) == FileContents(files) + Elems(f.entries)
  {
    assert f in files + [f];
    forall e | e in FileContents(files) ensures e in FileContents(files + [f]) {
      var g :| g in files && e in g.entries;
      assert g in files + [f];
    }
  }

  lemma NoContents()
    ensures FileContents([]) == {} && Flatten([]) == []
  {
  }

  lemma OneContents(f: File)
    ensures FileContents([f]) == Elems(f.entries) && Flatten([f]) == f.entries
  {
    NoContents();
    ContentsNext([], f);
    FlattenNext([], f);
    assert [] + [f] == [f];
  }

  // The only file of level 0, with those of level 1 in its range.
  lemma PickIs(levels: Levels, f: File, in1: seq<File>)
    requires |levels| == NUM_LEVELS && levels[0] == [f]
    requires in1 == FilesInRange(levels[1], Some(f.smallest.user), Some(f.largest.user))
    ensures ValidPick(levels, 0, [f], in1)
  {
    KeyOrder();
    assert f in [f];
    assert RangeOf([f], f.smallest, f.largest);
  }

  lemma MergeTaken(db: Db, top: File, in1: seq<File>, merged: seq<Entry>, outputs: seq<File>, limit: nat, db': Db)
    requires |db.levels| == NUM_LEVELS && db.levels[0] == [top] && in1 != []
    requires in1 == FilesInRange(db.levels[1], Some(top.smallest.user), Some(top.largest.user))
    requires Sorted(merged) && Elems(merged) == Elems(top.entries) + FileContents(in1)
    requires Outputs(outputs, db.nextFile) && Flatten(outputs) == Kept(merged, Oldest(db), Base(db.levels, 0))
    requires LevelsEdited(db.levels, CompactionEdit(0, [top], in1, outputs), db'.levels)
    requires db' == db.(levels := db'.levels, nextFile := db.nextFile + |outputs|)
    ensures Step(db, Compact(0, [top], in1, merged, outputs), db') && Chosen(db, Compact(0, [top], in1, merged, outputs), limit)
  {
    PickIs(db.levels, top, in1);
    OneContents(top);
    hide ValidPick, Sorted, FileContents, Elems, Outputs, Flatten, Kept, Base, LevelsEdited, CompactionEdit, FilesInRange;
  }

  lemma FirstMergeTaken(k: Case)
    requires Fits(k)
    ensures Step(S11(k), FirstMerge(k), Cut(k)) && Chosen(S11(k), FirstMerge(k), k.limit)
  {
    BeforeFirstMerge(k);
    FirstPick(k);
    FirstEntries(k);
    NothingDropped(k, Base(S11(k).levels, 0));
    FirstOutputs(k);
    FirstNumbers(k);
    FirstEdit(k);
    hide *;
    MergeTaken(S11(k), Top(k), [Middle(k)], Both(k), [Cs(k), Marker(k), Covered(k)], k.limit, Cut(k));
    FirstMergeIs(k);
  }

  lemma BeforeFirstMerge(k: Case)
    ensures var db, db' := S11(k), Cut(k);
            && |db.levels| == NUM_LEVELS && db.levels[0] == [Top(k)] && db.levels[1] == [Middle(k)] && db.nextFile == 8 && Oldest(db) == 3
            && db' == db.(levels := db'.levels, nextFile := db.nextFile + |[Cs(k), Marker(k), Covered(k)]|)
  {
  }

  lemma FirstMergeIs(k: Case)
    ensures FirstMerge(k) == Compact(0, [Top(k)], [Middle(k)], Both(k), [Cs(k), Marker(k), Covered(k)])
  {
  }

  lemma FirstPick(k: Case)
    requires Fits(k)
    ensures [Middle(k)] == FilesInRange([Middle(k)], Some(Top(k).smallest.user), Some(Top(k).largest.user))
  {
    Ordering(k);
    OneInRange(Middle(k), k.c, k.x);
  }

  lemma FirstEntries(k: Case)
    requires Fits(k)
    ensures Sorted(Both(k)) && Elems(Both(k)) == Elems(Top(k).entries) + FileContents([Middle(k)])
  {
    EntriesInOrder(k);
    OneContents(Middle(k));
    hide Less, KeyLess, Sorted;
  }

  lemma FirstNumbers(k: Case)
    requires Fits(k)
    ensures Outputs([Cs(k), Marker(k), Covered(k)], 8)
  {
    FilesAreValid(k);
    hide ValidFile;
  }

  lemma FirstOutputs(k: Case)
    ensures Flatten([Cs(k), Marker(k), Covered(k)]) == Both(k)
  {
    OneContents(Cs(k));
    hide Flatten;
    FlattenNext([Cs(k)], Marker(k));
    FlattenNext([Cs(k), Marker(k)], Covered(k));
    assert [Cs(k)] + [Marker(k)] == [Cs(k), Marker(k)] && [Cs(k), Marker(k)] + [Covered(k)] == [Cs(k), Marker(k), Covered(k)];
  }

  lemma FirstEdit(k: Case)
    requires Fits(k)
    ensures LevelsEdited(S11(k).levels, CompactionEdit(0, [Top(k)], [Middle(k)], [Cs(k), Marker(k), Covered(k)]), Cut(k).levels)
  {
    FilesInOrder(k);
    hide Less, KeyLess, SortedBySmallest, LevelsEdited, CompactionEdit;
    ThreeForTwo(Top(k), Middle(k), Bottom(k), Cs(k), Marker(k), Covered(k));
  }

  lemma ThreeForTwo(top: File, m: File, b: File, a0: File, a1: File, a2: File)
    requires SortedBySmallest([]) && SortedBySmallest([a0, a1, a2]) && SortedBySmallest([b])
    ensures LevelsEdited(Stacked([top], [m], [b]), CompactionEdit(0, [top], [m], [a0, a1, a2]), Stacked([], [a0, a1, a2], [b]))
  {
    hide SortedBySmallest;
    var edit := CompactionEdit(0, [top], [m], [a0, a1, a2]);
    assert edit.deletedFiles == [(0, top.number), (1, m.number)] && edit.newFiles == [(1, a0), (1, a1), (1, a2)];
    hide CompactionEdit;
    assert Deleted(edit, 0) == {top.number} && Deleted(edit, 1) == {m.number} && Deleted(edit, 2) == {};
    assert Added(edit, 0) == {} && Added(edit, 1) == {a0, a1, a2} && Added(edit, 2) == {};
    assert Files([a0, a1, a2]) == {a0, a1, a2} && Files([top]) == {top} && Files([m]) == {m};
    StackEdited([top], [m], [b], edit, [], [a0, a1, a2], [b]);
  }

  lemma MarkerInRange(k: Case)
    requires Fits(k)
    ensures FilesInRange([Cs(k), Marker(k), Covered(k)], Some(k.d), Some(k.d)) == [Marker(k)]
  {
    Ordering(k);
    hide Less;
    var files := [Cs(k), Marker(k), Covered(k)];
    assert files[..2] == [Cs(k), Marker(k)] && files[..2][..1] == [Cs(k)] && [Cs(k)][..0] == [];
    assert FilesInRange([Cs(k)], Some(k.d), Some(k.d)) == [];
    assert FilesInRange([Cs(k), Marker(k)], Some(k.d), Some(k.d)) == [Marker(k)];
  }

  lemma BaseOfX(k: Case)
    requires Fits(k)
    ensures BaseLevel(R4(k).levels, 0, k.x)
  {
    Ordering(k);
    hide Less;
  }

  lemma SecondMergeTaken(k: Case)
    requires Fits(k)
    ensures Step(R4(k), SecondMerge(k), Lost(k)) && Chosen(R4(k), SecondMerge(k), k.limit)
  {
    FilesAreValid(k);
    EntriesInOrder(k);
    MarkerInRange(k);
    BaseOfX(k);
    MarkerDropped(k, Base(R4(k).levels, 0));
    SecondEdit(k);
    OneContents(Marker(k));
    OneContents(Merged(k));
    hide Less, KeyLess, Sorted, SortedBySmallest, FilesInRange, ValidFile, Flatten, FileContents, Kept, Base, LevelsEdited,
         CompactionEdit, Step, Chosen;
    assert Elems([D7(k), D5(k), X6(k)]) == Elems([D7(k)]) + Elems([D5(k), X6(k)]);
    assert Outputs([Merged(k)], 13);
    MergeTaken(R4(k), Again(k), [Marker(k)], [D7(k), D5(k), X6(k)], [Merged(k)], k.limit, Lost(k));
  }

  lemma SecondEdit(k: Case)
    requires Fits(k)
    ensures LevelsEdited(R4(k).levels, CompactionEdit(0, [Again(k)], [Marker(k)], [Merged(k)]), Lost(k).levels)
  {
    FilesInOrder(k);
    hide Less, KeyLess, SortedBySmallest, LevelsEdited, CompactionEdit;
    OneForTwo(Again(k), Bottom(k), Cs(k), Marker(k), Covered(k), Merged(k));
  }

  lemma OneForTwo(top: File, b: File, a0: File, a1: File, a2: File, n: File)
    requires SortedBySmallest([]) && SortedBySmallest([a0, n, a2]) && SortedBySmallest([b])
    requires a0.number != a1.number && a1.number != a2.number
    ensures LevelsEdited(Stacked([top], [a0, a1, a2], [b]), CompactionEdit(0, [top], [a1], [n]), Stacked([], [a0, n, a2], [b]))
  {
    hide SortedBySmallest;
    var edit := CompactionEdit(0, [top], [a1], [n]);
    assert edit.deletedFiles == [(0, top.number), (1, a1.number)] && edit.newFiles == [(1, n)];
    hide CompactionEdit;
    assert Deleted(edit, 0) == {top.number} && Deleted(edit, 1) == {a1.number} && Deleted(edit, 2) == {};
    assert Added(edit, 0) == {} && Added(edit, 1) == {n} && Added(edit, 2) == {};
    assert Files([a0, a1, a2]) == {a0, a1, a2} && Files([a0, n, a2]) == {a0, n, a2} && Files([top]) == {top};
    StackEdited([top], [a0, a1, a2], [b], edit, [], [a0, n, a2], [b]);
  }

  // The move.

  lemma MoveIs(db: Db, level: nat, f: File, limit: nat, db': Db)
    requires |db.levels| == NUM_LEVELS && 0 < level && level + 2 < NUM_LEVELS && f in db.levels[level]
    requires FilesInRange(db.levels[level+1], Some(f.smallest.user), Some(f.largest.user)) == []
    requires FilesInRange(db.levels[level+2], Some(f.smallest.user), Some(f.largest.user)) == []
    requires LevelsEdited(db.levels, FileEdit([(level, f.number)], [(level + 1, f)]), db'.levels) && db' == db.(levels := db'.levels)
    ensures Step(db, MoveFile(level, f), db') && Chosen(db, MoveFile(level, f), limit)
  {
    KeyOrder();
    hide FilesInRange, LevelsEdited, KeyLess;
    assert f in [f] && RangeOf([f], f.smallest, f.largest);
  }

  lemma MoveTaken(k: Case)
    requires Fits(k)
    ensures Step(Cut(k), MoveFile(1, Marker(k)), Moved(k)) && Chosen(Cut(k), MoveFile(1, Marker(k)), k.limit)
  {
    BeforeMove(k);
    MoveEdit(k);
    hide *;
    MoveIs(Cut(k), 1, Marker(k), k.limit, Moved(k));
  }

  lemma BeforeMove(k: Case)
    requires Fits(k)
    ensures var db, db', f := Cut(k), Moved(k), Marker(k);
            && |db.levels| == NUM_LEVELS && f in db.levels[1] && db' == db.(levels := db'.levels)
            && FilesInRange(db.levels[2], Some(f.smallest.user), Some(f.largest.user)) == []
            && FilesInRange(db.levels[3], Some(f.smallest.user), Some(f.largest.user)) == []
  {
    Ordering(k);
    InNone([Bottom(k)], k.d, k.x);
    InNone([], k.d, k.x);
    hide Less, FilesInRange, Overlapped;
    assert Cut(k).levels[1][1] == Marker(k);
  }

  lemma MoveEdit(k: Case)
    requires Fits(k)
    ensures LevelsEdited(Cut(k).levels, FileEdit([(1, Marker(k).number)], [(2, Marker(k))]), Moved(k).levels)
  {
    FilesInOrder(k);
    hide Less, KeyLess, SortedBySmallest;
    var b, a0, a1, a2 := Bottom(k), Cs(k), Marker(k), Covered(k);
    var edit := FileEdit([(1, a1.number)], [(2, a1)]);
    assert Deleted(edit, 0) == {} && Deleted(edit, 1) == {9} && Deleted(edit, 2) == {};
    assert Added(edit, 0) == {} && Added(edit, 1) == {} && Added(edit, 2) == {a1};
    StackEdited([], [a0, a1, a2], [b], edit, [], [a0, a2], [b, a1]);
  }

  // Runs the store takes.

  /** A run in which memtables go as deep as they may and what can be moved trivially is. */
  ghost predicate Taken(states: seq<Db>, actions: seq<Action>, limit: nat) {
    && Run(states, actions)
    && forall i :: 0 <= i < |actions| ==> |states[i].levels| == NUM_LEVELS && Chosen(states[i], actions[i], limit)
  }

  lemma HistoryNext(actions: seq<Action>, a: Action)
    ensures History(actions + [a]) == Extended(History(actions), a)
  {
    assert (actions + [a])[..|actions|] == actions;
  }

  lemma Goes(states: seq<Db>, actions: seq<Action>, limit: nat, a: Action, db: Db, next: Db)
    returns (states': seq<Db>, actions': seq<Action>)
    requires Taken(states, actions, limit) && states[|actions|] == db && Step(db, a, next)
    requires |db.levels| == NUM_LEVELS && Chosen(db, a, limit)
    ensures Taken(states', actions', limit) && |states'| == |actions'| + 1 && states'[|actions'|] == next
    ensures History(actions') == Extended(History(actions), a)
  {
    hide Step, Initial, Chosen;
    HistoryNext(actions, a);
    states', actions' := states + [next], actions + [a];
    forall i | 0 <= i < |actions'| ensures Step(states'[i], actions'[i], states'[i+1]) {
      if i < |actions| {
        assert states'[i] == states[i] && states'[i+1] == states[i+1] && actions'[i] == actions[i];
      }
    }
  }

  lemma Writes(states: seq<Db>, actions: seq<Action>, limit: nat, ops: seq<Op>, db: Db, next: Db)
    returns (states': seq<Db>, actions': seq<Action>)
    requires Taken(states, actions, limit) && states[|actions|] == db && WriteStep(db, ops, next) && |db.levels| == NUM_LEVELS
    ensures Taken(states', actions', limit) && |states'| == |actions'| + 1 && states'[|actions'|] == next
    ensures History(actions') == History(actions) + ops
  {
    hide WriteStep, Taken;
    states', actions' := Goes(states, actions, limit, Write(ops), db, next);
  }

  lemma Switches(states: seq<Db>, actions: seq<Action>, limit: nat, db: Db, next: Db)
    returns (states': seq<Db>, actions': seq<Action>)
    requires Taken(states, actions, limit) && states[|actions|] == db && SwitchStep(db, next) && |db.levels| == NUM_LEVELS
    ensures Taken(states', actions', limit) && |states'| == |actions'| + 1 && states'[|actions'|] == next
    ensures History(actions') == History(actions)
  {
    hide Taken;
    states', actions' := Goes(states, actions, limit, SwitchMemTable, db, next);
  }

  function FirstWrites(k: Case): seq<Op> { PutC(k, 1) + PutC(k, 2) + PutX(k) + PutPutDelete(k) }

  lemma Begins(limit: nat)
    ensures Taken([Empty()], [], limit) && History([]) == []
  {
    assert Empty().levels == seq(NUM_LEVELS, _ => []);
  }

  // One write and its flush.
  lemma FirstTable(k: Case) returns (states: seq<Db>, actions: seq<Action>)
    requires Fits(k)
    ensures Taken(states, actions, k.limit) && |states| == |actions| + 1 && states[|actions|] == S3(k) && History(actions) == PutC(k, 1)
  {
    Begins(k.limit);
    FirstFlush(k);
    OneWrite(Empty(), Op(k.c, Value, k.v(1)), C1(k), S1(k));
    hide Taken, Step, Chosen, WriteStep, History, FileWith;
    states, actions := Writes([Empty()], [], k.limit, PutC(k, 1), Empty(), S1(k));
    states, actions := Switches(states, actions, k.limit, S1(k), S2(k));
    states, actions := Goes(states, actions, k.limit, FlushMemTable(2), S2(k), S3(k));
  }

  lemma SecondTable(k: Case) returns (states: seq<Db>, actions: seq<Action>)
    requires Fits(k)
    ensures Taken(states, actions, k.limit) && |states| == |actions| + 1 && states[|actions|] == S6(k)
    ensures History(actions) == PutC(k, 1) + PutC(k, 2)
  {
    SecondFlush(k);
    OneWrite(S3(k), Op(k.c, Value, k.v(2)), C2(k), S4(k));
    states, actions := FirstTable(k);
    hide Taken, Step, Chosen, WriteStep, History, FileWith;
    states, actions := Writes(states, actions, k.limit, PutC(k, 2), S3(k), S4(k));
    states, actions := Switches(states, actions, k.limit, S4(k), S5(k));
    states, actions := Goes(states, actions, k.limit, FlushMemTable(1), S5(k), S6(k));
  }

  lemma ThirdTable(k: Case) returns (states: seq<Db>, actions: seq<Action>)
    requires Fits(k)
    ensures Taken(states, actions, k.limit) && |states| == |actions| + 1 && states[|actions|] == S11(k) && History(actions) == FirstWrites(k)
  {
    ThirdFlush(k);
    ThreeWrites(k);
    OneWrite(S6(k), Op(k.x, Value, k.v(3)), X3(k), S7(k));
    Pins(k);
    states, actions := SecondTable(k);
    hide Taken, Step, Chosen, WriteStep, History, FileWith;
    states, actions := Writes(states, actions, k.limit, PutX(k), S6(k), S7(k));
    states, actions := Goes(states, actions, k.limit, TakeSnapshot, S7(k), S8(k));
    states, actions := Writes(states, actions, k.limit, PutPutDelete(k), S8(k), S9(k));
    states, actions := Switches(states, actions, k.limit, S9(k), S10(k));
    states, actions := Goes(states, actions, k.limit, FlushMemTable(0), S10(k), S11(k));
  }

  lemma Pins(k: Case)
    ensures Step(S7(k), TakeSnapshot, S8(k)) && Chosen(S7(k), TakeSnapshot, k.limit)
  {
    assert [] + [3] == [3];
  }

  lemma Releases(k: Case)
    ensures Step(Cut(k), DropSnapshot(0), R1(k)) && Chosen(Cut(k), DropSnapshot(0), k.limit)
  {
    assert [3][..0] + [3][1..] == [];
  }

  /** The run to the cut between the value and its marker. */
  lemma RunToCut(k: Case) returns (states: seq<Db>, actions: seq<Action>)
    requires Fits(k)
    ensures Taken(states, actions, k.limit) && |states| == |actions| + 1 && states[|actions|] == Cut(k) && History(actions) == FirstWrites(k)
  {
    FirstMergeTaken(k);
    states, actions := ThirdTable(k);
    hide Taken, Step, Chosen, History, FileWith;
    states, actions := Goes(states, actions, k.limit, FirstMerge(k), S11(k), Cut(k));
  }

  // What a search of the levels finds.

  lemma FoundCovered(k: Case, levels: Levels, s: nat)
    requires Fits(k) && s >= 6 && (levels == Moved(k).levels || levels == Lost(k).levels)
    ensures FindsNewest(FileContents(levels[0]), k.x, s, None) && forall e :: !IsNewest(FileContents(levels[0]), k.x, s, e)
    ensures IsNewest(FileContents(levels[1]), k.x, s, X3(k)) && !FindsNewest(FileContents(levels[1]), k.x, s, None)
    ensures forall e :: IsNewest(FileContents(levels[1]), k.x, s, e) ==> e == X3(k)
  {
    Ordering(k);
    hide Less;
    NoContents();
    assert Covered(k) in levels[1] && X3(k) in Covered(k).entries && X3(k) in FileContents(levels[1]);
    forall e | e in FileContents(levels[1]) && e.key.user == k.x ensures e == X3(k) {
      var f :| f in levels[1] && e in f.entries;
      assert f == Covered(k) || f == Cs(k) || f == Merged(k);
    }
  }

  lemma OneHit(k: Case, levels: Levels, s: nat)
    requires Fits(k) && s >= 6 && (levels == Moved(k).levels || levels == Lost(k).levels)
    ensures forall r :: FirstHit(levels, k.x, s, r) <==> r == Some(X3(k))
  {
    FoundCovered(k, levels, s);
    hide IsNewest, FindsNewest, X3, FileWith;
    assert HitAt(levels, 1, k.x, s, X3(k));
    forall r | FirstHit(levels, k.x, s, r) ensures r == Some(X3(k)) {
      if r.Some? {
        var l: nat :| l < |levels| && HitAt(levels, l, k.x, s, r.value);
      }
    }
  }

  lemma ReplayNext(history: seq<Op>, op: Op)
    ensures Replay(history + [op]) == ApplyOp(Replay(history), op)
  {
    assert (history + [op])[..|history|] == history;
  }

  lemma DeletedInMap(k: Case)
    requires Fits(k)
    ensures Lookup(Replay(FirstWrites(k)), k.x) == None && Lookup(Replay(FirstWrites(k) + PutD(k)), k.x) == None
  {
    Ordering(k);
    hide Less, Replay;
    var before := PutC(k, 1) + PutC(k, 2) + PutX(k) + [Op(k.c, Value, k.v(4)), Op(k.d, Value, k.v(5))];
    assert FirstWrites(k) == before + [Op(k.x, Deletion, [])];
    ReplayNext(before, Op(k.x, Deletion, []));
    ReplayNext(FirstWrites(k), Op(k.d, Value, k.v(7)));
  }

  // What comes of it.

  /** A trivial move of the marker's file from level 1 to level 2 leaves the value above it: a search of the levels finds
      the value and nothing else, though the key has been deleted, and the memtables hold nothing. */
  lemma MoveReturnsDeleted(k: Case) returns (states: seq<Db>, actions: seq<Action>)
    requires Fits(k)
    ensures Taken(states, actions, k.limit) && |states| == |actions| + 1 && states[|actions|] == Moved(k) && History(actions) == FirstWrites(k)
    ensures Moved(k).mem == [] && Moved(k).imm == None && Moved(k).lastSequence == 6
    ensures forall r :: FirstHit(Moved(k).levels, k.x, 6, r) <==> r == Some(X3(k))
    ensures X3(k).key.kind == Value && Lookup(Replay(FirstWrites(k)), k.x) == None
  {
    MoveTaken(k);
    OneHit(k, Moved(k).levels, 6);
    DeletedInMap(k);
    states, actions := RunToCut(k);
    hide Taken, Step, Chosen, History, FileWith, FirstHit, Replay;
    states, actions := Goes(states, actions, k.limit, MoveFile(1, Marker(k)), Cut(k), Moved(k));
  }

  /** A merge that takes in the marker's file but not the value's drops the marker: with no snapshot held any more, the
      deleted key is back for every reader. */
  lemma MergeReturnsDeleted(k: Case) returns (states: seq<Db>, actions: seq<Action>)
    requires Fits(k)
    ensures Taken(states, actions, k.limit) && |states| == |actions| + 1 && states[|actions|] == Lost(k)
    ensures History(actions) == FirstWrites(k) + PutD(k)
    ensures Lost(k).mem == [] && Lost(k).imm == None && Lost(k).snapshots == [] && Lost(k).lastSequence == 7
    ensures forall r :: FirstHit(Lost(k).levels, k.x, 7, r) <==> r == Some(X3(k))
    ensures X3(k).key.kind == Value && Lookup(Replay(FirstWrites(k) + PutD(k)), k.x) == None
  {
    SecondMergeTaken(k);
    FourthFlush(k);
    Releases(k);
    OneWrite(R1(k), Op(k.d, Value, k.v(7)), D7(k), R2(k));
    OneHit(k, Lost(k).levels, 7);
    DeletedInMap(k);
    states, actions := RunToCut(k);
    hide Taken, Step, Chosen, WriteStep, History, FileWith, FirstHit, Replay;
    states, actions := Goes(states, actions, k.limit, DropSnapshot(0), Cut(k), R1(k));
    states, actions := Writes(states, actions, k.limit, PutD(k), R1(k), R2(k));
    states, actions := Switches(states, actions, k.limit, R2(k), R3(k));
    states, actions := Goes(states, actions, k.limit, FlushMemTable(0), R3(k), R4(k));
    states, actions := Goes(states, actions, k.limit, SecondMerge(k), R4(k), Lost(k));
  }

  /** Neither state keeps the invariant. */
  lemma InvLost(k: Case)
    requires Fits(k)
    ensures !Inv(Moved(k), FirstWrites(k)) && !Inv(Lost(k), FirstWrites(k) + PutD(k))
  {
    DeletedInMap(k);
    LostIn(k, Moved(k), FirstWrites(k));
    LostIn(k, Lost(k), FirstWrites(k) + PutD(k));
  }

  lemma LostIn(k: Case, db: Db, history: seq<Op>)
    requires Fits(k) && (db == Moved(k) || db == Lost(k)) && Lookup(Replay(history), k.x) == None
    ensures !Inv(db, history)
  {
    hide ReadAt, Replay, ValidLevels, Sorted, UniqueNumbers, Layered, Recorded, Lookup, FileWith, Less;
    assert history[..|history|] == history;
    if Inv(db, history) {
      RecordedCoherent(All(db), history);
      OldestInRange(db);
      WrongRead(k, db, |history|);
    }
  }

  lemma WrongRead(k: Case, db: Db, s: nat)
    requires Fits(k) && (db == Moved(k) || db == Lost(k)) && Layered(db.levels) && Coherent(All(db)) && s >= 6
    ensures ReadAt(All(db), k.x, s) == Some(k.v(3))
  {
    OneHit(k, db.levels, s);
    hide Layered, ReadAt, Coherent, LevelContents, FirstHit, FileWith, Less;
    FirstHitIsNewest(db.levels, k.x, s, Some(X3(k)));
    assert Elems(db.mem) == {} && ImmElems(db) == {};
    assert All(db) == LevelContents(db.levels);
    ReadNewest(All(db), k.x, s, X3(k));
  }
}
