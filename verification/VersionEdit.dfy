/** Version edits as manifest records: tagged fields written one after another, and read back
    (db/version_edit.h, db/version_edit.cc). */
module VersionEdits {
  import opened Keys
  import opened Coding

  const NUM_LEVELS: nat := 7

  /** A file as the manifest knows it; keys are internal keys as bytes. */
  datatype FileMeta = FileMeta(number: Uint64, size: Uint64, smallest: Bytes, largest: Bytes)

  /** One tagged field. */
  datatype Field =
    | Comparator(name: Bytes)
    | LogNumber(number: Uint64)
    | PrevLogNumber(number: Uint64)
    | NextFileNumber(number: Uint64)
    | LastSequence(number: Uint64)
    | CompactPointer(level: nat, key: Bytes)
    | DeletedFile(level: nat, number: Uint64)
    | NewFile(level: nat, file: FileMeta)

  function Tag(f: Field): nat {
    match f
    case Comparator(_) => 1
    case LogNumber(_) => 2
    case NextFileNumber(_) => 3
    case LastSequence(_) => 4
    case CompactPointer(_, _) => 5
    case DeletedFile(_, _) => 6
    case NewFile(_, _) => 7
    case PrevLogNumber(_) => 9
  }

  function Body(f: Field): Bytes {
    match f
    case Comparator(name) => LengthPrefixed(name)
    case LogNumber(n) => Varint(n)
    case PrevLogNumber(n) => Varint(n)
    case NextFileNumber(n) => Varint(n)
    case LastSequence(n) => Varint(n)
    case CompactPointer(level, key) => Varint(level) + LengthPrefixed(key)
    case DeletedFile(level, n) => Varint(level) + Varint(n)
    case NewFile(level, f) =>
      Varint(level) + Varint(f.number) + Varint(f.size) + LengthPrefixed(f.smallest) + LengthPrefixed(f.largest)
  }

  function Encoded(f: Field): Bytes {
    Varint(Tag(f)) + Body(f)
  }

  function EncodedAll(fs: seq<Field>): Bytes {
    if fs == [] then [] else EncodedAll(fs[..|fs| - 1]) + Encoded(fs[|fs| - 1])
  }

  /** Levels exist, and strings have lengths of 32 bits. */
  predicate Writable(f: Field) {
    match f
    case Comparator(name) => |name| < TWO32
    case CompactPointer(level, key) => level < NUM_LEVELS && |key| < TWO32
    case DeletedFile(level, _) => level < NUM_LEVELS
    case NewFile(level, f) => level < NUM_LEVELS && |f.smallest| < TWO32 && |f.largest| < TWO32
    case _ => true
  }

  // Reading one field.

  function LevelAt(s: Bytes): Option<Parsed<nat>> {
    match Varint32At(s)
    case None => None
    case Some(p) => if p.value < NUM_LEVELS then Some(Parsed(p.value, p.rest)) else None
  }

  function NumberField(make: Uint64 -> Field, s: Bytes): Option<Parsed<Field>> {
    match Varint64At(s)
    case None => None
    case Some(p) => Some(Parsed(make(p.value), p.rest))
  }

  function FileAt(level: nat, s: Bytes): Option<Parsed<Field>> {
    match Varint64At(s)
    case None => None
    case Some(n) => match Varint64At(n.rest)
      case None => None
      case Some(z) => match LengthPrefixedAt(z.rest)
        case None => None
        case Some(a) => match LengthPrefixedAt(a.rest)
          case None => None
          case Some(b) => Some(Parsed(NewFile(level, FileMeta(n.value, z.value, a.value, b.value)), b.rest))
  }

  /** The field a tag announces. */
  function BodyAt(tag: nat, s: Bytes): Option<Parsed<Field>> {
    if tag == 1 then
      (match LengthPrefixedAt(s) case None => None case Some(p) => Some(Parsed(Comparator(p.value), p.rest)))
    else if tag == 2 then NumberField((n: Uint64) => LogNumber(n), s)
    else if tag == 9 then NumberField((n: Uint64) => PrevLogNumber(n), s)
    else if tag == 3 then NumberField((n: Uint64) => NextFileNumber(n), s)
    else if tag == 4 then NumberField((n: Uint64) => LastSequence(n), s)
    else if tag == 5 then
      (match LevelAt(s)
       case None => None
       case Some(l) => match LengthPrefixedAt(l.rest)
         case None => None
         case Some(k) => Some(Parsed(CompactPointer(l.value, k.value), k.rest)))
    else if tag == 6 then
      (match LevelAt(s)
       case None => None
       case Some(l) => match Varint64At(l.rest)
         case None => None
         case Some(n) => Some(Parsed(DeletedFile(l.value, n.value), n.rest)))
    else if tag == 7 then
      (match LevelAt(s) case None => None case Some(l) => FileAt(l.value, l.rest))
    else None
  }

  function FieldAt(s: Bytes): Option<Parsed<Field>> {
    match Varint32At(s)
    case None => None
    case Some(t) => BodyAt(t.value, t.rest)
  }

  lemma LevelRoundTrip(level: nat, rest: Bytes)
    requires level < NUM_LEVELS
    ensures LevelAt(Varint(level) + rest) == Some(Parsed(level, rest))
  {
    hide Varint, Varint32At;
    Varint32RoundTrip(level, rest);
  }

  lemma FileRoundTrip(level: nat, f: FileMeta, rest: Bytes)
    requires Writable(NewFile(level, f))
    ensures FileAt(level, Varint(f.number) + Varint(f.size) + LengthPrefixed(f.smallest) + LengthPrefixed(f.largest) + rest)
         == Some(Parsed(NewFile(level, f), rest))
  {
    hide Varint, Varint64At, LengthPrefixed, LengthPrefixedAt;
    var a, b, c, d := Varint(f.number), Varint(f.size), LengthPrefixed(f.smallest), LengthPrefixed(f.largest);
    assert a + b + c + d + rest == a + (b + (c + (d + rest)));
    Varint64RoundTrip(f.number, b + (c + (d + rest)));
    Varint64RoundTrip(f.size, c + (d + rest));
    LengthPrefixedRoundTrip(f.smallest, d + rest);
    LengthPrefixedRoundTrip(f.largest, rest);
  }

  /** A field followed by anything reads back. */
  lemma FieldRoundTrip(f: Field, rest: Bytes)
    requires Writable(f)
    ensures FieldAt(Encoded(f) + rest) == Some(Parsed(f, rest))
  {
    hide Varint, Varint32At, Varint64At, LengthPrefixed, LengthPrefixedAt, LevelAt, FileAt;
    var body := Body(f) + rest;
    assert Encoded(f) + rest == Varint(Tag(f)) + body;
    Varint32RoundTrip(Tag(f), body);
    match f
    case Comparator(name) => LengthPrefixedRoundTrip(name, rest);
    case LogNumber(n) => Varint64RoundTrip(n, rest);
    case PrevLogNumber(n) => Varint64RoundTrip(n, rest);
    case NextFileNumber(n) => Varint64RoundTrip(n, rest);
    case LastSequence(n) => Varint64RoundTrip(n, rest);
    case CompactPointer(level, key) =>
      assert body == Varint(level) + (LengthPrefixed(key) + rest);
      LevelRoundTrip(level, LengthPrefixed(key) + rest);
      LengthPrefixedRoundTrip(key, rest);
    case DeletedFile(level, n) =>
      assert body == Varint(level) + (Varint(n) + rest);
      LevelRoundTrip(level, Varint(n) + rest);
      Varint64RoundTrip(n, rest);
    case NewFile(level, g) =>
      var tail := Varint(g.number) + Varint(g.size) + LengthPrefixed(g.smallest) + LengthPrefixed(g.largest) + rest;
      assert body == Varint(level) + tail;
      LevelRoundTrip(level, tail);
      FileRoundTrip(level, g, rest);
  }

  // Reading all fields.

  lemma StringShrinks(s: Bytes)
    ensures LengthPrefixedAt(s).Some? ==> |LengthPrefixedAt(s).value.rest| < |s|
  {
    hide VarintAt;
    VarintShrinks(s, 5);
  }

  lemma NumberShrinks(s: Bytes)
    ensures Varint64At(s).Some? ==> |Varint64At(s).value.rest| < |s|
    ensures Varint32At(s).Some? ==> |Varint32At(s).value.rest| < |s|
    ensures LevelAt(s).Some? ==> |LevelAt(s).value.rest| < |s|
  {
    hide VarintAt;
    VarintShrinks(s, 5);
    VarintShrinks(s, 10);
  }

  lemma FileShrinks(level: nat, s: Bytes)
    ensures FileAt(level, s).Some? ==> |FileAt(level, s).value.rest| < |s|
  {
    hide Varint64At, LengthPrefixedAt;
    NumberShrinks(s);
    if Varint64At(s).Some? {
      var n := Varint64At(s).value.rest;
      NumberShrinks(n);
      if Varint64At(n).Some? {
        var z := Varint64At(n).value.rest;
        StringShrinks(z);
        if LengthPrefixedAt(z).Some? {
          StringShrinks(LengthPrefixedAt(z).value.rest);
        }
      }
    }
  }

  lemma BodyShrinks(tag: nat, s: Bytes)
    ensures BodyAt(tag, s).Some? ==> |BodyAt(tag, s).value.rest| < |s|
  {
    hide Varint64At, LengthPrefixedAt, LevelAt, FileAt;
    StringShrinks(s);
    NumberShrinks(s);
    if LevelAt(s).Some? {
      var l := LevelAt(s).value;
      StringShrinks(l.rest);
      NumberShrinks(l.rest);
      FileShrinks(l.value, l.rest);
    }
  }

  /** The fields a pass over the bytes reads, and whether it reached the end. */
  /** A level from 7 on, or a tag that is none of the nine, is an error. */
  lemma FieldsRefused(s: Bytes)
    ensures forall t :: t == 0 || t == 8 || t > 9 ==> BodyAt(t, s) == None
    ensures Varint32At(s).None? || Varint32At(s).value.value >= 7 ==> BodyAt(5, s) == None && BodyAt(6, s) == None && BodyAt(7, s) == None
  {
  }

  function FieldsIn(s: Bytes): (seq<Field>, bool)
    decreases |s|
  {
    hide Varint32At, BodyAt;
    NumberShrinks(s);
    match Varint32At(s)
    case None => ([], s == [])
    case Some(t) =>
      BodyShrinks(t.value, t.rest);
      match BodyAt(t.value, t.rest)
      case None => ([], false)
      case Some(p) => var (fs, ok) := FieldsIn(p.rest); ([p.value] + fs, ok)
  }

  lemma {:induction false} EncodedAllFirst(fs: seq<Field>)
    requires fs != []
    ensures EncodedAll(fs) == Encoded(fs[0]) + EncodedAll(fs[1..])
  {
    hide Encoded;
    var n := |fs| - 1;
    if n > 0 {
      EncodedAllFirst(fs[..n]);
      assert fs[..n][1..] == fs[1..][..n - 1];
    }
  }

  /** The bytes of some fields read back as these fields. */
  lemma {:induction false} FieldsRoundTrip(fs: seq<Field>)
    requires forall f :: f in fs ==> Writable(f)
    ensures FieldsIn(EncodedAll(fs)) == (fs, true)
  {
    hide Encoded, Varint32At, BodyAt, Writable;
    if fs == [] {
      NoField();
    } else {
      var s := EncodedAll(fs);
      EncodedAllFirst(fs);
      FieldRoundTrip(fs[0], EncodedAll(fs[1..]));
      FieldsRoundTrip(fs[1..]);
      assert fs == [fs[0]] + fs[1..];
    }
  }

  lemma NoField()
    ensures Varint32At([]) == None
  {
  }

  // The edit itself.

  /** Deleted files are kept as an ordered set. */
  predicate DeletedBefore(a: (nat, Uint64), b: (nat, Uint64)) {
    a.0 < b.0 || (a.0 == b.0 && a.1 < b.1)
  }

  ghost predicate Ordered(deleted: seq<(nat, Uint64)>) {
    forall i, j :: 0 <= i < j < |deleted| ==> DeletedBefore(deleted[i], deleted[j])
  }

  function Insert(deleted: seq<(nat, Uint64)>, d: (nat, Uint64)): seq<(nat, Uint64)> {
    if deleted == [] || DeletedBefore(d, deleted[0]) then [d] + deleted
    else if d == deleted[0] then deleted
    else [deleted[0]] + Insert(deleted[1..], d)
  }

  lemma {:induction false} InsertOrdered(deleted: seq<(nat, Uint64)>, d: (nat, Uint64))
    requires Ordered(deleted)
    ensures Ordered(Insert(deleted, d))
    ensures forall x :: x in Insert(deleted, d) <==> x in deleted || x == d
  {
    if deleted != [] {
      assert deleted == [deleted[0]] + deleted[1..];
      assert forall i :: 1 <= i < |deleted| ==> DeletedBefore(deleted[0], deleted[i]);
      if DeletedBefore(d, deleted[0]) {
      } else if d != deleted[0] {
        InsertOrdered(deleted[1..], d);
        var r := Insert(deleted[1..], d);
        forall i | 0 <= i < |r| ensures DeletedBefore(deleted[0], r[i]) {
          assert r[i] in r;
        }
      }
    }
  }

  lemma {:induction false} InsertLast(deleted: seq<(nat, Uint64)>, d: (nat, Uint64))
    requires Ordered(deleted + [d])
    ensures Insert(deleted, d) == deleted + [d]
  {
    if deleted != [] {
      var all := deleted + [d];
      assert DeletedBefore(all[0], all[|deleted|]);
      assert all[1..] == deleted[1..] + [d];
      InsertLast(deleted[1..], d);
      assert deleted == [deleted[0]] + deleted[1..];
    }
  }

  datatype Edit = Edit(comparator: Option<Bytes>, logNumber: Option<Uint64>, prevLogNumber: Option<Uint64>,
                       nextFileNumber: Option<Uint64>, lastSequence: Option<Uint64>,
                       compactPointers: seq<(nat, Bytes)>, deletedFiles: seq<(nat, Uint64)>, newFiles: seq<(nat, FileMeta)>)

  function NoEdit(): Edit {
    Edit(None, None, None, None, None, [], [], [])
  }

  function Optional<T>(o: Option<T>, make: T -> Field): seq<Field> {
    if o.Some? then [make(o.value)] else []
  }

  function Pointers(ps: seq<(nat, Bytes)>): seq<Field> {
    seq(|ps|, i requires 0 <= i < |ps| => CompactPointer(ps[i].0, ps[i].1))
  }

  function Deletions(ds: seq<(nat, Uint64)>): seq<Field> {
    seq(|ds|, i requires 0 <= i < |ds| => DeletedFile(ds[i].0, ds[i].1))
  }

  function Additions(fs: seq<(nat, FileMeta)>): seq<Field> {
    seq(|fs|, i requires 0 <= i < |fs| => NewFile(fs[i].0, fs[i].1))
  }

  function Numbers(e: Edit): seq<Field> {
    Optional(e.comparator, (b: Bytes) => Comparator(b)) + Optional(e.logNumber, (n: Uint64) => LogNumber(n))
    + Optional(e.prevLogNumber, (n: Uint64) => PrevLogNumber(n)) + Optional(e.nextFileNumber, (n: Uint64) => NextFileNumber(n))
    + Optional(e.lastSequence, (n: Uint64) => LastSequence(n))
  }

  /** The fields of an edit, in the order in which they are written. */
  function Fields(e: Edit): seq<Field> {
    Numbers(e) + Pointers(e.compactPointers) + Deletions(e.deletedFiles) + Additions(e.newFiles)
  }

  /** What reading a field does to an edit. */
  function Applied(e: Edit, f: Field): Edit {
    match f
    case Comparator(name) => e.(comparator := Some(name))
    case LogNumber(n) => e.(logNumber := Some(n))
    case PrevLogNumber(n) => e.(prevLogNumber := Some(n))
    case NextFileNumber(n) => e.(nextFileNumber := Some(n))
    case LastSequence(n) => e.(lastSequence := Some(n))
    case CompactPointer(level, key) => e.(compactPointers := e.compactPointers + [(level, key)])
    case DeletedFile(level, n) => e.(deletedFiles := Insert(e.deletedFiles, (level, n)))
    case NewFile(level, g) => e.(newFiles := e.newFiles + [(level, g)])
  }

  function AppliedAll(e: Edit, fs: seq<Field>): Edit
    decreases |fs|
  {
    if fs == [] then e else AppliedAll(Applied(e, fs[0]), fs[1..])
  }

  lemma {:induction false} AppliedConcat(e: Edit, a: seq<Field>, b: seq<Field>)
    ensures AppliedAll(e, a + b) == AppliedAll(AppliedAll(e, a), b)
    decreases |a|
  {
    hide Applied;
    if a == [] {
      assert a + b == b;
    } else {
      assert (a + b)[0] == a[0] && (a + b)[1..] == a[1..] + b;
      AppliedConcat(Applied(e, a[0]), a[1..], b);
    }
  }

  lemma {:induction false} PointersApplied(e: Edit, ps: seq<(nat, Bytes)>)
    ensures AppliedAll(e, Pointers(ps)) == e.(compactPointers := e.compactPointers + ps)
    decreases |ps|
  {
    if ps == [] {
      assert e.compactPointers + [] == e.compactPointers;
    } else {
      assert Pointers(ps)[1..] == Pointers(ps[1..]);
      PointersApplied(Applied(e, Pointers(ps)[0]), ps[1..]);
      assert e.compactPointers + [ps[0]] + ps[1..] == e.compactPointers + ps;
    }
  }

  lemma {:induction false} DeletionsApplied(e: Edit, ds: seq<(nat, Uint64)>)
    requires Ordered(e.deletedFiles + ds)
    ensures AppliedAll(e, Deletions(ds)) == e.(deletedFiles := e.deletedFiles + ds)
    decreases |ds|
  {
    if ds == [] {
      assert e.deletedFiles + [] == e.deletedFiles;
    } else {
      assert Deletions(ds)[1..] == Deletions(ds[1..]);
      assert e.deletedFiles + [ds[0]] == (e.deletedFiles + ds)[..|e.deletedFiles| + 1];
      InsertLast(e.deletedFiles, ds[0]);
      assert e.deletedFiles + [ds[0]] + ds[1..] == e.deletedFiles + ds;
      DeletionsApplied(Applied(e, Deletions(ds)[0]), ds[1..]);
    }
  }

  lemma {:induction false} AdditionsApplied(e: Edit, fs: seq<(nat, FileMeta)>)
    ensures AppliedAll(e, Additions(fs)) == e.(newFiles := e.newFiles + fs)
    decreases |fs|
  {
    if fs == [] {
      assert e.newFiles + [] == e.newFiles;
    } else {
      assert Additions(fs)[1..] == Additions(fs[1..]);
      AdditionsApplied(Applied(e, Additions(fs)[0]), fs[1..]);
      assert e.newFiles + [fs[0]] + fs[1..] == e.newFiles + fs;
    }
  }

  lemma OptionalApplied<T>(e: Edit, o: Option<T>, make: T -> Field)
    ensures AppliedAll(e, Optional(o, make)) == if o.Some? then Applied(e, make(o.value)) else e
  {
    if o.Some? {
      assert [make(o.value)][1..] == [];
    }
  }

  lemma NumbersApplied(e: Edit, base: Edit)
    requires base.comparator.None? && base.logNumber.None? && base.prevLogNumber.None?
    requires base.nextFileNumber.None? && base.lastSequence.None?
    ensures AppliedAll(base, Numbers(e))
         == base.(comparator := e.comparator, logNumber := e.logNumber, prevLogNumber := e.prevLogNumber,
                  nextFileNumber := e.nextFileNumber, lastSequence := e.lastSequence)
  {
    hide AppliedAll, Optional;
    var c, l := Optional(e.comparator, (b: Bytes) => Comparator(b)), Optional(e.logNumber, (n: Uint64) => LogNumber(n));
    var p, x := Optional(e.prevLogNumber, (n: Uint64) => PrevLogNumber(n)), Optional(e.nextFileNumber, (n: Uint64) => NextFileNumber(n));
    var s := Optional(e.lastSequence, (n: Uint64) => LastSequence(n));
    var e1 := base.(comparator := e.comparator);
    var e2 := e1.(logNumber := e.logNumber);
    var e3 := e2.(prevLogNumber := e.prevLogNumber);
    var e4 := e3.(nextFileNumber := e.nextFileNumber);
    OptionalApplied(base, e.comparator, (b: Bytes) => Comparator(b));
    OptionalApplied(e1, e.logNumber, (n: Uint64) => LogNumber(n));
    OptionalApplied(e2, e.prevLogNumber, (n: Uint64) => PrevLogNumber(n));
    OptionalApplied(e3, e.nextFileNumber, (n: Uint64) => NextFileNumber(n));
    OptionalApplied(e4, e.lastSequence, (n: Uint64) => LastSequence(n));
    AppliedConcat(base, c + l + p + x, s);
    AppliedConcat(base, c + l + p, x);
    AppliedConcat(base, c + l, p);
    AppliedConcat(base, c, l);
  }

  /** Applying the fields of an edit to an empty one gives the edit. Compaction pointers come after any that the
      receiver has already. */
  lemma FieldsApplied(e: Edit, base: Edit)
    requires Ordered(e.deletedFiles) && base == NoEdit().(compactPointers := base.compactPointers)
    ensures AppliedAll(base, Fields(e)) == e.(compactPointers := base.compactPointers + e.compactPointers)
  {
    hide AppliedAll, Numbers, Pointers, Deletions, Additions;
    var n, p, d, a := Numbers(e), Pointers(e.compactPointers), Deletions(e.deletedFiles), Additions(e.newFiles);
    AppliedConcat(base, n + p + d, a);
    AppliedConcat(base, n + p, d);
    AppliedConcat(base, n, p);
    NumbersApplied(e, base);
    var e1 := AppliedAll(base, n);
    PointersApplied(e1, e.compactPointers);
    var e2 := AppliedAll(e1, p);
    assert e2.deletedFiles + e.deletedFiles == e.deletedFiles;
    DeletionsApplied(e2, e.deletedFiles);
    var e3 := AppliedAll(e2, d);
    AdditionsApplied(e3, e.newFiles);
    assert e3.newFiles + e.newFiles == e.newFiles;
  }

  lemma EncodedAppend(fs: seq<Field>, f: Field)
    ensures EncodedAll(fs + [f]) == EncodedAll(fs) + Encoded(f)
  {
    assert (fs + [f])[..|fs|] == fs;
  }

  ghost predicate EditWritable(e: Edit) {
    Ordered(e.deletedFiles) && forall f :: f in Fields(e) ==> Writable(f)
  }

  class VersionEdit {
    var comparator: Option<Bytes>
    var logNumber: Option<Uint64>
    var prevLogNumber: Option<Uint64>
    var nextFileNumber: Option<Uint64>
    var lastSequence: Option<Uint64>
    var compactPointers: seq<(nat, Bytes)>
    var deletedFiles: seq<(nat, Uint64)>
    var newFiles: seq<(nat, FileMeta)>

    ghost function State(): Edit
      reads this
    {
      Edit(comparator, logNumber, prevLogNumber, nextFileNumber, lastSequence, compactPointers, deletedFiles, newFiles)
    }

    constructor ()
      ensures State() == NoEdit()
    {
      comparator, logNumber, prevLogNumber, nextFileNumber, lastSequence := None, None, None, None, None;
      compactPointers, deletedFiles, newFiles := [], [], [];
    }

    /** Everything goes but the compaction pointers. */
    method Clear()
      modifies this
      ensures State() == NoEdit().(compactPointers := old(compactPointers))
    {
      comparator, logNumber, prevLogNumber, nextFileNumber, lastSequence := None, None, None, None, None;
      deletedFiles, newFiles := [], [];
    }

    method DeleteFile(level: nat, number: Uint64)
      requires Ordered(deletedFiles)
      modifies this
      ensures Ordered(deletedFiles) && State() == old(State()).(deletedFiles := deletedFiles)
      ensures forall d :: d in deletedFiles <==> d in old(deletedFiles) || d == (level, number)
    {
      InsertOrdered(deletedFiles, (level, number));
      deletedFiles := Insert(deletedFiles, (level, number));
    }

    method AddFile(level: nat, file: FileMeta)
      modifies this
      ensures State() == old(State()).(newFiles := old(newFiles) + [(level, file)])
    {
      newFiles := newFiles + [(level, file)];
    }

    /** The fields that are set, then the compaction pointers, the deleted files in order and the new files. */
    method EncodeTo() returns (dst: Bytes)
      ensures dst == EncodedAll(Fields(State()))
    {
      hide Encoded, EncodedAll, Optional, Pointers, Deletions, Additions;
      NothingEncoded();
      dst := PutFields([], [], Optional(comparator, (b: Bytes) => Comparator(b)));
      ghost var done := [] + Optional(comparator, (b: Bytes) => Comparator(b));
      dst := PutFields(dst, done, Optional(logNumber, (n: Uint64) => LogNumber(n)));
      done := done + Optional(logNumber, (n: Uint64) => LogNumber(n));
      dst := PutFields(dst, done, Optional(prevLogNumber, (n: Uint64) => PrevLogNumber(n)));
      done := done + Optional(prevLogNumber, (n: Uint64) => PrevLogNumber(n));
      dst := PutFields(dst, done, Optional(nextFileNumber, (n: Uint64) => NextFileNumber(n)));
      done := done + Optional(nextFileNumber, (n: Uint64) => NextFileNumber(n));
      dst := PutFields(dst, done, Optional(lastSequence, (n: Uint64) => LastSequence(n)));
      done := done + Optional(lastSequence, (n: Uint64) => LastSequence(n));
      assert [] + Optional(comparator, (b: Bytes) => Comparator(b)) == Optional(comparator, (b: Bytes) => Comparator(b));
      assert done == Numbers(State());
      dst := PutFields(dst, done, Pointers(compactPointers));
      dst := PutFields(dst, done + Pointers(compactPointers), Deletions(deletedFiles));
      dst := PutFields(dst, done + Pointers(compactPointers) + Deletions(deletedFiles), Additions(newFiles));
    }

    /** Reads the fields one after another. Compaction pointers from before stay. */
    method DecodeFrom(src: Bytes) returns (ok: bool)
      requires Ordered(deletedFiles)
      modifies this
      ensures Ordered(deletedFiles) && ok == FieldsIn(src).1
      ensures State() == AppliedAll(NoEdit().(compactPointers := old(compactPointers)), FieldsIn(src).0)
    {
      hide FieldsIn, AppliedAll, BodyAt, Varint32At;
      Clear();
      ghost var base := NoEdit().(compactPointers := old(compactPointers));
      var input := src;
      while true
        invariant Ordered(deletedFiles)
        invariant FieldsIn(src).1 == FieldsIn(input).1
        invariant AppliedAll(base, FieldsIn(src).0) == AppliedAll(State(), FieldsIn(input).0)
        decreases |input|
      {
        NumberShrinks(input);
        FieldsStep(State(), input);
        var tag := GetVarint32(input);
        if tag.None? {
          return input == [];
        }
        BodyShrinks(tag.value.value, tag.value.rest);
        var field := BodyAt(tag.value.value, tag.value.rest);
        if field.None? {
          return false;
        }
        Take(field.value.value);
        input := field.value.rest;
      }
    }

    method Take(f: Field)
      requires Ordered(deletedFiles)
      modifies this
      ensures Ordered(deletedFiles) && State() == Applied(old(State()), f)
    {
      match f
      case Comparator(name) => comparator := Some(name);
      case LogNumber(n) => logNumber := Some(n);
      case PrevLogNumber(n) => prevLogNumber := Some(n);
      case NextFileNumber(n) => nextFileNumber := Some(n);
      case LastSequence(n) => lastSequence := Some(n);
      case CompactPointer(level, key) => compactPointers := compactPointers + [(level, key)];
      case DeletedFile(level, n) =>
        InsertOrdered(deletedFiles, (level, n));
        deletedFiles := Insert(deletedFiles, (level, n));
      case NewFile(level, g) => newFiles := newFiles + [(level, g)];
    }
  }

  lemma NothingEncoded()
    ensures EncodedAll([]) == []
  {
  }

  lemma FieldsStep(e: Edit, s: Bytes)
    ensures match Varint32At(s)
            case None => FieldsIn(s) == ([], s == []) && AppliedAll(e, FieldsIn(s).0) == e
            case Some(t) =>
              match BodyAt(t.value, t.rest)
              case None => FieldsIn(s) == ([], false) && AppliedAll(e, FieldsIn(s).0) == e
              case Some(p) => FieldsIn(s).1 == FieldsIn(p.rest).1
                              && AppliedAll(e, FieldsIn(s).0) == AppliedAll(Applied(e, p.value), FieldsIn(p.rest).0)
  {
    hide Varint32At, BodyAt, Applied;
    if Varint32At(s).Some? && BodyAt(Varint32At(s).value.value, Varint32At(s).value.rest).Some? {
      var p := BodyAt(Varint32At(s).value.value, Varint32At(s).value.rest).value;
      assert FieldsIn(s).0[1..] == FieldsIn(p.rest).0;
    }
  }

  method PutFields(dst: Bytes, ghost done: seq<Field>, fs: seq<Field>) returns (r: Bytes)
    requires dst == EncodedAll(done)
    ensures r == EncodedAll(done + fs)
  {
    hide Encoded, EncodedAll;
    r := dst;
    assert done + fs[..0] == done;
    for i := 0 to |fs|
      invariant r == EncodedAll(done + fs[..i])
    {
      EncodedAppend(done + fs[..i], fs[i]);
      assert done + fs[..i] + [fs[i]] == done + fs[..i + 1];
      r := r + Encoded(fs[i]);
    }
    assert fs[..|fs|] == fs;
  }

  /** An edit that was written reads back into a fresh object as the same edit. */
  lemma EditRoundTrip(e: Edit)
    requires EditWritable(e)
    ensures var (fs, ok) := FieldsIn(EncodedAll(Fields(e))); ok && AppliedAll(NoEdit(), fs) == e
  {
    hide Fields, AppliedAll, EncodedAll, FieldsIn;
    FieldsRoundTrip(Fields(e));
    FieldsApplied(e, NoEdit());
    assert [] + e.compactPointers == e.compactPointers;
  }

  /** Into an object that has compaction pointers already it does so if and only if there were none: Clear leaves them. */
  lemma ReusedEditRoundTrip(e: Edit, pointers: seq<(nat, Bytes)>)
    requires EditWritable(e)
    ensures AppliedAll(NoEdit().(compactPointers := pointers), FieldsIn(EncodedAll(Fields(e))).0) == e <==> pointers == []
  {
    hide Fields, AppliedAll, EncodedAll, FieldsIn;
    FieldsRoundTrip(Fields(e));
    FieldsApplied(e, NoEdit().(compactPointers := pointers));
    assert |pointers + e.compactPointers| == |pointers| + |e.compactPointers|;
    assert [] + e.compactPointers == e.compactPointers;
  }
}
