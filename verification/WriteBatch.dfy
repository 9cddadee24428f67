/** Write batches: operations laid out in one string that is also the log record
    (db/write_batch.cc, db/write_batch_internal.h). */
module WriteBatches {
  import opened Keys
  import opened Coding
  import opened Store

  const HEADER: nat := 12

  // Operations as bytes.

  function EncodeOp(op: Op): Bytes {
    match op.kind
    case Value => [1] + LengthPrefixed(op.user) + LengthPrefixed(op.value)
    case Deletion => [0] + LengthPrefixed(op.user)
  }

  function EncodeOps(ops: seq<Op>): Bytes {
    if ops == [] then [] else EncodeOps(ops[..|ops| - 1]) + EncodeOp(ops[|ops| - 1])
  }

  /** Lengths fit 32 bits, and a deletion carries no value. */
  predicate Encodable(op: Op) {
    |op.user| < TWO32 && |op.value| < TWO32 && (op.kind == Deletion ==> op.value == [])
  }

  predicate AllEncodable(ops: seq<Op>) {
    forall op :: op in ops ==> Encodable(op)
  }

  /** One operation from the front of a string. */
  function DecodeOp(s: Bytes): Option<Parsed<Op>>
    requires s != []
  {
    if s[0] == 1 then
      match LengthPrefixedAt(s[1..])
      case None => None
      case Some(k) =>
        (match LengthPrefixedAt(k.rest)
         case None => None
         case Some(v) => Some(Parsed(Op(k.value, Value, v.value), v.rest)))
    else if s[0] == 0 then
      match LengthPrefixedAt(s[1..])
      case None => None
      case Some(k) => Some(Parsed(Op(k.value, Deletion, []), k.rest))
    else None
  }

  lemma DecodeOpShrinks(s: Bytes)
    requires s != []
    ensures DecodeOp(s).Some? ==> |DecodeOp(s).value.rest| < |s|
  {
    hide VarintAt;
    VarintShrinks(s[1..], 5);
    if s[0] == 1 && LengthPrefixedAt(s[1..]).Some? {
      VarintShrinks(LengthPrefixedAt(s[1..]).value.rest, 5);
    }
  }

  /** What a pass over the bytes hands on, and whether it reached the end. */
  /** A tag that is neither, or a string that is cut short, is no operation. */
  lemma DecodeOpRefuses(s: Bytes)
    requires s != []
    ensures s[0] > 1 ==> DecodeOp(s) == None
    ensures LengthPrefixedAt(s[1..]).None? ==> DecodeOp(s) == None
  {
  }

  function DecodeOps(s: Bytes): (seq<Op>, bool)
    decreases |s|
  {
    if s == [] then ([], true) else
    DecodeOpShrinks(s);
    match DecodeOp(s)
    case None => ([], false)
    case Some(p) => var (ops, ok) := DecodeOps(p.rest); ([p.value] + ops, ok)
  }

  lemma DecodeEncodedOp(op: Op, rest: Bytes)
    requires Encodable(op)
    ensures DecodeOp(EncodeOp(op) + rest) == Some(Parsed(op, rest))
  {
    hide LengthPrefixed, LengthPrefixedAt;
    var s := EncodeOp(op) + rest;
    if op.kind == Value {
      assert s[1..] == LengthPrefixed(op.user) + (LengthPrefixed(op.value) + rest);
      LengthPrefixedRoundTrip(op.user, LengthPrefixed(op.value) + rest);
      LengthPrefixedRoundTrip(op.value, rest);
    } else {
      assert s[1..] == LengthPrefixed(op.user) + rest;
      LengthPrefixedRoundTrip(op.user, rest);
    }
  }

  lemma {:induction false} EncodeOpsFirst(ops: seq<Op>)
    requires ops != []
    ensures EncodeOps(ops) == EncodeOp(ops[0]) + EncodeOps(ops[1..])
  {
    hide EncodeOp;
    var n := |ops| - 1;
    if n > 0 {
      EncodeOpsFirst(ops[..n]);
      assert ops[..n][1..] == ops[1..][..n - 1];
    }
  }

  lemma {:induction false} EncodeOpsConcat(a: seq<Op>, b: seq<Op>)
    ensures EncodeOps(a + b) == EncodeOps(a) + EncodeOps(b)
  {
    hide EncodeOp;
    if b == [] {
      assert a + b == a;
    } else {
      assert (a + b)[..|a + b| - 1] == a + b[..|b| - 1];
      EncodeOpsConcat(a, b[..|b| - 1]);
    }
  }

  /** Reading the bytes of some operations gives back the operations. */
  lemma {:induction false} OpsRoundTrip(ops: seq<Op>)
    requires AllEncodable(ops)
    ensures DecodeOps(EncodeOps(ops)) == (ops, true)
  {
    hide EncodeOp, DecodeOp;
    if ops != [] {
      EncodeOpsFirst(ops);
      EncodedNotEmpty(ops[0]);
      DecodeEncodedOp(ops[0], EncodeOps(ops[1..]));
      OpsRoundTrip(ops[1..]);
      assert ops == [ops[0]] + ops[1..];
    }
  }

  lemma EncodedNotEmpty(op: Op)
    ensures EncodeOp(op) != []
  {
  }

  /** The whole layout: sequence number, count, operations. */
  function Layout(sequence: Uint64, ops: seq<Op>): Bytes
    requires |ops| < TWO32
  {
    EncodeFixed64(sequence) + EncodeFixed32(|ops|) + EncodeOps(ops)
  }

  class WriteBatch {
    var rep: Bytes
    ghost var sequence: Uint64
    ghost var ops: seq<Op>

    ghost predicate Valid()
      reads this
    {
      |ops| < TWO32 && AllEncodable(ops) && rep == Layout(sequence, ops)
    }

    constructor ()
      ensures Valid() && ops == []
    {
      rep := seq(HEADER, _ => 0);
      sequence, ops := 0, [];
      new;
      ClearIs();
    }

    method Clear()
      modifies this
      ensures Valid() && ops == []
    {
      rep := seq(HEADER, _ => 0);
      sequence, ops := 0, [];
      ClearIs();
    }

    function Count(): (n: Uint32)
      requires Valid()
      reads this
      ensures n == |ops|
    {
      HeaderFields(sequence, ops);
      DecodeFixed32(rep[8..12])
    }

    method SetSequence(s: Uint64)
      requires Valid()
      modifies this
      ensures Valid() && ops == old(ops) && sequence == s
    {
      HeaderFields(sequence, ops);
      rep := EncodeFixed64(s) + rep[8..];
      sequence := s;
    }

    method Put(user: Bytes, value: Bytes)
      requires Valid() && |ops| + 1 < TWO32 && |user| < TWO32 && |value| < TWO32
      modifies this
      ensures Valid() && ops == old(ops) + [Op(user, Value, value)] && sequence == old(sequence)
    {
      hide EncodeOps, EncodeFixed32, EncodeFixed64, LengthPrefixed;
      ghost var op := Op(user, Value, value);
      LayoutExtends(sequence, ops, op);
      SetCount(Count() + 1);
      ghost var counted := rep;
      rep := rep + [1];
      rep := rep + LengthPrefixed(user);
      rep := rep + LengthPrefixed(value);
      assert rep == counted + EncodeOp(op);
      ops := ops + [op];
    }

    method Delete(user: Bytes)
      requires Valid() && |ops| + 1 < TWO32 && |user| < TWO32
      modifies this
      ensures Valid() && ops == old(ops) + [Op(user, Deletion, [])] && sequence == old(sequence)
    {
      hide EncodeOps, EncodeFixed32, EncodeFixed64, LengthPrefixed;
      ghost var op := Op(user, Deletion, []);
      LayoutExtends(sequence, ops, op);
      SetCount(Count() + 1);
      ghost var counted := rep;
      rep := rep + [0];
      rep := rep + LengthPrefixed(user);
      assert rep == counted + EncodeOp(op);
      ops := ops + [op];
    }

    // The operations lag behind the count until the caller has added them.
    method SetCount(n: Uint32)
      requires Valid()
      modifies this`rep
      ensures rep == EncodeFixed64(sequence) + EncodeFixed32(n) + EncodeOps(ops)
    {
      HeaderFields(sequence, ops);
      rep := rep[..8] + EncodeFixed32(n) + rep[12..];
    }

    /** Another batch's operations after this one's. */
    method Append(src: WriteBatch)
      requires Valid() && src.Valid() && src != this && |ops| + |src.ops| < TWO32
      modifies this
      ensures Valid() && ops == old(ops) + src.ops && sequence == old(sequence)
    {
      hide EncodeOps, EncodeFixed32, EncodeFixed64, Encodable;
      HeaderFields(src.sequence, src.ops);
      LayoutJoins(sequence, ops, src.ops);
      SetCount(Count() + src.Count());
      rep := rep + src.rep[HEADER..];
      ops := ops + src.ops;
    }
  }

  lemma LayoutJoins(sequence: Uint64, a: seq<Op>, b: seq<Op>)
    requires |a| + |b| < TWO32
    ensures EncodeFixed64(sequence) + EncodeFixed32(|a| + |b|) + EncodeOps(a) + EncodeOps(b) == Layout(sequence, a + b)
  {
    hide EncodeFixed64, EncodeFixed32, EncodeOps;
    EncodeOpsConcat(a, b);
    Regroup(EncodeFixed64(sequence) + EncodeFixed32(|a| + |b|), EncodeOps(a), EncodeOps(b));
  }

  lemma LayoutExtends(sequence: Uint64, ops: seq<Op>, op: Op)
    requires |ops| + 1 < TWO32
    ensures EncodeFixed64(sequence) + EncodeFixed32(|ops| + 1) + EncodeOps(ops) + EncodeOp(op) == Layout(sequence, ops + [op])
  {
    hide EncodeFixed64, EncodeFixed32, EncodeOp;
    assert (ops + [op])[..|ops|] == ops;
  }

  lemma ClearIs()
    ensures seq(HEADER, _ => 0) == Layout(0, [])
  {
    assert Fixed(0, 8) == [0, 0, 0, 0, 0, 0, 0, 0] by {
      assert Fixed(0, 4) == [0, 0, 0, 0];
    }
    assert Fixed(0, 4) == [0, 0, 0, 0];
  }

  lemma HeaderFields(sequence: Uint64, ops: seq<Op>)
    requires |ops| < TWO32
    ensures var rep := Layout(sequence, ops);
            && |rep| >= HEADER && rep[..8] == EncodeFixed64(sequence) && rep[8..12] == EncodeFixed32(|ops|)
            && rep[12..] == EncodeOps(ops) && rep[8..] == EncodeFixed32(|ops|) + EncodeOps(ops)
  {
    hide EncodeOps, EncodeFixed64, EncodeFixed32;
    var a, b, c := EncodeFixed64(sequence), EncodeFixed32(|ops|), EncodeOps(ops);
    assert Layout(sequence, ops) == a + b + c;
    HeaderParts(a, b, c);
  }

  lemma HeaderParts(a: Bytes, b: Bytes, c: Bytes)
    requires |a| == 8 && |b| == 4
    ensures var rep := a + b + c; rep[..8] == a && rep[8..12] == b && rep[12..] == c && rep[8..] == b + c
  {
  }

  /** Iterate: hands every operation to the handler in order; an error leaves those before it handed on. */
  method Iterate(rep: Bytes) returns (ok: bool, ops: seq<Op>)
    ensures |rep| < HEADER ==> !ok && ops == []
    ensures |rep| >= HEADER ==>
              && ops == DecodeOps(rep[HEADER..]).0
              && ok == (DecodeOps(rep[HEADER..]).1 && |ops| == DecodeFixed32(rep[8..12]))
  {
    hide DecodeOp, DecodeOps;
    ops := [];
    if |rep| < HEADER {
      return false, [];
    }
    var input := rep[HEADER..];
    var found := 0;
    assert [] + DecodeOps(input).0 == DecodeOps(input).0;
    while input != []
      invariant found == |ops|
      invariant DecodeOps(rep[HEADER..]).0 == ops + DecodeOps(input).0
      invariant DecodeOps(rep[HEADER..]).1 == DecodeOps(input).1
      decreases |input|
    {
      DecodeOpShrinks(input);
      DecodeOpsStep(ops, input);
      found := found + 1;
      var p := NextOp(input);
      if p.None? {
        return false, ops;
      }
      ops := ops + [p.value.value];
      input := p.value.rest;
    }
    NothingToDecode(ops);
    return found == DecodeFixed32(rep[8..12]), ops;
  }

  lemma NothingToDecode(ops: seq<Op>)
    ensures DecodeOps([]) == ([], true) && ops + [] == ops
  {
  }

  lemma DecodeOpsStep(ops: seq<Op>, input: Bytes)
    requires input != []
    ensures match DecodeOp(input)
            case None => ops + DecodeOps(input).0 == ops && !DecodeOps(input).1
            case Some(p) => ops + DecodeOps(input).0 == (ops + [p.value]) + DecodeOps(p.rest).0
                            && DecodeOps(input).1 == DecodeOps(p.rest).1
  {
    hide DecodeOp;
  }

  // One turn of the loop: the tag, then the strings it calls for.
  method NextOp(input: Bytes) returns (p: Option<Parsed<Op>>)
    requires input != []
    ensures p == DecodeOp(input)
  {
    hide LengthPrefixedAt;
    var tag, rest := input[0], input[1..];
    if tag == 1 {
      var k := LengthPrefixedAt(rest);
      if k.None? {
        return None;
      }
      var v := LengthPrefixedAt(k.value.rest);
      if v.None? {
        return None;
      }
      return Some(Parsed(Op(k.value.value, Value, v.value.value), v.value.rest));
    } else if tag == 0 {
      var k := LengthPrefixedAt(rest);
      if k.None? {
        return None;
      }
      return Some(Parsed(Op(k.value.value, Deletion, []), k.value.rest));
    }
    return None;
  }

  /** A batch built with Put, Delete and Append iterates over exactly the operations put into it. */
  lemma LayoutRoundTrip(sequence: Uint64, ops: seq<Op>)
    requires |ops| < TWO32 && AllEncodable(ops)
    ensures var rep := Layout(sequence, ops);
            && |rep| >= HEADER && DecodeOps(rep[HEADER..]) == (ops, true)
            && DecodeFixed32(rep[8..12]) == |ops| && DecodeFixed64(rep[..8]) == sequence
  {
    HeaderFields(sequence, ops);
    OpsRoundTrip(ops);
  }
}
