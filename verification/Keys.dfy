/** User keys, internal keys and the two orders every other module sorts by
    (include/leveldb/slice.h, db/dbformat.h, db/dbformat.cc). */
module Keys {

  datatype Option<+T> = None | Some(value: T)

  type Byte = x: int | 0 <= x < 256
  type Bytes = seq<Byte>

  // The largest sequence number: eight bits of the packed word are left for the kind.
  const MAX_SEQUENCE: nat := 0xFF_FFFF_FFFF_FFFF

  type SequenceNumber = n: nat | n <= MAX_SEQUENCE

  datatype Kind = Deletion | Value {
    function Code(): nat {
      match this case Deletion => 0 case Value => 1
    }
  }

  // The kind that sorts first among entries with the same sequence number.
  const KIND_FOR_SEEK := Value

  datatype InternalKey = InternalKey(user: Bytes, seqno: SequenceNumber, kind: Kind) {
    function Packed(): nat {
      seqno * 256 + kind.Code()
    }
  }

  datatype Entry = Entry(key: InternalKey, value: Bytes)

  /** Bytewise order: the first differing byte decides, and a proper prefix comes first. */
  predicate Less(a: Bytes, b: Bytes) {
    b != [] && (a == [] || a[0] < b[0] || (a[0] == b[0] && Less(a[1..], b[1..])))
  }

  /** Where the two first differ, the first has the smaller byte or has ended. */
  ghost predicate DifferAt(a: Bytes, b: Bytes, k: nat) {
    k <= |a| && k < |b| && a[..k] == b[..k] && (k < |a| ==> a[k] < b[k])
  }

  lemma HeadsAgree(a: Bytes, b: Bytes, k: nat)
    ensures k > 0 && DifferAt(a, b, k) ==> a != [] && a[0] == b[0]
  {
    if k > 0 && DifferAt(a, b, k) {
      assert a[..k][0] == b[..k][0];
    }
  }

  lemma {:induction false} LessIs(a: Bytes, b: Bytes)
    ensures Less(a, b) <==> exists k: nat :: DifferAt(a, b, k)
  {
    if b == [] || a == [] || a[0] != b[0] {
      assert Less(a, b) ==> DifferAt(a, b, 0);
      forall k: nat | DifferAt(a, b, k) ensures Less(a, b) {
        HeadsAgree(a, b, k);
      }
    } else {
      LessIs(a[1..], b[1..]);
      forall k: nat | DifferAt(a, b, k) ensures DifferAt(a[1..], b[1..], k - 1) {
        assert a[1..][..k - 1] == a[..k][1..] && b[1..][..k - 1] == b[..k][1..];
      }
      forall k: nat | DifferAt(a[1..], b[1..], k) ensures DifferAt(a, b, k + 1) {
        assert a[..k + 1] == [a[0]] + a[1..][..k] && b[..k + 1] == [b[0]] + b[1..][..k];
      }
    }
  }

  predicate AtMost(a: Bytes, b: Bytes) {
    !Less(b, a)
  }

  /** Increasing user key, then decreasing packed sequence number and kind. */
  predicate KeyLess(a: InternalKey, b: InternalKey) {
    Less(a.user, b.user) || (a.user == b.user && a.Packed() > b.Packed())
  }

  // What the order of user keys gives, for arguments about particular keys.

  lemma {:induction false} LessIrreflexive(a: Bytes)
    ensures !Less(a, a)
  {
    if a != [] {
      LessIrreflexive(a[1..]);
    }
  }

  lemma {:induction false} LessTotal(a: Bytes, b: Bytes)
    ensures a == b || Less(a, b) || Less(b, a)
  {
    if a != [] && b != [] && a[0] == b[0] {
      LessTotal(a[1..], b[1..]);
      assert a == [a[0]] + a[1..] && b == [b[0]] + b[1..];
    }
  }

  lemma {:induction false} LessTransitive(a: Bytes, b: Bytes, c: Bytes)
    requires Less(a, b) && Less(b, c)
    ensures Less(a, c)
  {
    if a != [] && a[0] == b[0] && b[0] == c[0] {
      LessTransitive(a[1..], b[1..], c[1..]);
    }
  }

  /** Less is a strict total order on user keys. */
  lemma UserOrder()
    ensures forall a :: !Less(a, a)
    ensures forall a, b :: a == b || Less(a, b) || Less(b, a)
    ensures forall a, b, c {:trigger Less(a, b), Less(b, c)} :: Less(a, b) && Less(b, c) ==> Less(a, c)
  {
    forall a ensures !Less(a, a) {
      LessIrreflexive(a);
    }
    forall a, b ensures a == b || Less(a, b) || Less(b, a) {
      LessTotal(a, b);
    }
    forall a, b, c | Less(a, b) && Less(b, c) ensures Less(a, c) {
      LessTransitive(a, b, c);
    }
  }

  lemma PackedDecides(a: InternalKey, b: InternalKey)
    ensures a.Packed() == b.Packed() <==> a.seqno == b.seqno && a.kind == b.kind
    ensures a.seqno > b.seqno ==> a.Packed() > b.Packed()
  {
    assert a.kind.Code() < 2 && b.kind.Code() < 2;
  }

  /** KeyLess is a strict total order on internal keys; within one user key it puts newer entries first. */
  lemma KeyOrder()
    ensures forall a :: !KeyLess(a, a)
    ensures forall a, b :: a == b || KeyLess(a, b) || KeyLess(b, a)
    ensures forall a, b, c {:trigger KeyLess(a, b), KeyLess(b, c)} ::
              KeyLess(a, b) && KeyLess(b, c) ==> KeyLess(a, c)
    ensures forall a, b :: KeyLess(a, b) ==> !Less(b.user, a.user)
    ensures forall a, b :: KeyLess(a, b) && a.user == b.user ==> a.seqno >= b.seqno
    ensures forall a: InternalKey, b: InternalKey {:trigger KeyLess(a, b)} :: a.user == b.user && a.seqno > b.seqno ==> KeyLess(a, b)
  {
    UserOrder();
    forall a, b ensures a == b || KeyLess(a, b) || KeyLess(b, a) {
      PackedDecides(a, b);
    }
    forall a, b | KeyLess(a, b) ensures !Less(b.user, a.user) && (a.user == b.user ==> a.seqno >= b.seqno) {
      PackedDecides(b, a);
    }
    forall a: InternalKey, b: InternalKey | a.user == b.user && a.seqno > b.seqno ensures KeyLess(a, b) {
      PackedDecides(a, b);
    }
  }

  predicate Sorted(es: seq<Entry>) {
    forall i, j :: 0 <= i < j < |es| ==> KeyLess(es[i].key, es[j].key)
  }
}
