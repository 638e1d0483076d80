/** What the sizes of `Protobuf` are sizes of: the encodings that the network server's decoder reads. */
module Wire {
  import opened Bytes
  import opened Protobuf
  import Codec = DownlinkCodec

  /** The version byte before every message. */
  const PROTO_VERSION: byte := 0x01

  /** A singular field: not on the wire when it is zero. */
  function FieldEnc(f: nat, v: nat): seq<byte> { if v == 0 then [] else PresentEnc(f, v) }

  /** An optional field that is present. */
  function PresentEnc(f: nat, v: nat): seq<byte> { Codec.Tag(f, 0) + Codec.Varint(v) }

  /** The page numbers of a paged message. */
  function PagingEnc(indexField: nat, countField: nat, index: nat, count: nat): seq<byte> {
    if count > 1 then FieldEnc(indexField, index) + FieldEnc(countField, count) else []
  }

  lemma {:induction false} VarintLength(v: nat)
    ensures |Codec.Varint(v)| == VarintLen(v)
  {
    if v > 127 {
      VarintLength(v / 128);
    }
  }

  /** The wire type does not show in the length of a tag. */
  lemma TagLength(f: nat, wire: nat)
    requires wire < 8
    ensures |Codec.Tag(f, wire)| == TagLen(f)
  {
    hide VarintLen, Codec.Varint;
    VarintLength(f * 8 + wire);
    SameBytes(f, wire);
  }

  lemma SameBytes(f: nat, wire: nat)
    requires wire < 8
    ensures VarintLen(f * 8 + wire) == VarintLen(f * 8)
  {
    assert (f * 8 + wire) / 0x80 == f * 8 / 0x80;
  }

  lemma PresentLength(f: nat, v: nat)
    ensures |PresentEnc(f, v)| == PresentLen(f, v)
  {
    hide TagLen, VarintLen, Codec.Varint, Codec.Tag;
    TagLength(f, 0);
    VarintLength(v);
  }

  lemma FieldLength(f: nat, v: nat)
    ensures |FieldEnc(f, v)| == FieldLen(f, v)
    ensures v < TWO_32 ==> FieldEnc(f, v) == Codec.Scalar(f, v)
  {
    hide TagLen, VarintLen, Codec.Varint, Codec.Tag;
    PresentLength(f, v);
  }

  lemma LenDelimLength(f: nat, payload: seq<byte>)
    ensures |Codec.LenDelim(f, payload)| == LenDelim(f, |payload|)
  {
    hide TagLen, VarintLen, Codec.Varint, Codec.Tag;
    TagLength(f, 2);
    VarintLength(|payload|);
  }

  lemma PagingLength(indexField: nat, countField: nat, index: nat, count: nat)
    ensures |PagingEnc(indexField, countField, index, count)| == PagingLen(indexField, countField, index, count)
  {
    hide FieldEnc, FieldLen;
    FieldLength(indexField, index);
    FieldLength(countField, count);
  }

  // ---- Messages made of parts -----------------------------------------------------------------------

  /** The parts whose numbers are in `units`, in the given order. */
  function Pick(parts: seq<seq<byte>>, units: set<nat>, order: seq<nat>): seq<byte> {
    if order == [] then [] else PartOf(parts, units, order[0]) + Pick(parts, units, order[1..])
  }

  function PartOf(parts: seq<seq<byte>>, units: set<nat>, u: nat): seq<byte> {
    if u in units && u < |parts| then parts[u] else []
  }

  /** The sizes of the parts in `units`, over parts below `top`. */
  function SumOf(parts: seq<seq<byte>>, units: set<nat>, top: nat): nat {
    if top == 0 then 0 else SumOf(parts, units, top - 1) + |PartOf(parts, units, top - 1)|
  }

  /** The numbers below `n`, each once. */
  ghost predicate Permutation(order: seq<nat>, n: nat) {
    && |order| == n
    && (forall u: nat :: u < n ==> u in order)
    && forall i, j :: 0 <= i < j < |order| ==> order[i] != order[j]
  }

  lemma {:induction false} PickSplit(parts: seq<seq<byte>>, units: set<nat>, a: seq<nat>, b: seq<nat>)
    ensures Pick(parts, units, a + b) == Pick(parts, units, a) + Pick(parts, units, b)
  {
    hide PartOf;
    if a == [] {
      assert [] + b == b;
    } else {
      assert (a + b)[1..] == a[1..] + b;
      PickSplit(parts, units, a[1..], b);
    }
  }

  /** In whatever order the parts go out, their sizes add up. */
  lemma {:induction false} PickLength(parts: seq<seq<byte>>, units: set<nat>, order: seq<nat>, n: nat)
    requires Permutation(order, n)
    ensures |Pick(parts, units, order)| == SumOf(parts, units, n)
    decreases n
  {
    hide PartOf;
    if n > 0 {
      var r := WithoutLast(order, n);
      var before, after := r.0, r.1;
      PickLength(parts, units, before + after, n - 1);
      PickSplit(parts, units, before, after);
      PickSplit(parts, units, before, [n - 1] + after);
      assert ([n - 1] + after)[1..] == after;
    }
  }

  lemma WithoutLast(order: seq<nat>, n: nat) returns (r: (seq<nat>, seq<nat>))
    requires Permutation(order, n) && n > 0
    ensures order == r.0 + ([n - 1] + r.1) && Permutation(r.0 + r.1, n - 1)
  {
    var last: nat := n - 1;
    assert last in order;
    var i :| 0 <= i < |order| && order[i] == last;
    r := (order[..i], order[i + 1..]);
    forall u: nat | u < n - 1
      ensures u in r.0 + r.1
    {
      assert u in order;
      var j :| 0 <= j < |order| && order[j] == u;
      assert if j < i then r.0[j] == u else r.1[j - i - 1] == u;
    }
  }

  lemma {:induction false} SumLess(parts: seq<seq<byte>>, a: set<nat>, b: set<nat>, top: nat)
    requires a <= b
    ensures SumOf(parts, a, top) <= SumOf(parts, b, top)
  {
    if top > 0 {
      SumLess(parts, a, b, top - 1);
    }
  }
}
