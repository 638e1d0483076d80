/** Encoded sizes of protobuf fields (proto3 wire format). */
module Protobuf {

  /** A varint carries seven bits per byte. */
  function VarintLen(v: nat): (n: nat)
    ensures n >= 1
  {
    if v < 0x80 then 1 else 1 + VarintLen(v / 0x80)
  }

  lemma {:induction false} VarintMonotone(a: nat, b: nat)
    requires a <= b
    ensures VarintLen(a) <= VarintLen(b)
  {
    if a >= 0x80 {
      VarintMonotone(a / 0x80, b / 0x80);
    }
  }

  /** sint32 */
  function ZigZag(v: int): nat { if v >= 0 then 2 * v else -2 * v - 1 }

  /** Tag of field number `f`, wire type in the low three bits. */
  function TagLen(f: nat): nat { VarintLen(f * 8) }

  /** A singular field: not on the wire when it is zero. */
  function FieldLen(f: nat, v: nat): nat { if v == 0 then 0 else TagLen(f) + VarintLen(v) }

  /** An optional field that is present: on the wire also when it is zero. */
  function PresentLen(f: nat, v: nat): nat { TagLen(f) + VarintLen(v) }

  /** A string, bytes or message field. */
  function LenDelim(f: nat, n: nat): nat { TagLen(f) + VarintLen(n) + n }

  lemma FieldMonotone(f: nat, a: nat, b: nat)
    requires a <= b
    ensures FieldLen(f, a) <= FieldLen(f, b)
  {
    VarintMonotone(a, b);
  }

  lemma LenDelimMonotone(f: nat, a: nat, b: nat)
    requires a <= b
    ensures LenDelim(f, a) <= LenDelim(f, b)
  {
    VarintMonotone(a, b);
  }

  /** The page numbers of a paged message, which are left out of an unpaged one. */
  function PagingLen(indexField: nat, countField: nat, index: nat, count: nat): nat {
    if count > 1 then FieldLen(indexField, index) + FieldLen(countField, count) else 0
  }

  /** The bound every layout pass encodes instead of the real page numbers: the largest that takes one
      byte. */
  const PAGE_BOUND: nat := 127

  /** A page laid out with the bound does not grow when it gets its real numbers. */
  lemma PagingBound(indexField: nat, countField: nat, index: nat, count: nat)
    requires index <= PAGE_BOUND && count <= PAGE_BOUND
    ensures PagingLen(indexField, countField, index, count) <= PagingLen(indexField, countField, PAGE_BOUND, PAGE_BOUND)
  {
    FieldMonotone(indexField, index, PAGE_BOUND);
    FieldMonotone(countField, count, PAGE_BOUND);
  }
}
