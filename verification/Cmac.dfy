/** AES-CMAC, section 2.4 of RFC 4493, over an arbitrary block cipher. */
module Cmac {
  import opened Ccm

  /** Bit `k` of a byte, the most significant first. */
  function BitOf(x: bv8, k: nat): bool {
    if k == 0 then x & 0x80 != 0 else if k == 1 then x & 0x40 != 0 else if k == 2 then x & 0x20 != 0
    else if k == 3 then x & 0x10 != 0 else if k == 4 then x & 8 != 0 else if k == 5 then x & 4 != 0
    else if k == 6 then x & 2 != 0 else x & 1 != 0
  }

  /** Bit `i` of a block read as a 128-bit number, the most significant first. */
  function Bit(b: Block, i: nat): bool
    requires i < 128
  {
    BitOf(b[i / 8], i % 8)
  }

  /** `t` is `b` shifted left by one bit. */
  ghost predicate Shifted(b: Block, t: Block) {
    && (forall i: nat :: i < 127 ==> Bit(t, i) == Bit(b, i + 1))
    && !Bit(t, 127)
  }

  function Rb(): Block { Zeros(15) + [0x87] }

  /** A byte shifted left, taking in the top bit of the next. */
  function ShiftByte(x: bv8, next: bv8): bv8 { (x << 1) | (next >> 7) }

  /** Multiplication by x in GF(2^128): shift left, and reduce if a bit fell out. */
  function Doubled(b: Block): (r: Block) {
    if b[0] & 0x80 != 0 then XorBlocks(ShiftLeft(b), Rb()) else ShiftLeft(b)
  }

  function ShiftLeft(b: Block): (t: Block)
    ensures forall j :: 0 <= j < 16 ==> t[j] == ShiftByte(b[j], if j < 15 then b[j + 1] else 0)
  {
    seq(16, j requires 0 <= j < 16 => ShiftByte(b[j], if j < 15 then b[j + 1] else 0))
  }

  /** Shifting byte by byte is shifting the number. */
  lemma ShiftsLeft(b: Block)
    ensures Shifted(b, ShiftLeft(b))
  {
    hide BitOf, ShiftByte;
    forall i: nat | i < 127
      ensures Bit(ShiftLeft(b), i) == Bit(b, i + 1)
    {
      NextBit(i);
      if i % 8 < 7 {
        InByte(b[i / 8], if i / 8 < 15 then b[i / 8 + 1] else 0, i % 8);
      } else {
        AcrossBytes(b[i / 8], b[i / 8 + 1]);
      }
    }
    LastBit(b[15]);
  }

  lemma NextBit(i: nat)
    requires i < 127
    ensures i % 8 < 7 ==> (i + 1) / 8 == i / 8 && (i + 1) % 8 == i % 8 + 1
    ensures i % 8 == 7 ==> (i + 1) / 8 == i / 8 + 1 < 16 && (i + 1) % 8 == 0
  {
  }

  lemma InByte(x: bv8, y: bv8, k: nat)
    requires k < 7
    ensures BitOf(ShiftByte(x, y), k) == BitOf(x, k + 1)
  {
  }

  lemma AcrossBytes(x: bv8, y: bv8)
    ensures BitOf(ShiftByte(x, y), 7) == BitOf(y, 0)
  {
  }

  lemma LastBit(x: bv8)
    ensures !BitOf(ShiftByte(x, 0), 7)
  {
  }

  /** Doubling, bit by bit: a shift, and if a bit fell out the bits of x^7 + x^2 + x + 1 are flipped. */
  lemma DoubledBit(b: Block, i: nat)
    requires i < 128
    ensures Bit(Doubled(b), i) == ((i < 127 && Bit(b, i + 1)) != (Bit(b, 0) && (i == 120 || i >= 125)))
  {
    hide ShiftLeft, XorBlocks, Rb, BitOf, Doubled;
    ShiftsLeft(b);
    DoubledIs(b);
    var t := ShiftLeft(b);
    ReducedBit(t[15], i % 8);
    assert Bit(t, i) == (i < 127 && Bit(b, i + 1));
  }

  lemma DoubledIs(b: Block)
    ensures var t := ShiftLeft(b); Doubled(b) == if Bit(b, 0) then t[15 := t[15] ^ 0x87] else t
  {
    hide ShiftLeft, XorBlocks, Rb;
    XorLast(ShiftLeft(b));
  }

  lemma ReducedBit(x: bv8, k: nat)
    requires k < 8
    ensures BitOf(x ^ 0x87, k) == (BitOf(x, k) != (k == 0 || k >= 5))
  {
  }

  method ShiftInPlace(v: array<bv8>)
    requires v.Length == 16
    modifies v
    ensures v[..] == ShiftLeft(old(v[..]))
  {
    hide ShiftByte;
    ghost var b: Block := v[..];
    var i := 0;
    while i < 15
      invariant 0 <= i <= 15
      invariant forall j :: 0 <= j < i ==> v[j] == ShiftByte(b[j], b[j + 1])
      invariant forall j :: i <= j < 16 ==> v[j] == b[j]
    {
      v[i] := ShiftByte(v[i], v[i + 1]);
      i := i + 1;
    }
    LastByte(b[15]);
    v[15] := v[15] << 1;
    assert v[..] == ShiftLeft(b);
  }

  /** `double_gf128`, in place. */
  method Double(v: array<bv8>)
    requires v.Length == 16
    modifies v
    ensures v[..] == Doubled(old(v[..]))
  {
    hide XorBlocks, ShiftLeft, Rb;
    var msb := v[0] & 0x80;
    ShiftInPlace(v);
    ghost var t: Block := v[..];
    XorLast(t);
    if msb != 0 {
      v[15] := v[15] ^ 0x87;
      assert v[..] == t[15 := t[15] ^ 0x87];
    }
  }

  lemma XorLast(t: Block)
    ensures XorBlocks(t, Rb()) == t[15 := t[15] ^ 0x87]
  {
    forall j | 0 <= j < 15
      ensures XorBlocks(t, Rb())[j] == t[j]
    {
      XorZeroRight(t[j]);
    }
  }

  lemma LastByte(a: bv8)
    ensures ShiftByte(a, 0) == a << 1
  {
  }

  lemma XorZeroRight(a: bv8)
    ensures a ^ 0 == a
  {
  }

  /** Subkeys, section 2.3: K1 = 2 * E(K, 0), K2 = 2 * K1. */
  function K1(e: Cipher, key: Block): Block { Doubled(e(key, Zeros(16))) }

  function K2(e: Cipher, key: Block): Block { Doubled(K1(e, key)) }

  /** Blocks of the message: at least one. */
  function Blocks(len: nat): nat { if len == 0 then 1 else (len + 15) / 16 }

  /** A last block that is not whole gets a one bit and zeros. */
  function Padded10(s: seq<bv8>): Block
    requires |s| < 16
  {
    s + [0x80] + Zeros(15 - |s|)
  }

  lemma BlockCount(len: nat)
    ensures var n := Blocks(len); n > 0 && 16 * (n - 1) <= len && len - 16 * (n - 1) <= 16
    ensures var n := Blocks(len); len != 0 && len % 16 == 0 <==> len - 16 * (n - 1) == 16
  {
  }

  /** The algorithm of section 2.4: CBC-MAC of all blocks but the last, then of the last, masked with K1
      if it is whole and padded and masked with K2 if not. */
  function Mac(e: Cipher, key: Block, m: seq<bv8>): Block {
    BlockCount(|m|);
    var head := 16 * (Blocks(|m|) - 1);
    var x := Cbc(e, key, Zeros(16), m[..head]);
    var last := if |m| - head == 16 then XorBlocks(m[head..], K1(e, key)) else XorBlocks(Padded10(m[head..]), K2(e, key));
    e(key, XorBlocks(x, last))
  }

  /** `app_ccm_cmac`. */
  method AppCmac(e: Cipher, key: Block, msg: array<bv8>, len: nat) returns (mac: Block)
    requires len <= msg.Length
    ensures mac == Mac(e, key, msg[..len])
  {
    hide Cbc, XorBlocks, Doubled, Padded10;
    ghost var m := msg[..len];
    var n := (len + 15) / 16;
    if n == 0 {
      n := 1;
    }
    BlockCount(len);
    var k1, k2 := Subkeys(e, key);
    var x := new bv8[16](_ => 0);
    assert x[..] == Zeros(16);
    WholeBlocks(e, key, msg, len, n, x);
    var last := LastBlock(msg, len, (n - 1) * 16, k1, k2);
    CbcStep(e, key, x, last);
    mac := x[..];
  }

  /** All blocks but the last. */
  method WholeBlocks(e: Cipher, key: Block, msg: array<bv8>, len: nat, n: nat, x: array<bv8>)
    requires 0 < n && 16 * (n - 1) <= len <= msg.Length && x != msg && x.Length == 16 && x[..] == Zeros(16)
    modifies x
    ensures x[..] == Cbc(e, key, Zeros(16), msg[..len][..16 * (n - 1)])
  {
    hide Cbc, XorBlocks;
    ghost var m := msg[..len];
    CbcEmpty(e, key, Zeros(16));
    var i := 0;
    while i + 1 < n
      invariant 0 <= i < n && msg[..len] == m && x[..] == Cbc(e, key, Zeros(16), m[..16 * i])
    {
      assert m[..16 * (i + 1)] == m[..16 * i] + msg[16 * i..16 * i + 16];
      CbcBlock(e, key, Zeros(16), m[..16 * i], msg[16 * i..16 * i + 16]);
      CbcStep(e, key, x, msg[16 * i..16 * i + 16]);
      i := i + 1;
    }
  }

  /** The last block, masked, from offset `off` on. */
  method LastBlock(msg: array<bv8>, len: nat, off: nat, k1: Block, k2: Block) returns (last: Block)
    requires off <= len <= msg.Length && len - off <= 16 && (len != 0 && len % 16 == 0 <==> len - off == 16)
    ensures var tail := msg[..len][off..];
      last == if len - off == 16 then XorBlocks(tail, k1) else XorBlocks(Padded10(tail), k2)
  {
    hide XorBlocks;
    var lastFull := len != 0 && len % 16 == 0;
    assert msg[off..len] == msg[..len][off..];
    if lastFull {
      last := XorBlocks(msg[off..off + 16], k1);
    } else {
      last := XorBlocks(msg[off..len] + [0x80] + Zeros(15 - (len - off)), k2);
    }
  }

  method Subkeys(e: Cipher, key: Block) returns (k1: Block, k2: Block)
    ensures k1 == K1(e, key) && k2 == K2(e, key)
  {
    hide Doubled;
    var v := new bv8[16];
    var l := e(key, Zeros(16));
    forall i | 0 <= i < 16 {
      v[i] := l[i];
    }
    assert v[..] == l;
    Double(v);
    k1 := v[..];
    Double(v);
    k2 := v[..];
  }
}
