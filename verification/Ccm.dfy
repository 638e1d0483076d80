/** AES-CCM (RFC 3610) and AES-CMAC (RFC 4493) over an arbitrary block cipher. */
module Ccm {

  type Block = b: seq<bv8> | |b| == 16 witness seq(16, _ => 0)

  /** E(key, block), uninterpreted. */
  type Cipher = (Block, Block) -> Block

  datatype Status = Ok | Invalid | BadMessage

  function Zeros(n: nat): (r: seq<bv8>)
    ensures |r| == n && forall i :: 0 <= i < n ==> r[i] == 0
  {
    seq(n, _ => 0)
  }

  function XorBlocks(a: Block, b: Block): (r: Block)
    ensures forall i :: 0 <= i < 16 ==> r[i] == a[i] ^ b[i]
  {
    seq(16, i requires 0 <= i < 16 => a[i] ^ b[i])
  }

  // ---- RFC 3610 --------------------------------------------------------------------------------------

  /** CBC-MAC over whole blocks: X_{i+1} = E(K, X_i xor B_i). */
  function Cbc(e: Cipher, key: Block, x: Block, s: seq<bv8>): Block
    requires |s| % 16 == 0
  {
    if s == [] then x
    else
      var head := s[..|s| - 16];
      var last: Block := s[|s| - 16..];
      e(key, XorBlocks(Cbc(e, key, x, head), last))
  }

  lemma CbcBlock(e: Cipher, key: Block, x: Block, s: seq<bv8>, b: Block)
    requires |s| % 16 == 0
    ensures Cbc(e, key, x, s + b) == e(key, XorBlocks(Cbc(e, key, x, s), b))
  {
    assert (s + b)[..|s + b| - 16] == s;
    assert (s + b)[|s + b| - 16..] == b;
  }

  lemma CbcNone(e: Cipher, key: Block, x: Block)
    ensures Cbc(e, key, x, []) == x
  {
  }

  lemma {:induction false} CbcConcat(e: Cipher, key: Block, x: Block, s: seq<bv8>, t: seq<bv8>)
    requires |s| % 16 == 0 && |t| % 16 == 0
    ensures |s + t| % 16 == 0 && Cbc(e, key, x, s + t) == Cbc(e, key, Cbc(e, key, x, s), t)
  {
    hide Cbc, XorBlocks;
    if t == [] {
      assert s + t == s;
      CbcNone(e, key, Cbc(e, key, x, s));
    } else {
      var head: seq<bv8>, last: Block := t[..|t| - 16], t[|t| - 16..];
      assert s + t == (s + head) + last && t == head + last;
      CbcConcat(e, key, x, s, head);
      CbcBlock(e, key, x, s + head, last);
      CbcBlock(e, key, Cbc(e, key, x, s), head, last);
    }
  }

  /** Zero padding to whole blocks. */
  function Padded(s: seq<bv8>): (r: seq<bv8>)
    ensures |r| % 16 == 0
  {
    s + Zeros((16 - |s| % 16) % 16)
  }

  function Pow256(i: nat): (r: nat)
    ensures r > 0
  {
    if i == 0 then 1 else 256 * Pow256(i - 1)
  }

  function Byte(n: nat): bv8 { (n % 256) as bv8 }

  /** `n` in `len` bytes, most significant first. */
  function BigEndian(n: nat, len: nat): (r: seq<bv8>)
    ensures |r| == len
  {
    if len == 0 then [] else BigEndian(n / 256, len - 1) + [Byte(n)]
  }

  /** Encoded additional data, section 2.2: a two-byte length for less than 0xFF00 bytes. */
  function EncodedAad(aad: seq<bv8>): seq<bv8> { BigEndian(|aad|, 2) + aad }

  function ParamsOk(nonce: nat, aad: nat, tag: nat): bool {
    7 <= nonce <= 13 && 1 <= aad <= 0xFEFF && 4 <= tag <= 16 && tag % 2 == 0
  }

  /** B_0, section 2.2: flags 64 * Adata + 8 * M' + L', nonce, message length. */
  function B0(nonce: seq<bv8>, msgLen: nat, tagLen: nat): (b: Block)
    requires ParamsOk(|nonce|, 1, tagLen)
  {
    [Byte(64 + 8 * ((tagLen - 2) / 2) + (15 - |nonce| - 1))] + nonce + BigEndian(msgLen, 15 - |nonce|)
  }

  /** A_i, section 2.3. */
  function CounterBlock(nonce: seq<bv8>, i: nat): (a: Block)
    requires 7 <= |nonce| <= 13
  {
    [Byte(15 - |nonce| - 1)] + nonce + BigEndian(i, 15 - |nonce|)
  }

  /** Key stream block S_i. */
  function Stream(e: Cipher, key: Block, nonce: seq<bv8>, i: nat): Block
    requires 7 <= |nonce| <= 13
  {
    e(key, CounterBlock(nonce, i))
  }

  /** Encryption of the message: xor with S_1, S_2, ... */
  function Crypt(e: Cipher, key: Block, nonce: seq<bv8>, m: seq<bv8>): (r: seq<bv8>)
    requires 7 <= |nonce| <= 13
    ensures |r| == |m|
    ensures forall i :: 0 <= i < |m| ==> r[i] == m[i] ^ Stream(e, key, nonce, 1 + i / 16)[i % 16]
  {
    seq(|m|, i requires 0 <= i < |m| => m[i] ^ Stream(e, key, nonce, 1 + i / 16)[i % 16])
  }

  /** What is authenticated: B_0, the padded encoded data, the padded message. */
  function Formatted(nonce: seq<bv8>, aad: seq<bv8>, m: seq<bv8>, tagLen: nat): (r: seq<bv8>)
    requires ParamsOk(|nonce|, |aad|, tagLen)
    ensures |r| % 16 == 0
  {
    var head: seq<bv8> := B0(nonce, |m|, tagLen);
    Multiples(|head|, |Padded(EncodedAad(aad))|, |Padded(m)|);
    head + Padded(EncodedAad(aad)) + Padded(m)
  }

  lemma Multiples(a: nat, b: nat, c: nat)
    requires a % 16 == 0 && b % 16 == 0 && c % 16 == 0
    ensures (a + b + c) % 16 == 0
  {
  }

  /** The authentication tag: the CBC-MAC of all that, from the zero block, masked with S_0. */
  function Tag(e: Cipher, key: Block, nonce: seq<bv8>, aad: seq<bv8>, m: seq<bv8>, tagLen: nat): (t: seq<bv8>)
    requires ParamsOk(|nonce|, |aad|, tagLen)
    ensures |t| == tagLen
  {
    var mac := Cbc(e, key, Zeros(16), Formatted(nonce, aad, m, tagLen));
    XorBlocks(mac, Stream(e, key, nonce, 0))[..tagLen]
  }

  /** Decryption undoes encryption. */
  lemma CryptTwice(e: Cipher, key: Block, nonce: seq<bv8>, m: seq<bv8>)
    requires 7 <= |nonce| <= 13
    ensures Crypt(e, key, nonce, Crypt(e, key, nonce, m)) == m
  {
    var c := Crypt(e, key, nonce, m);
    forall i | 0 <= i < |m|
      ensures Crypt(e, key, nonce, c)[i] == m[i]
    {
      XorTwice(m[i], Stream(e, key, nonce, 1 + i / 16)[i % 16]);
    }
  }

  lemma XorTwice(a: bv8, k: bv8)
    ensures (a ^ k) ^ k == a
  {
  }

  lemma XorZero(a: bv8)
    ensures 0 ^ a == a
  {
  }

  /** A length or counter of up to four bytes reads back from its field if and only if the field is wide
      enough: with a 13-byte nonce a message of 64 KB or more is authenticated with a wrong length. */
  function BigEndianValue(s: seq<bv8>): nat {
    if s == [] then 0 else 256 * BigEndianValue(s[..|s| - 1]) + s[|s| - 1] as nat
  }

  lemma {:induction false} BigEndianReads(n: nat, len: nat)
    ensures BigEndianValue(BigEndian(n, len)) == n % Pow256(len)
    ensures BigEndianValue(BigEndian(n, len)) == n <==> n < Pow256(len)
  {
    if len > 0 {
      var s := BigEndian(n, len);
      BigEndianReads(n / 256, len - 1);
      assert s[..len - 1] == BigEndian(n / 256, len - 1);
      ByteValue(n);
      ModStep(n, Pow256(len - 1));
    }
  }

  /** The key stream is never made twice from the same block, as long as the counter fits its field, nor from
      B_0: what masks the tag masks no byte of the message. */
  lemma BlocksApart(nonce: seq<bv8>, i: nat, j: nat, msgLen: nat, tagLen: nat)
    requires ParamsOk(|nonce|, 1, tagLen) && i < Pow256(15 - |nonce|) && j < Pow256(15 - |nonce|)
    ensures CounterBlock(nonce, i) == CounterBlock(nonce, j) ==> i == j
    ensures CounterBlock(nonce, i) != B0(nonce, msgLen, tagLen)
  {
    hide Byte, BigEndian, BigEndianValue, Pow256, CounterBlock, B0;
    var l := 15 - |nonce|;
    FlagsApart((tagLen - 2) / 2, l - 1);
    CounterIs(nonce, i);
    CounterIs(nonce, j);
    B0Is(nonce, msgLen, tagLen);
    ReadsBack(i, l);
    ReadsBack(j, l);
  }

  lemma CounterIs(nonce: seq<bv8>, i: nat)
    requires 7 <= |nonce| <= 13
    ensures CounterBlock(nonce, i)[0] == Byte(15 - |nonce| - 1) && CounterBlock(nonce, i)[1 + |nonce|..] == BigEndian(i, 15 - |nonce|)
  {
    hide Byte, BigEndian;
  }

  lemma B0Is(nonce: seq<bv8>, msgLen: nat, tagLen: nat)
    requires ParamsOk(|nonce|, 1, tagLen)
    ensures B0(nonce, msgLen, tagLen)[0] == Byte(64 + 8 * ((tagLen - 2) / 2) + (15 - |nonce| - 1))
  {
    hide Byte, BigEndian;
  }

  lemma ReadsBack(n: nat, len: nat)
    ensures n < Pow256(len) ==> BigEndianValue(BigEndian(n, len)) == n
  {
    hide Pow256, BigEndian, BigEndianValue;
    BigEndianReads(n, len);
  }

  lemma FlagsApart(m: nat, l: nat)
    requires 0 < m <= 7 && l <= 7
    ensures Byte(64 + 8 * m + l) != Byte(l)
  {
    hide Byte;
    ByteValue(l);
    ByteValue(64 + 8 * m + l);
  }

  lemma ByteValue(n: nat)
    ensures Byte(n) as nat == n % 256
  {
    BackFromBits(n % 256);
  }

  /** Counting up to `m` in 8 bits. */
  lemma {:induction false} BackFromBits(m: nat)
    requires m < 256
    ensures (m as bv8) as nat == m
  {
    if m > 0 {
      BackFromBits(m - 1);
      var b := (m - 1) as bv8;
      NotFull(b);
      CountUp(b);
      SameByte(b + 1, m);
    }
  }

  lemma CountUp(b: bv8)
    ensures b != 255 ==> (b + 1) as nat == b as nat + 1
  {
  }

  lemma NotFull(b: bv8)
    ensures b as nat < 255 ==> b != 255
  {
  }

  lemma SameByte(b: bv8, m: nat)
    requires m == b as nat
    ensures m as bv8 == b
  {
  }

  lemma ModStep(n: nat, p: nat)
    requires p > 0
    ensures 256 * (n / 256 % p) + n % 256 == n % (256 * p)
    ensures 256 * (n / 256 % p) + n % 256 == n <==> n < 256 * p
  {
    var q := n / 256;
    var a, r := q / p, q % p;
    assert q == a * p + r;
    assert n == 256 * p * a + (256 * r + n % 256);
    assert 256 * r + n % 256 < 256 * p;
    ModIs(n, 256 * p, a, 256 * r + n % 256);
  }

  lemma MulLe(a: nat, b: nat, d: nat)
    requires a <= b
    ensures d * a <= d * b
  {
    assert d * b == d * a + d * (b - a);
  }

  lemma ModIs(n: nat, d: nat, q: nat, r: nat)
    requires d > 0 && n == d * q + r && r < d
    ensures n % d == r && (r == n <==> n < d)
  {
    var q', r' := n / d, n % d;
    assert n == d * q' + r';
    if q' < q {
      MulLe(q' + 1, q, d);
    } else if q < q' {
      MulLe(q + 1, q', d);
    }
    if q > 0 {
      MulLe(1, q, d);
    }
  }

  // ---- The incremental form --------------------------------------------------------------------------

  /** One CBC-MAC step on the state `x`. */
  method CbcStep(e: Cipher, key: Block, x: array<bv8>, b: Block)
    requires x.Length == 16
    modifies x
    ensures x[..] == e(key, XorBlocks(old(x[..]), b))
  {
    hide XorBlocks;
    ghost var sum := XorBlocks(x[..], b);
    var t := new bv8[16];
    var i := 0;
    while i < 16
      invariant 0 <= i <= 16 && forall k :: 0 <= k < i ==> t[k] == sum[k]
      invariant x[..] == old(x[..])
    {
      XorAt(x[..], b, i);
      t[i] := x[i] ^ b[i];
      i := i + 1;
    }
    assert t[..] == sum;
    var y := e(key, t[..]);
    forall j | 0 <= j < 16 {
      x[j] := y[j];
    }
    assert x[..] == y;
  }

  lemma XorAt(a: Block, b: Block, i: nat)
    requires i < 16
    ensures XorBlocks(a, b)[i] == a[i] ^ b[i]
  {
  }

  /** The last `bl` bytes of the stream `p` wait in the block, the rest is in the state. */
  ghost predicate Folded(e: Cipher, key: Block, x0: Block, p: seq<bv8>, x: seq<bv8>, block: seq<bv8>, bl: nat) {
    && bl < 16 && bl <= |p| && (|p| - bl) % 16 == 0 && |x| == 16
    && x == Cbc(e, key, x0, p[..|p| - bl]) && block == p[|p| - bl..] + Zeros(16 - bl)
  }

  lemma FoldByte(e: Cipher, key: Block, x0: Block, p: seq<bv8>, x: seq<bv8>, block: seq<bv8>, bl: nat, b: bv8)
    requires Folded(e, key, x0, p, x, block, bl)
    ensures |block| == 16
    ensures bl < 15 ==> Folded(e, key, x0, p + [b], x, block[bl := b], bl + 1)
    ensures bl == 15 ==> Folded(e, key, x0, p + [b], e(key, XorBlocks(x, block[bl := b])), Zeros(16), 0)
  {
    hide Cbc, XorBlocks, Zeros;
    var q := p + [b];
    var tail := p[|p| - bl..];
    assert q[..|p| - bl] == p[..|p| - bl] && q[|p| - bl..] == tail + [b];
    PutByte(tail, b);
    if bl == 15 {
      var last := block[bl := b];
      assert q == q[..|q| - 16] + last;
      CbcBlock(e, key, x0, p[..|p| - bl], last);
      assert q[..|q|] == q && q[|q|..] + Zeros(16) == Zeros(16);
    }
  }

  lemma PutByte(tail: seq<bv8>, b: bv8)
    requires |tail| < 16
    ensures (tail + Zeros(16 - |tail|))[|tail| := b] == tail + [b] + Zeros(15 - |tail|)
    ensures |tail| == 15 ==> tail + [b] + Zeros(0) == tail + [b]
  {
  }

  /** What is left in the block is the padded tail. */
  lemma FoldEnd(e: Cipher, key: Block, x0: Block, p: seq<bv8>, x: seq<bv8>, block: seq<bv8>, bl: nat)
    requires Folded(e, key, x0, p, x, block, bl)
    ensures |block| == 16
    ensures Cbc(e, key, x0, Padded(p)) == if bl == 0 then x else e(key, XorBlocks(x, block))
  {
    hide Cbc;
    TailPad(|p|, bl);
    if bl == 0 {
      assert p[..|p|] == p;
      assert Padded(p) == p;
    } else {
      assert Padded(p) == p[..|p| - bl] + block;
      CbcBlock(e, key, x0, p[..|p| - bl], block);
    }
  }

  lemma TailPad(n: nat, bl: nat)
    requires bl < 16 && bl <= n && (n - bl) % 16 == 0
    ensures (16 - n % 16) % 16 == if bl == 0 then 0 else 16 - bl
  {
  }

  /** One byte into the block; a full block goes through the cipher. */
  method TakeByte(e: Cipher, key: Block, x: array<bv8>, block: array<bv8>, bl: nat, b: bv8) returns (next: nat)
    requires x.Length == 16 && block.Length == 16 && x != block && bl < 16
    modifies x, block
    ensures bl < 15 ==> next == bl + 1 && x[..] == old(x[..]) && block[..] == old(block[..])[bl := b]
    ensures bl == 15 ==> next == 0 && x[..] == e(key, XorBlocks(old(x[..]), old(block[..])[bl := b])) && block[..] == Zeros(16)
  {
    hide XorBlocks;
    block[bl] := b;
    assert block[..] == old(block[..])[bl := b];
    assert x[..] == old(x[..]);
    if bl + 1 < 16 {
      return bl + 1;
    }
    CbcStep(e, key, x, block[..]);
    forall i | 0 <= i < 16 {
      block[i] := 0;
    }
    assert block[..] == Zeros(16);
    next := 0;
  }

  /** The additional data, byte by byte, behind its length. */
  method MacAad(e: Cipher, key: Block, x: array<bv8>, aad: array<bv8>)
    requires x.Length == 16 && x != aad && aad.Length <= 0xFEFF
    modifies x
    ensures x[..] == Cbc(e, key, old(x[..]), Padded(EncodedAad(aad[..])))
  {
    hide Cbc, Folded, Padded, XorBlocks;
    ghost var x0, head := x[..], BigEndian(aad.Length, 2);
    var block := new bv8[16](_ => 0);
    block[0] := Byte(aad.Length / 256);
    block[1] := Byte(aad.Length);
    var bl: nat := 2;
    StartFold(e, key, x0, aad.Length, block[..]);
    var off := 0;
    assert head + aad[..0] == head;
    while off < aad.Length
      invariant 0 <= off <= aad.Length && aad[..] == old(aad[..])
      invariant bl < 16 && Folded(e, key, x0, head + aad[..off], x[..], block[..], bl)
    {
      FoldByte(e, key, x0, head + aad[..off], x[..], block[..], bl, aad[off]);
      assert head + aad[..off] + [aad[off]] == head + aad[..off + 1];
      bl := TakeByte(e, key, x, block, bl, aad[off]);
      off := off + 1;
    }
    assert head + aad[..off] == EncodedAad(aad[..]);
    FoldEnd(e, key, x0, EncodedAad(aad[..]), x[..], block[..], bl);
    if bl != 0 {
      CbcStep(e, key, x, block[..]);
    }
  }

  lemma StartFold(e: Cipher, key: Block, x0: Block, n: nat, block: seq<bv8>)
    requires block == [Byte(n / 256), Byte(n)] + Zeros(14)
    ensures Folded(e, key, x0, BigEndian(n, 2), x0, block, 2)
  {
    assert BigEndian(n, 2) == [Byte(n / 256), Byte(n)] by {
      assert BigEndian(n / 256, 1) == BigEndian(n / 256 / 256, 0) + [Byte(n / 256)];
    }
  }

  /** The message, whole blocks first. */
  method MacMessage(e: Cipher, key: Block, x: array<bv8>, msg: array<bv8>, len: nat)
    requires x.Length == 16 && x != msg && len <= msg.Length
    modifies x
    ensures x[..] == Cbc(e, key, old(x[..]), Padded(msg[..len]))
  {
    hide Cbc, Padded, XorBlocks;
    ghost var x0, m := x[..], msg[..len];
    var off := 0;
    CbcEmpty(e, key, x0);
    while off + 16 <= len
      invariant 0 <= off <= len && off % 16 == 0 && msg[..len] == m
      invariant x[..] == Cbc(e, key, x0, m[..off])
    {
      assert m[..off + 16] == m[..off] + msg[off..off + 16];
      CbcBlock(e, key, x0, m[..off], msg[off..off + 16]);
      CbcStep(e, key, x, msg[off..off + 16]);
      off := off + 16;
    }
    var tail := msg[off..len] + Zeros(16 - (len - off));
    assert tail == m[|m| - (len - off)..] + Zeros(16 - (len - off));
    FoldTail(e, key, x0, m, x[..], tail, len - off);
    if off < len {
      CbcStep(e, key, x, tail);
    }
  }

  lemma CbcEmpty(e: Cipher, key: Block, x0: Block)
    ensures Cbc(e, key, x0, []) == x0
  {
  }

  lemma FoldTail(e: Cipher, key: Block, x0: Block, m: seq<bv8>, x: Block, tail: seq<bv8>, bl: nat)
    requires bl < 16 && bl <= |m| && (|m| - bl) % 16 == 0
    requires x == Cbc(e, key, x0, m[..|m| - bl]) && tail == m[|m| - bl..] + Zeros(16 - bl)
    ensures |tail| == 16
    ensures Cbc(e, key, x0, Padded(m)) == if bl == 0 then x else e(key, XorBlocks(x, tail))
  {
    hide Cbc;
    FoldEnd(e, key, x0, m, x, tail, bl);
  }

  /** `cbc_mac`. */
  method CbcMac(e: Cipher, key: Block, x: array<bv8>, aad: array<bv8>, msg: array<bv8>, len: nat)
    requires x.Length == 16 && x != aad && x != msg && aad.Length <= 0xFEFF && len <= msg.Length
    modifies x
    ensures x[..] == Cbc(e, key, Cbc(e, key, old(x[..]), Padded(EncodedAad(aad[..]))), Padded(msg[..len]))
  {
    hide Cbc, Padded, EncodedAad;
    MacAad(e, key, x, aad);
    MacMessage(e, key, x, msg, len);
  }

  // ---- Counter blocks and tags -----------------------------------------------------------------------

  const TWO_32: nat := 0x1_0000_0000

  /** `n` shifted right by `i` bytes. */
  function ShiftedBytes(n: nat, i: nat): nat {
    if i == 0 then n else ShiftedBytes(n / 256, i - 1)
  }

  lemma {:induction false} BigEndianAt(n: nat, len: nat, i: nat)
    requires i < len
    ensures BigEndian(n, len)[len - 1 - i] == Byte(ShiftedBytes(n, i))
  {
    if i > 0 {
      BigEndianAt(n / 256, len - 1, i - 1);
    }
  }

  /** Bytes above the fourth of a 32-bit number are zero. */
  lemma HighBytes(n: nat, i: nat)
    requires n < TWO_32 && i >= 4
    ensures ShiftedBytes(n, i) == 0
  {
    var a := n / 256;
    var b := a / 256;
    var c := b / 256;
    assert a < 0x100_0000 && b < 0x1_0000 && c < 0x100 && c / 256 == 0;
    assert ShiftedBytes(n, i) == ShiftedBytes(a, i - 1) == ShiftedBytes(b, i - 2) == ShiftedBytes(c, i - 3) == ShiftedBytes(0, i - 4);
    ShiftedZero(i - 4);
  }

  lemma {:induction false} ShiftedZero(i: nat)
    ensures ShiftedBytes(0, i) == 0
  {
    if i > 0 {
      ShiftedZero(i - 1);
    }
  }

  lemma ByteZero()
    ensures Byte(0) == 0
  {
  }

  /** Byte `j` from the end of a block. */
  function FromEnd(b: seq<bv8>, j: nat): bv8
    requires j < |b|
  {
    b[|b| - 1 - j]
  }

  /** A block of the form flags, nonce, number: the number's bytes from the end, at most four of them. */
  method FormatBlock(flags: bv8, nonce: seq<bv8>, n: nat) returns (b: Block)
    requires 7 <= |nonce| <= 13 && n < TWO_32
    ensures b == [flags] + nonce + BigEndian(n, 15 - |nonce|)
  {
    hide BigEndian, Byte, ShiftedBytes;
    var len := 15 - |nonce|;
    var a := new bv8[16](_ => 0);
    a[0] := flags;
    forall j | 0 <= j < |nonce| {
      a[1 + j] := nonce[j];
    }
    var i: nat := 0;
    while i < len && i < 4
      invariant 0 <= i <= len && i <= 4
      invariant a[0] == flags && (forall j :: 0 <= j < |nonce| ==> a[1 + j] == nonce[j])
      invariant forall j: nat :: j < i ==> FromEnd(a[..], j) == Byte(ShiftedBytes(n, j))
      invariant forall j: nat :: i <= j < len ==> FromEnd(a[..], j) == 0
    {
      ghost var was := a[..];
      a[15 - i] := Byte(ShiftedBytes(n, i));
      assert a[..] == was[15 - i := Byte(ShiftedBytes(n, i))];
      assert forall j: nat :: j < len && j != i ==> FromEnd(a[..], j) == FromEnd(was, j);
      i := i + 1;
    }
    b := a[..];
    ghost var be := BigEndian(n, len);
    ByteZero();
    forall j: nat | j < len
      ensures FromEnd(b, j) == FromEnd(be, j)
    {
      BigEndianAt(n, len, j);
      if j >= 4 {
        HighBytes(n, j);
      }
    }
    AtEnd(b, flags, nonce, be);
  }

  lemma AtEnd(b: Block, flags: bv8, nonce: seq<bv8>, be: seq<bv8>)
    requires |nonce| + |be| == 15 && b[0] == flags && (forall j :: 0 <= j < |nonce| ==> b[1 + j] == nonce[j])
    requires forall j: nat :: j < |be| ==> FromEnd(b, j) == FromEnd(be, j)
    ensures b == [flags] + nonce + be
  {
    forall k | 1 + |nonce| <= k < 16
      ensures b[k] == ([flags] + nonce + be)[k]
    {
      assert FromEnd(b, 15 - k) == FromEnd(be, 15 - k);
    }
  }

  /** The first `done` bytes of the output are encrypted, the rest of the input is still there. */
  ghost predicate Crypted(e: Cipher, key: Block, nonce: seq<bv8>, m: seq<bv8>, input: seq<bv8>, output: seq<bv8>, done: nat)
    requires 7 <= |nonce| <= 13
  {
    && |m| <= |input| && |m| <= |output| && done <= |m|
    && (forall j :: 0 <= j < done ==> output[j] == m[j] ^ Stream(e, key, nonce, 1 + j / 16)[j % 16])
    && (forall j :: done <= j < |m| ==> input[j] == m[j])
  }

  /** The message xor the key stream from S_1 on; `output` may be `input` itself. */
  method CtrCrypt(e: Cipher, key: Block, nonce: seq<bv8>, input: array<bv8>, output: array<bv8>, len: nat)
    requires 7 <= |nonce| <= 13 && len <= input.Length && len <= output.Length && len < TWO_32
    modifies output
    ensures output[..len] == Crypt(e, key, nonce, old(input[..len])) && output[len..] == old(output[len..])
  {
    hide Stream, CounterBlock, Crypted, Crypt;
    ghost var m := input[..len];
    var counter, off := 1, 0;
    CryptStart(e, key, nonce, m, input[..], output[..]);
    while off < len
      invariant 0 <= off && counter == 1 + off / 16 && off % 16 == 0 && counter <= 1 + len
      invariant Crypted(e, key, nonce, m, input[..], output[..], if off < len then off else len)
      invariant output[len..] == old(output[len..])
    {
      var n := if len - off < 16 then len - off else 16;
      var s := Keystream(e, key, nonce, counter);
      var i := 0;
      while i < n
        invariant 0 <= i <= n
        invariant Crypted(e, key, nonce, m, input[..], output[..], off + i)
        invariant output[len..] == old(output[len..])
      {
        ghost var was, from := output[..], input[..];
        output[off + i] := input[off + i] ^ s[i];
        Position(off, i);
        CryptByte(e, key, nonce, m, from, was, off + i, s);
        assert output[..] == was[off + i := from[off + i] ^ s[i]];
        assert input[..] == from || input[..] == output[..];
        i := i + 1;
      }
      off := off + 16;
      counter := counter + 1;
    }
    CryptDone(e, key, nonce, m, input[..], output[..]);
  }

  lemma CryptStart(e: Cipher, key: Block, nonce: seq<bv8>, m: seq<bv8>, input: seq<bv8>, output: seq<bv8>)
    requires m <= input && |m| <= |output| && 7 <= |nonce| <= 13
    ensures Crypted(e, key, nonce, m, input, output, 0)
  {
  }

  /** One more byte, whether or not input and output are the same buffer. */
  lemma CryptByte(e: Cipher, key: Block, nonce: seq<bv8>, m: seq<bv8>, input: seq<bv8>, output: seq<bv8>, k: nat, s: Block)
    requires 7 <= |nonce| <= 13 && Crypted(e, key, nonce, m, input, output, k) && k < |m| && s == Stream(e, key, nonce, 1 + k / 16)
    ensures var output' := output[k := input[k] ^ s[k % 16]];
      && Crypted(e, key, nonce, m, input, output', k + 1)
      && (input == output ==> Crypted(e, key, nonce, m, output', output', k + 1))
  {
    hide Stream;
  }

  lemma CryptDone(e: Cipher, key: Block, nonce: seq<bv8>, m: seq<bv8>, input: seq<bv8>, output: seq<bv8>)
    requires 7 <= |nonce| <= 13 && Crypted(e, key, nonce, m, input, output, |m|)
    ensures output[..|m|] == Crypt(e, key, nonce, m)
  {
    hide Stream;
  }

  lemma Position(off: nat, i: nat)
    requires off % 16 == 0 && i < 16
    ensures (off + i) / 16 == off / 16 && (off + i) % 16 == i
  {
  }

  /** `ctr_keystream`. */
  method Keystream(e: Cipher, key: Block, nonce: seq<bv8>, counter: nat) returns (s: Block)
    requires 7 <= |nonce| <= 13 && counter < TWO_32
    ensures s == Stream(e, key, nonce, counter)
  {
    var a := FormatBlock((15 - |nonce| - 1) as bv8, nonce, counter);
    s := e(key, a);
  }

  /** The flags of B_0 by shifts are the sum of the standard. */
  lemma Flags(tagLen: nat, l: nat)
    requires 4 <= tagLen <= 16 && tagLen % 2 == 0 && 2 <= l <= 8
    ensures 0x40 | (((tagLen - 2) / 2) as bv8 << 3) | (l - 1) as bv8 == Byte(64 + 8 * ((tagLen - 2) / 2) + (l - 1))
  {
    var m := (tagLen - 2) / 2;
    assert 1 <= m <= 7;
    FlagBits(m, l - 1);
  }

  lemma FlagBits(m: nat, l: nat)
    requires 1 <= m <= 7 && 1 <= l <= 7
    ensures 0x40 | (m as bv8 << 3) | l as bv8 == (64 + 8 * m + l) as bv8
  {
    var a, b := m as bv8, l as bv8;
    BackFromBits(m);
    BackFromBits(l);
    ThreeBits(a);
    ThreeBits(b);
    Fields(a, b);
    SameByte(0x40 | (a << 3) | b, 64 + 8 * m + l);
  }

  lemma ThreeBits(a: bv8)
    requires a as nat <= 7
    ensures a <= 7
  {
  }

  lemma Fields(a: bv8, b: bv8)
    requires a <= 7 && b <= 7
    ensures (0x40 | (a << 3) | b) as nat == 64 + 8 * (a as nat) + b as nat
  {
  }

  // ---- Encryption and decryption ---------------------------------------------------------------------

  /** `ccm_tag`: the first `tagLen` bytes of the tag. */
  method CcmTag(e: Cipher, key: Block, nonce: seq<bv8>, aad: array<bv8>, msg: array<bv8>, len: nat, tagLen: nat) returns (tag: seq<bv8>)
    requires ParamsOk(|nonce|, aad.Length, tagLen) && len <= msg.Length && len < TWO_32
    ensures tag == Tag(e, key, nonce, aad[..], msg[..len], tagLen)
  {
    hide Cbc, XorBlocks, Stream, EncodedAad, Padded, BigEndian;
    var l := 15 - |nonce|;
    var b0 := FormatBlock(0x40 | (((tagLen - 2) / 2) as bv8 << 3) | (l - 1) as bv8, nonce, len);
    Flags(tagLen, l);
    ghost var m, a := msg[..len], aad[..];
    assert b0 == B0(nonce, len, tagLen);
    var x := new bv8[16];
    var y := e(key, b0);
    forall i | 0 <= i < 16 {
      x[i] := y[i];
    }
    assert x[..] == y;
    FirstBlock(e, key, nonce, a, m, tagLen);
    assert msg[..len] == m && aad[..] == a && x[..] == y;
    CbcMac(e, key, x, aad, msg, len);
    assert msg[..len] == m && aad[..] == a;
    assert x[..] == Cbc(e, key, Zeros(16), Formatted(nonce, a, m, tagLen));
    var s0 := Keystream(e, key, nonce, 0);
    tag := XorBlocks(x[..], s0)[..tagLen];
  }

  /** Starting from E(K, B_0) is starting from the zero block with B_0 in front. */
  lemma FirstBlock(e: Cipher, key: Block, nonce: seq<bv8>, aad: seq<bv8>, m: seq<bv8>, tagLen: nat)
    requires ParamsOk(|nonce|, |aad|, tagLen)
    ensures Cbc(e, key, Cbc(e, key, e(key, B0(nonce, |m|, tagLen)), Padded(EncodedAad(aad))), Padded(m))
         == Cbc(e, key, Zeros(16), Formatted(nonce, aad, m, tagLen))
  {
    hide XorBlocks, Stream, EncodedAad, Padded, BigEndian, B0, Cbc;
    var b0: Block := B0(nonce, |m|, tagLen);
    var ad := Padded(EncodedAad(aad));
    var head: seq<bv8> := b0;
    CbcBlock(e, key, Zeros(16), [], b0);
    CbcEmpty(e, key, Zeros(16));
    assert [] + head == head;
    XorZeros(b0);
    CbcConcat(e, key, Zeros(16), head, ad);
    Multiples(|head|, |ad|, 0);
    CbcConcat(e, key, Zeros(16), head + ad, Padded(m));
  }

  lemma XorZeros(b: Block)
    ensures XorBlocks(Zeros(16), b) == b
  {
    forall i | 0 <= i < 16
      ensures XorBlocks(Zeros(16), b)[i] == b[i]
    {
      XorZero(b[i]);
    }
  }

  /** `app_ccm_encrypt_and_tag`; `ct` may be `pt` itself. */
  method EncryptAndTag(e: Cipher, key: Block, nonce: seq<bv8>, aad: array<bv8>, pt: array<bv8>, len: nat, ct: array<bv8>, tag: array<bv8>, tagLen: nat)
    returns (r: Status)
    requires len <= pt.Length && len <= ct.Length && len < TWO_32 && tagLen <= tag.Length
    requires tag != ct && tag != pt && tag != aad && ct != aad
    modifies ct, tag
    ensures r == if ParamsOk(|nonce|, aad.Length, tagLen) then Ok else Invalid
    ensures r == Ok ==> ct[..len] == Crypt(e, key, nonce, old(pt[..len]))
    ensures r == Ok ==> tag[..tagLen] == Tag(e, key, nonce, aad[..], old(pt[..len]), tagLen)
    ensures r != Ok ==> ct[..] == old(ct[..]) && tag[..] == old(tag[..])
    ensures ct[len..] == old(ct[len..]) && tag[tagLen..] == old(tag[tagLen..])
  {
    hide Crypt, Tag;
    if !ParamsOk(|nonce|, aad.Length, tagLen) {
      return Invalid;
    }
    ghost var a, m := aad[..], pt[..len];
    var t := CcmTag(e, key, nonce, aad, pt, len, tagLen);
    forall i | 0 <= i < tagLen {
      tag[i] := t[i];
    }
    assert tag[..tagLen] == t && pt[..len] == m;
    CtrCrypt(e, key, nonce, pt, ct, len);
    assert tag[..tagLen] == t && aad[..] == a;
    r := Ok;
  }

  /** `app_ccm_auth_decrypt`; `pt` may be `ct` itself. Anything but the right tag leaves zeros. */
  method AuthDecrypt(e: Cipher, key: Block, nonce: seq<bv8>, aad: array<bv8>, ct: array<bv8>, len: nat, tag: array<bv8>, tagLen: nat, pt: array<bv8>)
    returns (r: Status)
    requires len <= ct.Length && len <= pt.Length && len < TWO_32 && tagLen <= tag.Length
    requires tag != pt && pt != aad
    modifies pt
    ensures r == Invalid <==> !ParamsOk(|nonce|, aad.Length, tagLen)
    ensures r == Invalid ==> pt[..] == old(pt[..])
    ensures r != Invalid ==>
              var m := Crypt(e, key, nonce, old(ct[..len]));
              (r == Ok <==> tag[..tagLen] == Tag(e, key, nonce, aad[..], m, tagLen))
              && pt[..len] == if r == Ok then m else Zeros(len)
    ensures pt[len..] == old(pt[len..])
  {
    hide Crypt, Tag;
    if !ParamsOk(|nonce|, aad.Length, tagLen) {
      return Invalid;
    }
    ghost var a, t, m := aad[..], tag[..tagLen], Crypt(e, key, nonce, ct[..len]);
    CtrCrypt(e, key, nonce, ct, pt, len);
    assert pt[..len] == m && aad[..] == a && tag[..tagLen] == t;
    var expected := CcmTag(e, key, nonce, aad, pt, len, tagLen);
    var diff: bv8 := 0;
    var i := 0;
    while i < tagLen
      modifies {}
      invariant 0 <= i <= tagLen
      invariant diff == 0 <==> forall j :: 0 <= j < i ==> expected[j] == tag[j]
    {
      Differs(diff, expected[i], tag[i]);
      diff := diff | (expected[i] ^ tag[i]);
      i := i + 1;
    }
    assert diff == 0 <==> expected == tag[..tagLen];
    if diff != 0 {
      forall k | 0 <= k < len {
        pt[k] := 0;
      }
      assert pt[..len] == Zeros(len) && aad[..] == a && tag[..tagLen] == t;
      return BadMessage;
    }
    r := Ok;
  }

  lemma Differs(d: bv8, a: bv8, b: bv8)
    ensures d | (a ^ b) == 0 <==> d == 0 && a == b
  {
  }

  /** A message sealed and opened in one buffer. `received` is the tag that arrives with it: with the
      tag that was made (`received` may be that very array) the old bytes are back, and with any other
      the message is refused and nothing of it is left. */
  method RoundTrip(e: Cipher, key: Block, nonce: seq<bv8>, aad: array<bv8>, buf: array<bv8>, len: nat, tag: array<bv8>,
      received: array<bv8>, tagLen: nat)
    returns (sealed: Status, answer: Status)
    requires len <= buf.Length && len < TWO_32 && tagLen <= tag.Length && tagLen <= received.Length
    requires tag != buf && tag != aad && received != buf && aad != buf
    modifies buf, tag
    ensures sealed == if ParamsOk(|nonce|, aad.Length, tagLen) then Ok else Invalid
    ensures sealed == Invalid ==> answer == Invalid && buf[..] == old(buf[..]) && tag[..] == old(tag[..])
    ensures sealed == Ok ==>
              && tag[..tagLen] == Tag(e, key, nonce, aad[..], old(buf[..len]), tagLen)
              && answer == (if received[..tagLen] == tag[..tagLen] then Ok else BadMessage)
              && buf[..len] == if received[..tagLen] == tag[..tagLen] then old(buf[..len]) else Zeros(len)
  {
    hide Crypt, Tag;
    ghost var m := buf[..len];
    sealed := EncryptAndTag(e, key, nonce, aad, buf, len, buf, tag, tagLen);
    if sealed == Ok {
      CryptTwice(e, key, nonce, m);
    }
    answer := AuthDecrypt(e, key, nonce, aad, buf, len, received, tagLen, buf);
  }
}
