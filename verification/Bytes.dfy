/**
 Bytes, 16-byte blocks and the cryptographic primitives the card protocol is
 built on. AES is any keyed permutation of blocks and CMAC any keyed function:
 every result holds for all of them, and nothing is claimed about strength.
 */
module Bytes {

  type byte = b: int | 0 <= b < 256

  datatype Option<+T> = None | Some(value: T)

  /** `n` zero bytes. */
  function Zeros(n: nat): (z: seq<byte>)
    ensures |z| == n
  {
    seq(n, _ => 0)
  }

  type Block = b: seq<byte> | |b| == 16 witness Zeros(16)

  const ZERO_BLOCK: Block := Zeros(16)

  datatype Primitives = Primitives(
    enc: (Block, Block) -> Block,
    dec: (Block, Block) -> Block,
    cmac: (Block, seq<byte>) -> Block)

  /** `dec` under a key is the two-sided inverse of `enc` under it. */
  ghost predicate KeyedPermutation(p: Primitives) {
    && (forall k: Block, b: Block :: p.dec(k, p.enc(k, b)) == b)
    && (forall k: Block, b: Block :: p.enc(k, p.dec(k, b)) == b)
  }

  type Suite = p: Primitives | KeyedPermutation(p)
    ghost witness Primitives((k, b) => b, (k, b) => b, (k, m) => k)

  /** Bitwise exclusive or of the low `bits` bits. */
  function XorBits(a: nat, b: nat, bits: nat): (c: nat)
    ensures c < Pow2(bits)
  {
    if bits == 0 then 0 else (if a % 2 == b % 2 then 0 else 1) + 2 * XorBits(a / 2, b / 2, bits - 1)
  }

  function Pow2(n: nat): (p: nat) {
    if n == 0 then 1 else 2 * Pow2(n - 1)
  }

  function XorByte(a: byte, b: byte): (c: byte) {
    assert Pow2(8) == 256;
    XorBits(a, b, 8)
  }

  function Xor(a: Block, b: Block): (c: Block)
    ensures forall i :: 0 <= i < 16 ==> c[i] == XorByte(a[i], b[i])
  {
    seq(16, i requires 0 <= i < 16 => XorByte(a[i], b[i]))
  }

  lemma {:induction false} XorBitsCommutes(a: nat, b: nat, bits: nat)
    ensures XorBits(a, b, bits) == XorBits(b, a, bits)
  {
    if bits > 0 {
      XorBitsCommutes(a / 2, b / 2, bits - 1);
    }
  }

  lemma {:induction false} XorBitsCancels(a: nat, b: nat, bits: nat)
    requires a < Pow2(bits)
    ensures XorBits(XorBits(a, b, bits), b, bits) == a
  {
    if bits > 0 {
      var low, rest := if a % 2 == b % 2 then 0 else 1, XorBits(a / 2, b / 2, bits - 1);
      assert (low + 2 * rest) % 2 == low && (low + 2 * rest) / 2 == rest;
      XorBitsCancels(a / 2, b / 2, bits - 1);
    }
  }

  lemma XorByteCancels(a: byte, b: byte)
    ensures XorByte(XorByte(a, b), b) == a
    ensures XorByte(b, XorByte(a, b)) == a
  {
    assert Pow2(8) == 256;
    XorBitsCancels(a, b, 8);
    XorBitsCommutes(b, XorByte(a, b), 8);
  }

  function Bit(n: nat, k: nat): (bit: nat) {
    if k == 0 then n % 2 else Bit(n / 2, k - 1)
  }

  /** A bit of the exclusive or is set exactly when the two bits differ. */
  lemma {:induction false} XorByBit(a: nat, b: nat, bits: nat, k: nat)
    requires k < bits
    ensures Bit(XorBits(a, b, bits), k) == if Bit(a, k) == Bit(b, k) then 0 else 1
  {
    var low, rest := if a % 2 == b % 2 then 0 else 1, XorBits(a / 2, b / 2, bits - 1);
    assert (low + 2 * rest) % 2 == low && (low + 2 * rest) / 2 == rest;
    if k > 0 {
      XorByBit(a / 2, b / 2, bits - 1, k - 1);
    }
  }

  /** Bitwise or of the low `bits` bits. */
  function OrBits(a: nat, b: nat, bits: nat): (c: nat)
    ensures c < Pow2(bits)
  {
    if bits == 0 then 0 else (if a % 2 == 0 && b % 2 == 0 then 0 else 1) + 2 * OrBits(a / 2, b / 2, bits - 1)
  }

  function OrByte(a: byte, b: byte): (c: byte) {
    assert Pow2(8) == 256;
    OrBits(a, b, 8)
  }

  lemma {:induction false} OrBitsZero(a: nat, b: nat, bits: nat)
    requires a < Pow2(bits) && b < Pow2(bits)
    ensures OrBits(a, b, bits) == 0 <==> a == 0 && b == 0
  {
    if bits > 0 {
      OrBitsZero(a / 2, b / 2, bits - 1);
    }
  }

  lemma {:induction false} XorBitsZero(a: nat, b: nat, bits: nat)
    requires a < Pow2(bits) && b < Pow2(bits)
    ensures XorBits(a, b, bits) == 0 <==> a == b
  {
    if bits > 0 {
      XorBitsZero(a / 2, b / 2, bits - 1);
    }
  }

  lemma DifferenceKept(diff: byte, a: byte, b: byte)
    ensures OrByte(diff, XorByte(a, b)) == 0 <==> diff == 0 && a == b
  {
    assert Pow2(8) == 256;
    XorBitsZero(a, b, 8);
    OrBitsZero(diff, XorByte(a, b), 8);
  }

  lemma PrefixesAgree(s: seq<byte>, t: seq<byte>, i: nat)
    requires i < |s| == |t|
    ensures s[..i + 1] == t[..i + 1] <==> s[..i] == t[..i] && s[i] == t[i]
  {
    assert s[..i + 1] == s[..i] + [s[i]] && t[..i + 1] == t[..i] + [t[i]];
  }

  /** The comparison that looks at every byte: the differences are or-ed together. */
  method ConstantTimeEq(left: seq<byte>, right: seq<byte>) returns (eq: bool)
    requires |left| == |right|
    ensures eq <==> left == right
  {
    var diff: byte := 0;
    for i := 0 to |left|
      invariant diff == 0 <==> left[..i] == right[..i]
    {
      DifferenceKept(diff, left[i], right[i]);
      PrefixesAgree(left, right, i);
      diff := OrByte(diff, XorByte(left[i], right[i]));
    }
    assert left[..|left|] == left && right[..|right|] == right;
    return diff == 0;
  }

  lemma XorCancels(a: Block, b: Block)
    ensures Xor(Xor(a, b), b) == a
    ensures Xor(b, Xor(a, b)) == a
  {
    forall i | 0 <= i < 16
      ensures Xor(Xor(a, b), b)[i] == a[i] && Xor(b, Xor(a, b))[i] == a[i]
    {
      XorByteCancels(a[i], b[i]);
    }
  }

  /** Little-endian bytes of a 16-bit counter. */
  /** The UTF-8 bytes of a code point. */
  function Utf8(code: nat): (bytes: seq<byte>)
    requires code < 0x11_0000
  {
    if code < 0x80 then [code]
    else if code < 0x800 then [0xC0 + code / 64, 0x80 + code % 64]
    else if code < 0x1_0000 then [0xE0 + code / 4096, 0x80 + code / 64 % 64, 0x80 + code % 64]
    else [0xF0 + code / 262144, 0x80 + code / 4096 % 64, 0x80 + code / 64 % 64, 0x80 + code % 64]
  }

  /** The payload bits of the encoding, put together, are the code point. */
  lemma Utf8Spells(code: nat)
    requires code < 0x11_0000
    ensures var b := Utf8(code);
      && 1 <= |b| <= 4 && (forall i :: 1 <= i < |b| ==> 0x80 <= b[i] < 0xC0)
      && code == match |b|
                 case 1 => b[0] as int
                 case 2 => (b[0] as int - 0xC0) * 64 + (b[1] as int - 0x80)
                 case 3 => (b[0] as int - 0xE0) * 4096 + (b[1] as int - 0x80) * 64 + (b[2] as int - 0x80)
                 case _ =>
                   (b[0] as int - 0xF0) * 262144 + (b[1] as int - 0x80) * 4096 + (b[2] as int - 0x80) * 64
                   + (b[3] as int - 0x80)
  {
    var a := code / 64;
    var b := a / 64;
    assert code / 4096 == b && code / 262144 == b / 64;
    assert code == 64 * a + code % 64 && a == 64 * b + a % 64 && b == 64 * (b / 64) + b % 64;
  }

  function Le16(n: nat): (r: seq<byte>)
    requires n < 0x1_0000
    ensures |r| == 2
  {
    [n % 256, n / 256]
  }

  /** The value of three little-endian bytes. */
  function FromLe24(b0: byte, b1: byte, b2: byte): (n: nat) {
    b0 + 256 * b1 + 65536 * b2
  }

  /** The value of two big-endian bytes. */
  function FromBe16(hi: byte, lo: byte): (n: nat) {
    256 * hi + lo
  }

  function Le24(n: nat): (r: seq<byte>)
    requires n < 0x100_0000
    ensures |r| == 3
    ensures FromLe24(r[0], r[1], r[2]) == n
  {
    [n % 256, n / 256 % 256, n / 256 / 256]
  }

  /** Copies `data` over `buf` from `at` on. */
  method CopyInto(buf: array<byte>, at: nat, data: seq<byte>)
    requires at + |data| <= buf.Length
    modifies buf
    ensures forall k :: 0 <= k < buf.Length ==> buf[k] == if at <= k < at + |data| then data[k - at] else old(buf[k])
  {
    forall i | 0 <= i < |data| {
      buf[at + i] := data[i];
    }
  }
}
