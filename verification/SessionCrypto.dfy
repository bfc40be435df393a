/**
 The session keys, MACs and IVs of secure messaging, byte by byte: the helpers that build them in place,
 and what each byte of what they build is.
 */
module SessionCrypto {
  import opened Bytes
  import opened CardSpec

  // Session vectors.

  /** A session vector, by position. */
  predicate IsVector(sv: seq<byte>, label0: byte, label1: byte, a: Block, b: Block) {
    && |sv| == 32
    && sv[0] == label0 && sv[1] == label1
    && sv[2] == 0x00 && sv[3] == 0x01 && sv[4] == 0x00 && sv[5] == 0x80
    && sv[6] == a[0] && sv[7] == a[1]
    && (forall i :: 8 <= i < 14 ==> sv[i] == XorByte(a[i - 6], b[i - 8]))
    && (forall i :: 14 <= i < 24 ==> sv[i] == b[i - 8])
    && (forall i :: 24 <= i < 32 ==> sv[i] == a[i - 16])
  }

  lemma VectorByPosition(sv: seq<byte>, label0: byte, label1: byte, a: Block, b: Block)
    ensures sv == SessionVector([label0, label1], a, b) <==> IsVector(sv, label0, label1, a, b)
  {
    var v := SessionVector([label0, label1], a, b);
    assert IsVector(v, label0, label1, a, b);
    if IsVector(sv, label0, label1, a, b) {
      forall i | 0 <= i < 32
        ensures sv[i] == v[i]
      {
      }
    }
  }

  lemma XorDetermines(a: byte, b: byte, c: byte)
    requires XorByte(a, b) == XorByte(a, c)
    ensures b == c
  {
    XorByteCancels(b, a);
    XorByteCancels(c, a);
    XorBitsCommutes(a, b, 8);
    XorBitsCommutes(a, c, 8);
  }

  /** With one random number, a vector determines the other, and the two labels never give the same vector. */
  lemma VectorDetermines(sv: seq<byte>, label0: byte, label1: byte, a: Block, b: Block, l0: byte, l1: byte, c: Block)
    requires IsVector(sv, label0, label1, a, b) && IsVector(sv, l0, l1, a, c)
    ensures label0 == l0 && label1 == l1 && b == c
  {
    forall i | 0 <= i < 16
      ensures b[i] == c[i]
    {
      if i < 6 {
        assert sv[i + 8] == XorByte(a[i + 2], b[i]) == XorByte(a[i + 2], c[i]);
        XorDetermines(a[i + 2], b[i], c[i]);
      } else {
        assert sv[i + 8] == b[i] == c[i];
      }
    }
  }

  /** The session of two random numbers: encryption key, MAC key, transaction identifier and counter. */
  lemma SessionByVectors(x: Suite, key: Block, a: Block, b: Block, sv1: seq<byte>, sv2: seq<byte>)
    requires IsVector(sv1, 0xA5, 0x5A, a, b) && IsVector(sv2, 0x5A, 0xA5, a, b)
    ensures NewSession(x, key, a, b) == Session(x.cmac(key, sv1), x.cmac(key, sv2), [0x08, 0x5B, 0xC9, 0x41], 0)
    ensures sv1 != sv2
  {
    VectorByPosition(sv1, 0xA5, 0x5A, a, b);
    VectorByPosition(sv2, 0x5A, 0xA5, a, b);
  }

  /** Rotation by one byte, by position. */
  predicate Rotated(r: seq<byte>, b: Block) {
    |r| == 16 && r[15] == b[0] && forall i :: 0 <= i < 15 ==> r[i] == b[i + 1]
  }

  lemma RotatedExactly(r: seq<byte>, b: Block)
    ensures r == RotateLeft(b) <==> Rotated(r, b)
  {
    assert Rotated(RotateLeft(b), b);
    if Rotated(r, b) {
      forall i | 0 <= i < 16
        ensures r[i] == RotateLeft(b)[i]
      {
      }
    }
  }

  // MAC inputs and IVs.

  /** What a MAC is computed over, by position. */
  predicate IsMacInput(input: seq<byte>, code: byte, counter: u16, ti: Ti, rest: seq<byte>) {
    && |input| == 7 + |rest|
    && input[0] == code && input[1] == counter % 256 && input[2] == counter / 256
    && (forall i :: 3 <= i < 7 ==> input[i] == ti[i - 3])
    && (forall i :: 7 <= i < |input| ==> input[i] == rest[i - 7])
  }

  lemma MacInputByPosition(input: seq<byte>, code: byte, counter: u16, ti: Ti, rest: seq<byte>)
    ensures input == MacInput(code, counter, ti, rest) <==> IsMacInput(input, code, counter, ti, rest)
  {
    var v := MacInput(code, counter, ti, rest);
    assert IsMacInput(v, code, counter, ti, rest);
    if IsMacInput(input, code, counter, ti, rest) {
      forall i | 0 <= i < |v|
        ensures input[i] == v[i]
      {
      }
    }
  }

  /** One input stands for one command, counter, transaction identifier, header byte and data. */
  lemma MacInputDetermines(input: seq<byte>, code: byte, counter: u16, ti: Ti, arg: byte, data: seq<byte>,
                           code': byte, counter': u16, ti': Ti, arg': byte, data': seq<byte>)
    requires IsMacInput(input, code, counter, ti, [arg] + data)
    requires IsMacInput(input, code', counter', ti', [arg'] + data')
    ensures code == code' && counter == counter' && ti == ti' && arg == arg' && data == data'
  {
    assert counter == 256 * (counter / 256) + counter % 256 && counter' == 256 * (counter' / 256) + counter' % 256;
    forall i | 0 <= i < 4
      ensures ti[i] == ti'[i]
    {
      assert input[i + 3] == ti[i] == ti'[i];
    }
    assert input[7] == ([arg] + data)[0] == ([arg'] + data')[0];
    forall i | 0 <= i < |data|
      ensures data[i] == data'[i]
    {
      assert input[i + 8] == ([arg] + data)[i + 1] == ([arg'] + data')[i + 1];
    }
  }

  /** Every other byte of the CMAC, from the second on. */
  predicate IsTruncated(mac: seq<byte>, full: Block) {
    |mac| == 8 && forall i :: 0 <= i < 8 ==> mac[i] == full[2 * i + 1]
  }

  lemma TruncatedExactly(mac: seq<byte>, full: Block)
    ensures mac == TruncateMac(full) <==> IsTruncated(mac, full)
  {
    if IsTruncated(mac, full) {
      forall i | 0 <= i < 8
        ensures mac[i] == TruncateMac(full)[i]
      {
      }
    }
  }

  lemma CommandMacBytes(x: Suite, s: Session, cmd: byte, header: seq<byte>, data: seq<byte>, input: seq<byte>,
                        mac: seq<byte>)
    requires IsMacInput(input, cmd, s.counter, s.ti, header + data)
    ensures mac == CommandMac(x, s, cmd, header, data) <==> IsTruncated(mac, x.cmac(s.macKey, input))
  {
    MacInputByPosition(input, cmd, s.counter, s.ti, header + data);
    TruncatedExactly(mac, x.cmac(s.macKey, input));
  }

  lemma ResponseMacBytes(x: Suite, s: Session, data: seq<byte>, input: seq<byte>, mac: seq<byte>)
    requires IsMacInput(input, 0x00, (s.counter + 1) % 0x1_0000, s.ti, data)
    ensures mac == ResponseMac(x, s, data) <==> IsTruncated(mac, x.cmac(s.macKey, input))
  {
    MacInputByPosition(input, 0x00, (s.counter + 1) % 0x1_0000, s.ti, data);
    TruncatedExactly(mac, x.cmac(s.macKey, input));
  }

  /** The block an IV is the encryption of, by position. */
  predicate IsIvInput(b: Block, counter: u16, ti: Ti) {
    && b[0] == 0xA5 && b[1] == 0x5A
    && (forall i :: 2 <= i < 6 ==> b[i] == ti[i - 2])
    && b[6] == counter % 256 && b[7] == counter / 256
    && (forall i :: 8 <= i < 16 ==> b[i] == 0)
  }

  lemma CommandIvBytes(x: Suite, s: Session, b: Block)
    requires IsIvInput(b, s.counter, s.ti)
    ensures CommandIv(x, s) == x.enc(s.encKey, b)
  {
    var v := IvInput(s.counter, s.ti);
    assert IsIvInput(v, s.counter, s.ti);
    forall i | 0 <= i < 16
      ensures b[i] == v[i]
    {
    }
    assert b == v;
  }

  // The helpers, as they fill their buffers.

  /** The six bytes of a session vector in which the random numbers meet. */
  method MixInto(buf: array<byte>, rndA: Block, rndB: Block)
    requires buf.Length == 32
    modifies buf
    ensures forall k :: 0 <= k < 32 ==> buf[k] == if 8 <= k < 14 then XorByte(rndA[k - 6], rndB[k - 8]) else old(buf[k])
  {
    for i := 0 to 6
      invariant forall k :: 0 <= k < 32 ==>
        buf[k] == if 8 <= k < 8 + i then XorByte(rndA[k - 6], rndB[k - 8]) else old(buf[k])
    {
      buf[8 + i] := XorByte(rndA[2 + i], rndB[i]);
    }
  }

  method SessionVectorAes(label0: byte, label1: byte, rndA: Block, rndB: Block) returns (sv: seq<byte>)
    ensures IsVector(sv, label0, label1, rndA, rndB)
  {
    var buf := new byte[32](_ => 0);
    CopyInto(buf, 0, [label0, label1]);
    CopyInto(buf, 2, [0x00, 0x01, 0x00, 0x80]);
    CopyInto(buf, 6, rndA[0..2]);
    MixInto(buf, rndA, rndB);
    CopyInto(buf, 14, rndB[6..16]);
    CopyInto(buf, 24, rndA[8..16]);
    return buf[..];
  }

  method DeriveSessionKeys(x: Suite, key: Block, rndA: Block, rndB: Block) returns (encKey: Block, macKey: Block)
    ensures encKey == NewSession(x, key, rndA, rndB).encKey && macKey == NewSession(x, key, rndA, rndB).macKey
  {
    var sv1 := SessionVectorAes(0xA5, 0x5A, rndA, rndB);
    var sv2 := SessionVectorAes(0x5A, 0xA5, rndA, rndB);
    SessionByVectors(x, key, rndA, rndB, sv1, sv2);
    return x.cmac(key, sv1), x.cmac(key, sv2);
  }

  method Truncate(full: Block) returns (mac: seq<byte>)
    ensures IsTruncated(mac, full)
  {
    mac := [];
    for i := 0 to 8
      invariant |mac| == i && forall k :: 0 <= k < i ==> mac[k] == full[2 * k + 1]
    {
      mac := mac + [full[2 * i + 1]];
    }
  }

  method ComputeCommandMac(x: Suite, s: Session, cmd: byte, header: seq<byte>, data: seq<byte>) returns (mac: seq<byte>)
    ensures mac == CommandMac(x, s, cmd, header, data)
  {
    var input := [cmd];
    input := input + [s.counter % 256, s.counter / 256];
    input := input + s.ti;
    input := input + header;
    input := input + data;
    mac := Truncate(x.cmac(s.macKey, input));
    CommandMacBytes(x, s, cmd, header, data, input, mac);
  }

  method ComputeResponseMac(x: Suite, s: Session, data: seq<byte>) returns (mac: seq<byte>)
    ensures mac == ResponseMac(x, s, data)
  {
    var next := (s.counter + 1) % 0x1_0000;
    var input := [0x00];
    input := input + [next % 256, next / 256];
    input := input + s.ti;
    input := input + data;
    mac := Truncate(x.cmac(s.macKey, input));
    ResponseMacBytes(x, s, data, input, mac);
  }

  method ComputeIv(x: Suite, s: Session) returns (iv: Block)
    ensures iv == CommandIv(x, s)
  {
    var input := new byte[16](_ => 0);
    CopyInto(input, 0, [0xA5, 0x5A]);
    CopyInto(input, 2, s.ti);
    CopyInto(input, 6, [s.counter % 256, s.counter / 256]);
    CommandIvBytes(x, s, input[..]);
    return x.enc(s.encKey, input[..]);
  }
}
