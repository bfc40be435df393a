/**
 Cipher block chaining over whole-block buffers (section 6.2 of NIST SP 800-38A)
 and padding method 2 (section 6.3.3 of ISO/IEC 9797-1), as the card applies
 them to buffers in place.
 */
module Cbc {
  import opened Basics
  import opened Bytes

  predicate WholeBlocks(buf: seq<byte>) {
    |buf| % 16 == 0
  }

  function Encrypt(x: Suite, key: Block, iv: Block, p: seq<byte>): (c: seq<byte>)
    requires WholeBlocks(p)
    ensures |c| == |p|
    decreases |p|
  {
    if p == [] then []
    else
      var c0 := x.enc(key, Xor(p[..16], iv));
      c0 + Encrypt(x, key, c0, p[16..])
  }

  function Decrypt(x: Suite, key: Block, iv: Block, c: seq<byte>): (p: seq<byte>)
    requires WholeBlocks(c)
    ensures |p| == |c|
    decreases |c|
  {
    if c == [] then []
    else Xor(x.dec(key, c[..16]), iv) + Decrypt(x, key, c[..16], c[16..])
  }

  lemma {:induction false} DecryptUndoesEncrypt(x: Suite, key: Block, iv: Block, p: seq<byte>)
    requires WholeBlocks(p)
    ensures Decrypt(x, key, iv, Encrypt(x, key, iv, p)) == p
    decreases |p|
  {
    if p != [] {
      var c0 := x.enc(key, Xor(p[..16], iv));
      var c := Encrypt(x, key, iv, p);
      assert c[..16] == c0 && c[16..] == Encrypt(x, key, c0, p[16..]);
      DecryptUndoesEncrypt(x, key, c0, p[16..]);
      XorCancels(p[..16], iv);
    }
  }

  lemma {:induction false} EncryptUndoesDecrypt(x: Suite, key: Block, iv: Block, c: seq<byte>)
    requires WholeBlocks(c)
    ensures Encrypt(x, key, iv, Decrypt(x, key, iv, c)) == c
    decreases |c|
  {
    if c != [] {
      var p := Decrypt(x, key, iv, c);
      assert p[..16] == Xor(x.dec(key, c[..16]), iv) && p[16..] == Decrypt(x, key, c[..16], c[16..]);
      EncryptUndoesDecrypt(x, key, c[..16], c[16..]);
      XorCancels(x.dec(key, c[..16]), iv);
    }
  }

  /** Overwrites `buf[at..at + 16]` with its exclusive or with `mask`. */
  method XorChunk(buf: array<byte>, at: nat, mask: Block)
    requires at + 16 <= buf.Length
    modifies buf
    ensures buf[at..at + 16] == Xor(old(buf[at..at + 16]), mask)
    ensures buf[..at] == old(buf[..at]) && buf[at + 16..] == old(buf[at + 16..])
  {
    for i := 0 to 16
      invariant forall k :: 0 <= k < buf.Length ==>
        buf[k] == if at <= k < at + i then XorByte(old(buf[k]), mask[k - at]) else old(buf[k])
    {
      buf[at + i] := XorByte(buf[at + i], mask[i]);
    }
  }

  /** Overwrites `buf[at..at + 16]` with `block`. */
  method StoreChunk(buf: array<byte>, at: nat, block: Block)
    requires at + 16 <= buf.Length
    modifies buf
    ensures buf[at..at + 16] == block
    ensures buf[..at] == old(buf[..at]) && buf[at + 16..] == old(buf[at + 16..])
  {
    forall i | 0 <= i < 16 {
      buf[at + i] := block[i];
    }
  }

  lemma EncryptStep(x: Suite, key: Block, prev: Block, block: Block, rest: seq<byte>)
    requires WholeBlocks(rest)
    ensures var c := x.enc(key, Xor(block, prev));
      Encrypt(x, key, prev, block + rest) == c + Encrypt(x, key, c, rest)
  {
    assert (block + rest)[..16] == block && (block + rest)[16..] == rest;
  }

  lemma DecryptStep(x: Suite, key: Block, prev: Block, block: Block, rest: seq<byte>)
    requires WholeBlocks(rest)
    ensures Decrypt(x, key, prev, block + rest) == Xor(x.dec(key, block), prev) + Decrypt(x, key, block, rest)
  {
    assert (block + rest)[..16] == block && (block + rest)[16..] == rest;
  }

  /** Only the block at `at` differs. */
  predicate ChunkReplaced(was: seq<byte>, now: seq<byte>, at: nat, block: Block) {
    && at + 16 <= |was| == |now|
    && now[..at] == was[..at] && now[at..at + 16] == block && now[at + 16..] == was[at + 16..]
  }

  lemma SplitAt(s: seq<byte>, at: nat)
    requires at + 16 <= |s|
    ensures s[at..] == s[at..at + 16] + s[at + 16..] && s[..at + 16] == s[..at] + s[at..at + 16]
  {
  }

  /** The buffer up to `at` is encrypted, and encrypting the rest after `prev` completes it. */
  predicate EncryptedTo(x: Suite, key: Block, goal: seq<byte>, prev: Block, buf: seq<byte>, at: nat) {
    at <= |buf| && WholeBlocks(buf[at..]) && buf[..at] + Encrypt(x, key, prev, buf[at..]) == goal
  }

  /** The buffer up to `at` is decrypted, and decrypting the rest after `prev` completes it. */
  predicate DecryptedTo(x: Suite, key: Block, goal: seq<byte>, prev: Block, buf: seq<byte>, at: nat) {
    at <= |buf| && WholeBlocks(buf[at..]) && buf[..at] + Decrypt(x, key, prev, buf[at..]) == goal
  }

  lemma Started(x: Suite, key: Block, iv: Block, buf: seq<byte>)
    requires WholeBlocks(buf)
    ensures EncryptedTo(x, key, Encrypt(x, key, iv, buf), iv, buf, 0)
    ensures DecryptedTo(x, key, Decrypt(x, key, iv, buf), iv, buf, 0)
  {
    assert buf[0..] == buf;
  }

  lemma Finished(x: Suite, key: Block, goal: seq<byte>, prev: Block, buf: seq<byte>)
    ensures EncryptedTo(x, key, goal, prev, buf, |buf|) || DecryptedTo(x, key, goal, prev, buf, |buf|) ==> buf == goal
  {
  }

  /** One round in place: the encrypted front grows by a block. */
  lemma EncryptRound(x: Suite, key: Block, goal: seq<byte>, prev: Block, was: seq<byte>, now: seq<byte>, at: nat)
    requires EncryptedTo(x, key, goal, prev, was, at) && at + 16 <= |was|
    requires ChunkReplaced(was, now, at, x.enc(key, Xor(was[at..at + 16], prev)))
    ensures EncryptedTo(x, key, goal, now[at..at + 16], now, at + 16)
  {
    SplitAt(was, at);
    SplitAt(now, at);
    EncryptStep(x, key, prev, was[at..at + 16], was[at + 16..]);
    Associates(was[..at], now[at..at + 16], Encrypt(x, key, now[at..at + 16], now[at + 16..]));
  }

  /** One round in place: the decrypted front grows by a block. */
  lemma DecryptRound(x: Suite, key: Block, goal: seq<byte>, prev: Block, was: seq<byte>, now: seq<byte>, at: nat)
    requires DecryptedTo(x, key, goal, prev, was, at) && at + 16 <= |was|
    requires ChunkReplaced(was, now, at, Xor(x.dec(key, was[at..at + 16]), prev))
    ensures DecryptedTo(x, key, goal, was[at..at + 16], now, at + 16)
  {
    SplitAt(was, at);
    SplitAt(now, at);
    DecryptStep(x, key, prev, was[at..at + 16], was[at + 16..]);
    Associates(was[..at], now[at..at + 16], Decrypt(x, key, was[at..at + 16], was[at + 16..]));
  }

  method EncryptChunk(x: Suite, key: Block, prev: Block, buf: array<byte>, at: nat)
    requires at + 16 <= buf.Length
    modifies buf
    ensures ChunkReplaced(old(buf[..]), buf[..], at, x.enc(key, Xor(old(buf[at..at + 16]), prev)))
  {
    XorChunk(buf, at, prev);
    StoreChunk(buf, at, x.enc(key, buf[at..at + 16]));
  }

  method DecryptChunk(x: Suite, key: Block, prev: Block, buf: array<byte>, at: nat)
    requires at + 16 <= buf.Length
    modifies buf
    ensures ChunkReplaced(old(buf[..]), buf[..], at, Xor(x.dec(key, old(buf[at..at + 16])), prev))
  {
    StoreChunk(buf, at, x.dec(key, buf[at..at + 16]));
    XorChunk(buf, at, prev);
  }

  method EncryptInPlace(x: Suite, key: Block, iv: Block, buf: array<byte>)
    requires WholeBlocks(buf[..]) && buf.Length > 0
    modifies buf
    ensures buf[..] == Encrypt(x, key, iv, old(buf[..]))
  {
    ghost var goal := Encrypt(x, key, iv, buf[..]);
    var prev: Block := iv;
    var at := 0;
    Started(x, key, iv, buf[..]);
    while at < buf.Length
      invariant at <= buf.Length && at % 16 == 0 && EncryptedTo(x, key, goal, prev, buf[..], at)
    {
      ghost var was := buf[..];
      EncryptChunk(x, key, prev, buf, at);
      EncryptRound(x, key, goal, prev, was, buf[..], at);
      prev := buf[at..at + 16];
      at := at + 16;
    }
    Finished(x, key, goal, prev, buf[..]);
  }

  method DecryptInPlace(x: Suite, key: Block, iv: Block, buf: array<byte>)
    requires WholeBlocks(buf[..]) && buf.Length > 0
    modifies buf
    ensures buf[..] == Decrypt(x, key, iv, old(buf[..]))
  {
    ghost var goal := Decrypt(x, key, iv, buf[..]);
    var prev: Block := iv;
    var at := 0;
    Started(x, key, iv, buf[..]);
    while at < buf.Length
      invariant at <= buf.Length && at % 16 == 0 && DecryptedTo(x, key, goal, prev, buf[..], at)
    {
      ghost var was := buf[..];
      var saved: Block := buf[at..at + 16];
      DecryptChunk(x, key, prev, buf, at);
      DecryptRound(x, key, goal, prev, was, buf[..], at);
      prev := saved;
      at := at + 16;
    }
    Finished(x, key, goal, prev, buf[..]);
  }

  /** The round trip on one buffer: encrypting and then decrypting in place restores it. */
  method RoundTripInPlace(x: Suite, key: Block, iv: Block, buf: array<byte>)
    requires WholeBlocks(buf[..]) && buf.Length > 0
    modifies buf
    ensures buf[..] == old(buf[..])
  {
    DecryptUndoesEncrypt(x, key, iv, buf[..]);
    EncryptInPlace(x, key, iv, buf);
    DecryptInPlace(x, key, iv, buf);
  }

  /** A single 0x80 and then the fewest zeros that complete a block. */
  function PadM2(data: seq<byte>): (p: seq<byte>)
    ensures WholeBlocks(p) && |data| < |p| <= |data| + 16
  {
    data + [0x80] + Zeros(15 - |data| % 16)
  }

  /** `n` is where the padding of `buf` starts. */
  predicate PaddingAt(buf: seq<byte>, n: nat) {
    && n < |buf|
    && buf[n] == 0x80
    && forall k :: n < k < |buf| ==> buf[k] == 0
  }

  /** Finds the one place padding can start, or reports that there is none. */
  method StripM2(buf: seq<byte>) returns (r: Option<nat>)
    ensures r.Some? ==> PaddingAt(buf, r.value)
    ensures r.None? ==> forall n: nat :: !PaddingAt(buf, n)
    ensures r == Stripped(buf)
  {
    var i := |buf|;
    assert buf[..i] == buf;
    while i > 0 && buf[i - 1] == 0
      invariant 0 <= i <= |buf|
      invariant forall k :: i <= k < |buf| ==> buf[k] == 0
      invariant Stripped(buf) == Stripped(buf[..i])
    {
      assert buf[..i][..i - 1] == buf[..i - 1];
      i := i - 1;
    }
    if i == 0 || buf[i - 1] != 0x80 {
      return None;
    }
    return Some(i - 1);
  }

  function Stripped(buf: seq<byte>): (r: Option<nat>)
    ensures r.Some? ==> r.value < |buf|
  {
    if buf == [] then None
    else if buf[|buf| - 1] == 0 then Stripped(buf[..|buf| - 1])
    else if buf[|buf| - 1] == 0x80 then Some(|buf| - 1)
    else None
  }

  lemma {:induction false} StrippedFindsPadding(buf: seq<byte>, n: nat)
    requires PaddingAt(buf, n)
    ensures Stripped(buf) == Some(n)
  {
    if n < |buf| - 1 {
      StrippedFindsPadding(buf[..|buf| - 1], n);
    }
  }

  /** Whatever `data` ends with, zeros and 0x80 bytes included, stripping its padded form finds it again. */
  lemma StripRecovers(data: seq<byte>)
    ensures Stripped(PadM2(data)) == Some(|data|)
    ensures PadM2(data)[..|data|] == data
  {
    StrippedFindsPadding(PadM2(data), |data|);
  }
}
