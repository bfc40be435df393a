/**
 The OTA push server: one connection is a header, an optional token and an image,
 streamed into the spare partition; only a verified image switches the boot
 partition. The client's bytes and the answers of the flash driver are arbitrary.
 */
module Ota {
  import opened Basics
  import opened Bytes

  const CHUNK: nat := 1024
  const TOKEN_LEN: nat := 32
  const MAGIC_V1: seq<byte> := [0x4F, 0x54, 0x41, 0x31]  // "OTA1"
  const MAGIC_V2: seq<byte> := [0x4F, 0x54, 0x41, 0x32]  // "OTA2"

  type Token = t: seq<byte> | |t| == TOKEN_LEN witness Zeros(TOKEN_LEN)

  datatype Reason =
    | HeaderRead | NoPartition | BadSize | TooLarge | TokenRead | MissingToken | TokenMismatch | TokenRequired
    | BadMagic
    | BeginFailed | ImageRead | WriteFailed | ImageRejected | SetBootFailed

  datatype Verdict = Accept | Reject(reason: Reason)

  function ValidateSize(announced: nat, partitionSize: nat): (v: Verdict)
    ensures v.Accept? <==> 0 < announced <= partitionSize
  {
    if announced == 0 then Reject(BadSize)
    else if announced > partitionSize then Reject(TooLarge)
    else Accept
  }

  function Authorize(magic: seq<byte>, token: Option<Token>, expected: Option<Token>): (v: Verdict)
  {
    if magic == MAGIC_V2 then
      if expected.None? then Accept
      else if token.None? then Reject(MissingToken)
      else if token.value == expected.value then Accept
      else Reject(TokenMismatch)
    else if expected.Some? then Reject(TokenRequired)
    else if magic == MAGIC_V1 then Accept
    else Reject(BadMagic)
  }

  /** An armed build takes only OTA2 with its token; an unarmed build takes both header forms and nothing else. */
  lemma AuthorizeMatrix(magic: seq<byte>, token: Option<Token>, expected: Option<Token>)
    ensures Authorize(magic, token, expected).Accept? <==>
      if expected.Some? then magic == MAGIC_V2 && token == expected
      else magic == MAGIC_V1 || magic == MAGIC_V2
  {
  }

  function FromLe32(b: seq<byte>): (n: nat)
    requires |b| == 4
  {
    FromLe24(b[0], b[1], b[2]) + 16777216 * (b[3] as int)
  }

  datatype Event =
    | Begin(ok: bool)
    | Write(data: seq<byte>, ok: bool)
    | Abort
    | End(ok: bool)
    | SetBoot(ok: bool)

  /** A request with the driver's answer. */
  function Done(e: Event, ok: bool): (r: Event) {
    match e
    case Begin(_) => Begin(ok)
    case End(_) => End(ok)
    case SetBoot(_) => SetBoot(ok)
    case _ => e
  }

  function DataOf(e: Event): (data: seq<byte>) {
    if e.Write? && e.ok then e.data else []
  }

  /** The bytes the flash driver took, in order. */
  function Written(es: seq<Event>): (data: seq<byte>)
  {
    if es == [] then [] else Written(es[..|es| - 1]) + DataOf(es[|es| - 1])
  }

  function Opened(e: Event): (n: int) {
    if e == Begin(true) then 1 else if e.Abort? || e.End? then -1 else 0
  }

  /** Handles begun and not yet aborted or ended. */
  function OpenHandles(es: seq<Event>): (n: int)
  {
    if es == [] then 0 else OpenHandles(es[..|es| - 1]) + Opened(es[|es| - 1])
  }

  /** Nothing but small writes. */
  predicate Writes(es: seq<Event>) {
    forall i :: 0 <= i < |es| ==> es[i].Write? && 0 < |es[i].data| <= 1024
  }

  lemma {:induction false} WrittenConcat(a: seq<Event>, b: seq<Event>)
    ensures Written(a + b) == Written(a) + Written(b)
  {
    if b == [] {
      assert a + b == a;
    } else {
      var pre, e := b[..|b| - 1], b[|b| - 1];
      assert (a + b)[..|a + b| - 1] == a + pre;
      WrittenConcat(a, pre);
      Associates(Written(a), Written(pre), DataOf(e));
    }
  }

  lemma SliceJoins(s: seq<byte>, i: nat, j: nat, k: nat)
    requires i <= j <= k <= |s|
    ensures s[i..j] + s[j..k] == s[i..k]
  {
  }

  lemma ChunkAppended(stream: seq<byte>, start: nat, mid: nat, end: nat, ws: seq<Event>, w: Event)
    requires start <= mid <= end <= |stream|
    requires Written(ws) == stream[start..mid] && DataOf(w) == stream[mid..end]
    ensures Written(ws + [w]) == stream[start..end]
  {
    assert (ws + [w])[..|ws|] == ws;
    SliceJoins(stream, start, mid, end);
  }

  /** The writes so far are small and took the stream from `start` to `pos`. */
  predicate Streamed(stream: seq<byte>, start: nat, pos: nat, ws: seq<Event>) {
    start <= pos <= |stream| && Writes(ws) && Written(ws) == stream[start..pos]
  }

  lemma WritesConcat(a: seq<Event>, b: seq<Event>)
    requires Writes(a) && Writes(b)
    ensures Writes(a + b)
  {
  }

  lemma StreamedMore(stream: seq<byte>, start: nat, mid: nat, end: nat, ws: seq<Event>)
    requires Streamed(stream, start, mid, ws) && mid <= end <= |stream| && 0 < end - mid <= CHUNK
    ensures Streamed(stream, start, end, ws + [Write(stream[mid..end], true)])
  {
    var w := Write(stream[mid..end], true);
    ChunkAppended(stream, start, mid, end, ws, w);
    WritesConcat(ws, [w]);
  }

  lemma {:induction false} OpenHandlesConcat(a: seq<Event>, b: seq<Event>)
    ensures OpenHandles(a + b) == OpenHandles(a) + OpenHandles(b)
  {
    if b == [] {
      assert a + b == a;
    } else {
      OpenHandlesConcat(a, b[..|b| - 1]);
      assert (a + b)[..|a + b| - 1] == a + b[..|b| - 1];
    }
  }

  lemma {:induction false} WritesOpenNothing(ws: seq<Event>)
    requires Writes(ws)
    ensures OpenHandles(ws) == 0
  {
    if ws != [] {
      WritesOpenNothing(ws[..|ws| - 1]);
    }
  }

  datatype Outcome = Restarted | Failed(reason: Reason)

  /** The `size` bytes of the stream from `start` on, if it delivers them. */
  function Image(stream: seq<byte>, start: nat, size: nat): (data: seq<byte>) {
    if start + size <= |stream| then stream[start..start + size] else []
  }

  // What a connection asks for, read off its bytes alone.

  function HeaderLen(stream: seq<byte>): (n: nat)
  {
    if |stream| >= 4 && stream[..4] == MAGIC_V2 then 8 + TOKEN_LEN else 8
  }

  function Size(stream: seq<byte>): (n: nat)
    requires |stream| >= 8
  {
    FromLe32(stream[4..8])
  }

  /** The size gate passes. */
  predicate Fits(stream: seq<byte>, partition: Option<nat>) {
    |stream| >= 8 && partition.Some? && 0 < Size(stream) <= partition.value
  }

  /** The header is complete and authorised. */
  predicate Authorized(stream: seq<byte>, expected: Option<Token>) {
    && |stream| >= HeaderLen(stream)
    && Authorize(stream[..4], if stream[..4] == MAGIC_V2 then Some(stream[8..40]) else None, expected).Accept?
  }

  /** The image the header announces is delivered in full. */
  predicate Complete(stream: seq<byte>) {
    |stream| >= 8 && HeaderLen(stream) + Size(stream) <= |stream|
  }

  // Headers, built from their parts.

  /** A 32-bit size, least significant byte first. */
  function SizeBytes(size: nat): (b: seq<byte>)
    requires size < 0x1_0000_0000
  {
    [size % 256, size / 256 % 256, size / 256 / 256 % 256, size / 256 / 256 / 256]
  }

  lemma SizeReads(size: nat)
    requires size < 0x1_0000_0000
    ensures FromLe32(SizeBytes(size)) == size
  {
    var a := size / 256;
    var b := a / 256;
    assert size == 256 * a + size % 256 && a == 256 * b + a % 256 && b == 256 * (b / 256) + b % 256;
  }

  /** "OTA1" and a size, or "OTA2", a size and a token. */
  function Header(size: nat, token: Option<Token>): (h: seq<byte>)
    requires size < 0x1_0000_0000
  {
    if token.Some? then [0x4F, 0x54, 0x41, 0x32] + SizeBytes(size) + token.value
    else [0x4F, 0x54, 0x41, 0x31] + SizeBytes(size)
  }

  /** A header read back from whatever follows it: its size, its length, and what it is worth. */
  lemma HeaderReads(size: nat, token: Option<Token>, image: seq<byte>, partition: Option<nat>, expected: Option<Token>)
    requires size < 0x1_0000_0000
    ensures var stream := Header(size, token) + image;
      && |stream| >= 8 && Size(stream) == size && HeaderLen(stream) == (if token.Some? then 40 else 8)
      && (Fits(stream, partition) <==> partition.Some? && 0 < size <= partition.value)
      && (Authorized(stream, expected) <==> expected.None? || token == expected)
      && (Complete(stream) <==> size <= |image|)
  {
    var stream := Header(size, token) + image;
    assert stream[4..8] == SizeBytes(size);
    SizeReads(size);
    if token.Some? {
      assert stream[..4] == [0x4F, 0x54, 0x41, 0x32] && stream[8..40] == token.value;
    } else {
      assert stream[..4] == [0x4F, 0x54, 0x41, 0x31];
    }
  }

  /** How a handle's life can end: an abort, or an end that alone may switch the boot partition. */
  predicate Closing(tail: seq<Event>) {
    tail == [Abort] || tail == [End(false)] || tail == [End(true), SetBoot(false)] || tail == [End(true), SetBoot(true)]
  }

  /** The flash is left alone, refuses to begin, or sees one handle begun, written in small chunks and closed once. */
  ghost predicate Shape(es: seq<Event>) {
    es == [] || es == [Begin(false)]
    || exists ws, tail :: Writes(ws) && Closing(tail) && es == [Begin(true)] + ws + tail
  }

  lemma OfOne(e: Event)
    ensures OpenHandles([e]) == Opened(e) && Written([e]) == DataOf(e)
  {
    assert [e][..0] == [];
  }

  lemma ClosingCloses(tail: seq<Event>)
    requires Closing(tail)
    ensures OpenHandles(tail) == -1 && Written(tail) == []
  {
    OfOne(tail[0]);
    if |tail| == 2 {
      OfOne(tail[1]);
      assert tail == [tail[0]] + [tail[1]];
      WrittenConcat([tail[0]], [tail[1]]);
      OpenHandlesConcat([tail[0]], [tail[1]]);
    }
  }

  /** A life in that shape that closed its handle and, if it switched, did so after a good end of this image. */
  ghost predicate Ended(es: seq<Event>, image: seq<byte>, switched: bool) {
    && Shape(es) && OpenHandles(es) == 0 && es != []
    && (switched <==> es[|es| - 1] == SetBoot(true))
    && (switched ==> |es| >= 2 && es[|es| - 2] == End(true) && Written(es) == image)
  }

  lemma LifeWrites(ws: seq<Event>, tail: seq<Event>)
    requires Closing(tail)
    ensures Written([Begin(true)] + ws + tail) == Written(ws)
  {
    OfOne(Begin(true));
    ClosingCloses(tail);
    WrittenConcat([Begin(true)], ws);
    WrittenConcat([Begin(true)] + ws, tail);
  }

  lemma LifeHandles(ws: seq<Event>, tail: seq<Event>)
    requires Writes(ws) && Closing(tail)
    ensures OpenHandles([Begin(true)] + ws + tail) == 0
  {
    OfOne(Begin(true));
    ClosingCloses(tail);
    WritesOpenNothing(ws);
    OpenHandlesConcat([Begin(true)], ws);
    OpenHandlesConcat([Begin(true)] + ws, tail);
  }

  lemma LifeTail(front: seq<Event>, tail: seq<Event>)
    requires front != [] && Closing(tail)
    ensures var es, switched := front + tail, tail == [End(true), SetBoot(true)];
      && (switched <==> es[|es| - 1] == SetBoot(true)) && (switched ==> |es| >= 2 && es[|es| - 2] == End(true))
  {
    assert (front + tail)[|front + tail| - 1] == tail[|tail| - 1];
  }

  /** Every life in that shape closes its handle, writes what its chunks hold, and switches only after a good end. */
  lemma WholeLife(es: seq<Event>, ws: seq<Event>, tail: seq<Event>)
    requires Writes(ws) && Closing(tail) && es == [Begin(true)] + ws + tail
    ensures Ended(es, Written(ws), tail == [End(true), SetBoot(true)]) && Written(es) == Written(ws)
  {
    LifeWrites(ws, tail);
    LifeHandles(ws, tail);
    LifeTail([Begin(true)] + ws, tail);
  }

  /** Whatever image was announced, a life that ended like this is as it should be. */
  lemma LifeEnds(es: seq<Event>, ws: seq<Event>, tail: seq<Event>, image: seq<byte>, switched: bool)
    requires Writes(ws) && Closing(tail) && es == [Begin(true)] + ws + tail
    requires (switched <==> tail == [End(true), SetBoot(true)]) && (switched ==> Written(ws) == image)
    ensures Ended(es, image, switched)
  {
    WholeLife(es, ws, tail);
  }

  lemma NeverBegun(image: seq<byte>)
    ensures Ended([Begin(false)], image, false)
  {
    OfOne(Begin(false));
  }

  class Server {
    const stream: seq<byte>              // the bytes the client delivers before it stalls
    const flash: seq<Event> -> bool      // whether the driver's next call succeeds
    var pos: nat
    var trace: seq<Event>
    var switched: bool

    ghost predicate Valid()
      reads this
    {
      pos <= |stream|
    }

    ghost predicate NeverFails() {
      forall es :: flash(es)
    }

    constructor (stream: seq<byte>, flash: seq<Event> -> bool)
      ensures Valid() && pos == 0 && trace == [] && !switched && this.stream == stream && this.flash == flash
    {
      this.stream, this.flash := stream, flash;
      pos, trace, switched := 0, [], false;
    }

    /** Fills `buf[..n]` from the stream, or fails having consumed what there was. */
    method ReadExact(buf: array<byte>, n: nat) returns (ok: bool)
      requires Valid() && n <= buf.Length
      modifies this`pos, buf
      ensures Valid()
      ensures ok <==> old(pos) + n <= |stream|
      ensures ok ==> pos == old(pos) + n && buf[..n] == stream[old(pos)..pos]
      ensures !ok ==> pos == |stream|
    {
      if pos + n > |stream| {
        pos := |stream|;
        return false;
      }
      forall i | 0 <= i < n {
        buf[i] := stream[pos + i];
      }
      pos := pos + n;
      return true;
    }

    /** Reads one chunk through the buffer and hands it to the flash driver. */
    method CopyChunk(buf: array<byte>, want: nat) returns (r: Verdict, ghost ws: seq<Event>)
      requires Valid() && 0 < want <= CHUNK && buf.Length == CHUNK
      modifies this`pos, this`trace, buf
      ensures Valid() && trace == old(trace) + ws && Writes(ws)
      ensures r.Accept? ==> pos == old(pos) + want && ws == [Write(stream[old(pos)..pos], true)]
      ensures NeverFails() && old(pos) + want <= |stream| ==> r.Accept?
    {
      var ok := ReadExact(buf, want);
      if !ok {
        return Reject(ImageRead), [];
      }
      var written := flash(trace);
      ws := [Write(buf[..want], written)];
      trace := trace + [Write(buf[..want], written)];
      return if written then Accept else Reject(WriteFailed), ws;
    }

    /** Streams the announced number of bytes into the partition, a chunk at a time through one buffer. */
    method StreamImage(size: nat) returns (r: Verdict, ghost ws: seq<Event>)
      requires Valid()
      modifies this`pos, this`trace
      ensures Valid() && trace == old(trace) + ws && Writes(ws)
      ensures r.Accept? ==> pos == old(pos) + size && Written(ws) == stream[old(pos)..pos]
      ensures NeverFails() && old(pos) + size <= |stream| ==> r.Accept?
    {
      var buf := new byte[CHUNK];
      var remaining := size;
      ws := [];
      while remaining > 0
        invariant Valid() && trace == old(trace) + ws && Streamed(stream, old(pos), pos, ws)
        invariant 0 <= remaining <= size && pos == old(pos) + size - remaining
      {
        var want := if remaining < CHUNK then remaining else CHUNK;
        ghost var before := pos;
        ghost var w;
        r, w := CopyChunk(buf, want);
        Associates(old(trace), ws, w);
        if r.Reject? {
          WritesConcat(ws, w);
          return r, ws + w;
        }
        StreamedMore(stream, old(pos), before, pos, ws);
        ws := ws + w;
        remaining := remaining - want;
      }
      r := Accept;
    }

    /** Reads the header and runs the gates; `Accept` leaves the stream at the first image byte. */
    method ReadHeader(partition: Option<nat>, expected: Option<Token>) returns (r: Verdict, size: nat)
      requires Valid() && pos == 0
      modifies this`pos
      ensures Valid()
      ensures r.Accept? <==> Fits(stream, partition) && Authorized(stream, expected)
      ensures r.Accept? ==> size == Size(stream) && pos == HeaderLen(stream)
      ensures pos <= HeaderLen(stream)
    {
      size := 0;
      var header := new byte[8];
      var ok := ReadExact(header, 8);
      if !ok {
        return Reject(HeaderRead), 0;
      }
      assert header[..8] == stream[..8];
      var magic := header[..4];
      assert magic == stream[..4] && header[4..8] == stream[4..8];
      size := FromLe32(header[4..8]);
      if partition.None? {
        return Reject(NoPartition), size;
      }
      r := ValidateSize(size, partition.value);
      if r.Reject? {
        return;
      }
      if magic == MAGIC_V2 {
        var token := new byte[TOKEN_LEN];
        ok := ReadExact(token, TOKEN_LEN);
        if !ok {
          return Reject(TokenRead), size;
        }
        assert token[..TOKEN_LEN] == stream[8..40];
        r := Authorize(magic, Some(token[..TOKEN_LEN]), expected);
      } else {
        r := Authorize(magic, None, expected);
      }
    }

    /** Asks the flash driver for something other than a write. */
    method Ask(e: Event) returns (ok: bool)
      requires !e.Write?
      modifies this`trace
      ensures ok == flash(old(trace))
      ensures trace == old(trace) + [Done(e, ok)]
    {
      ok := flash(trace);
      trace := trace + [Done(e, ok)];
    }

    /** Ends the handle and, only if the image verifies, switches the boot partition. */
    method Commit() returns (r: Outcome, ghost tail: seq<Event>)
      requires !switched
      modifies this`trace, this`switched
      ensures trace == old(trace) + tail && Closing(tail)
      ensures r.Restarted? <==> switched
      ensures switched <==> tail == [End(true), SetBoot(true)]
      ensures tail != [Abort]
      ensures NeverFails() ==> switched
    {
      var ok := Ask(End(true));
      if !ok {
        return Failed(ImageRejected), [End(false)];
      }
      ok := Ask(SetBoot(true));
      tail := [End(true), SetBoot(ok)];
      if !ok {
        return Failed(SetBootFailed), tail;
      }
      switched := true;
      return Restarted, tail;
    }

    /** Everything after the gates: begin, stream, and then abort or commit. */
    method FlashImage(size: nat) returns (r: Outcome)
      requires Valid() && trace == [] && !switched
      modifies this
      ensures r.Restarted? <==> switched
      ensures Ended(trace, Image(stream, old(pos), size), switched)
      ensures switched ==> old(pos) + size <= |stream|
      ensures NeverFails() && old(pos) + size <= |stream| ==> switched
    {
      ghost var image := Image(stream, pos, size);
      var ok := Ask(Begin(true));
      if !ok {
        NeverBegun(image);
        return Failed(BeginFailed);
      }
      var v, ws := StreamImage(size);
      if v.Reject? {
        var _ := Ask(Abort);
        LifeEnds(trace, ws, [Abort], image, false);
        return Failed(v.reason);
      }
      ghost var tail;
      r, tail := Commit();
      LifeEnds(trace, ws, tail, image, switched);
    }

    /** One connection. Success ends in a restart, so the only returns are failures. */
    method Handle(partition: Option<nat>, expected: Option<Token>) returns (r: Outcome)
      requires Valid() && pos == 0 && trace == [] && !switched
      modifies this
      ensures r.Restarted? <==> switched
      ensures switched <==> trace != [] && trace[|trace| - 1] == SetBoot(true)
      // What a switch takes.
      ensures switched ==> Fits(stream, partition) && Authorized(stream, expected) && Complete(stream)
      ensures switched ==> Written(trace) == stream[HeaderLen(stream)..HeaderLen(stream) + Size(stream)]
      ensures switched ==> |trace| >= 2 && trace[|trace| - 2] == End(true)
      // Nothing is read past the header and nothing is asked of the flash before authorisation.
      ensures pos > HeaderLen(stream) || trace != [] ==> Fits(stream, partition) && Authorized(stream, expected)
      // Every begun handle is closed once, by an abort or an end; chunks are small.
      ensures Shape(trace) && OpenHandles(trace) == 0
      // With a driver that never fails, exactly the authorised, fitting, complete pushes switch.
      ensures NeverFails() ==>
        (switched <==> Fits(stream, partition) && Authorized(stream, expected) && Complete(stream))
    {
      var v, size := ReadHeader(partition, expected);
      if v.Reject? {
        return Failed(v.reason);
      }
      r := FlashImage(size);
    }
  }
}
