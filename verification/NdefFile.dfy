/**
 The NDEF file of the card: native writes that zero-fill the gap they leave,
 ISO updates that replace the whole file, and the two ways of reading it.
 */
module NdefFile {
  import opened Basics
  import opened Bytes

  /** Grows the file with zeros up to `offset + |data|` when it is shorter, then overwrites. */
  function Write(ndef: seq<byte>, offset: nat, data: seq<byte>): (r: seq<byte>)
    ensures |r| == Max(|ndef|, offset + |data|)
    ensures forall i :: 0 <= i < |r| ==>
      r[i] == if offset <= i < offset + |data| then data[i - offset] else if i < |ndef| then ndef[i] else 0
  {
    var end := offset + |data|;
    var grown := if |ndef| < end then ndef + Zeros(end - |ndef|) else ndef;
    grown[..offset] + data + grown[end..]
  }

  /** `None` is the slice-bounds panic of an offset past the end. A length of 0 asks for the rest. */
  function NativeRead(ndef: seq<byte>, offset: nat, length: nat): (r: Option<seq<byte>>)
  {
    var end := if length == 0 || |ndef| < offset + length then |ndef| else offset + length;
    if offset <= end then Some(ndef[offset..end]) else None
  }

  /** An offset past the end reads nothing. */
  function IsoRead(ndef: seq<byte>, offset: nat, want: nat): (r: seq<byte>)
  {
    var available := if offset <= |ndef| then |ndef| - offset else 0;
    var take := if want < available then want else available;
    if take > 0 then ndef[offset..offset + take] else []
  }

  datatype Update = Native(offset: nat, data: seq<byte>) | Iso(data: seq<byte>)

  function Apply(ndef: seq<byte>, u: Update): (r: seq<byte>) {
    match u
    case Native(offset, data) => Write(ndef, offset, data)
    case Iso(data) => data
  }

  function After(ndef: seq<byte>, us: seq<Update>): (r: seq<byte>)
  {
    if us == [] then ndef else Apply(After(ndef, us[..|us| - 1]), us[|us| - 1])
  }

  lemma {:induction false} AfterFirst(ndef: seq<byte>, u: Update, us: seq<Update>)
    ensures After(ndef, [u] + us) == After(Apply(ndef, u), us)
  {
    if us != [] {
      AfterFirst(ndef, u, us[..|us| - 1]);
      assert ([u] + us)[..|us|] == [u] + us[..|us| - 1];
    }
  }

  // The reference: an unstructured history of updates, asked one byte at a time.

  /** The file size: the furthest native write since the last replacement, if that is further. */
  function SizeAfter(size: nat, us: seq<Update>): (n: nat)
  {
    if us == [] then size
    else
      match us[|us| - 1]
      case Native(offset, data) => Max(SizeAfter(size, us[..|us| - 1]), offset + |data|)
      case Iso(data) => |data|
  }

  /** Byte `i`: what the newest update covering it wrote, zero where none did. */
  function ByteAfter(ndef: seq<byte>, us: seq<Update>, i: nat): (b: byte)
  {
    if us == [] then (if i < |ndef| then ndef[i] else 0)
    else
      match us[|us| - 1]
      case Native(offset, data) =>
        if offset <= i < offset + |data| then data[i - offset] else ByteAfter(ndef, us[..|us| - 1], i)
      case Iso(data) => if i < |data| then data[i] else 0
  }

  lemma {:induction false} UpdatesMatchHistory(ndef: seq<byte>, us: seq<Update>)
    ensures |After(ndef, us)| == SizeAfter(|ndef|, us)
    ensures forall i :: 0 <= i < |After(ndef, us)| ==> After(ndef, us)[i] == ByteAfter(ndef, us, i)
    ensures forall i :: |After(ndef, us)| <= i ==> ByteAfter(ndef, us, i) == 0
  {
    if us != [] {
      UpdatesMatchHistory(ndef, us[..|us| - 1]);
    }
  }

  /** After any updates, both read paths return exactly the bytes of the history. */
  lemma ReadsMatchHistory(ndef: seq<byte>, us: seq<Update>, offset: nat, length: nat)
    requires length > 0 && offset + length <= SizeAfter(|ndef|, us)
    ensures NativeRead(After(ndef, us), offset, length)
         == Some(seq(length, k requires 0 <= k < length => ByteAfter(ndef, us, offset + k)))
    ensures Some(IsoRead(After(ndef, us), offset, length)) == NativeRead(After(ndef, us), offset, length)
  {
    UpdatesMatchHistory(ndef, us);
    var file := After(ndef, us);
    assert file[offset..offset + length] == seq(length, k requires 0 <= k < length => ByteAfter(ndef, us, offset + k));
  }

  /** On any request the two read paths agree exactly while the offset is not past the end. */
  lemma ReadPathsAgree(ndef: seq<byte>, offset: nat, length: nat)
    requires length > 0
    ensures NativeRead(ndef, offset, length) == Some(IsoRead(ndef, offset, length)) <==> offset <= |ndef|
  {
    assert offset == |ndef| ==> ndef[offset..offset] == [];
  }

  /** The empty file, read at offset 1: one path panics and the other answers with nothing. */
  lemma ReadPastEnd()
    ensures NativeRead([], 1, 1) == None && IsoRead([], 1, 1) == []
  {
  }
}
