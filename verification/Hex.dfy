/** Hexadecimal text of bytes. Text is a sequence of UTF-8 bytes. */
module Hex {
  import opened Bytes

  datatype HexError = InvalidLength | InvalidHexCharacter

  datatype Result<T> = Ok(value: T) | Err(error: HexError)

  function Nibble(c: byte): (n: Option<byte>)
    ensures n.Some? ==> n.value < 16
  {
    if 48 <= c <= 57 then Some(c - 48)
    else if 97 <= c <= 102 then Some(c - 97 + 10)
    else if 65 <= c <= 70 then Some(c - 65 + 10)
    else None
  }

  /** The digits in both cases, one by one, and nothing else is a digit. */
  lemma DigitTable(c: byte, n: nat)
    requires n < 16
    ensures Nibble(c) == Some(n) <==>
      || c == [0x30, 0x31, 0x32, 0x33, 0x34, 0x35, 0x36, 0x37, 0x38, 0x39, 0x61, 0x62, 0x63, 0x64, 0x65, 0x66][n]
      || c == [0x30, 0x31, 0x32, 0x33, 0x34, 0x35, 0x36, 0x37, 0x38, 0x39, 0x41, 0x42, 0x43, 0x44, 0x45, 0x46][n]
  {
  }

  function LowerDigit(n: nat): (c: byte)
    requires n < 16
    ensures Nibble(c) == Some(n)
  {
    if n < 10 then 48 + n else 87 + n
  }

  predicate AllHex(text: seq<byte>) {
    forall i :: 0 <= i < |text| ==> Nibble(text[i]).Some?
  }

  /** The bytes a text of hex digits spells, two digits to a byte. */
  function Decoded(text: seq<byte>): (b: seq<byte>)
    requires AllHex(text) && |text| % 2 == 0
    ensures |b| == |text| / 2
    ensures forall i :: 0 <= i < |b| ==> b[i] == 16 * Nibble(text[2 * i]).value + Nibble(text[2 * i + 1]).value
  {
    seq(|text| / 2, i requires 0 <= i < |text| / 2 => 16 * Nibble(text[2 * i]).value + Nibble(text[2 * i + 1]).value)
  }

  function Decode(text: seq<byte>, n: nat): (r: Result<seq<byte>>)
  {
    if |text| != 2 * n then Err(InvalidLength)
    else if AllHex(text) then Ok(Decoded(text))
    else Err(InvalidHexCharacter)
  }

  /** Decodes into a buffer of the caller's; a bad digit stops it with the bytes before it already stored. */
  method DecodeInto(text: seq<byte>, out: array<byte>) returns (r: Result<()>)
    modifies out
    ensures r.Ok? <==> Decode(text, out.Length).Ok?
    ensures r.Ok? ==> out[..] == Decode(text, out.Length).value
    ensures r.Err? ==> Decode(text, out.Length) == Err(r.error)
  {
    if |text| != out.Length * 2 {
      return Err(InvalidLength);
    }
    for i := 0 to out.Length
      invariant forall k :: 0 <= k < 2 * i ==> Nibble(text[k]).Some?
      invariant forall k :: 0 <= k < i ==> out[k] == 16 * Nibble(text[2 * k]).value + Nibble(text[2 * k + 1]).value
    {
      var hi, lo := Nibble(text[2 * i]), Nibble(text[2 * i + 1]);
      if hi.None? || lo.None? {
        return Err(InvalidHexCharacter);
      }
      out[i] := 16 * hi.value + lo.value;
    }
    return Ok(());
  }

  function Pair(b: byte): (text: seq<byte>)
    ensures |text| == 2
  {
    [LowerDigit(b / 16), LowerDigit(b % 16)]
  }

  function Encode(data: seq<byte>): (text: seq<byte>)
    ensures |text| == 2 * |data|
  {
    if data == [] then [] else Encode(data[..|data| - 1]) + Pair(data[|data| - 1])
  }

  method StorePair(out: array<byte>, at: nat, pair: seq<byte>)
    requires at + 2 <= out.Length && |pair| == 2
    modifies out
    ensures out[..] == old(out[..])[..at] + pair + old(out[..])[at + 2..]
  {
    out[at] := pair[0];
    out[at + 1] := pair[1];
  }

  lemma PairAppended(text: seq<byte>, was: seq<byte>, pair: seq<byte>)
    requires |text| + 2 <= |was| && |pair| == 2
    ensures var now := text + was[|text|..];
      now[..|text|] + pair + now[|text| + 2..] == (text + pair) + was[|text| + 2..]
  {
  }

  lemma EncodeExtend(data: seq<byte>, i: nat)
    requires i < |data|
    ensures Encode(data[..i + 1]) == Encode(data[..i]) + Pair(data[i])
  {
    assert data[..i + 1][..i] == data[..i];
  }

  lemma FrontAndRest(text: seq<byte>, rest: seq<byte>)
    ensures (text + rest)[..|text|] == text && (text + rest)[|text|..] == rest
  {
  }

  /** Encodes as much as fits and says how many characters that is. */
  method EncodeInto(input: seq<byte>, out: array<byte>) returns (n: nat)
    modifies out
    ensures var max := if |input| < out.Length / 2 then |input| else out.Length / 2;
      n == 2 * max && out[..n] == Encode(input[..max]) && out[n..] == old(out[n..])
  {
    var max := if |input| < out.Length / 2 then |input| else out.Length / 2;
    ghost var was := out[..];
    n := 0;
    for i := 0 to max
      invariant n == 2 * i && out[..] == Encode(input[..i]) + was[n..]
    {
      EncodeExtend(input, i);
      PairAppended(Encode(input[..i]), was, Pair(input[i]));
      StorePair(out, n, Pair(input[i]));
      n := n + 2;
    }
    FrontAndRest(Encode(input[..max]), was[n..]);
    assert out[..n] == out[..][..n] && out[n..] == out[..][n..] && was[n..] == old(out[n..]);
  }

  /** `text` spells `data`, in any mixture of cases. */
  predicate Spells(text: seq<byte>, data: seq<byte>) {
    |text| == 2 * |data| && forall i :: 0 <= i < |data| ==> SpellsAt(text, data, i)
  }

  predicate SpellsAt(text: seq<byte>, data: seq<byte>, i: nat)
    requires |text| == 2 * |data| && i < |data|
  {
    Nibble(text[2 * i]) == Some(data[i] / 16) && Nibble(text[2 * i + 1]) == Some(data[i] % 16)
  }

  lemma SpelledIsHex(text: seq<byte>, data: seq<byte>)
    requires Spells(text, data)
    ensures AllHex(text)
  {
    forall k | 0 <= k < |text|
      ensures Nibble(text[k]).Some?
    {
      var j := k / 2;
      assert SpellsAt(text, data, j);
      assert k == 2 * j || k == 2 * j + 1;
    }
  }

  lemma SpelledDecodes(text: seq<byte>, data: seq<byte>)
    requires Spells(text, data)
    ensures AllHex(text) && Decoded(text) == data
  {
    SpelledIsHex(text, data);
    forall i | 0 <= i < |data|
      ensures Decoded(text)[i] == data[i]
    {
      assert SpellsAt(text, data, i);
    }
  }

  lemma DecodedIsSpelled(text: seq<byte>)
    requires AllHex(text) && |text| % 2 == 0
    ensures Spells(text, Decoded(text))
  {
    forall i | 0 <= i < |Decoded(text)|
      ensures SpellsAt(text, Decoded(text), i)
    {
      NibblesOf(Nibble(text[2 * i]).value, Nibble(text[2 * i + 1]).value);
    }
  }

  lemma NibblesOf(hi: nat, lo: nat)
    requires lo < 16
    ensures (16 * hi + lo) / 16 == hi && (16 * hi + lo) % 16 == lo
  {
  }

  /** A text decodes to exactly the bytes it spells. */
  lemma DecodeSpells(text: seq<byte>, data: seq<byte>)
    ensures Decode(text, |data|) == Ok(data) <==> Spells(text, data)
  {
    if Spells(text, data) {
      SpelledDecodes(text, data);
    } else if |text| == 2 * |data| && AllHex(text) {
      DecodedIsSpelled(text);
    }
  }

  lemma PairSpells(b: byte)
    ensures Spells(Pair(b), [b])
  {
  }

  lemma SpellsConcat(text: seq<byte>, data: seq<byte>, more: seq<byte>, b: byte)
    requires Spells(text, data) && Spells(more, [b])
    ensures Spells(text + more, data + [b])
  {
    forall i | 0 <= i < |data + [b]|
      ensures SpellsAt(text + more, data + [b], i)
    {
      if i == |data| {
        assert SpellsAt(more, [b], 0);
      } else {
        assert SpellsAt(text, data, i);
      }
    }
  }

  lemma {:induction false} EncodeSpells(data: seq<byte>)
    ensures Spells(Encode(data), data)
  {
    if data != [] {
      var n := |data| - 1;
      EncodeSpells(data[..n]);
      PairSpells(data[n]);
      SpellsConcat(Encode(data[..n]), data[..n], Pair(data[n]), data[n]);
      assert data == data[..n] + [data[n]];
    }
  }

  lemma DecodeUndoesEncode(data: seq<byte>)
    ensures Decode(Encode(data), |data|) == Ok(data)
  {
    EncodeSpells(data);
    DecodeSpells(Encode(data), data);
  }
}
