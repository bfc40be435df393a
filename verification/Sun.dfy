/**
 The SUN message of a tapped card: the p= and c= parameters of its URL, the encrypted
 PICC data and the truncated MAC (session vector SV2 of section 4.3 of AN12196).
 A URL is the sequence of its UTF-8 bytes; separators and parameter names are ASCII.
 */
module Sun {
  import opened Basics
  import opened Bytes
  import Cbc
  import Hex
  import CardSpec

  const P_NAME: seq<byte> := [0x70, 0x3D]  // "p="
  const C_NAME: seq<byte> := [0x63, 0x3D]  // "c="
  const TAG_UID: byte := 0xC7
  const TAG_NO_UID: byte := 0x40
  const SV2_HEADER: seq<byte> := [0x3C, 0xC3, 0x00, 0x01, 0x00, 0x80]

  type Uid = u: seq<byte> | |u| == 7 witness Zeros(7)

  predicate Separator(b: byte) {
    b == 0x3F || b == 0x26 || b == 0x23  // '?', '&', '#'
  }

  // Extraction.

  /** The segments a separator ended, and the segment still open. */
  datatype Split = Split(closed: seq<seq<byte>>, open: seq<byte>)

  function SplitUrl(url: seq<byte>): (s: Split)
  {
    if url == [] then Split([], [])
    else
      var s, b := SplitUrl(url[..|url| - 1]), url[|url| - 1];
      if Separator(b) then Split(s.closed + [s.open], []) else s.(open := s.open + [b])
  }

  function Segments(url: seq<byte>): (segs: seq<seq<byte>>) {
    SplitUrl(url).closed + [SplitUrl(url).open]
  }

  predicate Named(seg: seq<byte>, name: seq<byte>) {
    |seg| >= |name| && seg[..|name|] == name
  }

  /** The value of the last segment with that name. */
  function LastValue(segs: seq<seq<byte>>, name: seq<byte>): (v: Option<seq<byte>>)
  {
    if segs == [] then None
    else
      var last := segs[|segs| - 1];
      if Named(last, name) then Some(last[|name|..]) else LastValue(segs[..|segs| - 1], name)
  }

  function Extracted(url: seq<byte>): (r: Option<(seq<byte>, seq<byte>)>) {
    var p, c := LastValue(Segments(url), P_NAME), LastValue(Segments(url), C_NAME);
    if p.Some? && c.Some? then Some((p.value, c.value)) else None
  }

  method ParseParam(segment: seq<byte>, p: Option<seq<byte>>, c: Option<seq<byte>>)
    returns (p': Option<seq<byte>>, c': Option<seq<byte>>)
    ensures p' == if Named(segment, P_NAME) then Some(segment[2..]) else p
    ensures c' == if Named(segment, C_NAME) then Some(segment[2..]) else c
  {
    p', c' := p, c;
    if |segment| >= 2 && segment[..2] == P_NAME {
      p' := Some(segment[2..]);
    } else if |segment| >= 2 && segment[..2] == C_NAME {
      c' := Some(segment[2..]);
    }
  }

  lemma LastValueExtend(segs: seq<seq<byte>>, seg: seq<byte>, name: seq<byte>)
    ensures LastValue(segs + [seg], name) == if Named(seg, name) then Some(seg[|name|..]) else LastValue(segs, name)
  {
    assert (segs + [seg])[..|segs|] == segs;
  }

  /** What the pass knows after `i` bytes: the segment still open, and the parameters of the closed ones. */
  predicate Scanned(url: seq<byte>, i: nat, start: nat, p: Option<seq<byte>>, c: Option<seq<byte>>) {
    && start <= i <= |url|
    && (var s := SplitUrl(url[..i]);
        && url[start..i] == s.open
        && p == LastValue(s.closed, P_NAME) && c == LastValue(s.closed, C_NAME))
  }

  lemma ScanLetter(url: seq<byte>, i: nat, start: nat, p: Option<seq<byte>>, c: Option<seq<byte>>)
    requires Scanned(url, i, start, p, c) && i < |url| && !Separator(url[i])
    ensures Scanned(url, i + 1, start, p, c)
  {
    assert url[..i + 1][..i] == url[..i];
    assert url[start..i + 1] == url[start..i] + [url[i]];
  }

  lemma ScanSeparator(url: seq<byte>, i: nat, start: nat, p: Option<seq<byte>>, c: Option<seq<byte>>)
    requires Scanned(url, i, start, p, c) && i < |url| && Separator(url[i])
    ensures Scanned(url, i + 1, i + 1, LastValue(Segments(url[..i]), P_NAME), LastValue(Segments(url[..i]), C_NAME))
  {
    assert url[..i + 1][..i] == url[..i];
  }

  /** The open segment read like a closed one gives the parameters of all segments. */
  lemma OpenSegmentRead(url: seq<byte>, i: nat, start: nat, p: Option<seq<byte>>, c: Option<seq<byte>>)
    requires Scanned(url, i, start, p, c)
    ensures var seg := url[start..i];
      && LastValue(Segments(url[..i]), P_NAME) == (if Named(seg, P_NAME) then Some(seg[2..]) else p)
      && LastValue(Segments(url[..i]), C_NAME) == (if Named(seg, C_NAME) then Some(seg[2..]) else c)
  {
    var s := SplitUrl(url[..i]);
    LastValueExtend(s.closed, s.open, P_NAME);
    LastValueExtend(s.closed, s.open, C_NAME);
  }

  /** One pass over the URL finds the last p= and the last c= segment. */
  method ExtractPAndC(url: seq<byte>) returns (r: Option<(seq<byte>, seq<byte>)>)
    ensures r == Extracted(url)
  {
    var p, c := None, None;
    var start := 0;
    for i := 0 to |url|
      invariant Scanned(url, i, start, p, c)
    {
      if Separator(url[i]) {
        OpenSegmentRead(url, i, start, p, c);
        ScanSeparator(url, i, start, p, c);
        p, c := ParseParam(url[start..i], p, c);
        start := i + 1;
      } else {
        ScanLetter(url, i, start, p, c);
      }
    }
    assert url[..|url|] == url && url[start..] == url[start..|url|];
    OpenSegmentRead(url, |url|, start, p, c);
    p, c := ParseParam(url[start..], p, c);
    if p.Some? && c.Some? {
      return Some((p.value, c.value));
    }
    return None;
  }

  // Decryption and verification.

  datatype Picc = Picc(valid: bool, uid: Option<Uid>, counter: nat, hasCounter: bool)

  const INVALID: Picc := Picc(false, None, 0, false)

  /** The fields of decrypted PICC data, by its tag. */
  function PiccOf(b: Block): (p: Option<Picc>) {
    if b[0] == TAG_UID then Some(Picc(false, Some(b[1..8]), FromLe24(b[8], b[9], b[10]), true))
    else if b[0] == TAG_NO_UID then Some(Picc(false, None, FromLe24(b[1], b[2], b[3]), true))
    else None
  }

  function DecryptP(x: Suite, k1: Block, p: seq<byte>): (r: Option<Picc>) {
    var raw := Hex.Decode(p, 16);
    if raw.Err? || |raw.value| != 16 then None else PiccOf(Cbc.Decrypt(x, k1, ZERO_BLOCK, raw.value))
  }

  method PiccDecryptP(x: Suite, k1: Block, p: seq<byte>) returns (r: Option<Picc>)
    ensures r == DecryptP(x, k1, p)
  {
    if |p| != 32 {
      return None;
    }
    var buf := new byte[16];
    var decoded := Hex.DecodeInto(p, buf);
    if decoded.Err? {
      return None;
    }
    Cbc.DecryptInPlace(x, k1, ZERO_BLOCK, buf);
    var b: Block := buf[..];
    assert DecryptP(x, k1, p) == PiccOf(b);
    if b[0] == TAG_UID {
      return Some(Picc(false, Some(b[1..8]), FromLe24(b[8], b[9], b[10]), true));
    } else if b[0] == TAG_NO_UID {
      return Some(Picc(false, None, FromLe24(b[1], b[2], b[3]), true));
    }
    return None;
  }

  /** The low three bytes of a 32-bit counter, least significant first. */
  function CounterBytes(counter: nat): (r: seq<byte>)
    ensures |r| == 3
  {
    [counter % 256, counter / 256 % 256, counter / 256 / 256 % 256]
  }

  function Sv2(uid: Uid, counter: nat): (sv: Block) {
    SV2_HEADER + uid + CounterBytes(counter)
  }

  function Sv2NoUid(counter: nat): (sv: Block) {
    SV2_HEADER + CounterBytes(counter) + Zeros(7)
  }

  function SunMac(x: Suite, k2: Block, uid: Option<Uid>, counter: nat): (mac: seq<byte>)
    ensures |mac| == 8
  {
    var sv := if uid.Some? then Sv2(uid.value, counter) else Sv2NoUid(counter);
    CardSpec.TruncateMac(x.cmac(x.cmac(k2, sv), []))
  }

  /** The text spells the card's MAC. */
  predicate VerifyC(x: Suite, k2: Block, picc: Picc, c: seq<byte>) {
    picc.hasCounter && Hex.Decode(c, 8) == Hex.Ok(SunMac(x, k2, picc.uid, picc.counter))
  }

  /** A session vector, by position: the header, then the UID if there is one, then the counter, then zeros. */
  predicate IsSv2(sv: seq<byte>, uid: Option<Uid>, counter: nat) {
    && |sv| == 16
    && sv[0] == 0x3C && sv[1] == 0xC3 && sv[2] == 0x00 && sv[3] == 0x01 && sv[4] == 0x00 && sv[5] == 0x80
    && (if uid.Some?
        then && (forall i :: 6 <= i < 13 ==> sv[i] == uid.value[i - 6])
             && sv[13] == counter % 256 && sv[14] == counter / 256 % 256 && sv[15] == counter / 256 / 256 % 256
        else && sv[6] == counter % 256 && sv[7] == counter / 256 % 256 && sv[8] == counter / 256 / 256 % 256
             && forall i :: 9 <= i < 16 ==> sv[i] == 0)
  }

  /** The truncated MAC of nothing under the key derived from the vector, by position. */
  predicate IsSunMac(mac: seq<byte>, x: Suite, k2: Block, sv: seq<byte>) {
    |mac| == 8 && forall i :: 0 <= i < 8 ==> mac[i] == x.cmac(x.cmac(k2, sv), [])[2 * i + 1]
  }

  lemma Sv2Bytes(sv: seq<byte>, uid: Option<Uid>, counter: nat)
    requires IsSv2(sv, uid, counter)
    ensures sv == if uid.Some? then Sv2(uid.value, counter) else Sv2NoUid(counter)
  {
    var v := if uid.Some? then Sv2(uid.value, counter) else Sv2NoUid(counter);
    forall i | 0 <= i < 16
      ensures sv[i] == v[i]
    {
    }
  }

  lemma SunMacBytes(x: Suite, k2: Block, uid: Option<Uid>, counter: nat, sv: seq<byte>, mac: seq<byte>)
    requires IsSv2(sv, uid, counter)
    ensures mac == SunMac(x, k2, uid, counter) <==> IsSunMac(mac, x, k2, sv)
  {
    Sv2Bytes(sv, uid, counter);
    var m := SunMac(x, k2, uid, counter);
    if IsSunMac(mac, x, k2, sv) {
      forall i | 0 <= i < 8
        ensures mac[i] == m[i]
      {
      }
    }
  }

  /** The check accepts exactly the hex text of that MAC. */
  lemma VerifyExactly(x: Suite, k2: Block, picc: Picc, c: seq<byte>, sv: seq<byte>, mac: seq<byte>)
    requires IsSv2(sv, picc.uid, picc.counter) && IsSunMac(mac, x, k2, sv)
    ensures VerifyC(x, k2, picc, c) <==> picc.hasCounter && Hex.Spells(c, mac)
  {
    SunMacBytes(x, k2, picc.uid, picc.counter, sv, mac);
    Hex.DecodeSpells(c, mac);
  }

  method BuildSv2(uid: Option<Uid>, counter: nat) returns (sv: seq<byte>)
    ensures IsSv2(sv, uid, counter)
  {
    var buf := new byte[16](_ => 0);
    var low := [counter % 256, counter / 256 % 256, counter / 256 / 256 % 256];
    CopyInto(buf, 0, [0x3C, 0xC3, 0x00, 0x01, 0x00, 0x80]);
    if uid.Some? {
      CopyInto(buf, 6, uid.value);
      CopyInto(buf, 13, low);
    } else {
      CopyInto(buf, 6, low);
    }
    return buf[..];
  }

  method PiccVerifyC(x: Suite, k2: Block, picc: Picc, c: seq<byte>) returns (ok: bool)
    ensures ok <==> VerifyC(x, k2, picc, c)
  {
    if !picc.hasCounter || |c| != 16 {
      return false;
    }
    var expected := new byte[8];
    var decoded := Hex.DecodeInto(c, expected);
    if decoded.Err? {
      return false;
    }
    var sv := BuildSv2(picc.uid, picc.counter);
    var derived := x.cmac(k2, sv);
    var full := x.cmac(derived, []);
    var computed := new byte[8](i requires 0 <= i < 8 => full[2 * i + 1]);
    SunMacBytes(x, k2, picc.uid, picc.counter, sv, computed[..]);
    ok := ConstantTimeEq(computed[..], expected[..]);
  }

  function ParseUrl(x: Suite, k1: Block, k2: Block, url: seq<byte>): (r: Picc) {
    var pc := Extracted(url);
    if pc.None? then INVALID
    else
      var picc := DecryptP(x, k1, pc.value.0);
      if picc.None? || !VerifyC(x, k2, picc.value, pc.value.1) then INVALID
      else picc.value.(valid := true)
  }

  method PiccParseUrl(x: Suite, k1: Block, k2: Block, url: seq<byte>) returns (r: Picc)
    ensures r == ParseUrl(x, k1, k2, url)
  {
    var pc := ExtractPAndC(url);
    if pc.None? {
      return INVALID;
    }
    var picc := PiccDecryptP(x, k1, pc.value.0);
    if picc.None? {
      return INVALID;
    }
    var ok := PiccVerifyC(x, k2, picc.value, pc.value.1);
    return if ok then picc.value.(valid := true) else INVALID;
  }

  // The card's side, and the round trip.

  /** The PICC data block a card mirrors, by position: its tag, its UID if it mirrors one, and its counter. */
  predicate IsPiccBlock(b: Block, uid: Option<Uid>, counter: nat) {
    if uid.Some?
    then && b[0] == 0xC7 && (forall i :: 1 <= i < 8 ==> b[i] == uid.value[i - 1])
         && counter == b[8] as int + 256 * (b[9] as int) + 65536 * (b[10] as int)
    else b[0] == 0x40 && counter == b[1] as int + 256 * (b[2] as int) + 65536 * (b[3] as int)
  }

  /** The fields read are exactly those a card wrote. */
  lemma PiccOfBlock(b: Block, uid: Option<Uid>, counter: nat)
    ensures PiccOf(b) == Some(Picc(false, uid, counter, true)) <==> IsPiccBlock(b, uid, counter)
  {
    if uid.Some? && IsPiccBlock(b, uid, counter) {
      assert b[1..8] == uid.value;
    }
  }

  /** Segments joined by separators. */
  function Joined(segs: seq<seq<byte>>, seps: seq<byte>): (url: seq<byte>)
    requires |segs| == |seps| + 1
  {
    if |segs| == 1 then segs[0]
    else Joined(segs[..|segs| - 1], seps[..|seps| - 1]) + [seps[|seps| - 1]] + segs[|segs| - 1]
  }

  predicate SeparatorFree(seg: seq<byte>) {
    forall i :: 0 <= i < |seg| ==> !Separator(seg[i])
  }

  lemma SplitLetter(url: seq<byte>, b: byte)
    requires !Separator(b)
    ensures SplitUrl(url + [b]) == Split(SplitUrl(url).closed, SplitUrl(url).open + [b])
  {
    assert (url + [b])[..|url|] == url;
  }

  lemma {:induction false} SplitExtend(url: seq<byte>, seg: seq<byte>)
    requires SeparatorFree(seg)
    ensures SplitUrl(url + seg) == Split(SplitUrl(url).closed, SplitUrl(url).open + seg)
  {
    if seg == [] {
      assert url + seg == url;
      assert SplitUrl(url).open + seg == SplitUrl(url).open;
    } else {
      var n := |seg| - 1;
      SplitExtend(url, seg[..n]);
      SplitLetter(url + seg[..n], seg[n]);
      Associates(url, seg[..n], [seg[n]]);
      Associates(SplitUrl(url).open, seg[..n], [seg[n]]);
      assert seg == seg[..n] + [seg[n]];
    }
  }

  lemma SplitClosed(url: seq<byte>, sep: byte)
    requires Separator(sep)
    ensures SplitUrl(url + [sep]) == Split(Segments(url), [])
  {
    assert (url + [sep])[..|url|] == url;
  }

  lemma SplitOne(seg: seq<byte>)
    requires SeparatorFree(seg)
    ensures Segments(seg) == [seg]
  {
    SplitExtend([], seg);
    assert [] + seg == seg;
  }

  /** One more segment. */
  lemma SplitNext(url: seq<byte>, sep: byte, seg: seq<byte>)
    requires Separator(sep) && SeparatorFree(seg)
    ensures Segments(url + [sep] + seg) == Segments(url) + [seg]
  {
    SplitClosed(url, sep);
    SplitExtend(url + [sep], seg);
    assert [] + seg == seg;
  }

  /** Splitting finds exactly the segments that were joined. */
  lemma {:induction false} SplitUndoesJoin(segs: seq<seq<byte>>, seps: seq<byte>)
    requires |segs| == |seps| + 1
    requires forall i :: 0 <= i < |segs| ==> SeparatorFree(segs[i])
    requires forall i :: 0 <= i < |seps| ==> Separator(seps[i])
    ensures Segments(Joined(segs, seps)) == segs
  {
    var n := |segs| - 1;
    if n == 0 {
      SplitOne(segs[0]);
    } else {
      SplitUndoesJoin(segs[..n], seps[..n - 1]);
      SplitNext(Joined(segs[..n], seps[..n - 1]), seps[n - 1], segs[n]);
    }
  }

  /** Segment `i` has the name, and no later one does. */
  predicate LastNamed(segs: seq<seq<byte>>, name: seq<byte>, i: nat, value: seq<byte>) {
    && i < |segs| && segs[i] == name + value
    && forall k :: i < k < |segs| ==> !Named(segs[k], name)
  }

  lemma {:induction false} LastValueIs(segs: seq<seq<byte>>, name: seq<byte>, i: nat, value: seq<byte>)
    requires LastNamed(segs, name, i, value)
    ensures LastValue(segs, name) == Some(value)
  {
    var n := |segs| - 1;
    if i == n {
      assert segs[i][..|name|] == name && segs[i][|name|..] == value;
    } else {
      LastValueIs(segs[..n], name, i, value);
    }
  }

  lemma {:induction false} LastValueAt(segs: seq<seq<byte>>, name: seq<byte>) returns (i: nat)
    requires LastValue(segs, name).Some?
    ensures LastNamed(segs, name, i, LastValue(segs, name).value)
  {
    var n := |segs| - 1;
    if Named(segs[n], name) {
      i := n;
      assert segs[n] == name + segs[n][|name|..];
    } else {
      i := LastValueAt(segs[..n], name);
      assert forall k :: i < k < n ==> segs[..n][k] == segs[k];
    }
  }

  /** The separators of a URL, in order. */
  function Separators(url: seq<byte>): (seps: seq<byte>)
  {
    if url == [] then []
    else
      var b := url[|url| - 1];
      Separators(url[..|url| - 1]) + if Separator(b) then [b] else []
  }

  lemma JoinedExtend(segs: seq<seq<byte>>, seps: seq<byte>, b: byte)
    requires |segs| == |seps| + 1
    ensures Joined(segs + [[]], seps + [b]) == Joined(segs, seps) + [b]
    ensures Joined(segs[..|segs| - 1] + [segs[|segs| - 1] + [b]], seps) == Joined(segs, seps) + [b]
  {
    var n := |segs| - 1;
    assert (segs + [[]])[..n + 1] == segs && (seps + [b])[..n] == seps;
    var longer := segs[..n] + [segs[n] + [b]];
    assert longer[..n] == segs[..n];
    if n > 0 {
      var pre := Joined(segs[..n], seps[..n - 1]) + [seps[n - 1]];
      Associates(pre, segs[n], [b]);
    }
  }

  /** Joining the segments of a URL gives the URL. */
  lemma {:induction false} JoinUndoesSplit(url: seq<byte>)
    ensures |Segments(url)| == |Separators(url)| + 1 && Joined(Segments(url), Separators(url)) == url
    ensures forall i :: 0 <= i < |Separators(url)| ==> Separator(Separators(url)[i])
    ensures forall i :: 0 <= i < |Segments(url)| ==> SeparatorFree(Segments(url)[i])
  {
    if url != [] {
      var n := |url| - 1;
      var pre, b := url[..n], url[n];
      JoinUndoesSplit(pre);
      var segs := Segments(pre);
      JoinedExtend(segs, Separators(pre), b);
      assert url == pre + [b];
      if Separator(b) {
        assert Segments(url) == segs + [[]];
      } else {
        assert Segments(url) == segs[..|segs| - 1] + [segs[|segs| - 1] + [b]];
        assert Separators(url) == Separators(pre);
      }
    }
  }

  // What a card writes.

  /** A tapped URL: its segments and separators, where p= and c= last stand, and the card's block, vector and MAC. */
  datatype Tap = Tap(
    segs: seq<seq<byte>>, seps: seq<byte>,
    i: nat, p: seq<byte>, j: nat, c: seq<byte>,
    block: Block, uid: Option<Uid>, counter: nat, sv: seq<byte>, mac: seq<byte>)

  /** No byte of the segment is '?', '&' or '#'. */
  predicate Plain(seg: seq<byte>) {
    forall k :: 0 <= k < |seg| ==> seg[k] != 0x3F && seg[k] != 0x26 && seg[k] != 0x23
  }

  /** Segment `i` is the letter, an equals sign and the value, and no later segment begins like it. */
  predicate LastParameter(segs: seq<seq<byte>>, letter: byte, i: nat, value: seq<byte>) {
    && i < |segs| && segs[i] == [letter, 0x3D] + value
    && forall k :: i < k < |segs| ==> !(|segs[k]| >= 2 && segs[k][0] == letter && segs[k][1] == 0x3D)
  }

  /** A URL as a card with these keys writes it, in bytes. */
  ghost predicate IsTap(t: Tap, x: Suite, k1: Block, k2: Block, url: seq<byte>) {
    && |t.segs| == |t.seps| + 1 && url == Joined(t.segs, t.seps)
    && (forall k :: 0 <= k < |t.segs| ==> Plain(t.segs[k]))
    && (forall k :: 0 <= k < |t.seps| ==> t.seps[k] == 0x3F || t.seps[k] == 0x26 || t.seps[k] == 0x23)
    && LastParameter(t.segs, 0x70, t.i, t.p) && LastParameter(t.segs, 0x63, t.j, t.c)
    && IsPiccBlock(t.block, t.uid, t.counter)
    && Hex.Spells(t.p, Cbc.Encrypt(x, k1, Zeros(16), t.block))
    && IsSv2(t.sv, t.uid, t.counter) && IsSunMac(t.mac, x, k2, t.sv)
    && Hex.Spells(t.c, t.mac)
  }

  lemma ParameterIsNamed(segs: seq<seq<byte>>, letter: byte, i: nat, value: seq<byte>)
    ensures LastParameter(segs, letter, i, value) <==> LastNamed(segs, [letter, 0x3D], i, value)
  {
    forall k | 0 <= k < |segs|
      ensures Named(segs[k], [letter, 0x3D]) <==> |segs[k]| >= 2 && segs[k][0] == letter && segs[k][1] == 0x3D
    {
      if |segs[k]| >= 2 {
        assert segs[k][..2] == [segs[k][0], segs[k][1]];
      }
    }
  }

  lemma CardPDecrypts(x: Suite, k1: Block, block: Block, uid: Option<Uid>, counter: nat, p: seq<byte>)
    requires IsPiccBlock(block, uid, counter) && Hex.Spells(p, Cbc.Encrypt(x, k1, ZERO_BLOCK, block))
    ensures DecryptP(x, k1, p) == Some(Picc(false, uid, counter, true))
  {
    Hex.DecodeSpells(p, Cbc.Encrypt(x, k1, ZERO_BLOCK, block));
    Cbc.DecryptUndoesEncrypt(x, k1, ZERO_BLOCK, block);
    PiccOfBlock(block, uid, counter);
  }

  lemma TapExtracted(t: Tap, x: Suite, k1: Block, k2: Block, url: seq<byte>)
    requires IsTap(t, x, k1, k2, url)
    ensures Extracted(url) == Some((t.p, t.c))
  {
    forall k | 0 <= k < |t.segs|
      ensures SeparatorFree(t.segs[k])
    {
      assert Plain(t.segs[k]);
    }
    SplitUndoesJoin(t.segs, t.seps);
    ParameterIsNamed(t.segs, 0x70, t.i, t.p);
    ParameterIsNamed(t.segs, 0x63, t.j, t.c);
    LastValueIs(t.segs, P_NAME, t.i, t.p);
    LastValueIs(t.segs, C_NAME, t.j, t.c);
  }

  /**
   A URL that carries the card's encrypted block and MAC in hex of any case, in any order among
   unrelated segments, parses to a valid result with exactly the card's UID and counter.
   */
  lemma CardUrlParses(t: Tap, x: Suite, k1: Block, k2: Block, url: seq<byte>)
    requires IsTap(t, x, k1, k2, url)
    ensures ParseUrl(x, k1, k2, url) == Picc(true, t.uid, t.counter, true)
  {
    TapExtracted(t, x, k1, k2, url);
    CardPDecrypts(x, k1, t.block, t.uid, t.counter, t.p);
    VerifyExactly(x, k2, Picc(false, t.uid, t.counter, true), t.c, t.sv, t.mac);
  }

  lemma SegmentsOfUrl(url: seq<byte>)
    ensures |Segments(url)| == |Separators(url)| + 1 && Joined(Segments(url), Separators(url)) == url
    ensures forall k :: 0 <= k < |Segments(url)| ==> Plain(Segments(url)[k])
    ensures forall k :: 0 <= k < |Separators(url)| ==>
      Separators(url)[k] == 0x3F || Separators(url)[k] == 0x26 || Separators(url)[k] == 0x23
  {
    JoinUndoesSplit(url);
    forall k | 0 <= k < |Segments(url)|
      ensures Plain(Segments(url)[k])
    {
      assert SeparatorFree(Segments(url)[k]);
    }
    forall k | 0 <= k < |Separators(url)|
      ensures Separators(url)[k] == 0x3F || Separators(url)[k] == 0x26 || Separators(url)[k] == 0x23
    {
      assert Separator(Separators(url)[k]);
    }
  }

  lemma Sv2Built(uid: Option<Uid>, counter: nat)
    ensures IsSv2(if uid.Some? then Sv2(uid.value, counter) else Sv2NoUid(counter), uid, counter)
  {
  }

  lemma ValidIsTap(x: Suite, k1: Block, k2: Block, url: seq<byte>) returns (t: Tap)
    requires ParseUrl(x, k1, k2, url).valid
    ensures IsTap(t, x, k1, k2, url)
  {
    var (p, c) := Extracted(url).value;
    var segs := Segments(url);
    SegmentsOfUrl(url);
    var i := LastValueAt(segs, P_NAME);
    var j := LastValueAt(segs, C_NAME);
    ParameterIsNamed(segs, 0x70, i, p);
    ParameterIsNamed(segs, 0x63, j, c);
    var cipher: Block := Hex.Decode(p, 16).value;
    var block: Block := Cbc.Decrypt(x, k1, ZERO_BLOCK, cipher);
    Hex.DecodeSpells(p, cipher);
    Cbc.EncryptUndoesDecrypt(x, k1, ZERO_BLOCK, cipher);
    var picc := PiccOf(block).value;
    PiccOfBlock(block, picc.uid, picc.counter);
    var sv := if picc.uid.Some? then Sv2(picc.uid.value, picc.counter) else Sv2NoUid(picc.counter);
    var mac := SunMac(x, k2, picc.uid, picc.counter);
    Sv2Built(picc.uid, picc.counter);
    SunMacBytes(x, k2, picc.uid, picc.counter, sv, mac);
    Hex.DecodeSpells(c, mac);
    t := Tap(segs, Separators(url), i, p, j, c, block, picc.uid, picc.counter, sv, mac);
  }

  /** A URL is valid exactly when a card with these keys wrote it. */
  lemma ValidUrlExactly(x: Suite, k1: Block, k2: Block, url: seq<byte>)
    ensures ParseUrl(x, k1, k2, url).valid <==> exists t :: IsTap(t, x, k1, k2, url)
  {
    if ParseUrl(x, k1, k2, url).valid {
      var t := ValidIsTap(x, k1, k2, url);
    }
    if exists t :: IsTap(t, x, k1, k2, url) {
      var t :| IsTap(t, x, k1, k2, url);
      CardUrlParses(t, x, k1, k2, url);
    }
  }

  /**
   A UID-bearing and a UID-less session vector coincide exactly when the former's counter and last four UID
   bytes are 0.
   */
  lemma SessionVectorsCoincide(uid: Uid, counter: nat, other: nat)
    requires counter < 0x100_0000 && other < 0x100_0000
    ensures Sv2(uid, counter) == Sv2NoUid(other) <==>
      counter == 0 && uid[3..] == Zeros(4) && uid[..3] == CounterBytes(other)
  {
    var a, b := Sv2(uid, counter), Sv2NoUid(other);
    assert a[6..13] == uid && a[13..] == CounterBytes(counter);
    assert b[6..9] == CounterBytes(other) && b[9..13] == Zeros(4) && b[13..] == Zeros(3);
    assert uid[..3] == a[6..9] && uid[3..] == a[9..13];
    assert CounterBytes(counter)[0] == 0 && CounterBytes(counter)[1] == 0 && CounterBytes(counter)[2] == 0
      <==> counter == 0;
    assert counter == 0 ==> CounterBytes(counter) == Zeros(3);
    assert a == a[..6] + a[6..9] + a[9..13] + a[13..] && b == b[..6] + b[6..9] + b[9..13] + b[13..];
    assert a[..6] == SV2_HEADER == b[..6];
  }

  lemma CounterBytesValue(c: nat)
    requires c < 0x100_0000
    ensures CounterBytes(c) == Le24(c)
  {
  }

  lemma CounterBytesInjective(c1: nat, c2: nat)
    requires c1 < 0x100_0000 && c2 < 0x100_0000 && CounterBytes(c1) == CounterBytes(c2)
    ensures c1 == c2
  {
    CounterBytesValue(c1);
    CounterBytesValue(c2);
  }

  /** UID-bearing session vectors determine the UID and the counter. */
  lemma SessionVectorDetermines(u1: Uid, c1: nat, u2: Uid, c2: nat)
    requires c1 < 0x100_0000 && c2 < 0x100_0000
    ensures Sv2(u1, c1) == Sv2(u2, c2) <==> u1 == u2 && c1 == c2
  {
    assert Sv2(u1, c1)[6..13] == u1 && Sv2(u2, c2)[6..13] == u2;
    assert Sv2(u1, c1)[13..] == CounterBytes(c1) && Sv2(u2, c2)[13..] == CounterBytes(c2);
    if CounterBytes(c1) == CounterBytes(c2) {
      CounterBytesInjective(c1, c2);
    }
  }
}
