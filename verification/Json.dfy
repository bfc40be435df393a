/**
 The JSON error bodies of the REST interface: the escaper that writes strings into a
 fixed-capacity buffer, what of section 7 of RFC 8259 it keeps, and the scanner that
 takes a string field out of a body.
 */
module Json {
  import opened Basics
  import opened Bytes

  const CAPACITY: nat := 256

  /** The UTF-8 width of a character. */
  function CharWidth(c: char): (w: nat)
    ensures 1 <= w <= 4
  {
    if c as int < 0x80 then 1 else if c as int < 0x800 then 2 else if c as int < 0x10000 then 3 else 4
  }

  lemma WidthOfChar(c: char)
    ensures c as int < 0x11_0000 && CharWidth(c) == |Utf8(c as int)|
  {
  }

  function Width(s: string): (w: nat)
  {
    if s == "" then 0 else CharWidth(s[0]) + Width(s[1..])
  }

  lemma {:induction false} WidthConcat(a: string, b: string)
    ensures Width(a + b) == Width(a) + Width(b)
  {
    if a == "" {
      assert a + b == b;
    } else {
      WidthConcat(a[1..], b);
      assert (a + b)[1..] == a[1..] + b;
    }
  }

  // Writing.

  function EscapeChar(c: char): (s: string)
    ensures |s| >= 1
  {
    if c == '\\' then "\\\\"
    else if c == '"' then "\\\""
    else if c == '\n' then "\\n"
    else if c == '\r' then "\\r"
    else if c == '\t' then "\\t"
    else [c]
  }

  function Escape(s: string): (r: string)
  {
    if s == "" then "" else EscapeChar(s[0]) + Escape(s[1..])
  }

  lemma EscapeExtend(s: string, i: nat)
    requires i < |s|
    ensures Escape(s[..i + 1]) == Escape(s[..i]) + EscapeChar(s[i])
  {
    assert s[..i + 1] == s[..i] + [s[i]];
    EscapeConcat(s[..i], [s[i]]);
    assert Escape([s[i]]) == EscapeChar(s[i]) + "";
  }

  /** A proper prefix escapes to something shorter. */
  lemma EscapeCut(s: string, i: nat)
    requires i < |s|
    ensures |Escape(s[..i])| < |Escape(s)|
  {
    assert s == s[..i] + s[i..];
    EscapeConcat(s[..i], s[i..]);
  }

  /** Pushing a string changes nothing when it does not fit. */
  function Push(cap: nat, out: string, s: string): (r: string) {
    if Width(out) + Width(s) <= cap then out + s else out
  }

  /** Escapes character by character and stops at the first piece that does not fit. */
  function PushEscaped(cap: nat, out: string, s: string): (r: string)
    decreases |s|
  {
    if s == "" || Width(out) + Width(EscapeChar(s[0])) > cap then out
    else PushEscaped(cap, out + EscapeChar(s[0]), s[1..])
  }

  class Buffer {
    const cap: nat
    var text: string

    constructor (cap: nat)
      ensures text == "" && this.cap == cap
    {
      this.cap := cap;
      text := "";
    }

    method PushStr(s: string) returns (ok: bool)
      modifies this
      ensures text == Push(cap, old(text), s) && (ok <==> Width(old(text)) + Width(s) <= cap)
    {
      ok := Width(text) + Width(s) <= cap;
      if ok {
        text := text + s;
      }
    }

    method PushEscapedJson(value: string) returns (ok: bool)
      modifies this
      ensures text == PushEscaped(cap, old(text), value)
      ensures ok <==> text == old(text) + Escape(value)
    {
      var i := 0;
      assert value[..0] == "" && old(text) + "" == old(text);
      while i < |value|
        invariant 0 <= i <= |value|
        invariant PushEscaped(cap, text, value[i..]) == PushEscaped(cap, old(text), value)
        invariant text == old(text) + Escape(value[..i])
      {
        assert value[i..][1..] == value[i + 1..];
        ok := PushStr(EscapeChar(value[i]));
        if !ok {
          EscapeCut(value, i);
          return false;
        }
        EscapeExtend(value, i);
        Associates(old(text), Escape(value[..i]), EscapeChar(value[i]));
        i := i + 1;
      }
      assert value[..|value|] == value;
      return true;
    }
  }

  const HEAD: string := "{\"ok\":false,\"error\":\""
  const MIDDLE: string := "\",\"hint\":\""
  const CLOSE: string := "\"}"

  /** The pushes that build a two-field body, each keeping what fits. */
  function Assemble(cap: nat, head: string, msg: string, middle: string, hint: string, close: string): (body: string) {
    var a := PushEscaped(cap, Push(cap, "", head), msg);
    var b := PushEscaped(cap, Push(cap, a, middle), hint);
    Push(cap, b, close)
  }

  function ErrHint(msg: string, hint: string): (body: string) {
    Assemble(CAPACITY, HEAD, msg, MIDDLE, hint, CLOSE)
  }

  method JsonErrHint(msg: string, hint: string) returns (body: string)
    ensures body == ErrHint(msg, hint)
  {
    var out := new Buffer(CAPACITY);
    var _ := out.PushStr(HEAD);
    var _ := out.PushEscapedJson(msg);
    var _ := out.PushStr(MIDDLE);
    var _ := out.PushEscapedJson(hint);
    var _ := out.PushStr(CLOSE);
    return out.text;
  }

  /** The text may stand between the quotes of a JSON string, by section 7 of RFC 8259. */
  predicate LegalBody(s: string)
  {
    if s == "" then true
    else if s[0] == '\\' then |s| >= 2 && EscapeEnds(s[1..]) > 0 && LegalBody(s[1 + EscapeEnds(s[1..])..])
    else s[0] != '"' && s[0] as int >= 0x20 && LegalBody(s[1..])
  }

  predicate HexDigit(c: char) {
    '0' <= c <= '9' || 'a' <= c <= 'f' || 'A' <= c <= 'F'
  }

  /** How many characters behind a backslash belong to its escape; 0 if it is none. */
  function EscapeEnds(t: string): (n: nat)
    ensures n <= |t|
  {
    if t == "" then 0
    else if t[0] in {'"', '\\', '/', 'b', 'f', 'n', 'r', 't'} then 1
    else if t[0] == 'u' && |t| >= 5 && HexDigit(t[1]) && HexDigit(t[2]) && HexDigit(t[3]) && HexDigit(t[4]) then 5
    else 0
  }

  /** A control character the escaper passes through. */
  predicate RawControl(c: char) {
    c as int < 0x20 && c != '\n' && c != '\r' && c != '\t'
  }

  lemma LegalPair(c: char, rest: string)
    requires c in {'"', '\\', 'n', 'r', 't'}
    ensures LegalBody(['\\', c] + rest) <==> LegalBody(rest)
  {
    var s := ['\\', c] + rest;
    assert s[1..][0] == c && s[2..] == rest;
  }

  lemma LegalChar(c: char, rest: string)
    ensures LegalBody(EscapeChar(c) + rest) <==> !RawControl(c) && LegalBody(rest)
  {
    if c == '\\' || c == '"' {
      LegalPair(c, rest);
    } else if c == '\n' {
      LegalPair('n', rest);
    } else if c == '\r' {
      LegalPair('r', rest);
    } else if c == '\t' {
      LegalPair('t', rest);
    } else {
      assert (EscapeChar(c) + rest)[1..] == rest;
    }
  }

  /** Escaping makes a legal JSON string of a text exactly when no other control character is in it. */
  lemma {:induction false} EscapeLegal(s: string)
    ensures LegalBody(Escape(s)) <==> forall i :: 0 <= i < |s| ==> !RawControl(s[i])
  {
    if s != "" {
      EscapeLegal(s[1..]);
      LegalChar(s[0], Escape(s[1..]));
      assert forall i :: 0 < i < |s| ==> s[i] == s[1..][i - 1];
    }
  }

  /** Such a text is a single 0x01. */
  lemma EscapeIllegal()
    ensures !LegalBody(Escape([1 as char]))
  {
    EscapeLegal([1 as char]);
    assert RawControl([1 as char][0]);
  }

  // Reading.

  /** The first position at or after `from` where `pat` stands. */
  function Find(s: string, pat: string, from: nat): (i: Option<nat>)
    requires from <= |s|
    ensures i.Some? ==> from <= i.value && At(s, pat, i.value)
    decreases |s| - from
  {
    if At(s, pat, from) then Some(from)
    else if from == |s| then None
    else Find(s, pat, from + 1)
  }

  /** Unicode white space. */
  predicate IsSpace(c: char) {
    var n := c as int;
    9 <= n <= 13 || n in {0x20, 0x85, 0xA0, 0x1680, 0x2028, 0x2029, 0x202F, 0x205F, 0x3000} || 0x2000 <= n <= 0x200A
  }

  /** The white space characters, one by one. */
  lemma SpaceTable(c: char)
    ensures IsSpace(c) <==> c as int in {
      0x09, 0x0A, 0x0B, 0x0C, 0x0D, 0x20, 0x85, 0xA0, 0x1680,
      0x2000, 0x2001, 0x2002, 0x2003, 0x2004, 0x2005, 0x2006, 0x2007, 0x2008, 0x2009, 0x200A,
      0x2028, 0x2029, 0x202F, 0x205F, 0x3000}
  {
  }

  function TrimStart(s: string): (r: string)
  {
    if s != "" && IsSpace(s[0]) then TrimStart(s[1..]) else s
  }

  /** The text up to the first quote that no backslash escapes. */
  function ScanString(s: string, escaped: bool): (r: Option<string>)
  {
    if s == "" then None
    else if s[0] == '"' && !escaped then Some("")
    else
      var rest := ScanString(s[1..], s[0] == '\\' && !escaped);
      if rest.None? then None else Some([s[0]] + rest.value)
  }

  function Field(body: string, key: string): (r: Option<string>) {
    var pat := "\"" + key + "\"";
    if Width(pat) > 32 then None
    else
      var at := Find(body, pat, 0);
      if at.None? then None
      else
        var after := body[at.value + |pat|..];
        var colon := Find(after, ":", 0);
        if colon.None? then None
        else
          var value := TrimStart(after[colon.value + 1..]);
          if value == "" || value[0] != '"' then None else ScanString(value[1..], false)
  }

  function Prefixed(pre: string, r: Option<string>): (p: Option<string>) {
    if r.None? then None else Some(pre + r.value)
  }

  lemma ScanPrefix(pre: string, s: string, escaped: bool)
    ensures Prefixed("", ScanString(s, escaped)) == ScanString(s, escaped)
    ensures s != "" && !(s[0] == '"' && !escaped) ==>
      Prefixed(pre, ScanString(s, escaped)) == Prefixed(pre + [s[0]], ScanString(s[1..], s[0] == '\\' && !escaped))
  {
    var all := ScanString(s, escaped);
    assert all.Some? ==> "" + all.value == all.value;
    if s != "" {
      var rest := ScanString(s[1..], s[0] == '\\' && !escaped);
      assert rest.Some? ==> pre + ([s[0]] + rest.value) == (pre + [s[0]]) + rest.value;
    }
  }

  /** The text up to the first unescaped quote. */
  method ScanContent(content: string) returns (r: Option<string>)
    ensures r == ScanString(content, false)
  {
    var escaped := false;
    assert content[0..] == content;
    ScanPrefix("", content, false);
    for i := 0 to |content|
      invariant Prefixed(content[..i], ScanString(content[i..], escaped)) == ScanString(content, false)
    {
      assert content[i..][1..] == content[i + 1..];
      assert content[..i] + [content[i]] == content[..i + 1];
      ScanPrefix(content[..i], content[i..], escaped);
      if content[i] == '\\' && !escaped {
        escaped := true;
      } else if content[i] == '"' && !escaped {
        assert content[..i] + "" == content[..i];
        return Some(content[..i]);
      } else {
        escaped := false;
      }
    }
    return None;
  }

  method ExtractJsonString(body: string, key: string) returns (r: Option<string>)
    ensures r == Field(body, key)
  {
    var pat := "\"" + key + "\"";
    if Width(pat) > 32 {
      return None;
    }
    var at := Find(body, pat, 0);
    if at.None? {
      return None;
    }
    var after := body[at.value + |pat|..];
    var colon := Find(after, ":", 0);
    if colon.None? {
      return None;
    }
    var value := TrimStart(after[colon.value + 1..]);
    if value == "" || value[0] != '"' {
      return None;
    }
    r := ScanContent(value[1..]);
  }

  /** The inverse of escaping. */
  function Unescape(s: string): (r: string)
    decreases |s|
  {
    if s == "" then ""
    else if s[0] == '\\' && |s| >= 2 then [Unescaped(s[1])] + Unescape(s[2..])
    else [s[0]] + Unescape(s[1..])
  }

  function Unescaped(c: char): (r: char) {
    if c == 'n' then '\n' else if c == 'r' then '\r' else if c == 't' then '\t' else c
  }

  // Escaping.

  lemma {:induction false} UnescapeUndoesEscape(s: string)
    ensures Unescape(Escape(s)) == s
  {
    if s != "" {
      var e, rest := EscapeChar(s[0]), Escape(s[1..]);
      UnescapeUndoesEscape(s[1..]);
      var t := e + rest;
      if |e| == 2 {
        assert t[2..] == rest && Unescaped(t[1]) == s[0];
      } else {
        assert t[1..] == rest;
      }
    }
  }

  lemma {:induction false} EscapeConcat(a: string, b: string)
    ensures Escape(a + b) == Escape(a) + Escape(b)
  {
    if a == "" {
      assert a + b == b;
    } else {
      EscapeConcat(a[1..], b);
      assert (a + b)[1..] == a[1..] + b;
      Associates(EscapeChar(a[0]), Escape(a[1..]), Escape(b));
    }
  }

  lemma EscapeInjective(a: string, b: string)
    requires Escape(a) == Escape(b)
    ensures a == b
  {
    UnescapeUndoesEscape(a);
    UnescapeUndoesEscape(b);
  }

  /** Inside escaped text every quote stands behind a backslash. */
  lemma {:induction false} QuotesEscaped(s: string, j: nat)
    requires j < |Escape(s)| && Escape(s)[j] == '"'
    ensures j > 0 && Escape(s)[j - 1] == '\\'
  {
    var e := EscapeChar(s[0]);
    if j >= |e| {
      QuotesEscaped(s[1..], j - |e|);
      assert Escape(s)[j - 1] == Escape(s[1..])[j - |e| - 1];
    }
  }

  /** The scanner runs through escaped text and comes out unescaped. */
  lemma {:induction false} ScanThrough(s: string, rest: string)
    ensures ScanString(Escape(s) + rest, false) == Prefixed(Escape(s), ScanString(rest, false))
  {
    if s == "" {
      assert Escape(s) + rest == rest;
      ScanPrefix("", rest, false);
    } else {
      var e, tail := EscapeChar(s[0]), Escape(s[1..]) + rest;
      ScanThrough(s[1..], rest);
      assert Escape(s) + rest == e + tail;
      var inner := ScanString(rest, false);
      assert inner.Some? ==> e + (Escape(s[1..]) + inner.value) == Escape(s) + inner.value;
      ScanOverChar(s[0], tail);
    }
  }

  lemma ScanOverPlain(c: char, tail: string)
    requires c != '"' && c != '\\'
    ensures ScanString([c] + tail, false) == Prefixed([c], ScanString(tail, false))
  {
    assert ([c] + tail)[1..] == tail;
  }

  lemma ScanOverPair(c: char, tail: string)
    ensures ScanString(['\\', c] + tail, false) == Prefixed(['\\', c], ScanString(tail, false))
  {
    var t := ['\\', c] + tail;
    assert t[1..] == [c] + tail && ([c] + tail)[1..] == tail;
    var inner := ScanString(tail, false);
    assert ScanString([c] + tail, true) == Prefixed([c], inner);
    assert inner.Some? ==> ['\\'] + ([c] + inner.value) == ['\\', c] + inner.value;
  }

  lemma ScanOverChar(c: char, tail: string)
    ensures ScanString(EscapeChar(c) + tail, false) == Prefixed(EscapeChar(c), ScanString(tail, false))
  {
    var e := EscapeChar(c);
    if |e| == 2 {
      assert e == ['\\', e[1]];
      ScanOverPair(e[1], tail);
    } else {
      ScanOverPlain(c, tail);
    }
  }

  /** Escaped text ends exactly at the quote that closes it; without one the scan finds nothing. */
  lemma ScanEscaped(s: string, rest: string)
    ensures ScanString(Escape(s) + ("\"" + rest), false) == Some(Escape(s))
    ensures ScanString(Escape(s), false) == None
  {
    ScanThrough(s, "\"" + rest);
    assert Escape(s) + "" == Escape(s);
    ScanThrough(s, "");
  }

  // The fields of an error body.

  /** The search finds a match exactly when it is the first. */
  lemma {:induction false} FindFirst(s: string, pat: string, from: nat, k: nat)
    requires from <= k && At(s, pat, k) && forall i :: from <= i < k ==> !At(s, pat, i)
    ensures Find(s, pat, from) == Some(k)
    decreases k - from
  {
    if from < k {
      assert !At(s, pat, from);
      FindFirst(s, pat, from + 1, k);
    }
  }

  /** The search fails exactly when there is no match, and finds none later than any match. */
  lemma {:induction false} FindBounds(s: string, pat: string, from: nat, k: nat)
    requires from <= k && At(s, pat, k)
    ensures Find(s, pat, from).Some? && Find(s, pat, from).value <= k
    decreases k - from
  {
    if from < k {
      FindBounds(s, pat, from + 1, k);
    }
  }

  lemma TrimQuote(t: string)
    ensures TrimStart("\"" + t) == "\"" + t
  {
  }

  lemma DropFront(a: string, b: string)
    ensures (a + b)[|a|..] == b
  {
  }

  lemma AtSingle(s: string, c: char, i: nat)
    ensures At(s, [c], i) <==> i < |s| && s[i] == c
  {
    if i < |s| {
      assert s[i..i + 1] == [s[i]];
    }
  }

  lemma {:induction false} FindChar(s: string, c: char, from: nat, k: nat)
    requires from <= k < |s| && s[k] == c && forall i :: from <= i < k ==> s[i] != c
    ensures Find(s, [c], from) == Some(k)
    decreases k - from
  {
    AtSingle(s, c, from);
    if from < k {
      FindChar(s, c, from + 1, k);
    }
  }

  /** Behind the first colon stands the value. */
  lemma ColonFound(pre: string, t: string)
    requires ':' !in pre
    ensures Find(pre + (":" + t), ":", 0) == Some(|pre|)
    ensures (pre + (":" + t))[|pre| + 1..] == t
  {
    FindChar(pre + (":" + t), ':', 0, |pre|);
  }

  lemma FieldIs(body: string, key: string, a: string, pre: string, t: string)
    requires Width("\"" + key + "\"") <= 32 && ':' !in pre
    requires body == (a + ("\"" + key + "\"")) + (pre + (":" + ("\"" + t)))
    requires Find(body, "\"" + key + "\"", 0) == Some(|a|)
    ensures Field(body, key) == ScanString(t, false)
  {
    DropFront(a + ("\"" + key + "\""), pre + (":" + ("\"" + t)));
    ColonFound(pre, "\"" + t);
    TrimQuote(t);
    DropFront("\"", t);
  }

  const START: string := "{\"ok\":false,"
  const ERROR: string := "\"error\""

  lemma HeadShape()
    ensures |START| == 12 && |HEAD| == 21 && HEAD == (START + ERROR) + ":\""
    ensures forall i :: 0 <= i < 12 && START[i] == '"' ==> i + 1 < 12 && START[i + 1] != 'e'
    ensures forall i :: 0 < i < 21 && HEAD[i] == '"' ==> HEAD[i - 1] != 't'
    ensures HEAD[0] != '"'
    ensures "\"" + "error" + "\"" == ERROR && |ERROR| == 7 && Width(ERROR) == 7 && ERROR[0] == '"' && ERROR[1] == 'e'
  {
  }

  lemma NotInStart(t: string, i: nat)
    requires i < 12
    ensures !At(START + t, ERROR, i)
  {
    HeadShape();
    if At(START + t, ERROR, i) {
      AtChar(START + t, ERROR, i, 0);
      AtChar(START + t, ERROR, i, 1);
    }
  }

  /** Whatever follows the head of a body, its error field is what the scanner finds there. */
  lemma ErrorField(t: string)
    ensures Field(HEAD + t, "error") == ScanString(t, false)
  {
    HeadShape();
    var body := HEAD + t;
    var rest := "" + (":" + ("\"" + t));
    assert body == (START + ERROR) + rest;
    assert body == START + (ERROR + rest);
    forall i | 0 <= i < 12
      ensures !At(body, ERROR, i)
    {
      NotInStart(ERROR + rest, i);
    }
    assert body[12..19] == ERROR;
    FindFirst(body, ERROR, 0, 12);
    FieldIs(body, "error", START, "", t);
  }

  const HINT: string := "\"hint\""

  lemma HintShape()
    ensures |HINT| == 6 && HINT[4] == 't' && HINT[5] == '"'
    ensures |MIDDLE| == 10 && MIDDLE[2..8] == HINT && MIDDLE[8..] == ":\""
    ensures MIDDLE[0] == '"' && MIDDLE[1] == ',' && forall i :: 1 <= i < 8 ==> MIDDLE[i] != ':'
    ensures forall i :: 0 < i < 7 && MIDDLE[i] == '"' ==> MIDDLE[i - 1] != 't'
    ensures Width(HINT) == 6 && "\"" + "hint" + "\"" == HINT
  {
  }

  /** No quote in the text follows a 't'. */
  predicate Guarded(s: string) {
    forall i :: 0 <= i < |s| && s[i] == '"' ==> i > 0 && s[i - 1] != 't'
  }

  /** The quotes of the head and of an escaped message do not follow a 't'. */
  lemma GuardedFront(m: string)
    ensures Guarded(HEAD + Escape(m))
  {
    HeadShape();
    var e := Escape(m);
    forall j | 0 <= j < |e| && e[j] == '"'
      ensures j > 0 && e[j - 1] == '\\'
    {
      QuotesEscaped(m, j);
    }
    GuardedConcat(HEAD, e);
  }

  lemma GuardedConcat(a: string, b: string)
    requires Guarded(a) && Guarded(b)
    ensures Guarded(a + b)
  {
  }

  /** Before the real key, the key text can only stand where it ends in the quote that closes the message. */
  lemma HintOnlyAtClose(front: string, rest: string, i: nat)
    requires Guarded(front) && At(front + rest, HINT, i) && i + 5 <= |front|
    ensures i + 5 == |front|
  {
    HintShape();
    AtChar(front + rest, HINT, i, 4);
    AtChar(front + rest, HINT, i, 5);
  }

  const KEY_GAP: string := "\","

  lemma MiddleShape(t: string)
    ensures MIDDLE + t == "\"" + ("," + (HINT + (":" + ("\"" + t))))
    ensures MIDDLE + t == KEY_GAP + (HINT + (":" + ("\"" + t)))
    ensures ':' !in "," + HINT
  {
  }

  lemma HintNotInMiddle(front: string, t: string, i: nat)
    requires |front| < i + 5 < |front| + 7
    ensures !At(front + (MIDDLE + t), HINT, i)
  {
    HintShape();
    var body := front + (MIDDLE + t);
    if At(body, HINT, i) {
      AtChar(body, HINT, i, 4);
      AtChar(body, HINT, i, 5);
    }
  }

  lemma HintInMiddle(front: string, t: string)
    ensures At(front + (MIDDLE + t), HINT, |front| + 2)
  {
    HintShape();
    assert (front + (MIDDLE + t))[|front| + 2..|front| + 8] == MIDDLE[2..8];
  }

  /** The hint key stands at its own place or ends in the quote that closes the message. */
  lemma HintPlaces(front: string, t: string, at: nat)
    requires Guarded(front) && At(front + (MIDDLE + t), HINT, at) && at <= |front| + 2
    ensures at == |front| + 2 || at + 5 == |front|
  {
    if at + 5 <= |front| {
      HintOnlyAtClose(front, MIDDLE + t, at);
    } else if at < |front| + 2 {
      HintNotInMiddle(front, t, at);
    }
  }

  lemma Regroup(a: string, b: string, c: string, d: string)
    ensures a + (b + (c + d)) == ((a + b) + c) + ("" + d)
  {
  }

  lemma HintFieldAt(front: string, t: string)
    requires Find(front + (MIDDLE + t), HINT, 0) == Some(|front| + 2)
    ensures Field(front + (MIDDLE + t), "hint") == ScanString(t, false)
  {
    HintShape();
    MiddleShape(t);
    Regroup(front, KEY_GAP, HINT, ":" + ("\"" + t));
    FieldIs(front + (MIDDLE + t), "hint", front + KEY_GAP, "", t);
  }

  lemma CutTwice(s: string, n: nat, m: nat)
    requires n <= m <= |s|
    ensures s == (s[..n] + s[n..m]) + s[m..]
  {
  }

  lemma DropBoth(a: string, b: string, c: string)
    ensures (a + (b + c))[|a| + |b|..] == c
  {
  }

  lemma HintFieldBefore(front: string, t: string)
    requires |front| >= 5 && Find(front + (MIDDLE + t), HINT, 0) == Some(|front| - 5)
    ensures Field(front + (MIDDLE + t), "hint") == ScanString(t, false)
  {
    HintShape();
    MiddleShape(t);
    var n, body, value := |front| - 5, front + (MIDDLE + t), ":" + ("\"" + t);
    CutTwice(body, n, n + 6);
    DropBoth(front, "\"", "," + (HINT + value));
    Associates(",", HINT, value);
    FieldIs(body, "hint", body[..n], "," + HINT, t);
  }

  /** Whatever the message and whatever follows, the hint field is what the scanner finds behind the real key. */
  lemma HintField(m: string, t: string)
    ensures Field((HEAD + Escape(m)) + (MIDDLE + t), "hint") == ScanString(t, false)
  {
    var front := HEAD + Escape(m);
    GuardedFront(m);
    HintInMiddle(front, t);
    FindBounds(front + (MIDDLE + t), HINT, 0, |front| + 2);
    HintPlaces(front, t, Find(front + (MIDDLE + t), HINT, 0).value);
    if Find(front + (MIDDLE + t), HINT, 0) == Some(|front| + 2) {
      HintFieldAt(front, t);
    } else {
      HintFieldBefore(front, t);
    }
  }

  /** A body that lost its hint key has no hint field. */
  lemma NoHintField(m: string)
    ensures Field((HEAD + Escape(m)) + CLOSE, "hint") == None
  {
    HintShape();
    var front := HEAD + Escape(m);
    var body := front + CLOSE;
    GuardedFront(m);
    var at := Find(body, HINT, 0);
    if at.Some? {
      if at.value + 5 <= |front| {
        HintOnlyAtClose(front, CLOSE, at.value);
        assert body[at.value + 6..] == "}";
        AtSingle("}", ':', 0);
        AtSingle("}", ':', 1);
      } else {
        AtChar(body, HINT, at.value, 5);
      }
    }
  }

  // What fits.

  /** Escaping into the buffer stops after some prefix, the whole string exactly when all of it fits. */
  lemma {:induction false} PushEscapedCuts(cap: nat, out: string, s: string) returns (k: nat)
    requires Width(out) <= cap
    ensures k <= |s| && PushEscaped(cap, out, s) == out + Escape(s[..k]) && Width(out + Escape(s[..k])) <= cap
    ensures k < |s| ==> Width(out + Escape(s[..k])) + Width(EscapeChar(s[k])) > cap
    ensures k == |s| <==> Width(out) + Width(Escape(s)) <= cap
    decreases |s|
  {
    if s == "" {
      assert out + "" == out;
      return 0;
    }
    var e := EscapeChar(s[0]);
    WidthConcat(out, e);
    WidthConcat(e, Escape(s[1..]));
    if Width(out) + Width(e) > cap {
      assert s[..0] == "" && out + "" == out;
      return 0;
    }
    var j := PushEscapedCuts(cap, out + e, s[1..]);
    k := j + 1;
    assert s[..k][0] == s[0] && s[..k][1..] == s[1..][..j];
    Associates(out, e, Escape(s[1..][..j]));
  }

  lemma {:induction false} WidthBounds(s: string)
    ensures |s| <= Width(s) <= 4 * |s|
  {
    if s != "" {
      WidthBounds(s[1..]);
    }
  }

  lemma EscapeCharNarrow(c: char)
    ensures Width(EscapeChar(c)) <= 4
  {
    var e := EscapeChar(c);
    assert e[1..] == if |e| == 2 then [e[1]] else "";
    assert |e| == 2 ==> Width(e[1..]) == 1;
  }

  lemma EscapeFirst(s: string)
    requires s != ""
    ensures Width(EscapeChar(s[0])) <= Width(Escape(s))
  {
    WidthConcat(EscapeChar(s[0]), Escape(s[1..]));
  }

  /** The end of a body: closed, or cut before the closing quote. */
  predicate Ending(end: string) {
    end == CLOSE || end == ""
  }

  lemma ScanEnding(s: string, end: string)
    requires Ending(end)
    ensures ScanString(Escape(s) + end, false) == if end == CLOSE then Some(Escape(s)) else None
  {
    ScanEscaped(s, "}");
    assert CLOSE == "\"" + "}" && CLOSE != "";
    assert Escape(s) + "" == Escape(s);
  }

  lemma NoOverrun(msg: string, k: nat, hint: string, j: nat)
    requires k <= |msg| && j <= |hint|
    requires j > 0 && k < |msg| ==> hint[0] != msg[k]
    ensures msg[..k] + hint[..j] == msg ==> j == 0
  {
    var q := msg[..k] + hint[..j];
    assert j > 0 ==> q[k] == hint[0];
  }

  /** When the hint key does not fit, hint text runs on inside the error field. */
  lemma WithoutKey(msg: string, k: nat, hint: string, j: nat, end: string)
    requires k <= |msg| && j <= |hint| && Ending(end)
    requires j > 0 && k < |msg| ==> hint[0] != msg[k]
    ensures var body := HEAD + (Escape(msg[..k] + hint[..j]) + end);
      !(Field(body, "error") == Some(Escape(msg)) && Field(body, "hint") == Some(Escape(hint)))
  {
    var q := msg[..k] + hint[..j];
    ErrorField(Escape(q) + end);
    ScanEnding(q, end);
    if end == CLOSE && Escape(q) == Escape(msg) {
      EscapeInjective(q, msg);
      NoOverrun(msg, k, hint, j);
      NoHintField(msg);
      Associates(HEAD, Escape(msg), CLOSE);
    }
  }

  lemma WithKey(msg: string, hint: string, j: nat, end: string)
    requires j <= |hint| && Ending(end)
    ensures var body := (HEAD + Escape(msg)) + (MIDDLE + (Escape(hint[..j]) + end));
      (Field(body, "error") == Some(Escape(msg)) && Field(body, "hint") == Some(Escape(hint)))
        <==> j == |hint| && end == CLOSE
  {
    var t := Escape(hint[..j]) + end;
    HintField(msg, t);
    ScanEnding(hint[..j], end);
    MiddleShape(t);
    var x := "," + (HINT + (":" + ("\"" + t)));
    Associates(HEAD, Escape(msg), MIDDLE + t);
    ErrorField(Escape(msg) + (MIDDLE + t));
    ScanEscaped(msg, x);
    if Escape(hint[..j]) == Escape(hint) {
      EscapeInjective(hint[..j], hint);
    }
    assert j == |hint| ==> hint[..j] == hint;
  }

  // The forms a body can take.

  /** With room for the key, the message is whole and the hint may be cut; without, hint text follows the message. */
  function Form(keyed: bool, head: string, m: string, middle: string, h: string, end: string): (body: string) {
    if keyed then (head + Escape(m)) + (middle + (Escape(h) + end)) else head + (Escape(m + h) + end)
  }

  lemma KeyedForm(cap: nat, a: string, middle: string, hint: string, close: string) returns (j: nat, end: string)
    requires Width(a) + Width(middle) <= cap && close != ""
    ensures j <= |hint| && (end == close || end == "")
    ensures Push(cap, PushEscaped(cap, a + middle, hint), close) == a + (middle + (Escape(hint[..j]) + end))
    ensures j == |hint| && end == close <==> Width(a) + Width(middle) + Width(Escape(hint)) + Width(close) <= cap
  {
    WidthConcat(a, middle);
    j := PushEscapedCuts(cap, a + middle, hint);
    var e := Escape(hint[..j]);
    WidthConcat(a + middle, e);
    end := if Width(a + middle + e) + Width(close) <= cap then close else "";
    assert (a + middle + e) + "" == a + middle + e;
    Associates(a, middle, e);
    Associates(a, middle + e, end);
    Associates(middle, e, end);
    assert j == |hint| ==> hint[..j] == hint;
  }

  lemma UnkeyedForm(cap: nat, head: string, m: string, hint: string, close: string) returns (j: nat, end: string)
    requires Width(head + Escape(m)) <= cap
    ensures j <= |hint| && (end == close || end == "")
    ensures Push(cap, PushEscaped(cap, head + Escape(m), hint), close) == head + (Escape(m + hint[..j]) + end)
    ensures j > 0 ==> Width(head + Escape(m)) + Width(EscapeChar(hint[0])) <= cap
  {
    var a := head + Escape(m);
    j := PushEscapedCuts(cap, a, hint);
    var e := Escape(hint[..j]);
    end := if Width(a + e) + Width(close) <= cap then close else "";
    EscapeConcat(m, hint[..j]);
    Associates(head, Escape(m), e);
    Associates(head, Escape(m) + e, end);
    assert (a + e) + "" == a + e;
    if j > 0 {
      EscapeFirst(hint[..j]);
      WidthConcat(a, e);
    }
  }

  /** Every body has one of the two forms, and is complete exactly when all its parts fit together. */
  lemma AssembleForms(cap: nat, head: string, msg: string, middle: string, hint: string, close: string)
    returns (keyed: bool, k: nat, j: nat, end: string)
    requires Width(head) <= cap && Width(middle) >= 4 && close != ""
    ensures k <= |msg| && j <= |hint| && (end == close || end == "") && (keyed ==> k == |msg|)
    ensures Assemble(cap, head, msg, middle, hint, close) == Form(keyed, head, msg[..k], middle, hint[..j], end)
    ensures !keyed && j > 0 && k < |msg| ==> hint[0] != msg[k]
    ensures (keyed && j == |hint| && end == close)
       <==> Width(head) + Width(Escape(msg)) + Width(middle) + Width(Escape(hint)) + Width(close) <= cap
  {
    assert "" + head == head;
    k := PushEscapedCuts(cap, head, msg);
    var a := head + Escape(msg[..k]);
    WidthConcat(head, Escape(msg[..k]));
    assert k == |msg| ==> msg[..k] == msg;
    keyed := Width(a) + Width(middle) <= cap;
    if k < |msg| {
      EscapeCharNarrow(msg[k]);
    }
    if keyed {
      j, end := KeyedForm(cap, a, middle, hint, close);
    } else {
      j, end := UnkeyedForm(cap, head, msg[..k], hint, close);
    }
  }

  // The main result.

  predicate ReadsBack(body: string, msg: string, hint: string) {
    Field(body, "error") == Some(Escape(msg)) && Field(body, "hint") == Some(Escape(hint))
  }

  lemma FormReadsBack(keyed: bool, msg: string, k: nat, hint: string, j: nat, end: string)
    requires k <= |msg| && j <= |hint| && Ending(end) && (keyed ==> k == |msg|)
    requires !keyed && j > 0 && k < |msg| ==> hint[0] != msg[k]
    ensures ReadsBack(Form(keyed, HEAD, msg[..k], MIDDLE, hint[..j], end), msg, hint)
       <==> keyed && j == |hint| && end == CLOSE
  {
    if keyed {
      assert msg[..k] == msg;
      WithKey(msg, hint, j, end);
    } else {
      WithoutKey(msg, k, hint, j, end);
    }
  }

  /** The body holds the whole message and the whole hint. */
  predicate Fits(msg: string, hint: string) {
    Width(HEAD) + Width(Escape(msg)) + Width(MIDDLE) + Width(Escape(hint)) + Width(CLOSE) <= 256
  }

  /**
   Both fields read back as the escaped message and hint exactly when the body fits its buffer, and
   unescaping then recovers both, so no text can forge or cut short a field of a body that fits.
   */
  lemma FieldsReadBackExactly(msg: string, hint: string)
    ensures ReadsBack(ErrHint(msg, hint), msg, hint) <==> Fits(msg, hint)
    ensures Unescape(Escape(msg)) == msg && Unescape(Escape(hint)) == hint
  {
    UnescapeUndoesEscape(msg);
    UnescapeUndoesEscape(hint);
    WidthBounds(HEAD);
    WidthBounds(MIDDLE);
    var keyed, k, j, end := AssembleForms(CAPACITY, HEAD, msg, MIDDLE, hint, CLOSE);
    FormReadsBack(keyed, msg, k, hint, j, end);
  }

  /** A message as long as the buffer does not fit, and then a field is lost. */
  lemma OverlongBody(msg: string, hint: string)
    requires |msg| >= 256
    ensures !ReadsBack(ErrHint(msg, hint), msg, hint)
  {
    FieldsReadBackExactly(msg, hint);
    EscapeNoShorter(msg);
    WidthBounds(Escape(msg));
    WidthBounds(HEAD);
  }

  lemma {:induction false} EscapeNoShorter(s: string)
    ensures |Escape(s)| >= |s|
  {
    if s != "" {
      EscapeNoShorter(s[1..]);
    }
  }
}
