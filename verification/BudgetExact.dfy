/**
 What the budget reader makes of each line a writer can produce, and of whole logs:
 it counts the card's own status words exactly, and only free text can mislead it.
 */
module BudgetExact {
  import opened Basics
  import opened Bytes
  import opened WallText
  import opened Budget
  import opened CalmText

  // Searching.

  lemma LowerConcat(a: string, b: string)
    ensures LowerCase(a + b) == LowerCase(a) + LowerCase(b)
  {
  }

  lemma NoStartConcat(a: string, b: string, c: char, d: char)
    requires NoStart(a, c, d) && NoStart(b, c, d)
    ensures NoStart(a + b, c, d)
  {
  }

  lemma LacksConcat(a: string, b: string, c: char, d: char)
    requires NoStart(LowerCase(a), c, d) && NoStart(LowerCase(b), c, d)
    ensures NoStart(LowerCase(a + b), c, d)
  {
    LowerConcat(a, b);
  }

  /** Text before which nothing can start does not change what is found. */
  lemma ContainsAfter(pre: string, t: string, pat: string)
    requires |pat| >= 2 && NoStart(pre, pat[0], pat[1])
    ensures Contains(pre + t, pat) <==> Contains(t, pat)
  {
    var s := pre + t;
    if Contains(s, pat) {
      var i :| 0 <= i <= |s| - |pat| && At(s, pat, i);
      assert s[i] == pat[0] && s[i + 1] == pat[1];
      assert i >= |pre|;
      assert s[i..i + |pat|] == t[i - |pre|..i - |pre| + |pat|];
      assert At(t, pat, i - |pre|);
    }
    if Contains(t, pat) {
      var i :| 0 <= i <= |t| - |pat| && At(t, pat, i);
      assert s[i + |pre|..i + |pre| + |pat|] == t[i..i + |pat|];
      assert At(s, pat, i + |pre|);
    }
  }

  lemma NotContained(s: string, pat: string)
    requires |pat| >= 2 && NoStart(s, pat[0], pat[1])
    ensures !Contains(s, pat)
  {
    ContainsAfter(s, "", pat);
    assert s + "" == s;
  }

  lemma ContainsIn(pre: string, pat: string, post: string)
    ensures Contains(pre + pat + post, pat)
  {
    assert At(pre + pat + post, pat, |pre|);
  }

  lemma FrontOrLater(s: string, pat: string)
    requires s != "" && Contains(s, pat)
    ensures At(s, pat, 0) || Contains(s[1..], pat)
  {
    var i :| 0 <= i <= |s| - |pat| && At(s, pat, i);
    if i > 0 {
      assert s[1..][i - 1..i - 1 + |pat|] == s[i..i + |pat|];
      assert At(s[1..], pat, i - 1);
    }
  }

  /** A pattern that can only start at the front is found exactly when it is the front. */
  lemma ContainsAtFront(s: string, pat: string)
    requires |pat| >= 2 && |s| >= |pat| && NoStart(s[1..], pat[0], pat[1])
    ensures Contains(s, pat) <==> s[..|pat|] == pat
  {
    if s[..|pat|] == pat {
      assert At(s, pat, 0);
    }
    NotContained(s[1..], pat);
    if Contains(s, pat) {
      FrontOrLater(s, pat);
    }
  }

  // The alphabet of the fixed parts.

  lemma DigitsLackLetters(n: nat, c: char, d: char)
    requires c < '0' || '9' < c
    ensures NoStart(LowerCase(Digits(n)), c, d)
  {
    ValueOfDigits(n);
  }

  lemma {:induction false} HexLacks(data: seq<byte>, c: char, d: char)
    requires c in {'r', 's', 'w'}
    ensures NoStart(LowerCase(HexText(data)), c, d)
  {
    if data != [] {
      HexLacks(data[..|data| - 1], c, d);
      LowerConcat(HexText(data[..|data| - 1]), HexByte(data[|data| - 1]));
    }
  }

  lemma PrefixLacks(ts: nat, word: string, c: char, d: char)
    requires c in {'r', 's', 'w'} && NoStart(LowerCase(word), c, d)
    ensures NoStart(LowerCase(Prefix(ts) + word), c, d)
  {
    DigitsLackLetters(ts, c, d);
    LacksConcat("[", Digits(ts), c, d);
    LacksConcat("[" + Digits(ts), "] ", c, d);
    LacksConcat(Prefix(ts), word, c, d);
  }

  lemma SizedLacks(data: seq<byte>, c: char, d: char)
    requires c in {'r', 's', 'w'}
    ensures NoStart(LowerCase(Sized(data)), c, d)
  {
    DigitsLackLetters(|data|, c, d);
    HexLacks(data, c, d);
    LacksConcat("len=", Digits(|data|), c, d);
    LacksConcat("len=" + Digits(|data|), " data=", c, d);
    LacksConcat("len=" + Digits(|data|) + " data=", HexText(data), c, d);
  }

  // Lines without free text.

  lemma NothingIn(line: string)
    requires NoStart(LowerCase(line), 'r', 'x') && NoStart(LowerCase(line), 'w', 'i')
    ensures Classify(line) == Other
  {
    NotContained(LowerCase(line), "rx");
    NotContained(LowerCase(line), "wipe: success");
  }

  lemma BehindWordLacks(ts: nat, word: string, rest: string, c: char, d: char)
    requires c in {'r', 's', 'w'} && NoStart(LowerCase(word), c, d) && NoStart(LowerCase(rest), c, d)
    ensures NoStart(LowerCase(Prefix(ts) + (word + rest)), c, d)
  {
    PrefixLacks(ts, word, c, d);
    LacksConcat(Prefix(ts) + word, rest, c, d);
    Associates(Prefix(ts), word, rest);
  }

  lemma TransmissionLacks(l: LogLine, c: char, d: char)
    requires l.Tx? || l.GetUid? || l.GetUidOk?
    requires (c == 'r' && d == 'x') || (c == 'w' && d == 'i')
    ensures NoStart(LowerCase(Render(l)), c, d)
  {
    match l
    case Tx(ts, apdu) =>
      ProseIsQuiet(TX_APDU);
      SizedLacks(apdu, c, d);
      BehindWordLacks(ts, TX_APDU, Sized(apdu), c, d);
    case GetUid(ts) =>
      ProseIsQuiet(GET_UID);
      PrefixLacks(ts, GET_UID, c, d);
    case GetUidOk(ts, uid) =>
      QuietJoin(GET_UID, UID_TAIL);
      UidWords();
      HexLacks(uid, c, d);
      BehindWordLacks(ts, GET_UID + UID_TAIL, HexText(uid), c, d);
  }

  lemma TransmissionsAreOther(l: LogLine)
    requires l.Tx? || l.GetUid? || l.GetUidOk?
    ensures Classify(Render(l)) == Other
  {
    TransmissionLacks(l, 'r', 'x');
    TransmissionLacks(l, 'w', 'i');
    NothingIn(Render(l));
  }

  // Responses.

  lemma NibbleLower(n: nat)
    requires n < 16
    ensures Lower(UpperNibble(n)) as int == if n < 10 then 48 + n else 87 + n
  {
  }

  lemma HexByteLower(b: byte, t: byte)
    ensures LowerCase(HexByte(b)) == LowerCase(HexByte(t)) <==> b == t
  {
    NibbleLower(b / 16);
    NibbleLower(b % 16);
    NibbleLower(t / 16);
    NibbleLower(t % 16);
    var x, y := LowerCase(HexByte(b)), LowerCase(HexByte(t));
    assert x[0] == y[0] ==> b / 16 == t / 16;
    assert x[1] == y[1] ==> b % 16 == t % 16;
  }

  lemma StatusFieldLower(sw1: byte, sw2: byte, t1: byte, t2: byte)
    ensures LowerCase(StatusField(sw1, sw2)) == LowerCase(StatusField(t1, t2)) <==> sw1 == t1 && sw2 == t2
  {
    HexByteLower(sw1, t1);
    HexByteLower(sw2, t2);
    var f, g := LowerCase(StatusField(sw1, sw2)), LowerCase(StatusField(t1, t2));
    assert f[3..5] == LowerCase(HexByte(sw1)) && f[5..7] == LowerCase(HexByte(sw2));
    assert g[3..5] == LowerCase(HexByte(t1)) && g[5..7] == LowerCase(HexByte(t2));
  }

  lemma StatusPatterns()
    ensures LowerCase(StatusField(0x91, 0xAE)) == "sw=91ae"
    ensures LowerCase(StatusField(0x91, 0xAD)) == "sw=91ad"
  {
  }

  lemma StatusLacks(sw1: byte, sw2: byte, c: char, d: char)
    requires (c == 's' && d == 'w') || (c == 'w' && d == 'i')
    ensures NoStart(LowerCase(StatusField(sw1, sw2))[1..], c, d)
  {
    NibbleLower(sw1 / 16);
    NibbleLower(sw1 % 16);
    NibbleLower(sw2 / 16);
    NibbleLower(sw2 % 16);
    var f := LowerCase(StatusField(sw1, sw2));
    assert f[1] == 'w' && f[2] == '=';
    assert f[3] == Lower(UpperNibble(sw1 / 16)) && f[4] == Lower(UpperNibble(sw1 % 16));
    assert f[5] == Lower(UpperNibble(sw2 / 16)) && f[6] == Lower(UpperNibble(sw2 % 16));
  }

  lemma NoStartJoin(a: string, b: string, c: char, d: char)
    requires a != "" && NoStart(a[1..], c, d) && NoStart(b, c, d)
    ensures (a + b)[..|a|] == a && NoStart((a + b)[1..], c, d)
  {
    NoStartConcat(a[1..], b, c, d);
    assert (a + b)[1..] == a[1..] + b;
  }

  lemma NoStartFront(s: string, c: char, d: char)
    requires s != "" && s[0] != c && NoStart(s[1..], c, d)
    ensures NoStart(s, c, d)
  {
    assert s == s[..1] + s[1..];
    NoStartConcat(s[..1], s[1..], c, d);
  }

  /** After the words of a response line, a status pattern can only be the status field itself. */
  lemma ResponseTail(sw1: byte, sw2: byte, data: seq<byte>, c: char, d: char)
    requires (c == 's' && d == 'w') || (c == 'w' && d == 'i')
    ensures var tail := LowerCase(Response(sw1, sw2, data));
      |tail| >= 7 && tail[..7] == LowerCase(StatusField(sw1, sw2)) && NoStart(tail[1..], c, d)
  {
    var f, rest := StatusField(sw1, sw2), " " + Sized(data);
    SizedLacks(data, c, d);
    LacksConcat(" ", Sized(data), c, d);
    LowerConcat(f, rest);
    StatusLacks(sw1, sw2, c, d);
    NoStartJoin(LowerCase(f), LowerCase(rest), c, d);
  }

  lemma ResponseHas(ts: nat, word: string, sw1: byte, sw2: byte, data: seq<byte>, t: byte)
    requires Quiet(word) && LowerCase(StatusField(0x91, t)) in {"sw=91ae", "sw=91ad"}
    ensures Contains(LowerCase(Prefix(ts) + (word + Response(sw1, sw2, data))), LowerCase(StatusField(0x91, t)))
       <==> sw1 == 0x91 && sw2 == t
  {
    var head, tail, pat := Prefix(ts) + word, Response(sw1, sw2, data), LowerCase(StatusField(0x91, t));
    Associates(Prefix(ts), word, tail);
    LowerConcat(head, tail);
    PrefixLacks(ts, word, 's', 'w');
    ResponseTail(sw1, sw2, data, 's', 'w');
    ContainsAfter(LowerCase(head), LowerCase(tail), pat);
    ContainsAtFront(LowerCase(tail), pat);
    StatusFieldLower(sw1, sw2, 0x91, t);
  }

  /** A pattern that can start neither in the head nor in the tail is not in the line. */
  lemma NeitherPart(head: string, tail: string, pat: string)
    requires |pat| >= 2 && NoStart(LowerCase(head), pat[0], pat[1])
    requires tail != "" && LowerCase(tail)[0] != pat[0] && NoStart(LowerCase(tail)[1..], pat[0], pat[1])
    ensures !Contains(LowerCase(head + tail), pat)
  {
    LowerConcat(head, tail);
    NoStartFront(LowerCase(tail), pat[0], pat[1]);
    ContainsAfter(LowerCase(head), LowerCase(tail), pat);
    NotContained(LowerCase(tail), pat);
  }

  lemma ResponseLacksWipe(ts: nat, word: string, sw1: byte, sw2: byte, data: seq<byte>)
    requires Quiet(word)
    ensures !Contains(LowerCase(Prefix(ts) + (word + Response(sw1, sw2, data))), "wipe: success")
  {
    var head, tail := Prefix(ts) + word, Response(sw1, sw2, data);
    Associates(Prefix(ts), word, tail);
    PrefixLacks(ts, word, 'w', 'i');
    ResponseTail(sw1, sw2, data, 'w', 'i');
    assert LowerCase(tail)[0] == Lower(tail[0]) && tail[0] == 's';
    NeitherPart(head, tail, "wipe: success");
  }

  /** A response line counts by its status word alone, whatever its payload. */
  lemma ResponsesByStatus(l: LogLine)
    requires l.RxOk?
    ensures Classify(Render(l)) ==
      if l.sw1 == 0x91 && l.sw2 == 0xAE then Failure else if l.sw1 == 0x91 && l.sw2 == 0xAD then Delay else Other
  {
    var word := "RX OK   ";
    ReceivedIsQuiet(OK_TAIL);
    ReceivedWords();
    StatusPatterns();
    RxFound(l.ts, word, Response(l.sw1, l.sw2, l.data));
    ResponseHas(l.ts, word, l.sw1, l.sw2, l.data, 0xAE);
    ResponseHas(l.ts, word, l.sw1, l.sw2, l.data, 0xAD);
    ResponseLacksWipe(l.ts, word, l.sw1, l.sw2, l.data);
  }

  lemma RxFound(ts: nat, word: string, rest: string)
    requires |word| >= 2 && word[..2] == "RX"
    ensures Contains(LowerCase(Prefix(ts) + (word + rest)), "rx")
  {
    var p := LowerCase(Prefix(ts));
    LowerConcat(Prefix(ts), word + rest);
    LowerConcat(word, rest);
    assert LowerCase(word)[..2] == "rx";
    assert At(LowerCase(Prefix(ts) + (word + rest)), "rx", |p|);
  }

  // Lines with free text.

  predicate Has(text: string, pat: string) {
    Contains(LowerCase(text), pat)
  }

  predicate HasStatus(text: string) {
    Has(text, "sw=91ae") || Has(text, "sw=91ad")
  }

  const WIPE_SUCCESS: string := "wipe: SUCCESS"

  predicate IsWipeEvent(text: string) {
    |text| >= |WIPE_SUCCESS| && text[..|WIPE_SUCCESS|] == WIPE_SUCCESS
  }

  /** What a line records, as its writer means it. */
  function TrueKind(l: LogLine): (k: Kind) {
    match l
    case RxOk(_, sw1, sw2, _) =>
      if sw1 == 0x91 && sw2 == 0xAE then Failure else if sw1 == 0x91 && sw2 == 0xAD then Delay else Other
    case Event(_, text) => if IsWipeEvent(text) then Wipe else Other
    case _ => Other
  }

  /** The free text of the line, if it has any, does not look like something else to the reader. */
  predicate Honest(l: LogLine) {
    match l
    case RxErr(_, error) => !HasStatus(error) && !Has(error, "wipe: success")
    case GetUidErr(_, error) => !(Has(error, "rx") && HasStatus(error)) && !Has(error, "wipe: success")
    case Banner(_, text) => !(Has(text, "rx") && HasStatus(text)) && !Has(text, "wipe: success")
    case Event(_, text) => !(Has(text, "rx") && HasStatus(text)) && (Has(text, "wipe: success") ==> IsWipeEvent(text))
    case _ => true
  }

  lemma FreeTextSearch(ts: nat, word: string, text: string, pat: string)
    requires |pat| >= 2 && pat[0] in {'r', 's', 'w'} && NoStart(LowerCase(word), pat[0], pat[1])
    ensures Has(Prefix(ts) + (word + text), pat) <==> Has(text, pat)
  {
    Associates(Prefix(ts), word, text);
    PrefixLacks(ts, word, pat[0], pat[1]);
    LowerConcat(Prefix(ts) + word, text);
    ContainsAfter(LowerCase(Prefix(ts) + word), LowerCase(text), pat);
  }

  /** No pattern can start in the words that stand before free text. */
  predicate Quiet(word: string) {
    NoStart(LowerCase(word), 's', 'w') && NoStart(LowerCase(word), 'w', 'i')
  }

  lemma FreeTextRead(ts: nat, word: string, text: string)
    requires Quiet(word)
    ensures var line := Prefix(ts) + (word + text);
      && (Has(line, "sw=91ae") <==> Has(text, "sw=91ae")) && (Has(line, "sw=91ad") <==> Has(text, "sw=91ad"))
      && (Has(line, "wipe: success") <==> Has(text, "wipe: success"))
  {
    FreeTextSearch(ts, word, text, "sw=91ae");
    FreeTextSearch(ts, word, text, "sw=91ad");
    FreeTextSearch(ts, word, text, "wipe: success");
  }

  lemma WipeEventFound(text: string)
    requires IsWipeEvent(text)
    ensures Has(text, "wipe: success")
  {
    assert LowerCase(WIPE_SUCCESS) == "wipe: success";
    assert LowerCase(text)[..|WIPE_SUCCESS|] == LowerCase(WIPE_SUCCESS);
    assert At(LowerCase(text), "wipe: success", 0);
  }

  const TX_APDU: Prose := "TX APDU "
  const GET_UID: Prose := "GET_UID"
  const UID_TAIL: Prose := " OK   uid="
  const SESSION_START: Prose := "SESSION START "
  const EVENT: Prose := "EVENT  "
  const ERROR_TAIL: Prose := " ERR  error="
  const OK_TAIL: Prose := " OK   "

  lemma ProseIsQuiet(w: Prose)
    requires w != "" && Lower(w[|w| - 1]) !in {'r', 's', 'w'}
    ensures Quiet(w) && NoStart(LowerCase(w), 'r', 'x')
  {
    WordIsTame(w, true, true);
    CalmNoStart(w, 'r', 'x');
    CalmNoStart(w, 's', 'w');
    CalmNoStart(w, 'w', 'i');
  }

  lemma UidWords()
    ensures GET_UID + ERROR_TAIL == "GET_UID ERR  error=" && GET_UID + UID_TAIL == "GET_UID OK   uid="
  {
  }

  lemma ReceivedWords()
    ensures "RX" + ERROR_TAIL == "RX ERR  error=" && "RX" + OK_TAIL == "RX OK   "
  {
  }

  lemma QuietJoin(a: Prose, b: Prose)
    requires a != "" && Lower(a[|a| - 1]) !in {'r', 's', 'w'}
    requires b != "" && Lower(b[|b| - 1]) !in {'r', 's', 'w'}
    ensures Quiet(a + b) && NoStart(LowerCase(a + b), 'r', 'x')
  {
    ProseIsQuiet(a);
    ProseIsQuiet(b);
    LacksConcat(a, b, 'r', 'x');
    LacksConcat(a, b, 's', 'w');
    LacksConcat(a, b, 'w', 'i');
  }

  /** The words of a response line. */
  lemma ReceivedIsQuiet(w: Prose)
    requires w != "" && Lower(w[|w| - 1]) !in {'r', 's', 'w'}
    ensures Quiet("RX" + w)
  {
    ProseIsQuiet(w);
    LacksConcat("RX", w, 's', 'w');
    LacksConcat("RX", w, 'w', 'i');
  }

  /** A line with free text behind a word that is no response: what the reader finds is what the text holds. */
  lemma QuotingLineKind(ts: nat, word: string, text: string)
    requires Quiet(word) && NoStart(LowerCase(word), 'r', 'x')
    ensures Classify(Prefix(ts) + (word + text)) == Classify(text)
  {
    FreeTextRead(ts, word, text);
    FreeTextSearch(ts, word, text, "rx");
  }

  lemma RxErrLineRead(ts: nat, error: string)
    ensures Classify(Render(RxErr(ts, error))) == Other <==> Honest(RxErr(ts, error))
  {
    ReceivedIsQuiet(ERROR_TAIL);
    ReceivedWords();
    FreeTextRead(ts, "RX ERR  error=", error);
    RxFound(ts, "RX ERR  error=", error);
  }

  lemma UidErrLineRead(ts: nat, error: string)
    ensures Classify(Render(GetUidErr(ts, error))) == Other <==> Honest(GetUidErr(ts, error))
  {
    QuietJoin(GET_UID, ERROR_TAIL);
    UidWords();
    QuotingLineKind(ts, "GET_UID ERR  error=", error);
  }

  lemma BannerLineRead(ts: nat, text: string)
    ensures Classify(Render(Banner(ts, text))) == Other <==> Honest(Banner(ts, text))
  {
    ProseIsQuiet(SESSION_START);
    QuotingLineKind(ts, "SESSION START ", text);
  }

  lemma EventLineRead(ts: nat, text: string)
    ensures Classify(Render(Event(ts, text))) == TrueKind(Event(ts, text)) <==> Honest(Event(ts, text))
  {
    ProseIsQuiet(EVENT);
    QuotingLineKind(ts, "EVENT  ", text);
    if IsWipeEvent(text) {
      WipeEventFound(text);
    }
  }

  /** A line, seen whole, is taken for what it is exactly when its free text is honest. */
  lemma LineKind(l: LogLine)
    ensures Classify(Render(l)) == TrueKind(l) <==> Honest(l)
  {
    if l.RxOk? {
      ResponsesByStatus(l);
    } else if l.Tx? || l.GetUid? || l.GetUidOk? {
      TransmissionsAreOther(l);
    } else if l.Event? {
      EventLineRead(l.ts, l.text);
    } else if l.Banner? {
      BannerLineRead(l.ts, l.text);
    } else if l.RxErr? {
      RxErrLineRead(l.ts, l.error);
    } else {
      UidErrLineRead(l.ts, l.error);
    }
  }

  // Whole logs.

  function FreeText(l: LogLine): (t: string) {
    match l
    case RxErr(_, error) => error
    case GetUidErr(_, error) => error
    case Banner(_, text) => text
    case Event(_, text) => text
    case _ => ""
  }

  function Written(ls: seq<LogLine>): (text: string) {
    if ls == [] then "" else Render(ls[0]) + "\n" + Written(ls[1..])
  }

  lemma {:induction false} HexOneLine(data: seq<byte>)
    ensures '\n' !in HexText(data)
  {
    if data != [] {
      HexOneLine(data[..|data| - 1]);
    }
  }

  lemma SizedOneLine(data: seq<byte>)
    ensures '\n' !in Sized(data)
  {
    ValueOfDigits(|data|);
    HexOneLine(data);
  }

  lemma ResponseOneLine(sw1: byte, sw2: byte, data: seq<byte>)
    ensures '\n' !in Response(sw1, sw2, data)
  {
    SizedOneLine(data);
  }

  lemma ProseOneLine(w: Prose, rest: string)
    requires '\n' !in rest
    ensures '\n' !in w && '\n' !in w + rest
  {
    WordIsTame(w, true, true);
  }

  lemma TwoProseOneLine(a: Prose, b: Prose, rest: string)
    requires '\n' !in rest
    ensures '\n' !in (a + b) + rest
  {
    ProseOneLine(a, rest);
    ProseOneLine(b, rest);
  }

  lemma ReceivedOneLine(w: Prose, rest: string)
    requires '\n' !in rest
    ensures '\n' !in ("RX" + w) + rest
  {
    ProseOneLine(w, rest);
  }

  lemma QuotingOneLine(l: LogLine)
    requires l.RxErr? || l.GetUidErr? || l.Event? || l.Banner?
    requires '\n' !in FreeText(l)
    ensures '\n' !in Body(l)
  {
    match l
    case RxErr(_, error) =>
      ReceivedOneLine(ERROR_TAIL, error);
      ReceivedWords();
    case GetUidErr(_, error) =>
      TwoProseOneLine(GET_UID, ERROR_TAIL, error);
      UidWords();
    case Event(_, text) => ProseOneLine(EVENT, text);
    case Banner(_, text) => ProseOneLine(SESSION_START, text);
  }

  lemma BodyOneLine(l: LogLine)
    requires '\n' !in FreeText(l)
    ensures '\n' !in Body(l)
  {
    match l
    case Tx(_, apdu) =>
      SizedOneLine(apdu);
      ProseOneLine(TX_APDU, Sized(apdu));
    case RxOk(_, sw1, sw2, data) =>
      ResponseOneLine(sw1, sw2, data);
      ReceivedOneLine(OK_TAIL, Response(sw1, sw2, data));
      ReceivedWords();
    case GetUid(_) => ProseOneLine(GET_UID, "");
    case GetUidOk(_, uid) =>
      HexOneLine(uid);
      TwoProseOneLine(GET_UID, UID_TAIL, HexText(uid));
      UidWords();
    case _ => QuotingOneLine(l);
  }

  lemma RenderOneLine(l: LogLine)
    requires '\n' !in FreeText(l)
    ensures '\n' !in Render(l)
  {
    ValueOfDigits(l.ts);
    BodyOneLine(l);
  }

  lemma {:induction false} LineEndFinds(line: string, rest: string, from: nat)
    requires '\n' !in line && from <= |line|
    ensures LineEnd(line + "\n" + rest, from) == |line|
    decreases |line| - from
  {
    if from < |line| {
      LineEndFinds(line, rest, from + 1);
    }
  }

  lemma LinesOfOne(line: string, rest: string)
    requires '\n' !in line
    ensures Lines(line + "\n" + rest) == [Chomp(line)] + Lines(rest)
  {
    LineEndFinds(line, rest, 0);
    var text := line + "\n" + rest;
    assert text[..|line|] == line && text[|line| + 1..] == rest;
  }

  /** A carriage return before the newline goes with it. */
  lemma ReturnDropped(line: string, rest: string)
    requires '\n' !in line
    ensures Lines((line + "\r") + "\n" + rest) == [line] + Lines(rest)
  {
    LinesOfOne(line + "\r", rest);
    assert Chomp(line + "\r") == line;
  }

  /** A line that does not end in one is read as it is. */
  lemma LineKept(line: string, rest: string)
    requires '\n' !in line && (line == "" || line[|line| - 1] != '\r')
    ensures Lines(line + "\n" + rest) == [line] + Lines(rest)
  {
    LinesOfOne(line, rest);
    assert Chomp(line) == line;
  }

  predicate OnOneLine(l: LogLine) {
    '\n' !in FreeText(l)
  }

  predicate AllOnOneLine(ls: seq<LogLine>) {
    forall i :: 0 <= i < |ls| ==> OnOneLine(ls[i])
  }

  /** A written line as the reader cuts it out. */
  function CutLine(l: LogLine): (s: string) {
    Chomp(Render(l))
  }

  lemma {:induction false} LinesOfWritten(ls: seq<LogLine>)
    requires AllOnOneLine(ls)
    ensures Lines(Written(ls)) == Mapped(CutLine, ls)
  {
    if ls != [] {
      assert OnOneLine(ls[0]);
      RenderOneLine(ls[0]);
      LinesOfOne(Render(ls[0]), Written(ls[1..]));
      LinesOfWritten(ls[1..]);
    }
  }

  lemma ReturnKeepsMatches(t: string, pat: string)
    requires pat != "" && pat[|pat| - 1] != '\r'
    ensures Contains(t + "\r", pat) <==> Contains(t, pat)
  {
    var s := t + "\r";
    if Contains(s, pat) {
      var i :| 0 <= i <= |s| - |pat| && At(s, pat, i);
      assert s[i + |pat| - 1] == pat[|pat| - 1];
      assert t[i..i + |pat|] == s[i..i + |pat|];
      assert At(t, pat, i);
    }
    if Contains(t, pat) {
      var i :| 0 <= i <= |t| - |pat| && At(t, pat, i);
      assert s[i..i + |pat|] == t[i..i + |pat|];
      assert At(s, pat, i);
    }
  }

  lemma ChompKeepsMatches(s: string, pat: string)
    requires pat != "" && pat[|pat| - 1] != '\r'
    ensures Has(Chomp(s), pat) <==> Has(s, pat)
  {
    var t := Chomp(s);
    if t != s {
      assert s == t + "\r";
      LowerConcat(t, "\r");
      assert LowerCase("\r") == "\r";
      ReturnKeepsMatches(LowerCase(t), pat);
    }
  }

  lemma ChompKeepsKind(s: string)
    ensures Classify(Chomp(s)) == Classify(s)
  {
    ChompKeepsMatches(s, "rx");
    ChompKeepsMatches(s, "sw=91ae");
    ChompKeepsMatches(s, "sw=91ad");
    ChompKeepsMatches(s, "wipe: success");
  }

  function TrueKinds(ls: seq<LogLine>): (ks: seq<Kind>)
    ensures |ks| == |ls|
    ensures forall i :: 0 <= i < |ls| ==> ks[i] == TrueKind(ls[i])
  {
    seq(|ls|, i requires 0 <= i < |ls| => TrueKind(ls[i]))
  }

  // A newline in free text makes more lines than were written.

  function Newlines(s: string): (n: nat) {
    if s == "" then 0 else (if s[0] == '\n' then 1 else 0) + Newlines(s[1..])
  }

  lemma {:induction false} NewlinesConcat(a: string, b: string)
    ensures Newlines(a + b) == Newlines(a) + Newlines(b)
  {
    if a == "" {
      assert a + b == b;
    } else {
      NewlinesConcat(a[1..], b);
      assert (a + b)[1..] == a[1..] + b;
    }
  }

  lemma {:induction false} NoNewlines(s: string)
    ensures Newlines(s) == 0 <==> '\n' !in s
  {
    if s != "" {
      NoNewlines(s[1..]);
      assert s == [s[0]] + s[1..];
    }
  }

  lemma {:induction false} LineEndFound(text: string, from: nat, k: nat)
    requires from <= k < |text| && text[k] == '\n'
    ensures LineEnd(text, from) <= k
    decreases |text| - from
  {
    if text[from] != '\n' {
      LineEndFound(text, from + 1, k);
    }
  }

  predicate Terminated(text: string) {
    text == "" || text[|text| - 1] == '\n'
  }

  lemma {:induction false} LinesCounted(text: string)
    requires Terminated(text)
    ensures |Lines(text)| == Newlines(text)
    decreases |text|
  {
    if text != "" {
      var i := LineEnd(text, 0);
      LineEndFound(text, 0, |text| - 1);
      var line, rest := text[..i], text[i + 1..];
      assert text == (line + "\n") + rest && text[0..i] == line;
      NewlinesConcat(line + "\n", rest);
      NewlinesConcat(line, "\n");
      NoNewlines(line);
      assert Newlines("\n") == 1;
      LinesCounted(rest);
    }
  }

  lemma NewlinesOfLine(line: string, rest: string)
    ensures Newlines(line + "\n" + rest) == Newlines(line) + 1 + Newlines(rest)
  {
    NewlinesConcat(line + "\n", rest);
    NewlinesConcat(line, "\n");
    assert Newlines("\n") == 1;
  }

  lemma TerminatedConcat(line: string, rest: string)
    requires Terminated(rest)
    ensures Terminated(line + "\n" + rest)
  {
  }

  lemma {:induction false} WrittenNewlines(ls: seq<LogLine>)
    ensures Terminated(Written(ls)) && Newlines(Written(ls)) >= |ls|
    ensures Newlines(Written(ls)) == |ls| <==> forall i :: 0 <= i < |ls| ==> '\n' !in Render(ls[i])
  {
    if ls != [] {
      var line, rest := Render(ls[0]), Written(ls[1..]);
      WrittenNewlines(ls[1..]);
      NewlinesOfLine(line, rest);
      TerminatedConcat(line, rest);
      NoNewlines(line);
      assert forall i :: 0 < i < |ls| ==> ls[i] == ls[1..][i - 1];
    }
  }

  lemma FreeTextRendered(l: LogLine)
    ensures '\n' in Render(l) <==> '\n' in FreeText(l)
  {
    if '\n' !in FreeText(l) {
      RenderOneLine(l);
    }
  }

  /**
   The reader sees every line of a log for what it is exactly when all free text in it is honest and stays on
   its line.
   */
  lemma LogRead(ls: seq<LogLine>)
    ensures Kinds(Lines(Written(ls))) == TrueKinds(ls)
      <==> forall i :: 0 <= i < |ls| ==> Honest(ls[i]) && '\n' !in FreeText(ls[i])
  {
    forall i | 0 <= i < |ls|
      ensures '\n' in Render(ls[i]) <==> '\n' in FreeText(ls[i])
    {
      FreeTextRendered(ls[i]);
    }
    WrittenNewlines(ls);
    LinesCounted(Written(ls));
    if AllOnOneLine(ls) {
      OneLineEach(ls);
    } else {
      assert |Kinds(Lines(Written(ls)))| != |TrueKinds(ls)|;
    }
  }

  /** What a line of kind `t` can be read as: no failure or delay is lost, and a wipe only to one of them. */
  predicate Inflates(k: Kind, t: Kind) {
    k == t || t == Other || (t == Wipe && (k == Failure || k == Delay))
  }

  /** A line that is misread is misread for something that counts. */
  lemma LineInflates(l: LogLine)
    ensures Inflates(Classify(Render(l)), TrueKind(l))
  {
    if l.RxOk? {
      ResponsesByStatus(l);
    } else if l.Event? && IsWipeEvent(l.text) {
      ProseIsQuiet(EVENT);
      QuotingLineKind(l.ts, "EVENT  ", l.text);
      WipeEventFound(l.text);
    }
  }

  predicate AllInflate(ks: seq<Kind>, ts: seq<Kind>) {
    |ks| == |ts| && forall i :: 0 <= i < |ks| ==> Inflates(ks[i], ts[i])
  }

  /** How a written line is read once it is cut out of the text. */
  lemma CutLineKind(l: LogLine)
    ensures Classify(Chomp(Render(l))) == TrueKind(l) <==> Honest(l)
    ensures Inflates(Classify(Chomp(Render(l))), TrueKind(l))
  {
    ChompKeepsKind(Render(l));
    LineKind(l);
    LineInflates(l);
  }

  lemma OneLineEach(ls: seq<LogLine>)
    requires AllOnOneLine(ls)
    ensures Kinds(Lines(Written(ls))) == TrueKinds(ls) <==> forall i :: 0 <= i < |ls| ==> Honest(ls[i])
    ensures AllInflate(Kinds(Lines(Written(ls))), TrueKinds(ls))
  {
    LinesOfWritten(ls);
    var ks, ts := Kinds(Lines(Written(ls))), TrueKinds(ls);
    forall i | 0 <= i < |ls|
      ensures (ks[i] == ts[i] <==> Honest(ls[i])) && Inflates(ks[i], ts[i])
    {
      MappedAt(CutLine, ls, i);
      CutLineKind(ls[i]);
    }
    SameKinds(ks, ts);
  }

  lemma SameKinds(ks: seq<Kind>, ts: seq<Kind>)
    requires |ks| == |ts|
    ensures ks == ts <==> forall i :: 0 <= i < |ks| ==> ks[i] == ts[i]
  {
  }

  /** One written line is read as the one line it is exactly when its free text is honest and stays on the line. */
  lemma LineRead(l: LogLine)
    ensures Kinds(Lines(Render(l) + "\n")) == [TrueKind(l)] <==> Honest(l) && '\n' !in FreeText(l)
  {
    LogRead([l]);
    assert Written([l][1..]) == "";
    assert Written([l]) == Render(l) + "\n";
    assert TrueKinds([l]) == [TrueKind(l)];
    assert [l][0] == l;
  }

  // The account.

  function Counted(ks: seq<Kind>): (n: nat) {
    Count(ks, Failure) + Count(ks, Delay) + Count(ks, Wipe)
  }

  function One(b: bool): (n: nat) {
    if b then 1 else 0
  }

  lemma OneLineInflates(k: Kind, t: Kind)
    requires Inflates(k, t)
    ensures One(k == Failure) >= One(t == Failure) && One(k == Delay) >= One(t == Delay)
    ensures One(k == Failure) + One(k == Delay) + One(k == Wipe) >= One(t == Failure) + One(t == Delay) + One(t == Wipe)
    ensures (One(k == Failure) == One(t == Failure) && One(k == Delay) == One(t == Delay)
             && One(k == Wipe) == One(t == Wipe)) ==> k == t
  {
  }

  lemma CountExtend(ks: seq<Kind>, k: Kind)
    requires ks != []
    ensures var n := |ks| - 1; Count(ks, k) == Count(ks[..n], k) + One(ks[n] == k)
  {
  }

  lemma CountedExtend(ks: seq<Kind>)
    requires ks != []
    ensures var n := |ks| - 1;
      && Count(ks, Failure) == Count(ks[..n], Failure) + One(ks[n] == Failure)
      && Count(ks, Delay) == Count(ks[..n], Delay) + One(ks[n] == Delay)
      && Counted(ks) == Counted(ks[..n]) + (One(ks[n] == Failure) + One(ks[n] == Delay) + One(ks[n] == Wipe))
  {
    CountExtend(ks, Failure);
    CountExtend(ks, Delay);
    CountExtend(ks, Wipe);
  }

  /** Misreading only adds, so counts that agree are counts of the same lines. */
  lemma {:induction false} CountsTell(ks: seq<Kind>, ts: seq<Kind>)
    requires AllInflate(ks, ts)
    ensures Count(ks, Failure) >= Count(ts, Failure) && Count(ks, Delay) >= Count(ts, Delay)
      && Counted(ks) >= Counted(ts)
    ensures (Count(ks, Failure) == Count(ts, Failure) && Count(ks, Delay) == Count(ts, Delay)
             && Counted(ks) == Counted(ts)) ==> ks == ts
  {
    if ks != [] {
      var n := |ks| - 1;
      CountsTell(ks[..n], ts[..n]);
      CountedExtend(ks);
      CountedExtend(ts);
      assert Inflates(ks[n], ts[n]);
      OneLineInflates(ks[n], ts[n]);
      assert ks == ks[..n] + [ks[n]] && ts == ts[..n] + [ts[n]];
    }
  }

  /**
   The account of a log is that of what its lines record exactly when all its free text is honest and stays
   on its line.
   */
  lemma LogCounted(ls: seq<LogLine>)
    ensures Account(Kinds(Lines(Written(ls)))) == Account(TrueKinds(ls))
       <==> forall i :: 0 <= i < |ls| ==> Honest(ls[i]) && '\n' !in FreeText(ls[i])
  {
    LogRead(ls);
    var ks := Kinds(Lines(Written(ls)));
    if Account(ks) == Account(TrueKinds(ls)) {
      WrittenNewlines(ls);
      LinesCounted(Written(ls));
      forall i | 0 <= i < |ls|
        ensures '\n' !in FreeText(ls[i])
      {
        FreeTextRendered(ls[i]);
      }
      OneLineEach(ls);
      CountsTell(ks, TrueKinds(ls));
    }
  }

  /** Free text can also break its line in two, however honest the parts. */
  lemma BrokenLine(ts: nat, before: string, after: string)
    ensures var l := Event(ts, before + "\n" + after);
      Kinds(Lines(Render(l) + "\n")) != [TrueKind(l)]
  {
    var text := before + "\n" + after;
    assert text[|before|] == '\n';
    LineRead(Event(ts, text));
  }

  lemma HasIn(pre: string, part: string, post: string, pat: string)
    requires pat == LowerCase(part)
    ensures Has(pre + part + post, pat)
  {
    LowerConcat(pre, part);
    LowerConcat(pre + part, post);
    ContainsIn(LowerCase(pre), pat, LowerCase(post));
  }

  lemma ForgedLine(ts: nat, text: string)
    requires Has(text, "rx") && Has(text, "sw=91ae")
    ensures Classify(Render(Event(ts, text))) == Failure
  {
    ProseIsQuiet(EVENT);
    QuotingLineKind(ts, "EVENT  ", text);
  }

  lemma MiddleParts(before: string, a: string, b: string, c: string, after: string)
    ensures before + (a + b + c) + after == before + a + ((b + c) + after)
    ensures before + (a + b + c) + after == (before + (a + b)) + c + after
  {
  }

  /** Free text can forge a failure: the event line of a burn carries its URL. */
  lemma ForgedFailure(ts: nat, before: string, after: string)
    requires !IsWipeEvent(before + "rx?sw=91AE" + after)
    ensures var l := Event(ts, before + "rx?sw=91AE" + after);
      Classify(Render(l)) == Failure && TrueKind(l) == Other
  {
    assert "rx?sw=91AE" == "rx" + "?" + "sw=91AE";
    MiddleParts(before, "rx", "?", "sw=91AE", after);
    HasIn(before, "rx", ("?" + "sw=91AE") + after, "rx");
    HasIn(before + ("rx" + "?"), "sw=91AE", after, "sw=91ae");
    ForgedLine(ts, before + "rx?sw=91AE" + after);
  }
}
