/**
 The texts the tool writes into the audit log: the session banner, the clock note and the messages of
 wipe, burn and scan. All of them are honest to the budget reader except for what they quote: the host
 and program name, the URL of a burn and the error of a scan.
 */
module AuditText {
  import opened Basics
  import opened Bytes
  import CivilDate
  import opened WallText
  import opened Budget
  import opened CalmText
  import opened BudgetExact

  // Searching text that cannot be taken for something else.

  lemma PairFound(s: string, pat: string, k: nat) returns (i: nat)
    requires k + 1 < |pat| && Has(s, pat)
    ensures i + 1 < |s| && Lower(s[i]) == pat[k] && Lower(s[i + 1]) == pat[k + 1]
  {
    var t := LowerCase(s);
    var at :| 0 <= at <= |t| - |pat| && At(t, pat, at);
    AtChar(t, pat, at, k);
    AtChar(t, pat, at, k + 1);
    i := at + k;
  }

  lemma CalmLacks(s: string, pat: string, k: nat)
    requires k + 1 < |pat| && Calm(s, pat[k], pat[k + 1])
    ensures !Has(s, pat)
  {
    if Has(s, pat) {
      var i := PairFound(s, pat, k);
    }
  }

  /** Calm text that does not end in the first letter of the pattern hides nothing that follows. */
  lemma CalmBefore(s: string, t: string, pat: string)
    requires |pat| >= 2 && Calm(s, pat[0], pat[1]) && (s == "" || Lower(s[|s| - 1]) != pat[0])
    ensures Has(s + t, pat) <==> Has(t, pat)
  {
    LowerConcat(s, t);
    ContainsAfter(LowerCase(s), LowerCase(t), pat);
  }

  lemma FoundInJoin(a: string, b: string, pat: string)
    requires Contains(a, pat) || Contains(b, pat)
    ensures Contains(a + b, pat)
  {
    if Contains(a, pat) {
      var i :| 0 <= i <= |a| - |pat| && At(a, pat, i);
      assert (a + b)[i..i + |pat|] == a[i..i + |pat|];
      assert At(a + b, pat, i);
    } else {
      var i :| 0 <= i <= |b| - |pat| && At(b, pat, i);
      assert (a + b)[|a| + i..|a| + i + |pat|] == b[i..i + |pat|];
      assert At(a + b, pat, |a| + i);
    }
  }

  /** A match that does not straddle the blank after `a` lies on one side of it. */
  lemma FoundOnOneSide(a: string, t: string, pat: string, i: nat)
    requires |t| >= 2 && t[0] == ' ' && pat != "" && At(a + t, pat, i)
    requires forall j :: 0 <= j < |pat| && pat[j] == ' ' ==> j + 1 < |pat| && pat[j + 1] != t[1]
    ensures Contains(a, pat) || Contains(t[1..], pat)
  {
    var l := a + t;
    if i + |pat| <= |a| {
      assert a[i..i + |pat|] == l[i..i + |pat|];
      assert At(a, pat, i);
    } else if i > |a| {
      assert t[1..][i - |a| - 1..i - |a| - 1 + |pat|] == l[i..i + |pat|];
      assert At(t[1..], pat, i - |a| - 1);
    } else {
      AtChar(l, pat, i, |a| - i);
      AtChar(l, pat, i, |a| - i + 1);
    }
  }

  /** Text behind a blank is searched apart from the text before it, if the pattern does not go on like it. */
  lemma BlankCuts(a: string, t: string, pat: string)
    requires |t| >= 2 && t[0] == ' '
    requires pat != "" && forall j :: 0 <= j < |pat| && pat[j] == ' ' ==> j + 1 < |pat| && pat[j + 1] != Lower(t[1])
    ensures Has(a + t, pat) <==> Has(a, pat) || Has(t[1..], pat)
  {
    var la, lt := LowerCase(a), LowerCase(t);
    LowerConcat(a, t);
    assert LowerCase(t[1..]) == lt[1..] && lt == " " + lt[1..];
    if Contains(la + lt, pat) {
      var i :| 0 <= i <= |la + lt| - |pat| && At(la + lt, pat, i);
      FoundOnOneSide(la, lt, pat, i);
    }
    if Contains(la, pat) {
      FoundInJoin(la, lt, pat);
    }
    if Contains(lt[1..], pat) {
      FoundInJoin(" ", lt[1..], pat);
      FoundInJoin(la, lt, pat);
    }
  }

  /** Text of digits and the first letters of the alphabet. */
  predicate HexOnly(s: string) {
    forall i :: 0 <= i < |s| ==> '0' <= s[i] <= '9' || 'a' <= s[i] <= 'f'
  }

  lemma HexIsTame(s: string, wi: bool, ip: bool)
    requires HexOnly(s)
    ensures Tame(s, wi, ip)
  {
  }

  lemma DigitsOnly(n: nat)
    ensures HexOnly(Digits(n))
  {
    ValueOfDigits(n);
  }

  function LowerHex(data: seq<byte>): (s: string) {
    LowerCase(HexText(data))
  }

  lemma HexByteOnly(b: byte)
    ensures HexOnly(LowerCase(HexByte(b)))
  {
    NibbleLower(b / 16);
    NibbleLower(b % 16);
  }

  lemma {:induction false} HexTextOnly(data: seq<byte>)
    ensures HexOnly(LowerHex(data))
  {
    if data != [] {
      var n := |data| - 1;
      HexTextOnly(data[..n]);
      LowerConcat(HexText(data[..n]), HexByte(data[n]));
      HexByteOnly(data[n]);
    }
  }

  // The fixed pieces of the texts.

  const FACTORY_DEFAULT: Prose := "FactoryDefault"
  const STATIC_TEST_KEY: Prose := "StaticTestKey"
  const PROXY_ISSUED: Prose := "ProxyIssued"
  const UNKNOWN_EXTERNAL: Prose := "UnknownExternal"
  const DERIVED_ISSUER: Prose := "DerivedIssuer("
  const PROVENANCE: Prose := " [provenance="
  const CLOSING: Prose := ")"
  const BRACKET: Prose := "]"

  const FACTORY_K0: Prose := "factory K0"
  const ZEROS: Prose := " (zeros)"
  const DERIVED_K0: Prose := "derived K0 v"
  const STATIC_TEST: Prose := "static test key"
  const ELEVENS: Prose := " (0x11..11)"
  const CARD_KEY: Prose := "card key v1"

  const WIPE: string := "wipe: "
  const P_C: Prose := "p/c pre-"
  const VERIFICATION: Prose := "verification"
  const SKIPPED: string := " skipped"
  const FLAG: Prose := " by explicit"
  const FLAG_END: Prose := " flag"
  const RAW_KEYSET: Prose := "raw keyset"
  const VERIFIED: Prose := " K0–K4 verified"
  const BEFORE: Prose := " before first"
  const MUTATION: Prose := " mutation"
  const STARTING: Prose := "starting — UID="
  const VERSION: Prose := ", version="
  const FAILED: Prose := "FAILED"
  const SUCCESS: Prose := "SUCCESS"
  const ALL_KEYS: Prose := " — all keys"
  const RESET: Prose := " reset to"
  const TO_ZEROS: Prose := " factory zeros"

  const BURN: Prose := "burn: "
  const AUTHENTICATED: Prose := "authenticated"
  const WITH: string := " with "
  const PROVIDED_K0: Prose := "provided K0"
  const RE_BURN: Prose := " (re-burn)"
  const URL: Prose := ", url="
  const K1_TO_K4: Prose := " — K1-K4 + K0"
  const INSTALLED: Prose := " installed ("

  const SCAN: Prose := "scan-keys: "
  const TRYING: Prose := "trying "
  const ACCEPTED: Prose := "ACCEPTED "
  const KEY_IS: Prose := " = "
  const REJECTED: Prose := "REJECTED "
  const AUTH_DELAY: Prose := "AUTH DELAY"
  const DETECTED: Prose := " detected,"
  const ABORTING: Prose := " aborting"
  const ERROR_ON: Prose := "ERROR on "
  const COLON: Prose := ": "
  const NO_CANDIDATE: Prose := "no candidate"
  const MATCHED: Prose := " matched"

  // Provenance and messages.

  datatype Provenance = FactoryDefault | DerivedIssuer(version: byte) | StaticTestKey | ProxyIssued | UnknownExternal

  function Tag(p: Provenance): (s: string) {
    match p
    case FactoryDefault => FACTORY_DEFAULT
    case DerivedIssuer(version) => DERIVED_ISSUER + (Digits(version) + CLOSING)
    case StaticTestKey => STATIC_TEST_KEY
    case ProxyIssued => PROXY_ISSUED
    case UnknownExternal => UNKNOWN_EXTERNAL
  }

  function Suffix(p: Option<Provenance>): (s: string) {
    if p.None? then "" else PROVENANCE + (Tag(p.value) + BRACKET)
  }

  /** The candidates of a scan, as it names them. */
  datatype Label = FactoryZeros | Derived(version: byte) | StaticTest | CardKey

  function LabelText(l: Label): (s: string) {
    match l
    case FactoryZeros => FACTORY_K0 + ZEROS
    case Derived(version) => DERIVED_K0 + Digits(version)
    case StaticTest => STATIC_TEST + ELEVENS
    case CardKey => CARD_KEY
  }

  // They are tame.

  /** Ends in no first letter of a pair. */
  predicate Ends(s: string) {
    s != "" && Lower(s[|s| - 1]) !in {'r', 's', 'w', 'i'}
  }

  /** Begins with no second letter of a pair. */
  predicate Begins(s: string) {
    s != "" && Lower(s[0]) !in {'x', 'w', 'i', 'p'}
  }

  lemma ProseTame(s: Prose, wi: bool, ip: bool)
    ensures Tame(s, wi, ip)
  {
    WordIsTame(s, true, true);
  }

  lemma AfterProse(a: Prose, t: string, wi: bool, ip: bool)
    requires Tame(t, wi, ip) && (Ends(a) || Begins(t))
    ensures Tame(a + t, wi, ip)
  {
    ProseTame(a, wi, ip);
    TameJoin(a, t, wi, ip);
  }

  lemma BeforeProse(t: string, b: Prose, wi: bool, ip: bool)
    requires Tame(t, wi, ip) && Begins(b)
    ensures Tame(t + b, wi, ip)
  {
    ProseTame(b, wi, ip);
    TameJoin(t, b, wi, ip);
  }

  lemma HexBefore(h: string, t: string, wi: bool, ip: bool)
    requires HexOnly(h) && Tame(t, wi, ip)
    ensures Tame(h + t, wi, ip)
  {
    HexIsTame(h, wi, ip);
    TameJoin(h, t, wi, ip);
  }

  lemma DerivedTagTame(version: byte)
    ensures Tame(DERIVED_ISSUER + (Digits(version) + CLOSING), true, true)
  {
    DigitsOnly(version);
    ProseTame(CLOSING, true, true);
    HexBefore(Digits(version), CLOSING, true, true);
    AfterProse(DERIVED_ISSUER, Digits(version) + CLOSING, true, true);
  }

  lemma TagTame(p: Provenance)
    ensures Tame(Tag(p), true, true)
  {
    match p
    case DerivedIssuer(version) => DerivedTagTame(version);
    case FactoryDefault => ProseTame(FACTORY_DEFAULT, true, true);
    case StaticTestKey => ProseTame(STATIC_TEST_KEY, true, true);
    case ProxyIssued => ProseTame(PROXY_ISSUED, true, true);
    case UnknownExternal => ProseTame(UNKNOWN_EXTERNAL, true, true);
  }

  lemma SuffixTame(p: Option<Provenance>)
    ensures Tame(Suffix(p), true, true)
  {
    if p.Some? {
      TagTame(p.value);
      BeforeProse(Tag(p.value), BRACKET, true, true);
      AfterProse(PROVENANCE, Tag(p.value) + BRACKET, true, true);
    }
  }

  lemma LabelTame(l: Label)
    ensures Tame(LabelText(l), true, true)
  {
    match l
    case FactoryZeros =>
      ProseTame(ZEROS, true, true);
      AfterProse(FACTORY_K0, ZEROS, true, true);
    case Derived(version) =>
      DigitsOnly(version);
      HexIsTame(Digits(version), true, true);
      AfterProse(DERIVED_K0, Digits(version), true, true);
    case StaticTest =>
      ProseTame(ELEVENS, true, true);
      AfterProse(STATIC_TEST, ELEVENS, true, true);
    case CardKey => ProseTame(CARD_KEY, true, true);
  }

  // Chains of pieces, each of which ends or goes on harmlessly.

  predicate Seam(a: string, b: string) {
    Ends(a) || Begins(b)
  }

  lemma Chain(a: Prose, b: Prose, t: string, wi: bool, ip: bool)
    requires Tame(t, wi, ip) && Seam(a, b) && b != "" && Seam(b, t)
    ensures Tame(b + t, wi, ip) && Tame(a + (b + t), wi, ip)
  {
    AfterProse(b, t, wi, ip);
    AfterProse(a, b + t, wi, ip);
  }

  lemma FourProse(a: Prose, b: Prose, e: Prose, f: Prose)
    requires Seam(a, b) && Seam(b, e) && Seam(e, f) && b != "" && e != ""
    ensures Tame(a + (b + (e + f)), true, true)
  {
    ProseTame(f, true, true);
    AfterProse(e, f, true, true);
    Chain(a, b, e + f, true, true);
  }

  lemma HexFramed(a: Prose, h: string, b: Prose, k: string, e: Prose)
    requires Ends(a) && Begins(b) && Ends(b) && HexOnly(h) && HexOnly(k) && (e == "" || Begins(e))
    ensures Tame(a + (h + (b + (k + e))), true, true)
  {
    ProseTame(e, true, true);
    HexBefore(k, e, true, true);
    AfterProse(b, k + e, true, true);
    HexBefore(h, b + (k + e), true, true);
    AfterProse(a, h + (b + (k + e)), true, true);
  }

  lemma SkippedTame(a: Prose, b: Prose, skipped: string, e: Prose, f: Prose)
    requires Word(skipped, true, false) && Begins(skipped) && Begins(e) && Begins(f) && Seam(a, b) && b != ""
    ensures Tame(a + (b + (skipped + (e + f))), true, false)
  {
    ProseTame(f, true, false);
    AfterProse(e, f, true, false);
    WordIsTame(skipped, true, false);
    TameJoin(skipped, e + f, true, false);
    Chain(a, b, skipped + (e + f), true, false);
  }

  lemma WithTame(a: Prose, b: Prose, with_: string, t: string)
    requires Word(with_, false, true) && Begins(with_) && Ends(with_) && Tame(t, false, true) && Seam(a, b) && b != ""
    ensures Tame(a + (b + (with_ + t)), false, true)
  {
    WordIsTame(with_, false, true);
    TameJoin(with_, t, false, true);
    Chain(a, b, with_ + t, false, true);
  }

  // The messages.

  /** How a scan may name a candidate; `LabelTame` shows that its labels are such names. */
  type Name = s: string | Tame(s, true, true) witness ""

  datatype WipeMessage =
    | WipeSkips | WipeVerified | WipeStarting(uid: seq<byte>, version: byte) | WipeFailed | WipeSucceeded

  datatype BurnMessage =
    | BurnFactory | BurnProvided | BurnStarting(uid: seq<byte>, version: byte, url: string) | BurnFailed
    | BurnSucceeded(tag: Provenance)

  datatype ScanMessage =
    | ScanTrying(name: Name) | ScanAccepted(name: Name, key: seq<byte>) | ScanRejected(name: Name)
    | ScanDelayed | ScanError(name: Name, error: string) | ScanNothing

  datatype Message = Wiping(w: WipeMessage) | Burning(b: BurnMessage) | Scanning(s: ScanMessage)

  lemma StartingTame(uid: seq<byte>, version: byte)
    ensures Tame(STARTING + (LowerHex(uid) + (VERSION + Digits(version))), true, true)
  {
    HexTextOnly(uid);
    DigitsOnly(version);
    HexFramed(STARTING, LowerHex(uid), VERSION, Digits(version), "");
    assert Digits(version) + "" == Digits(version);
  }

  lemma SkipsTame()
    ensures Tame(P_C + (VERIFICATION + (SKIPPED + (FLAG + FLAG_END))), true, false)
  {
    SkippedTame(P_C, VERIFICATION, SKIPPED, FLAG, FLAG_END);
  }

  lemma VerifiedTame()
    ensures Tame(RAW_KEYSET + (VERIFIED + (BEFORE + MUTATION)), true, false)
  {
    FourProse(RAW_KEYSET, VERIFIED, BEFORE, MUTATION);
  }

  lemma SucceededTame()
    ensures Tame(SUCCESS + (ALL_KEYS + (RESET + TO_ZEROS)), true, false)
  {
    FourProse(SUCCESS, ALL_KEYS, RESET, TO_ZEROS);
  }

  /** A wipe message behind its leading word. */
  function WipeBody(m: WipeMessage): (s: string) {
    match m
    case WipeSkips => P_C + (VERIFICATION + (SKIPPED + (FLAG + FLAG_END)))
    case WipeVerified => RAW_KEYSET + (VERIFIED + (BEFORE + MUTATION))
    case WipeStarting(uid, version) => STARTING + (LowerHex(uid) + (VERSION + Digits(version)))
    case WipeFailed => FAILED
    case WipeSucceeded => SUCCESS + (ALL_KEYS + (RESET + TO_ZEROS))
  }

  lemma WipeBodyTame(m: WipeMessage)
    ensures Tame(WipeBody(m), true, false)
  {
    match m
    case WipeSkips => SkipsTame();
    case WipeVerified => VerifiedTame();
    case WipeStarting(uid, version) => StartingTame(uid, version);
    case WipeFailed => ProseTame(FAILED, true, false);
    case WipeSucceeded => SucceededTame();
  }
  // Burn and scan.

  lemma FactoryTame()
    ensures Tame(BURN + (AUTHENTICATED + (WITH + FACTORY_K0)), false, true)
  {
    assert Word(WITH, false, true);
    ProseTame(FACTORY_K0, false, true);
    WithTame(BURN, AUTHENTICATED, WITH, FACTORY_K0);
  }

  lemma ProvidedTame()
    ensures Tame(BURN + (AUTHENTICATED + (WITH + (PROVIDED_K0 + RE_BURN))), false, true)
  {
    assert Word(WITH, false, true);
    ProseTame(RE_BURN, false, true);
    AfterProse(PROVIDED_K0, RE_BURN, false, true);
    WithTame(BURN, AUTHENTICATED, WITH, PROVIDED_K0 + RE_BURN);
  }

  lemma BurnStartingTame(uid: seq<byte>, version: byte)
    ensures Tame(BURN + (STARTING + (LowerHex(uid) + (VERSION + (Digits(version) + URL)))), true, true)
  {
    HexTextOnly(uid);
    DigitsOnly(version);
    HexFramed(STARTING, LowerHex(uid), VERSION, Digits(version), URL);
    AfterProse(BURN, STARTING + (LowerHex(uid) + (VERSION + (Digits(version) + URL))), true, true);
  }

  lemma BurnFailedTame()
    ensures Tame(BURN + FAILED, true, true)
  {
    ProseTame(FAILED, true, true);
    AfterProse(BURN, FAILED, true, true);
  }

  lemma InstalledTame(tag: string)
    requires Tame(tag, true, true)
    ensures Tame(BURN + (SUCCESS + (K1_TO_K4 + (INSTALLED + (tag + CLOSING)))), true, true)
  {
    BeforeProse(tag, CLOSING, true, true);
    Chain(K1_TO_K4, INSTALLED, tag + CLOSING, true, true);
    Chain(BURN, SUCCESS, K1_TO_K4 + (INSTALLED + (tag + CLOSING)), true, true);
  }

  function BurnBody(m: BurnMessage): (s: string) {
    match m
    case BurnFactory => BURN + (AUTHENTICATED + (WITH + FACTORY_K0))
    case BurnProvided => BURN + (AUTHENTICATED + (WITH + (PROVIDED_K0 + RE_BURN)))
    case BurnStarting(uid, version, url) => BURN + (STARTING + (LowerHex(uid) + (VERSION + (Digits(version) + URL))))
    case BurnFailed => BURN + FAILED
    case BurnSucceeded(tag) => BURN + (SUCCESS + (K1_TO_K4 + (INSTALLED + (Tag(tag) + CLOSING))))
  }

  /** Whether the message lacks the first pair of "wipe: success". */
  predicate NoWi(m: BurnMessage) {
    !m.BurnFactory? && !m.BurnProvided?
  }

  lemma BurnBodyTame(m: BurnMessage)
    ensures Tame(BurnBody(m), NoWi(m), true)
  {
    match m
    case BurnFactory => FactoryTame();
    case BurnProvided => ProvidedTame();
    case BurnStarting(uid, version, url) => BurnStartingTame(uid, version);
    case BurnFailed => BurnFailedTame();
    case BurnSucceeded(tag) =>
      TagTame(tag);
      InstalledTame(Tag(tag));
  }

  lemma TryingTame(name: string)
    requires Tame(name, true, true)
    ensures Tame(SCAN + (TRYING + name), true, true) && Tame(SCAN + (REJECTED + name), true, true)
  {
    Chain(SCAN, TRYING, name, true, true);
    Chain(SCAN, REJECTED, name, true, true);
  }

  lemma AcceptedTame(name: string, key: string)
    requires Tame(name, true, true) && HexOnly(key)
    ensures Tame(SCAN + (ACCEPTED + (name + (KEY_IS + key))), true, true)
  {
    HexIsTame(key, true, true);
    AfterProse(KEY_IS, key, true, true);
    TameJoin(name, KEY_IS + key, true, true);
    Chain(SCAN, ACCEPTED, name + (KEY_IS + key), true, true);
  }

  lemma ScanErrorTame(name: string)
    requires Tame(name, true, true)
    ensures Tame(SCAN + (ERROR_ON + (name + COLON)), true, true)
  {
    BeforeProse(name, COLON, true, true);
    Chain(SCAN, ERROR_ON, name + COLON, true, true);
  }

  lemma DelayedTame()
    ensures Tame(SCAN + (AUTH_DELAY + (DETECTED + ABORTING)), true, true)
  {
    FourProse(SCAN, AUTH_DELAY, DETECTED, ABORTING);
  }

  lemma NothingTame()
    ensures Tame(SCAN + (NO_CANDIDATE + MATCHED), true, true)
  {
    ProseTame(MATCHED, true, true);
    Chain(SCAN, NO_CANDIDATE, MATCHED, true, true);
  }

  function ScanBody(m: ScanMessage): (s: string) {
    match m
    case ScanTrying(name) => SCAN + (TRYING + name)
    case ScanAccepted(name, key) => SCAN + (ACCEPTED + (name + (KEY_IS + LowerHex(key))))
    case ScanRejected(name) => SCAN + (REJECTED + name)
    case ScanDelayed => SCAN + (AUTH_DELAY + (DETECTED + ABORTING))
    case ScanError(name, error) => SCAN + (ERROR_ON + (name + COLON))
    case ScanNothing => SCAN + (NO_CANDIDATE + MATCHED)
  }

  lemma ScanBodyTame(m: ScanMessage)
    ensures Tame(ScanBody(m), true, true)
  {
    match m
    case ScanTrying(name) =>
      TryingTame(name);
    case ScanAccepted(name, key) =>
      HexTextOnly(key);
      AcceptedTame(name, LowerHex(key));
    case ScanRejected(name) =>
      TryingTame(name);
    case ScanDelayed => DelayedTame();
    case ScanError(name, error) =>
      ScanErrorTame(name);
    case ScanNothing => NothingTame();
  }

  // Whole event texts.

  function WipeEventText(m: WipeMessage, p: Option<Provenance>): (s: string) {
    (WIPE + WipeBody(m)) + ("" + Suffix(p))
  }

  /** What a burn message quotes: the URL it was given. */
  function BurnQuoted(m: BurnMessage): (s: string) {
    if m.BurnStarting? then m.url else ""
  }

  function BurnEventText(m: BurnMessage, p: Option<Provenance>): (s: string) {
    BurnBody(m) + (BurnQuoted(m) + Suffix(p))
  }

  /** What a scan message quotes: the error of the transport. */
  function ScanQuoted(m: ScanMessage): (s: string) {
    if m.ScanError? then m.error else ""
  }

  function ScanEventText(m: ScanMessage, p: Option<Provenance>): (s: string) {
    ScanBody(m) + (ScanQuoted(m) + Suffix(p))
  }

  /** What a text that quotes foreign words must not contain to stay what it is. */
  predicate Harmless(t: string) {
    !(Has(t, "rx") && HasStatus(t)) && !Has(t, "wipe: success") && '\n' !in t
  }

  lemma SuffixShape(p: Option<Provenance>)
    ensures p.None? ==> Suffix(p) == ""
    ensures p.Some? ==> |Suffix(p)| >= 2 && Suffix(p)[0] == ' ' && Suffix(p)[1] == '['
  {
  }

  lemma TameHasNoStatus(t: string, wi: bool, ip: bool)
    requires Tame(t, wi, ip)
    ensures !HasStatus(t) && '\n' !in t
    ensures ip ==> !Has(t, "wipe: success")
  {
    CalmLacks(t, "sw=91ae", 0);
    CalmLacks(t, "sw=91ad", 0);
    if ip {
      CalmLacks(t, "wipe: success", 1);
    }
  }

  /** What may follow a message: nothing, or a blank and a bracket. */
  predicate IsSuffix(s: string) {
    Tame(s, true, true) && (s == "" || (|s| >= 2 && s[0] == ' ' && s[1] == '['))
  }

  lemma SuffixFits(p: Option<Provenance>)
    ensures IsSuffix(Suffix(p))
  {
    SuffixTame(p);
    SuffixShape(p);
  }

  predicate Unremarkable(t: string) {
    !HasStatus(t) && !Has(t, "wipe: success") && '\n' !in t
  }

  lemma FixedText(o: string, s: string, wi: bool)
    requires Tame(o, wi, true) && IsSuffix(s)
    ensures Unremarkable(o + ("" + s))
  {
    assert "" + s == s;
    TameJoin(o, s, wi, true);
    TameHasNoStatus(o + s, wi, true);
  }

  // Wipe messages begin like the pattern.

  lemma FrontMatches(l: string, r: string)
    requires l == "wipe: " + r
    ensures At(l, "wipe: success", 0) <==> |r| >= 7 && r[..7] == "success"
  {
    var pat := "wipe: success";
    assert pat == "wipe: " + "success";
    if |r| >= 7 {
      assert l[..13] == "wipe: " + r[..7];
      if l[..13] == pat {
        assert r[..7] == l[6..13] == pat[6..];
      }
    }
  }

  lemma BehindFront(r: string)
    requires Calm(r, 'w', 'i')
    ensures !Contains("ipe: " + LowerCase(r), "wipe: success")
  {
    CalmJoin("ipe: ", r, 'w', 'i');
    CalmLacks("ipe: " + r, "wipe: success", 0);
    LowerConcat("ipe: ", r);
    assert LowerCase("ipe: ") == "ipe: ";
  }

  lemma WipeFront(r: string)
    requires Calm(r, 'w', 'i')
    ensures Has(WIPE + r, "wipe: success") <==> LooksDone(r)
  {
    LowerConcat(WIPE, r);
    assert LowerCase(WIPE) == "wipe: ";
    FrontOnly("wipe: " + LowerCase(r), LowerCase(r));
    BehindFront(r);
  }

  lemma FrontOnly(l: string, r: string)
    requires l == "wipe: " + r
    ensures !Contains("ipe: " + r, "wipe: success") ==>
      (Contains(l, "wipe: success") <==> |r| >= 7 && r[..7] == "success")
  {
    FrontMatches(l, r);
    assert l[1..] == "ipe: " + r;
    if Contains(l, "wipe: success") {
      FrontOrLater(l, "wipe: success");
    }
  }

  predicate LooksDone(r: string) {
    |r| >= 7 && LowerCase(r)[..7] == "success"
  }

  lemma NotDone(r: string)
    requires |r| >= 2 && !(Lower(r[0]) == 's' && Lower(r[1]) == 'u')
    ensures !LooksDone(r)
  {
    var l := LowerCase(r);
    assert |r| >= 7 ==> l[..7][0] == l[0] && l[..7][1] == l[1];
  }

  lemma StartsWith(a: Prose, t: string)
    requires |a| >= 2 && !(Lower(a[0]) == 's' && Lower(a[1]) == 'u')
    ensures !LooksDone(a + t)
  {
    NotDone(a + t);
  }

  lemma SucceededBody(t: string)
    ensures LooksDone(SUCCESS + t) && IsWipeEvent(WIPE + (SUCCESS + t))
  {
    LowerConcat(SUCCESS, t);
    assert LowerCase(SUCCESS) == "success";
    assert LowerCase(SUCCESS + t)[..7] == LowerCase(SUCCESS);
    assert (WIPE + (SUCCESS + t))[..13] == WIPE + SUCCESS;
    assert WIPE + SUCCESS == WIPE_SUCCESS;
  }

  lemma OtherBody(m: WipeMessage, t: string)
    requires !m.WipeSucceeded?
    ensures !LooksDone(WipeBody(m) + t)
  {
    match m
    case WipeSkips =>
      Associates(P_C, VERIFICATION + (SKIPPED + (FLAG + FLAG_END)), t);
      StartsWith(P_C, (VERIFICATION + (SKIPPED + (FLAG + FLAG_END))) + t);
    case WipeVerified =>
      Associates(RAW_KEYSET, VERIFIED + (BEFORE + MUTATION), t);
      StartsWith(RAW_KEYSET, (VERIFIED + (BEFORE + MUTATION)) + t);
    case WipeStarting(uid, version) =>
      Associates(STARTING, LowerHex(uid) + (VERSION + Digits(version)), t);
      StartsWith(STARTING, (LowerHex(uid) + (VERSION + Digits(version))) + t);
    case WipeFailed => StartsWith(FAILED, t);
  }

  lemma WipeText(b: string, s: string)
    requires Tame(b, true, false) && IsSuffix(s)
    ensures var t := (WIPE + b) + ("" + s);
      t == WIPE + (b + s) && !HasStatus(t) && '\n' !in t && (Has(t, "wipe: success") <==> LooksDone(b + s))
  {
    assert "" + s == s;
    Associates(WIPE, b, s);
    TameJoin(b, s, true, false);
    WipeTextTame(b + s);
    WipeFront(b + s);
  }

  lemma SucceededText(s: string)
    ensures var b := SUCCESS + (ALL_KEYS + (RESET + TO_ZEROS));
      LooksDone(b + s) && IsWipeEvent(WIPE + (b + s))
  {
    Associates(SUCCESS, ALL_KEYS + (RESET + TO_ZEROS), s);
    SucceededBody((ALL_KEYS + (RESET + TO_ZEROS)) + s);
  }

  lemma WipeEvent(m: WipeMessage, p: Option<Provenance>)
    ensures !HasStatus(WipeEventText(m, p)) && '\n' !in WipeEventText(m, p)
    ensures Has(WipeEventText(m, p), "wipe: success") <==> m.WipeSucceeded?
    ensures m.WipeSucceeded? ==> IsWipeEvent(WipeEventText(m, p))
  {
    WipeBodyTame(m);
    SuffixFits(p);
    WipeText(WipeBody(m), Suffix(p));
    if m.WipeSucceeded? {
      SucceededText(Suffix(p));
    } else {
      OtherBody(m, Suffix(p));
    }
  }

  lemma CalmHasNoStatus(s: string)
    requires Calm(s, 's', 'w')
    ensures !HasStatus(s)
  {
    CalmLacks(s, "sw=91ae", 0);
    CalmLacks(s, "sw=91ad", 0);
  }

  lemma WipeTextTame(r: string)
    requires Tame(r, true, false)
    ensures !HasStatus(WIPE + r) && '\n' !in WIPE + r
  {
    CalmJoin(WIPE, r, 's', 'w');
    CalmHasNoStatus(WIPE + r);
  }

  // Messages that quote.

  lemma SuffixIgnored(q: string, s: string, pat: string, c: char, d: char)
    requires |pat| >= 2 && pat[0] == c && pat[1] == d && Telling(c, d) && IsSuffix(s)
    requires forall j :: 0 <= j < |pat| && pat[j] == ' ' ==> j + 1 < |pat| && pat[j + 1] != '['
    ensures Has(q + s, pat) <==> Has(q, pat)
  {
    if s == "" {
      assert q + s == q;
    } else {
      assert Calm(s, c, d);
      CalmTail(s, c, d);
      CalmLacks(s[1..], pat, 0);
      BlankCuts(q, s, pat);
    }
  }

  lemma CalmTail(s: string, c: char, d: char)
    requires s != "" && Calm(s, c, d)
    ensures Calm(s[1..], c, d)
  {
    var t := s[1..];
    forall i | 0 <= i < |t| - 1 && Lower(t[i]) == c
      ensures Lower(t[i + 1]) != d
    {
      assert t[i] == s[i + 1] && t[i + 1] == s[i + 2];
    }
  }

  lemma QuotingText(o: string, q: string, s: string, pat: string, c: char, d: char)
    requires |pat| >= 2 && pat[0] == c && pat[1] == d && Telling(c, d) && IsSuffix(s)
    requires forall j :: 0 <= j < |pat| && pat[j] == ' ' ==> j + 1 < |pat| && pat[j + 1] != '['
    requires Calm(o, c, d) && o != "" && Lower(o[|o| - 1]) != c
    ensures Has(o + (q + s), pat) <==> Has(q, pat)
  {
    CalmBefore(o, q + s, pat);
    SuffixIgnored(q, s, pat, c, d);
  }

  /** Text around a quotation hides and adds nothing. */
  lemma QuotationOnly(o: string, q: string, s: string)
    requires Tame(o, true, true) && o != "" && Lower(o[|o| - 1]) !in {'r', 's', 'w'} && IsSuffix(s)
    ensures var t := o + (q + s);
      && (Has(t, "rx") <==> Has(q, "rx")) && (HasStatus(t) <==> HasStatus(q))
      && (Has(t, "wipe: success") <==> Has(q, "wipe: success")) && ('\n' in t <==> '\n' in q)
  {
    QuotingText(o, q, s, "rx", 'r', 'x');
    QuotingText(o, q, s, "sw=91ae", 's', 'w');
    QuotingText(o, q, s, "sw=91ad", 's', 'w');
    QuotingText(o, q, s, "wipe: success", 'w', 'i');
  }

  predicate OpensQuote(o: string) {
    o != "" && o[0] != 'w' && Lower(o[|o| - 1]) !in {'r', 's', 'w'}
  }

  lemma BurnEnds(u: string, v: string)
    ensures OpensQuote(BURN + (STARTING + (u + (VERSION + (v + URL)))))
  {
    var s := BURN + (STARTING + (u + (VERSION + (v + URL))));
    assert s[0] == BURN[0] && s[|s| - 1] == URL[|URL| - 1];
  }

  lemma ScanEnds(name: string)
    ensures OpensQuote(SCAN + (ERROR_ON + (name + COLON)))
  {
    var s := SCAN + (ERROR_ON + (name + COLON));
    assert s[0] == SCAN[0] && s[|s| - 1] == COLON[|COLON| - 1];
  }

  lemma NotAWipe(t: string)
    requires t != "" && t[0] != 'w'
    ensures !IsWipeEvent(t)
  {
    assert WIPE_SUCCESS[0] == 'w';
    assert |t| >= 13 ==> t[..13][0] == t[0];
  }

  lemma NothingInEmpty()
    ensures Harmless("")
  {
  }

  /** The event is of kind `k`, and it is read so exactly when the quotation is harmless. */
  ghost predicate ReadAs(t: string, k: Kind, q: string) {
    forall ts: nat :: ReadAsAt(ts, t, k, q)
  }

  predicate ReadAsAt(ts: nat, t: string, k: Kind, q: string) {
    var l := Event(ts, t);
    TrueKind(l) == k && (Honest(l) && '\n' !in FreeText(l) <==> Harmless(q))
  }

  lemma UnremarkableRead(t: string)
    requires Unremarkable(t)
    ensures ReadAs(t, Other, "")
  {
    NothingInEmpty();
    if IsWipeEvent(t) {
      WipeEventFound(t);
    }
  }

  lemma SuccessRead(t: string)
    requires IsWipeEvent(t) && !HasStatus(t) && '\n' !in t
    ensures ReadAs(t, Wipe, "")
  {
    NothingInEmpty();
  }

  lemma QuotationRead(o: string, q: string, s: string)
    requires Tame(o, true, true) && OpensQuote(o) && IsSuffix(s)
    ensures ReadAs(o + (q + s), Other, q)
  {
    QuotationOnly(o, q, s);
    assert (o + (q + s))[0] == o[0];
    NotAWipe(o + (q + s));
  }

  lemma BurnQuotation(uid: seq<byte>, version: byte, q: string, s: string)
    requires IsSuffix(s)
    ensures ReadAs((BURN + (STARTING + (LowerHex(uid) + (VERSION + (Digits(version) + URL))))) + (q + s), Other, q)
  {
    BurnStartingTame(uid, version);
    BurnEnds(LowerHex(uid), Digits(version));
    QuotationRead(BURN + (STARTING + (LowerHex(uid) + (VERSION + (Digits(version) + URL)))), q, s);
  }

  lemma ScanQuotation(name: string, q: string, s: string)
    requires Tame(name, true, true) && IsSuffix(s)
    ensures ReadAs((SCAN + (ERROR_ON + (name + COLON))) + (q + s), Other, q)
  {
    ScanErrorTame(name);
    ScanEnds(name);
    QuotationRead(SCAN + (ERROR_ON + (name + COLON)), q, s);
  }

  lemma FixedRead(o: string, s: string, wi: bool)
    requires Tame(o, wi, true) && IsSuffix(s)
    ensures ReadAs(o + ("" + s), Other, "")
  {
    FixedText(o, s, wi);
    UnremarkableRead(o + ("" + s));
  }

  lemma WipeRead(m: WipeMessage, p: Option<Provenance>)
    ensures ReadAs(WipeEventText(m, p), if m.WipeSucceeded? then Wipe else Other, "")
  {
    WipeEvent(m, p);
    if m.WipeSucceeded? {
      SuccessRead(WipeEventText(m, p));
    } else {
      UnremarkableRead(WipeEventText(m, p));
    }
  }

  lemma BurnRead(m: BurnMessage, p: Option<Provenance>)
    ensures ReadAs(BurnEventText(m, p), Other, BurnQuoted(m))
  {
    SuffixFits(p);
    if m.BurnStarting? {
      BurnQuotation(m.uid, m.version, m.url, Suffix(p));
    } else {
      BurnBodyTame(m);
      FixedRead(BurnBody(m), Suffix(p), NoWi(m));
    }
  }

  lemma ScanRead(m: ScanMessage, p: Option<Provenance>)
    ensures ReadAs(ScanEventText(m, p), Other, ScanQuoted(m))
  {
    SuffixFits(p);
    if m.ScanError? {
      ScanQuotation(m.name, m.error, Suffix(p));
    } else {
      ScanBodyTame(m);
      FixedRead(ScanBody(m), Suffix(p), true);
    }
  }

  function KindOf(m: Message): (k: Kind) {
    if m.Wiping? && m.w.WipeSucceeded? then Wipe else Other
  }

  /** What a message quotes from outside the tool. */
  function Quoted(m: Message): (s: string) {
    match m
    case Wiping(_) => ""
    case Burning(b) => BurnQuoted(b)
    case Scanning(s) => ScanQuoted(s)
  }

  function EventText(m: Message, p: Option<Provenance>): (s: string) {
    match m
    case Wiping(w) => WipeEventText(w, p)
    case Burning(b) => BurnEventText(b, p)
    case Scanning(s) => ScanEventText(s, p)
  }

  /**
   Every message is read as the event it is exactly when what it quotes is harmless; only a wipe's success is
   a wipe.
   */
  lemma EventRead(m: Message, p: Option<Provenance>)
    ensures ReadAs(EventText(m, p), KindOf(m), Quoted(m))
  {
    match m
    case Wiping(w) => WipeRead(w, p);
    case Burning(b) => BurnRead(b, p);
    case Scanning(s) => ScanRead(s, p);
  }

  // The clock note and the session banner.

  const CLOCK: Prose := "CLOCK_STEP"
  const BACKWARD: Prose := "_BACKWARD"
  const DELTA: Prose := " delta_ms="
  const REFERENCE: Prose := " (reference"
  const POINT: Prose := " point "
  const ENTRIES: Prose := "; entries"
  const ABOVE: Prose := " above/below"
  const STRADDLE: Prose := " may straddle"
  const THE_STEP: Prose := " the step)"

  function NoteText(delta: nat, reference: nat): (s: string) {
    CLOCK + (BACKWARD + (DELTA + (Digits(delta) + (REFERENCE + (POINT + (Digits(reference)
      + (ENTRIES + (ABOVE + (STRADDLE + THE_STEP)))))))))
  }

  lemma NoteTail()
    ensures Tame(ENTRIES + (ABOVE + (STRADDLE + THE_STEP)), true, true)
  {
    FourProse(ENTRIES, ABOVE, STRADDLE, THE_STEP);
  }

  lemma NoteMiddle(k: string, t: string)
    requires HexOnly(k) && Tame(t, true, true)
    ensures Tame(REFERENCE + (POINT + (k + t)), true, true) && Begins(REFERENCE + (POINT + (k + t)))
  {
    HexBefore(k, t, true, true);
    Chain(REFERENCE, POINT, k + t, true, true);
    assert (REFERENCE + (POINT + (k + t)))[0] == REFERENCE[0];
  }

  lemma NoteFront(k: string, t: string)
    requires HexOnly(k) && Tame(t, true, true)
    ensures Tame(CLOCK + (BACKWARD + (DELTA + (k + t))), true, true)
  {
    HexBefore(k, t, true, true);
    AfterProse(DELTA, k + t, true, true);
    assert (DELTA + (k + t))[0] == DELTA[0];
    Chain(CLOCK, BACKWARD, DELTA + (k + t), true, true);
  }

  lemma NoteTame(delta: nat, reference: nat)
    ensures Tame(NoteText(delta, reference), true, true)
  {
    DigitsOnly(delta);
    DigitsOnly(reference);
    NoteTail();
    NoteMiddle(Digits(reference), ENTRIES + (ABOVE + (STRADDLE + THE_STEP)));
    NoteFront(Digits(delta), REFERENCE + (POINT + (Digits(reference) + (ENTRIES + (ABOVE + (STRADDLE + THE_STEP))))));
  }

  /** A clock note is never read as anything else. */
  lemma NoteRead(delta: nat, reference: nat)
    ensures ReadAs(NoteText(delta, reference), Other, "")
  {
    NoteTame(delta, reference);
    TameHasNoStatus(NoteText(delta, reference), true, true);
    UnremarkableRead(NoteText(delta, reference));
  }

  const PID: Prose := "pid="
  const HOST: Prose := " host="
  const EXE: Prose := " exe="
  const WALL: Prose := " wall="
  const PRIOR: Prose := " prior_future"
  const PRIOR_DELTA: Prose := "_delta_ms="

  /** What a banner says about the process: its id, host and program, and how far ahead the last foreign entry is. */
  datatype Writer = Writer(pid: nat, host: string, exe: string, ahead: Option<nat>)

  function Ahead(d: Option<nat>): (s: string) {
    if d.None? then "" else PRIOR + (PRIOR_DELTA + Digits(d.value))
  }

  function Clock(at: nat, ahead: Option<nat>): (s: string) {
    WALL + (WallText.WallText(at) + Ahead(ahead))
  }

  function BannerText(w: Writer, at: nat): (s: string) {
    (PID + (Digits(w.pid) + HOST)) + (w.host + (EXE + (w.exe + Clock(at, w.ahead))))
  }

  /** Characters of a timestamp. */
  predicate ClockOnly(s: string) {
    forall i :: 0 <= i < |s| ==> '0' <= s[i] <= '9' || s[i] in {'-', 'T', ':', '.', 'Z'}
  }

  lemma ClockIsTame(s: string)
    requires ClockOnly(s)
    ensures Tame(s, true, true)
  {
  }

  lemma {:induction false} ZerosClock(n: nat)
    ensures ClockOnly(ZeroDigits(n))
  {
    if n > 0 {
      ZerosClock(n - 1);
    }
  }

  lemma PadClock(n: nat, width: nat)
    ensures ClockOnly(Pad(n, width))
  {
    ValueOfDigits(n);
    if |Digits(n)| < width {
      ZerosClock(width - |Digits(n)|);
    }
  }

  lemma MinusClock(s: string)
    requires ClockOnly(s)
    ensures ClockOnly("-" + s)
  {
  }

  lemma SignedClock(n: int, width: nat)
    requires width > 0
    ensures ClockOnly(Signed(n, width))
  {
    var m: nat := if n < 0 then -n else n;
    var w: nat := if n < 0 then width - 1 else width;
    PadClock(m, w);
    MinusClock(Pad(m, w));
  }

  lemma AssembledClock(p: Parts)
    requires ClockOnly(p.year) && ClockOnly(p.month) && ClockOnly(p.day)
    requires ClockOnly(p.hour) && ClockOnly(p.minute) && ClockOnly(p.second) && ClockOnly(p.milli)
    ensures ClockOnly(Assembled(p))
  {
    var a := p.year + "-" + p.month + "-" + p.day + "T";
    assert ClockOnly(a);
    var b := a + p.hour + ":" + p.minute + ":";
    assert ClockOnly(b);
  }

  lemma WallClock(at: nat)
    ensures ClockOnly(WallText.WallText(at))
  {
    CivilDate.FieldsInRange(at);
    var f := CivilDate.WallUtc(at);
    SignedClock(f.date.year, 4);
    PadClock(f.date.month, 2);
    PadClock(f.date.day, 2);
    PadClock(f.hour, 2);
    PadClock(f.minute, 2);
    PadClock(f.second, 2);
    PadClock(f.milli, 3);
    AssembledClock(Rendered(f));
  }

  lemma AheadTame(d: Option<nat>)
    ensures Tame(Ahead(d), true, true) && (Ahead(d) == "" || Begins(Ahead(d)))
  {
    if d.Some? {
      DigitsOnly(d.value);
      HexIsTame(Digits(d.value), true, true);
      Chain(PRIOR, PRIOR_DELTA, Digits(d.value), true, true);
      assert Ahead(d)[0] == PRIOR[0];
    }
  }

  lemma ClockJoin(t: string, a: string)
    requires ClockOnly(t) && Tame(a, true, true) && (a == "" || Begins(a))
    ensures Tame(WALL + (t + a), true, true)
  {
    ClockIsTame(t);
    TameJoin(t, a, true, true);
    AfterProse(WALL, t + a, true, true);
  }

  lemma ClockTame(at: nat, ahead: Option<nat>)
    ensures Tame(Clock(at, ahead), true, true)
  {
    WallClock(at);
    AheadTame(ahead);
    ClockJoin(WallText.WallText(at), Ahead(ahead));
  }

  /** Text between two quotations and behind them hides and adds nothing. */
  lemma TwoQuotations(o: string, host: string, exe: string, t: string, pat: string, c: char, d: char)
    requires |pat| >= 2 && pat[0] == c && pat[1] == d && Telling(c, d)
    requires forall j :: 0 <= j < |pat| && pat[j] == ' ' ==> j + 1 < |pat| && pat[j + 1] == 's'
    requires Calm(o, c, d) && o != "" && Lower(o[|o| - 1]) != c
    requires Calm(t, c, d) && |t| >= 2 && t[0] == ' ' && Lower(t[1]) != 's'
    ensures Has(o + (host + (EXE + (exe + t))), pat) <==> Has(host, pat) || Has(exe, pat)
  {
    CalmBefore(o, host + (EXE + (exe + t)), pat);
    var e := EXE + (exe + t);
    BlankCuts(host, e, pat);
    assert e[1..] == "exe=" + (exe + t);
    CalmBefore("exe=", exe + t, pat);
    BlankCuts(exe, t, pat);
    CalmTail(t, c, d);
    CalmLacks(t[1..], pat, 0);
  }

  lemma BannerOpens(pid: nat)
    ensures var o := PID + (Digits(pid) + HOST); Tame(o, true, true) && o[|o| - 1] == '='
  {
    DigitsOnly(pid);
    ProseTame(HOST, true, true);
    HexBefore(Digits(pid), HOST, true, true);
    AfterProse(PID, Digits(pid) + HOST, true, true);
    assert HOST[|HOST| - 1] == '=';
  }

  lemma ClockShape(at: nat, ahead: Option<nat>)
    ensures |Clock(at, ahead)| >= 2 && Clock(at, ahead)[0] == ' ' && Clock(at, ahead)[1] == 'w'
  {
    assert Clock(at, ahead)[0] == WALL[0] && Clock(at, ahead)[1] == WALL[1];
  }

  /** What a banner quotes must not look like something else, alone or together. */
  predicate HarmlessWriter(w: Writer) {
    && !((Has(w.host, "rx") || Has(w.exe, "rx")) && (HasStatus(w.host) || HasStatus(w.exe)))
    && !Has(w.host, "wipe: success") && !Has(w.exe, "wipe: success")
    && '\n' !in w.host && '\n' !in w.exe
  }

  /** The fixed pieces of a banner stand around what it quotes. */
  predicate Frames(o: string, t: string) {
    && Tame(o, true, true) && o != "" && o[|o| - 1] == '='
    && Tame(t, true, true) && |t| >= 2 && t[0] == ' ' && t[1] == 'w'
  }

  lemma BannerStatus(o: string, host: string, exe: string, t: string)
    requires Frames(o, t)
    ensures HasStatus(o + (host + (EXE + (exe + t)))) <==> HasStatus(host) || HasStatus(exe)
  {
    TwoQuotations(o, host, exe, t, "sw=91ae", 's', 'w');
    TwoQuotations(o, host, exe, t, "sw=91ad", 's', 'w');
  }

  lemma BannerWords(o: string, host: string, exe: string, t: string)
    requires Frames(o, t)
    ensures var s := o + (host + (EXE + (exe + t)));
      && (Has(s, "rx") <==> Has(host, "rx") || Has(exe, "rx"))
      && (Has(s, "wipe: success") <==> Has(host, "wipe: success") || Has(exe, "wipe: success"))
  {
    TwoQuotations(o, host, exe, t, "rx", 'r', 'x');
    TwoQuotations(o, host, exe, t, "wipe: success", 'w', 'i');
  }

  lemma BannerLines(o: string, host: string, exe: string, t: string)
    requires Frames(o, t)
    ensures '\n' in o + (host + (EXE + (exe + t))) <==> '\n' in host || '\n' in exe
  {
    ProseOneLine(EXE, "");
  }

  lemma BannerQuotes(o: string, host: string, exe: string, t: string)
    requires Frames(o, t)
    ensures var s := o + (host + (EXE + (exe + t)));
      && (Has(s, "rx") <==> Has(host, "rx") || Has(exe, "rx"))
      && (HasStatus(s) <==> HasStatus(host) || HasStatus(exe))
      && (Has(s, "wipe: success") <==> Has(host, "wipe: success") || Has(exe, "wipe: success"))
      && ('\n' in s <==> '\n' in host || '\n' in exe)
  {
    BannerStatus(o, host, exe, t);
    BannerWords(o, host, exe, t);
    BannerLines(o, host, exe, t);
  }

  /** A banner is read as the banner it is exactly when the host and program name it quotes are harmless. */
  lemma BannerRead(ts: nat, w: Writer, at: nat)
    ensures var l := Banner(ts, BannerText(w, at));
      TrueKind(l) == Other && (Honest(l) && '\n' !in FreeText(l) <==> HarmlessWriter(w))
  {
    BannerOpens(w.pid);
    ClockTame(at, w.ahead);
    ClockShape(at, w.ahead);
    BannerQuotes(PID + (Digits(w.pid) + HOST), w.host, w.exe, Clock(at, w.ahead));
  }
}
