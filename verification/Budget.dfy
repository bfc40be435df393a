/**
 The auth-budget reader, which replays the audit log as text, against the lines
 the logging transport and the event logger write.
 */
module Budget {
  import opened Basics
  import opened Bytes
  import opened WallText

  // Text.

  function Lower(c: char): (r: char) {
    if 'A' <= c <= 'Z' then (c as int + 32) as char else c
  }

  function LowerCase(s: string): (r: string)
    ensures |r| == |s|
    ensures forall i :: 0 <= i < |s| ==> r[i] == Lower(s[i])
  {
    seq(|s|, i requires 0 <= i < |s| => Lower(s[i]))
  }

  lemma LowerTable(c: char)
    ensures forall i :: 0 <= i < 26 ==>
      Lower("ABCDEFGHIJKLMNOPQRSTUVWXYZ"[i]) == "abcdefghijklmnopqrstuvwxyz"[i]
    ensures c !in "ABCDEFGHIJKLMNOPQRSTUVWXYZ" ==> Lower(c) == c
  {
    assert 'A' <= c <= 'Z' ==> "ABCDEFGHIJKLMNOPQRSTUVWXYZ"[c as int - 'A' as int] == c;
  }

  // The reader.

  datatype Kind = Failure | Delay | Wipe | Other

  function Classify(line: string): (k: Kind) {
    var lower := LowerCase(line);
    if Contains(lower, "rx") && Contains(lower, "sw=91ae") then Failure
    else if Contains(lower, "rx") && Contains(lower, "sw=91ad") then Delay
    else if Contains(lower, "wipe: success") then Wipe
    else Other
  }

  datatype Report = Report(failures: nat, delays: nat, wipes: nat, lines: nat, sinceWipe: Option<nat>)

  function Count(ks: seq<Kind>, k: Kind): (n: nat)
  {
    if ks == [] then 0 else Count(ks[..|ks| - 1], k) + if ks[|ks| - 1] == k then 1 else 0
  }

  /** Failures after the last wipe; all of them when there was none. */
  function SinceWipe(ks: seq<Kind>): (n: nat)
  {
    if ks == [] || ks[|ks| - 1] == Wipe then 0
    else SinceWipe(ks[..|ks| - 1]) + if ks[|ks| - 1] == Failure then 1 else 0
  }

  function Kinds(lines: seq<string>): (ks: seq<Kind>)
    ensures |ks| == |lines|
    ensures forall i :: 0 <= i < |lines| ==> ks[i] == Classify(lines[i])
  {
    seq(|lines|, i requires 0 <= i < |lines| => Classify(lines[i]))
  }

  function Account(ks: seq<Kind>): (r: Report) {
    Report(Count(ks, Failure), Count(ks, Delay), Count(ks, Wipe), |ks|,
           if Wipe in ks then Some(SinceWipe(ks)) else None)
  }

  /** The lines of a text: cut at newlines, one trailing carriage return dropped, no empty last line. */
  function Lines(text: string): (ls: seq<string>)
    decreases |text|
  {
    if text == "" then []
    else
      var i := LineEnd(text, 0);
      [Chomp(text[..i])] + (if i < |text| then Lines(text[i + 1..]) else [])
  }

  function LineEnd(text: string, from: nat): (i: nat)
    requires from <= |text|
    ensures from <= i <= |text|
    ensures '\n' !in text[from..i]
    ensures i < |text| ==> text[i] == '\n'
    decreases |text| - from
  {
    if from == |text| || text[from] == '\n' then from else LineEnd(text, from + 1)
  }

  function Chomp(line: string): (r: string) {
    if line != "" && line[|line| - 1] == '\r' then line[..|line| - 1] else line
  }

  /** What the reader's counters say of the first lines. */
  predicate Tallied(ks: seq<Kind>, failures: nat, delays: nat, wipes: nat, since: nat, seenWipe: bool) {
    && failures == Count(ks, Failure) && delays == Count(ks, Delay) && wipes == Count(ks, Wipe)
    && since == SinceWipe(ks) && (seenWipe <==> Wipe in ks)
  }

  lemma TalliedNext(ks: seq<Kind>, n: nat, failures: nat, delays: nat, wipes: nat, since: nat, seenWipe: bool)
    requires n < |ks| && Tallied(ks[..n], failures, delays, wipes, since, seenWipe)
    ensures match ks[n]
            case Failure => Tallied(ks[..n + 1], failures + 1, delays, wipes, since + 1, seenWipe)
            case Delay => Tallied(ks[..n + 1], failures, delays + 1, wipes, since, seenWipe)
            case Wipe => Tallied(ks[..n + 1], failures, delays, wipes + 1, 0, true)
            case Other => Tallied(ks[..n + 1], failures, delays, wipes, since, seenWipe)
  {
    assert ks[..n + 1][..n] == ks[..n];
    assert ks[..n + 1] == ks[..n] + [ks[n]];
  }

  method ParseAudit(text: string) returns (r: Report)
    ensures r == Account(Kinds(Lines(text)))
  {
    var lines := Lines(text);
    var failures, delays, wipes, count, since, seenWipe := 0, 0, 0, 0, 0, false;
    ghost var ks := Kinds(lines);
    while count < |lines|
      invariant 0 <= count <= |lines| && Tallied(ks[..count], failures, delays, wipes, since, seenWipe)
    {
      TalliedNext(ks, count, failures, delays, wipes, since, seenWipe);
      var lower := LowerCase(lines[count]);
      if Contains(lower, "rx") && Contains(lower, "sw=91ae") {
        failures, since := failures + 1, since + 1;
      } else if Contains(lower, "rx") && Contains(lower, "sw=91ad") {
        delays := delays + 1;
      } else if Contains(lower, "wipe: success") {
        wipes, seenWipe, since := wipes + 1, true, 0;
      }
      count := count + 1;
    }
    assert ks[..count] == ks;
    return Report(failures, delays, wipes, count, if seenWipe then Some(since) else None);
  }

  // The writer.

  /** A log line by what wrote it. Errors, event messages and banners carry free text. */
  datatype LogLine =
    | Tx(ts: nat, apdu: seq<byte>)
    | RxOk(ts: nat, sw1: byte, sw2: byte, data: seq<byte>)
    | RxErr(ts: nat, error: string)
    | GetUid(ts: nat)
    | GetUidOk(ts: nat, uid: seq<byte>)
    | GetUidErr(ts: nat, error: string)
    | Event(ts: nat, text: string)
    | Banner(ts: nat, text: string)

  function UpperNibble(n: nat): (c: char)
    requires n < 16
  {
    (if n < 10 then '0' as int + n else 'A' as int + n - 10) as char
  }

  function HexByte(b: byte): (s: string)
    ensures |s| == 2
  {
    [UpperNibble(b / 16), UpperNibble(b % 16)]
  }

  function HexText(data: seq<byte>): (s: string)
    ensures |s| == 2 * |data|
  {
    if data == [] then "" else HexText(data[..|data| - 1]) + HexByte(data[|data| - 1])
  }

  /** Two digits a byte, the high one first. */
  lemma {:induction false} HexTextAt(data: seq<byte>, i: nat)
    requires i < |data|
    ensures HexText(data)[2 * i] == "0123456789ABCDEF"[data[i] / 16]
    ensures HexText(data)[2 * i + 1] == "0123456789ABCDEF"[data[i] % 16]
  {
    var n := |data| - 1;
    if i < n {
      HexTextAt(data[..n], i);
    }
  }

  function Prefix(ts: nat): (s: string) {
    "[" + Digits(ts) + "] "
  }

  function Sized(data: seq<byte>): (s: string) {
    "len=" + Digits(|data|) + " data=" + HexText(data)
  }

  function StatusField(sw1: byte, sw2: byte): (s: string) {
    "sw=" + HexByte(sw1) + HexByte(sw2)
  }

  function Response(sw1: byte, sw2: byte, data: seq<byte>): (s: string) {
    StatusField(sw1, sw2) + (" " + Sized(data))
  }

  /** A line behind its timestamp. */
  function Body(l: LogLine): (s: string) {
    match l
    case Tx(_, apdu) => "TX APDU " + Sized(apdu)
    case RxOk(_, sw1, sw2, data) => "RX OK   " + Response(sw1, sw2, data)
    case RxErr(_, error) => "RX ERR  error=" + error
    case GetUid(_) => "GET_UID"
    case GetUidOk(_, uid) => "GET_UID OK   uid=" + HexText(uid)
    case GetUidErr(_, error) => "GET_UID ERR  error=" + error
    case Event(_, text) => "EVENT  " + text
    case Banner(_, text) => "SESSION START " + text
  }

  function Render(l: LogLine): (s: string) {
    Prefix(l.ts) + Body(l)
  }
}
