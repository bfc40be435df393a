/**
 The audit log from end to end: a process stamps and writes its exchanges and events, and the budget
 reader replays the written text. For every clock it counts exactly the 91AE responses, in total and
 since the last wipe, exactly when what the log quotes from outside is harmless.
 */
module AuditTrail {
  import opened Basics
  import opened Bytes
  import opened Budget
  import opened BudgetExact
  import Text = AuditText
  import Log = AuditLog

  datatype Reply<T> = Answered(value: T) | Lost(error: string)

  datatype Response = Response(sw1: byte, sw2: byte, data: seq<byte>)

  /** What a process logs: an exchange or a UID query of the transport wrapper, or an event. */
  datatype Action =
    | Exchange(apdu: seq<byte>, reply: Reply<Response>)
    | UidQuery(uid: Reply<seq<byte>>)
    | Say(text: string)

  /** The lines of an action, under one timestamp. */
  function LinesOf(at: nat, a: Action): (ls: seq<LogLine>)
    ensures |ls| >= 1 && forall i :: 0 <= i < |ls| ==> ls[i].ts == at
  {
    match a
    case Exchange(apdu, Answered(r)) => [Tx(at, apdu), RxOk(at, r.sw1, r.sw2, r.data)]
    case Exchange(apdu, Lost(error)) => [Tx(at, apdu), RxErr(at, error)]
    case UidQuery(Answered(uid)) => [GetUid(at), GetUidOk(at, uid)]
    case UidQuery(Lost(error)) => [GetUid(at), GetUidErr(at, error)]
    case Say(text) => [Event(at, text)]
  }

  /** The operation the stamping machine logs for an action. */
  function OperationOf(a: Action): (op: Log.Operation) {
    var ls := LinesOf(0, a);
    seq(|ls|, i requires 0 <= i < |ls| => Body(ls[i]))
  }

  function Operations(acts: seq<Action>): (ops: seq<Log.Operation>)
    ensures |ops| == |acts| && forall i :: 0 <= i < |acts| ==> ops[i] == OperationOf(acts[i])
  {
    seq(|acts|, i requires 0 <= i < |acts| => OperationOf(acts[i]))
  }

  // The written file.

  /** The texts of banners and clock notes. */
  datatype Texts = Texts(banner: nat -> string, note: (nat, nat) -> string)

  function LogLineOf(x: Texts, l: Log.Line): (r: Option<LogLine>) {
    match l
    case Banner(at) => Some(Banner(at, x.banner(at)))
    case StepNote(at, delta, reference) => Some(Event(at, x.note(delta, reference)))
    case Entry(_, _) => None
  }

  function LineText(x: Texts, l: Log.Line): (s: string) {
    if l.Entry? then Prefix(l.at) + l.body else Render(LogLineOf(x, l).value)
  }

  function FileText(x: Texts, ls: seq<Log.Line>): (s: string) {
    if ls == [] then "" else LineText(x, ls[0]) + "\n" + FileText(x, ls[1..])
  }

  /** The lines of the stamping machine are those log lines, in text. */
  predicate SameText(f: Log.Line -> string, g: LogLine -> string, xs: seq<Log.Line>, ls: seq<LogLine>) {
    |xs| == |ls| && forall i :: 0 <= i < |xs| ==> f(xs[i]) == g(ls[i])
  }

  lemma SameTextConcat(f: Log.Line -> string, g: LogLine -> string,
                       xs: seq<Log.Line>, ls: seq<LogLine>, xs': seq<Log.Line>, ls': seq<LogLine>)
    requires SameText(f, g, xs, ls) && SameText(f, g, xs', ls')
    ensures SameText(f, g, xs + xs', ls + ls')
  {
  }

  lemma {:induction false} FileIsWritten(x: Texts, xs: seq<Log.Line>, ls: seq<LogLine>)
    requires SameText(l => LineText(x, l), Render, xs, ls)
    ensures FileText(x, xs) == Written(ls)
  {
    if xs != [] {
      FileIsWritten(x, xs[1..], ls[1..]);
    }
  }

  predicate AreNotes(xs: seq<Log.Line>) {
    forall i :: 0 <= i < |xs| ==> xs[i].StepNote?
  }

  function NoteLines(x: Texts, xs: seq<Log.Line>): (ls: seq<LogLine>)
    requires AreNotes(xs)
    ensures |ls| == |xs| && forall i :: 0 <= i < |xs| ==> ls[i] == Event(xs[i].at, x.note(xs[i].delta, xs[i].reference))
  {
    seq(|xs|, i requires 0 <= i < |xs| => Event(xs[i].at, x.note(xs[i].delta, xs[i].reference)))
  }

  /** The log behind its banner, line by line, as the actions and the stamps make it. */
  function Trail(x: Texts, start: nat, ts: seq<nat>, acts: seq<Action>): (ls: seq<LogLine>)
    requires |ts| == |acts|
  {
    if acts == [] then []
    else
      var n := |acts| - 1;
      Trail(x, start, ts[..n], acts[..n]) + NoteLines(x, Log.NoteAt(start, ts, n)) + LinesOf(ts[n], acts[n])
  }

  lemma EntriesText(x: Texts, at: nat, bodies: seq<string>, ls: seq<LogLine>)
    requires |bodies| == |ls| && forall i :: 0 <= i < |ls| ==> ls[i].ts == at && bodies[i] == Body(ls[i])
    ensures SameText(l => LineText(x, l), Render, Log.Entries(at, bodies), ls)
  {
    Log.EntriesShape(at, bodies);
    forall i | 0 <= i < |ls|
      ensures LineText(x, Log.Entries(at, bodies)[i]) == Render(ls[i])
    {
    }
  }

  lemma BodyIgnoresStamp(l: LogLine, t: nat)
    ensures Body(l.(ts := t)) == Body(l)
  {
  }

  lemma StampOnly(at: nat, a: Action)
    ensures |LinesOf(0, a)| == |LinesOf(at, a)|
    ensures forall i :: 0 <= i < |LinesOf(at, a)| ==> LinesOf(at, a)[i] == LinesOf(0, a)[i].(ts := at)
  {
  }

  lemma SameBodies(at: nat, a: Action)
    ensures |OperationOf(a)| == |LinesOf(at, a)|
    ensures forall i :: 0 <= i < |LinesOf(at, a)| ==> OperationOf(a)[i] == Body(LinesOf(at, a)[i])
  {
    StampOnly(at, a);
    forall i | 0 <= i < |LinesOf(at, a)|
      ensures OperationOf(a)[i] == Body(LinesOf(at, a)[i])
    {
      BodyIgnoresStamp(LinesOf(0, a)[i], at);
    }
  }

  lemma OperationText(x: Texts, at: nat, a: Action)
    ensures SameText(l => LineText(x, l), Render, Log.Entries(at, OperationOf(a)), LinesOf(at, a))
  {
    SameBodies(at, a);
    EntriesText(x, at, OperationOf(a), LinesOf(at, a));
  }

  lemma NotesText(x: Texts, xs: seq<Log.Line>)
    requires AreNotes(xs)
    ensures SameText(l => LineText(x, l), Render, xs, NoteLines(x, xs))
  {
  }

  lemma {:induction false} TrailText(x: Texts, start: nat, ts: seq<nat>, acts: seq<Action>)
    requires |ts| == |acts|
    ensures SameText(l => LineText(x, l), Render, Log.Body(start, ts, Operations(acts)), Trail(x, start, ts, acts))
  {
    if acts != [] {
      var n := |acts| - 1;
      TrailText(x, start, ts[..n], acts[..n]);
      assert Operations(acts)[..n] == Operations(acts[..n]);
      var notes, f := Log.NoteAt(start, ts, n), l => LineText(x, l);
      var xs, ls := Log.Body(start, ts[..n], Operations(acts[..n])), Trail(x, start, ts[..n], acts[..n]);
      NotesText(x, notes);
      OperationText(x, ts[n], acts[n]);
      SameTextConcat(f, Render, xs, ls, notes, NoteLines(x, notes));
      SameTextConcat(f, Render, xs + notes, ls + NoteLines(x, notes), Log.Entries(ts[n], OperationOf(acts[n])),
                     LinesOf(ts[n], acts[n]));
    }
  }

  // What is harmless.

  /** A line that is read for what it is. */
  predicate Fine(l: LogLine) {
    Honest(l) && '\n' !in FreeText(l)
  }

  predicate AllFine(ls: seq<LogLine>) {
    forall i :: 0 <= i < |ls| ==> Fine(ls[i])
  }

  lemma AllFineConcat(a: seq<LogLine>, b: seq<LogLine>)
    ensures AllFine(a + b) <==> AllFine(a) && AllFine(b)
  {
    if AllFine(a + b) {
      assert forall i :: 0 <= i < |a| ==> a[i] == (a + b)[i];
      assert forall i :: 0 <= i < |b| ==> b[i] == (a + b)[|a| + i];
    }
  }

  /** The errors and texts an action brings into the log do not look like something else. */
  predicate HarmlessAction(a: Action) {
    match a
    case Exchange(_, Lost(error)) => !HasStatus(error) && !Has(error, "wipe: success") && '\n' !in error
    case UidQuery(Lost(error)) => Text.Harmless(error)
    case Say(text) => Fine(Event(0, text))
    case _ => true
  }

  lemma ActionFine(at: nat, a: Action)
    ensures AllFine(LinesOf(at, a)) <==> HarmlessAction(a)
  {
    var ls := LinesOf(at, a);
    assert |ls| == 2 ==> Fine(ls[0]);
    FewFine(ls);
  }

  lemma FewFine(ls: seq<LogLine>)
    requires 1 <= |ls| <= 2
    ensures AllFine(ls) <==> Fine(ls[0]) && (|ls| == 2 ==> Fine(ls[1]))
  {
  }

  ghost predicate GoodNotes(x: Texts) {
    forall delta: nat, reference: nat :: Text.ReadAs(x.note(delta, reference), Other, "")
  }

  lemma NotesFine(x: Texts, xs: seq<Log.Line>)
    requires AreNotes(xs) && GoodNotes(x)
    ensures AllFine(NoteLines(x, xs))
    ensures forall i :: 0 <= i < |xs| ==> TrueKind(NoteLines(x, xs)[i]) == Other
  {
    Text.NothingInEmpty();
    forall i | 0 <= i < |xs|
      ensures Fine(NoteLines(x, xs)[i]) && TrueKind(NoteLines(x, xs)[i]) == Other
    {
      assert Text.ReadAsAt(xs[i].at, x.note(xs[i].delta, xs[i].reference), Other, "");
    }
  }

  predicate AllHarmless(acts: seq<Action>) {
    forall i :: 0 <= i < |acts| ==> HarmlessAction(acts[i])
  }

  lemma HarmlessSplits(acts: seq<Action>)
    requires acts != []
    ensures AllHarmless(acts) <==> AllHarmless(acts[..|acts| - 1]) && HarmlessAction(acts[|acts| - 1])
  {
    var n := |acts| - 1;
    assert forall i :: 0 <= i < n ==> acts[..n][i] == acts[i];
  }

  lemma {:induction false} TrailFine(x: Texts, start: nat, ts: seq<nat>, acts: seq<Action>)
    requires |ts| == |acts| && GoodNotes(x)
    ensures AllFine(Trail(x, start, ts, acts)) <==> AllHarmless(acts)
  {
    if acts != [] {
      var n := |acts| - 1;
      var pre, notes, ls := Trail(x, start, ts[..n], acts[..n]), NoteLines(x, Log.NoteAt(start, ts, n)),
        LinesOf(ts[n], acts[n]);
      TrailFine(x, start, ts[..n], acts[..n]);
      NotesFine(x, Log.NoteAt(start, ts, n));
      ActionFine(ts[n], acts[n]);
      AllFineConcat(pre + notes, ls);
      AllFineConcat(pre, notes);
      HarmlessSplits(acts);
    }
  }

  // What is counted.

  /** What an action means for the budget. */
  function ActionKind(a: Action): (k: Kind) {
    match a
    case Exchange(_, Answered(r)) =>
      if r.sw1 == 0x91 && r.sw2 == 0xAE then Failure else if r.sw1 == 0x91 && r.sw2 == 0xAD then Delay else Other
    case Say(text) => if IsWipeEvent(text) then Wipe else Other
    case _ => Other
  }

  function ActionKinds(acts: seq<Action>): (ks: seq<Kind>)
    ensures |ks| == |acts| && forall i :: 0 <= i < |acts| ==> ks[i] == ActionKind(acts[i])
  {
    seq(|acts|, i requires 0 <= i < |acts| => ActionKind(acts[i]))
  }

  datatype Tally = Tally(failures: nat, delays: nat, wipes: nat, sinceWipe: nat, wiped: bool)

  function TallyOf(ks: seq<Kind>): (t: Tally) {
    Tally(Count(ks, Failure), Count(ks, Delay), Count(ks, Wipe), SinceWipe(ks), Wipe in ks)
  }

  /** The next tally: one more of its kind, and a wipe starts over. */
  function Next(t: Tally, k: Kind): (r: Tally) {
    match k
    case Failure => t.(failures := t.failures + 1, sinceWipe := t.sinceWipe + 1)
    case Delay => t.(delays := t.delays + 1)
    case Wipe => t.(wipes := t.wipes + 1, sinceWipe := 0, wiped := true)
    case Other => t
  }

  lemma TallyExtend(ks: seq<Kind>, k: Kind)
    ensures TallyOf(ks + [k]) == Next(TallyOf(ks), k)
  {
    assert (ks + [k])[..|ks|] == ks;
  }

  lemma {:induction false} TallySkipsOthers(ks: seq<Kind>, others: seq<Kind>)
    requires forall i :: 0 <= i < |others| ==> others[i] == Other
    ensures TallyOf(ks + others) == TallyOf(ks)
  {
    if others == [] {
      assert ks + others == ks;
    } else {
      var n := |others| - 1;
      TallySkipsOthers(ks, others[..n]);
      TallyExtend(ks + others[..n], Other);
      assert ks + others == (ks + others[..n]) + [Other];
    }
  }

  lemma {:induction false} TallyFromOther(ks: seq<Kind>)
    ensures TallyOf([Other] + ks) == TallyOf(ks)
  {
    if ks == [] {
      TallySkipsOthers([], [Other]);
      assert [] + [Other] == [Other] + ks;
    } else {
      var n := |ks| - 1;
      TallyFromOther(ks[..n]);
      TallyExtend([Other] + ks[..n], ks[n]);
      TallyExtend(ks[..n], ks[n]);
      assert [Other] + ks == ([Other] + ks[..n]) + [ks[n]] && ks == ks[..n] + [ks[n]];
    }
  }

  lemma ActionTally(ks: seq<Kind>, at: nat, a: Action)
    ensures TallyOf(ks + TrueKinds(LinesOf(at, a))) == Next(TallyOf(ks), ActionKind(a))
  {
    var ls := LinesOf(at, a);
    if |ls| == 2 {
      assert TrueKinds(ls) == [Other] + [ActionKind(a)];
      TallySkipsOthers(ks, [Other]);
      TallyExtend(ks + [Other], ActionKind(a));
      Associates(ks, [Other], [ActionKind(a)]);
    } else {
      assert TrueKinds(ls) == [ActionKind(a)];
      TallyExtend(ks, ActionKind(a));
    }
  }

  lemma TrueKindsConcat(a: seq<LogLine>, b: seq<LogLine>)
    ensures TrueKinds(a + b) == TrueKinds(a) + TrueKinds(b)
  {
  }

  lemma TrailTallyStep(pre: seq<LogLine>, notes: seq<LogLine>, at: nat, a: Action, ks: seq<Kind>)
    requires TallyOf(TrueKinds(pre)) == TallyOf(ks) && forall i :: 0 <= i < |notes| ==> TrueKind(notes[i]) == Other
    ensures TallyOf(TrueKinds(pre + notes + LinesOf(at, a))) == TallyOf(ks + [ActionKind(a)])
  {
    TrueKindsConcat(pre + notes, LinesOf(at, a));
    TrueKindsConcat(pre, notes);
    TallySkipsOthers(TrueKinds(pre), TrueKinds(notes));
    ActionTally(TrueKinds(pre) + TrueKinds(notes), at, a);
    TallyExtend(ks, ActionKind(a));
  }

  lemma ActionKindsExtend(acts: seq<Action>)
    requires acts != []
    ensures ActionKinds(acts) == ActionKinds(acts[..|acts| - 1]) + [ActionKind(acts[|acts| - 1])]
  {
  }

  lemma {:induction false} TrailTally(x: Texts, start: nat, ts: seq<nat>, acts: seq<Action>)
    requires |ts| == |acts| && GoodNotes(x)
    ensures TallyOf(TrueKinds(Trail(x, start, ts, acts))) == TallyOf(ActionKinds(acts))
  {
    if acts != [] {
      var n := |acts| - 1;
      TrailTally(x, start, ts[..n], acts[..n]);
      NotesFine(x, Log.NoteAt(start, ts, n));
      TrailTallyStep(Trail(x, start, ts[..n], acts[..n]), NoteLines(x, Log.NoteAt(start, ts, n)), ts[n], acts[n],
                     ActionKinds(acts[..n]));
      ActionKindsExtend(acts);
    }
  }

  // The whole file.

  /** All lines of a process: its banner and its trail. */
  function AllLines(x: Texts, banner: nat, start: nat, ts: seq<nat>, acts: seq<Action>): (ls: seq<LogLine>)
    requires |ts| == |acts|
  {
    [Banner(banner, x.banner(banner))] + Trail(x, start, ts, acts)
  }

  lemma BannerLineText(x: Texts, l: Log.Line)
    requires l.Banner?
    ensures SameText(l => LineText(x, l), Render, [l], [Banner(l.at, x.banner(l.at))])
  {
  }

  lemma WholeText(x: Texts, l: Log.Line, body: seq<Log.Line>, trail: seq<LogLine>)
    requires l.Banner? && SameText(l => LineText(x, l), Render, body, trail)
    ensures FileText(x, [l] + body) == Written([Banner(l.at, x.banner(l.at))] + trail) && |body| == |trail|
  {
    BannerLineText(x, l);
    SameTextConcat(l => LineText(x, l), Render, [l], [Banner(l.at, x.banner(l.at))], body, trail);
    FileIsWritten(x, [l] + body, [Banner(l.at, x.banner(l.at))] + trail);
  }

  lemma LogText(x: Texts, p: Log.Process, ts: seq<nat>, acts: seq<Action>)
    requires |ts| == |acts| > 0 && Log.LogIs(p, ts, Operations(acts))
    ensures FileText(x, p.log) == Written(AllLines(x, p.log[0].at, p.start.value, ts, acts))
    ensures |AllLines(x, p.log[0].at, p.start.value, ts, acts)| == |p.log|
  {
    TrailText(x, p.start.value, ts, acts);
    WholeText(x, p.log[0], p.log[1..], Trail(x, p.start.value, ts, acts));
    assert p.log == [p.log[0]] + p.log[1..];
  }

  /** The account of a log, from the actions alone. */
  function AccountOf(acts: seq<Action>, lines: nat): (r: Report) {
    var ks := ActionKinds(acts);
    Report(Count(ks, Failure), Count(ks, Delay), Count(ks, Wipe), lines,
           if Wipe in ks then Some(SinceWipe(ks)) else None)
  }

  lemma AccountFromTally(ks: seq<Kind>, acts: seq<Action>)
    requires TallyOf(ks) == TallyOf(ActionKinds(acts))
    ensures Account(ks) == AccountOf(acts, |ks|)
  {
  }

  ghost predicate GoodBanner(x: Texts, harmless: bool) {
    forall at: nat :: TrueKind(Banner(at, x.banner(at))) == Other && (Fine(Banner(at, x.banner(at))) <==> harmless)
  }

  lemma LinesRead(x: Texts, harmless: bool, banner: nat, start: nat, ts: seq<nat>, acts: seq<Action>)
    requires |ts| == |acts| && GoodNotes(x) && GoodBanner(x, harmless)
    ensures var ls := AllLines(x, banner, start, ts, acts);
      && (AllFine(ls) <==> harmless && AllHarmless(acts))
      && TallyOf(TrueKinds(ls)) == TallyOf(ActionKinds(acts))
  {
    var b, trail := [Banner(banner, x.banner(banner))], Trail(x, start, ts, acts);
    TrailFine(x, start, ts, acts);
    TrailTally(x, start, ts, acts);
    AllFineConcat(b, trail);
    FewFine(b);
    TrueKindsConcat(b, trail);
    assert TrueKinds(b) == [Other];
    TallyFromOther(TrueKinds(trail));
  }

  lemma WrittenCounted(ls: seq<LogLine>, acts: seq<Action>, harmless: bool)
    requires (AllFine(ls) <==> harmless) && TallyOf(TrueKinds(ls)) == TallyOf(ActionKinds(acts))
    ensures var ks := Kinds(Lines(Written(ls)));
      && (ks == TrueKinds(ls) <==> harmless)
      && (Account(ks) == AccountOf(acts, |ls|) <==> harmless)
  {
    LogRead(ls);
    LogCounted(ls);
    assert AllFine(ls) <==> forall i :: 0 <= i < |ls| ==> Honest(ls[i]) && '\n' !in FreeText(ls[i]);
    AccountFromTally(TrueKinds(ls), acts);
  }

  /**
   For every clock and every run: the file is read line by line for what it is, and its account is that of
   the actions, exactly when the banner and all actions are harmless.
   */
  lemma FileCounted(x: Texts, harmless: bool, p: Log.Process, ts: seq<nat>, acts: seq<Action>)
    requires |ts| == |acts| > 0 && Log.LogIs(p, ts, Operations(acts)) && GoodNotes(x) && GoodBanner(x, harmless)
    ensures var ls := AllLines(x, p.log[0].at, p.start.value, ts, acts);
      && (Kinds(Lines(FileText(x, p.log))) == TrueKinds(ls) <==> harmless && AllHarmless(acts))
      && (Account(Kinds(Lines(FileText(x, p.log)))) == AccountOf(acts, |p.log|) <==> harmless && AllHarmless(acts))
  {
    var ls := AllLines(x, p.log[0].at, p.start.value, ts, acts);
    LogText(x, p, ts, acts);
    LinesRead(x, harmless, p.log[0].at, p.start.value, ts, acts);
    WrittenCounted(ls, acts, harmless && AllHarmless(acts));
  }

  // The tool's own texts.

  function ToolTexts(w: Text.Writer): (x: Texts) {
    Texts((at: nat) => Text.BannerText(w, at), Text.NoteText)
  }

  lemma ToolTextsGood(w: Text.Writer)
    ensures GoodNotes(ToolTexts(w)) && GoodBanner(ToolTexts(w), Text.HarmlessWriter(w))
  {
    var x := ToolTexts(w);
    forall delta: nat, reference: nat
      ensures Text.ReadAs(x.note(delta, reference), Other, "")
    {
      Text.NoteRead(delta, reference);
    }
    forall at: nat
      ensures TrueKind(Banner(at, x.banner(at))) == Other
        && (Fine(Banner(at, x.banner(at))) <==> Text.HarmlessWriter(w))
    {
      Text.BannerRead(at, w, at);
    }
  }

  lemma EventAction(text: string, k: Kind, quoted: string)
    requires Text.ReadAs(text, k, quoted)
    ensures (HarmlessAction(Say(text)) <==> Text.Harmless(quoted)) && ActionKind(Say(text)) == k
  {
    assert Text.ReadAsAt(0, text, k, quoted);
  }

  /** A message of the tool is harmless exactly when what it quotes is, and only a wipe's success counts as a wipe. */
  lemma MessageAction(m: Text.Message, p: Option<Text.Provenance>)
    ensures var a := Say(Text.EventText(m, p));
      (HarmlessAction(a) <==> Text.Harmless(Text.Quoted(m))) && ActionKind(a) == Text.KindOf(m)
  {
    Text.EventRead(m, p);
    EventAction(Text.EventText(m, p), Text.KindOf(m), Text.Quoted(m));
  }

  /** A process logs its actions, and the budget reader accounts for the file it leaves. */
  method LogAndAccount(w: Text.Writer, clock: Log.Clock, acts: seq<Action>) returns (r: Report)
    ensures r == AccountOf(acts, |Log.Run(clock, Operations(acts)).log|)
       <==> acts == [] || (Text.HarmlessWriter(w) && AllHarmless(acts))
  {
    var audit := Log.LogAll(clock, Operations(acts));
    var text := FileText(ToolTexts(w), audit.log);
    r := ParseAudit(text);
    ToolTextsGood(w);
    if acts == [] {
      AccountFromTally([], acts);
    } else {
      FileCounted(ToolTexts(w), Text.HarmlessWriter(w), audit.P(), Log.Stamps(clock, Operations(acts)), acts);
    }
  }
}
