/**
 The stamping machine of the audit log: a one-shot session banner, a one-shot note
 when the clock steps backwards, and the lines of each logged operation. The clock
 is any function from readings to milliseconds.
 */
module AuditLog {
  import opened Basics
  import opened Bytes

  const U64_MAX: nat := 0xFFFF_FFFF_FFFF_FFFF
  const TOLERANCE_MS: nat := 1000

  datatype Line =
    | Banner(at: nat)
    | StepNote(at: nat, delta: nat, reference: nat)
    | Entry(at: nat, body: string)

  /** One logged operation: a single timestamp shared by its lines (one for an event, two for an exchange). */
  type Operation = bodies: seq<string> | |bodies| >= 1 witness [""]

  type Clock = nat -> nat

  datatype Process = Process(
    ticks: nat,
    start: Option<nat>,  // captured by the first timestamp, not when the process starts
    banner: bool,
    noted: bool,
    last: nat,
    log: seq<Line>)

  const FRESH: Process := Process(0, None, false, false, 0, [])

  function Saturated(n: nat): (r: nat) {
    if n < U64_MAX then n else U64_MAX
  }

  function WithBanner(clock: Clock, p: Process): (r: Process) {
    if p.banner then p else p.(banner := true, ticks := p.ticks + 1, log := p.log + [Banner(clock(p.ticks))])
  }

  /** The process after taking a timestamp, and the timestamp. */
  function Stamp(clock: Clock, p: Process): (r: (Process, nat)) {
    var now := clock(p.ticks);
    var start := if p.start.Some? then p.start.value else clock(p.ticks + 1);
    var p1 := p.(ticks := if p.start.Some? then p.ticks + 1 else p.ticks + 2, start := Some(start));
    var reference := if p.last != 0 then Max(p.last, start) else start;
    var p2 :=
      if now + TOLERANCE_MS < reference && !p.noted then
        var q := WithBanner(clock, p1.(noted := true));
        q.(log := q.log + [StepNote(now, reference - now, reference)])
      else p1;
    (p2.(last := Saturated(now)), now)
  }

  function Entries(at: nat, bodies: seq<string>): (ls: seq<Line>)
  {
    if bodies == [] then [] else Entries(at, bodies[..|bodies| - 1]) + [Entry(at, bodies[|bodies| - 1])]
  }

  function Perform(clock: Clock, p: Process, op: Operation): (r: Process) {
    var (p1, now) := Stamp(clock, p);
    var p2 := WithBanner(clock, p1);
    p2.(log := p2.log + Entries(now, op))
  }

  class AuditLog {
    const clock: Clock
    var ticks: nat
    var start: Option<nat>
    var banner: bool
    var noted: bool
    var last: nat
    var log: seq<Line>

    function P(): (p: Process)
      reads this
    {
      Process(ticks, start, banner, noted, last, log)
    }

    constructor (clock: Clock)
      ensures P() == FRESH && this.clock == clock
    {
      this.clock := clock;
      ticks, start, banner, noted, last, log := 0, None, false, false, 0, [];
    }

    method Now() returns (ms: nat)
      modifies this`ticks
      ensures ms == clock(old(ticks)) && ticks == old(ticks) + 1
    {
      ms := clock(ticks);
      ticks := ticks + 1;
    }

    method WriteSessionBanner()
      modifies this
      ensures P() == WithBanner(clock, old(P()))
    {
      if banner {
        return;
      }
      banner := true;
      var now := Now();
      log := log + [Banner(now)];
    }

    method Timestamp() returns (now: nat)
      modifies this
      ensures (P(), now) == Stamp(clock, old(P()))
    {
      now := Now();
      if start.None? {
        var first := Now();
        start := Some(first);
      }
      var reference := if last != 0 then Max(last, start.value) else start.value;
      if now + TOLERANCE_MS < reference && !noted {
        noted := true;
        WriteSessionBanner();
        log := log + [StepNote(now, reference - now, reference)];
      }
      last := Saturated(now);
    }

    method LogEntry(at: nat, body: string)
      modifies this
      ensures P() == var p := WithBanner(clock, old(P())); p.(log := p.log + [Entry(at, body)])
    {
      WriteSessionBanner();
      log := log + [Entry(at, body)];
    }

    /** One timestamp, then every line of the operation under it. */
    method LogOperation(op: Operation)
      modifies this
      ensures P() == Perform(clock, old(P()), op)
    {
      var now := Timestamp();
      ghost var p1 := P();
      var i := 0;
      while i < |op|
        invariant 0 <= i <= |op|
        invariant i == 0 ==> P() == p1
        invariant i > 0 ==> var p2 := WithBanner(clock, p1); P() == p2.(log := p2.log + Entries(now, op[..i]))
      {
        assert op[..i + 1][..i] == op[..i];
        LogEntry(now, op[i]);
        i := i + 1;
      }
      assert op[..|op|] == op;
    }
  }

  // The reference: the whole log as a function of the stamps taken.

  function Run(clock: Clock, ops: seq<Operation>): (p: Process)
  {
    if ops == [] then FRESH else Perform(clock, Run(clock, ops[..|ops| - 1]), ops[|ops| - 1])
  }

  /** The timestamp of each operation. */
  function Stamps(clock: Clock, ops: seq<Operation>): (ts: seq<nat>)
    ensures |ts| == |ops|
  {
    if ops == [] then []
    else Stamps(clock, ops[..|ops| - 1]) + [Stamp(clock, Run(clock, ops[..|ops| - 1])).1]
  }

  /** What a 64-bit word holds of a stamp. */
  function Held(t: nat): (r: nat) {
    if t < 0x1_0000_0000_0000_0000 then t else 0xFFFF_FFFF_FFFF_FFFF
  }

  /** What stamp `i` is compared with: the larger of process start and the previous stamp. */
  function Reference(start: nat, ts: seq<nat>, i: nat): (r: nat)
    requires i < |ts|
  {
    if i == 0 then start else Max(start, Held(ts[i - 1]))
  }

  predicate Behind(start: nat, ts: seq<nat>, i: nat)
    requires i < |ts|
  {
    ts[i] + 1000 < Reference(start, ts, i)
  }

  predicate AnyBehind(start: nat, ts: seq<nat>, n: nat)
    requires n <= |ts|
  {
    exists i :: 0 <= i < n && Behind(start, ts, i)
  }

  /** The note that stands before the lines of operation `i`: only at the first stamp that is behind. */
  function NoteAt(start: nat, ts: seq<nat>, i: nat): (ls: seq<Line>)
    requires i < |ts|
  {
    if Behind(start, ts, i) && !AnyBehind(start, ts, i)
    then [StepNote(ts[i], Reference(start, ts, i) - ts[i], Reference(start, ts, i))]
    else []
  }

  function Body(start: nat, ts: seq<nat>, ops: seq<Operation>): (ls: seq<Line>)
    requires |ts| == |ops|
  {
    if ops == [] then []
    else
      var n := |ops| - 1;
      Body(start, ts[..n], ops[..n]) + NoteAt(start, ts, n) + Entries(ts[n], ops[n])
  }

  lemma PrefixBehind(start: nat, ts: seq<nat>, n: nat)
    requires n < |ts|
    ensures AnyBehind(start, ts[..n], n) <==> AnyBehind(start, ts, n)
    ensures AnyBehind(start, ts, n + 1) <==> AnyBehind(start, ts, n) || Behind(start, ts, n)
  {
    assert forall i :: 0 <= i < n ==> (Behind(start, ts[..n], i) <==> Behind(start, ts, i));
  }

  /** What one operation adds to the log of a process that has, or has not yet, written its banner. */
  lemma PerformAppends(clock: Clock, p: Process, op: Operation)
    requires p.banner || p.log == []
    ensures var (q, now) := Stamp(clock, p);
      var r := Perform(clock, p, op);
      var reference := if p.last != 0 then Max(p.last, q.start.value) else q.start.value;
      var behind := now + 1000 < reference;
      var note := if behind && !p.noted then [StepNote(now, reference - now, reference)] else [];
      && q.start.Some? && (p.start.Some? ==> q.start == p.start)
      && r.banner && r.start == q.start && r.last == Saturated(now) && (r.noted <==> p.noted || behind)
      && (if p.banner then r.log == p.log + note + Entries(now, op)
          else |r.log| >= 1 && r.log[0].Banner? && r.log == [r.log[0]] + note + Entries(now, op))
  {
  }

  /** The invariant of a run: what the log holds and what the one-shot flags remember. */
  ghost predicate LogIs(p: Process, ts: seq<nat>, ops: seq<Operation>)
    requires |ts| == |ops| > 0
  {
    && p.start.Some? && p.banner && p.last == Held(ts[|ts| - 1])
    && (p.noted <==> AnyBehind(p.start.value, ts, |ts|))
    && |p.log| >= 1 && p.log[0].Banner?
    && p.log[1..] == Body(p.start.value, ts, ops)
  }

  lemma LogIsFirst(clock: Clock, op: Operation)
    ensures LogIs(Perform(clock, FRESH, op), [Stamp(clock, FRESH).1], [op])
  {
    PerformAppends(clock, FRESH, op);
    var p, ts, ops := Perform(clock, FRESH, op), [Stamp(clock, FRESH).1], [op];
    PrefixBehind(p.start.value, ts, 0);
    assert Body(p.start.value, ts[..0], ops[..0]) == [];
    assert p.log[1..] == NoteAt(p.start.value, ts, 0) + Entries(ts[0], op);
  }

  lemma LogIsNext(clock: Clock, p: Process, ts: seq<nat>, ops: seq<Operation>, op: Operation)
    requires |ts| == |ops| > 0 && LogIs(p, ts, ops)
    ensures LogIs(Perform(clock, p, op), ts + [Stamp(clock, p).1], ops + [op])
  {
    PerformAppends(clock, p, op);
    var n, r := |ts|, Perform(clock, p, op);
    var ts', ops' := ts + [Stamp(clock, p).1], ops + [op];
    assert ts'[..n] == ts && ops'[..n] == ops;
    PrefixBehind(p.start.value, ts', n);
    var note := NoteAt(p.start.value, ts', n);
    assert r.log == p.log + note + Entries(ts'[n], op);
    assert r.log[1..] == p.log[1..] + note + Entries(ts'[n], op);
  }

  /**
   For every clock and every run: one banner, first; one note at most, at the first stamp behind; then the
   entries.
   */
  lemma {:induction false} LogMatchesStamps(clock: Clock, ops: seq<Operation>)
    requires ops != []
    ensures LogIs(Run(clock, ops), Stamps(clock, ops), ops)
  {
    var n := |ops| - 1;
    if n == 0 {
      LogIsFirst(clock, ops[0]);
      assert ops == [ops[0]] && ops[..0] == [];
      assert Stamps(clock, ops) == [Stamp(clock, FRESH).1];
    } else {
      LogMatchesStamps(clock, ops[..n]);
      LogIsNext(clock, Run(clock, ops[..n]), Stamps(clock, ops[..n]), ops[..n], ops[n]);
      assert ops == ops[..n] + [ops[n]];
      assert Run(clock, ops) == Perform(clock, Run(clock, ops[..n]), ops[n]);
      assert Stamps(clock, ops) == Stamps(clock, ops[..n]) + [Stamp(clock, Run(clock, ops[..n])).1];
    }
  }

  lemma RunExtend(clock: Clock, ops: seq<Operation>, i: nat)
    requires i < |ops|
    ensures Run(clock, ops[..i + 1]) == Perform(clock, Run(clock, ops[..i]), ops[i])
  {
    assert ops[..i + 1][..i] == ops[..i];
  }

  /** A process that logs the operations in order leaves exactly that log. */
  method LogAll(clock: Clock, ops: seq<Operation>) returns (audit: AuditLog)
    ensures fresh(audit) && audit.P() == Run(clock, ops)
    ensures ops != [] ==> LogIs(audit.P(), Stamps(clock, ops), ops)
  {
    audit := new AuditLog(clock);
    for i := 0 to |ops|
      invariant fresh(audit) && audit.clock == clock && audit.P() == Run(clock, ops[..i])
    {
      RunExtend(clock, ops, i);
      audit.LogOperation(ops[i]);
    }
    assert ops[..|ops|] == ops;
    if ops != [] {
      LogMatchesStamps(clock, ops);
    }
  }

  /** The start the stamps are judged by is the reading taken just after the first stamp. */
  lemma {:induction false} StartIsSecondReading(clock: Clock, ops: seq<Operation>)
    requires ops != []
    ensures Run(clock, ops).start == Some(clock(1)) && Stamps(clock, ops)[0] == clock(0)
  {
    if |ops| > 1 {
      StartIsSecondReading(clock, ops[..|ops| - 1]);
    }
  }

  predicate NoteIn(ls: seq<Line>, k: int) {
    0 <= k < |ls| && ls[k].StepNote?
  }

  /** No banner, and a single step note or none. */
  ghost predicate Shaped(ls: seq<Line>, noted: bool) {
    && (forall k :: 0 <= k < |ls| ==> !ls[k].Banner?)
    && ((exists k :: NoteIn(ls, k)) <==> noted)
    && (forall j, k :: NoteIn(ls, j) && NoteIn(ls, k) ==> j == k)
  }

  lemma ShapedExtends(pre: seq<Line>, noted: bool, note: seq<Line>, es: seq<Line>)
    requires Shaped(pre, noted)
    requires note == [] || (!noted && |note| == 1 && note[0].StepNote?)
    requires forall k :: 0 <= k < |es| ==> es[k].Entry?
    ensures Shaped(pre + note + es, noted || note != [])
  {
    var ls := pre + note + es;
    assert forall k :: NoteIn(pre, k) ==> NoteIn(ls, k);
    assert note != [] ==> NoteIn(ls, |pre|);
    assert forall k :: NoteIn(ls, k) ==> NoteIn(pre, k) || (k == |pre| && note != []);
  }

  /** After the banner there is no second one, and one step note exactly when some stamp is behind. */
  lemma {:induction false} BodyShape(start: nat, ts: seq<nat>, ops: seq<Operation>)
    requires |ts| == |ops|
    ensures Shaped(Body(start, ts, ops), AnyBehind(start, ts, |ts|))
  {
    if ops != [] {
      var n := |ops| - 1;
      BodyShape(start, ts[..n], ops[..n]);
      PrefixBehind(start, ts, n);
      EntriesShape(ts[n], ops[n]);
      ShapedExtends(Body(start, ts[..n], ops[..n]), AnyBehind(start, ts, n), NoteAt(start, ts, n),
                    Entries(ts[n], ops[n]));
    }
  }

  lemma {:induction false} EntriesShape(at: nat, bodies: seq<string>)
    ensures |Entries(at, bodies)| == |bodies|
    ensures forall k :: 0 <= k < |bodies| ==> Entries(at, bodies)[k] == Entry(at, bodies[k])
  {
    if bodies != [] {
      EntriesShape(at, bodies[..|bodies| - 1]);
    }
  }

  ghost predicate Noted(ls: seq<Line>) {
    exists k :: NoteIn(ls, k)
  }

  lemma NotedBehind(first: Line, rest: seq<Line>)
    requires !first.StepNote?
    ensures Noted([first] + rest) <==> Noted(rest)
  {
    assert forall k :: NoteIn(rest, k) ==> NoteIn([first] + rest, k + 1);
    assert forall k :: NoteIn([first] + rest, k) ==> NoteIn(rest, k - 1);
  }

  lemma LogNoted(p: Process, ts: seq<nat>, ops: seq<Operation>)
    requires |ts| == |ops| > 0 && LogIs(p, ts, ops)
    ensures Noted(p.log) <==> AnyBehind(p.start.value, ts, |ts|)
  {
    var body := Body(p.start.value, ts, ops);
    BodyShape(p.start.value, ts, ops);
    NotedBehind(p.log[0], body);
    assert p.log == [p.log[0]] + p.log[1..];
  }

  /** The log of a run holds a note exactly when some stamp is behind. */
  lemma NotedExactly(clock: Clock, ops: seq<Operation>)
    requires ops != []
    ensures Noted(Run(clock, ops).log) <==> AnyBehind(clock(1), Stamps(clock, ops), |ops|)
  {
    LogMatchesStamps(clock, ops);
    StartIsSecondReading(clock, ops);
    LogNoted(Run(clock, ops), Stamps(clock, ops), ops);
  }

  // Judged by the reading at process start instead.

  function Lowest(ts: seq<nat>): (n: nat)
    requires ts != []
  {
    if |ts| == 1 then ts[0]
    else
      var rest := Lowest(ts[..|ts| - 1]);
      if ts[|ts| - 1] < rest then ts[|ts| - 1] else rest
  }

  predicate StepsBack(ts: seq<nat>, i: nat)
    requires 0 < i < |ts|
  {
    ts[i] + 1000 < Held(ts[i - 1])
  }

  /** Some stamp is behind the one before it. */
  predicate Stepped(ts: seq<nat>) {
    exists i :: 0 < i < |ts| && StepsBack(ts, i)
  }

  lemma {:induction false} BehindExactly(start: nat, ts: seq<nat>)
    requires ts != []
    ensures AnyBehind(start, ts, |ts|) <==> Stepped(ts) || Lowest(ts) + 1000 < start
  {
    var n := |ts| - 1;
    PrefixBehind(start, ts, n);
    if n == 0 {
      assert AnyBehind(start, ts, 1) <==> Behind(start, ts, 0);
    } else {
      BehindExactly(start, ts[..n]);
      assert Stepped(ts) <==> Stepped(ts[..n]) || StepsBack(ts, n) by {
        assert forall i :: 0 < i < n ==> (StepsBack(ts, i) <==> StepsBack(ts[..n], i));
      }
    }
  }

  /**
   The log holds a note exactly when the reading `boot` at process start would have called for one, if and
   only if the stamps step back among themselves or the lowest of them is behind both references or neither.
   */
  lemma JudgedByBoot(clock: Clock, ops: seq<Operation>, boot: nat)
    requires ops != []
    ensures var ts := Stamps(clock, ops);
      (Noted(Run(clock, ops).log) <==> AnyBehind(boot, ts, |ts|))
      <==> (Stepped(ts) || (Lowest(ts) + 1000 < boot <==> Lowest(ts) + 1000 < clock(1)))
  {
    NotedExactly(clock, ops);
    BehindExactly(clock(1), Stamps(clock, ops));
    BehindExactly(boot, Stamps(clock, ops));
  }

  /** The first operation is noted exactly when the second reading is more than a second ahead of the first. */
  lemma FirstNoted(clock: Clock, op: Operation)
    ensures Noted(Run(clock, [op]).log) <==> clock(0) + 1000 < clock(1)
  {
    var ts := Stamps(clock, [op]);
    NotedExactly(clock, [op]);
    StartIsSecondReading(clock, [op]);
    assert AnyBehind(clock(1), ts, 1) <==> Behind(clock(1), ts, 0);
  }

  predicate AllAre(ts: seq<nat>, c: nat) {
    forall i :: 0 <= i < |ts| ==> ts[i] == c
  }

  lemma {:induction false} StoppedClock(clock: Clock, c: nat, ops: seq<Operation>)
    requires forall n :: clock(n) == c
    ensures AllAre(Stamps(clock, ops), c)
  {
    if ops != [] {
      StoppedClock(clock, c, ops[..|ops| - 1]);
    }
  }

  lemma SteadyStamps(ts: seq<nat>, c: nat, boot: nat)
    requires ts != [] && AllAre(ts, c) && c + 1000 < boot
    ensures AnyBehind(boot, ts, |ts|) && !AnyBehind(c, ts, |ts|)
  {
    assert Behind(boot, ts, 0);
  }

  /** A clock set back between process start and the first stamp, which no note ever tells. */
  lemma BootNotNoted(clock: Clock, c: nat, ops: seq<Operation>, boot: nat)
    requires ops != [] && c + 1000 < boot && forall n :: clock(n) == c
    ensures AnyBehind(boot, Stamps(clock, ops), |ops|) && !Noted(Run(clock, ops).log)
  {
    StoppedClock(clock, c, ops);
    NotedExactly(clock, ops);
    SteadyStamps(Stamps(clock, ops), c, boot);
  }

  /** Such a clock and start. */
  lemma BootMissed(op: Operation)
    ensures AnyBehind(5000, Stamps(_ => 0, [op]), 1) && !Noted(Run(_ => 0, [op]).log)
  {
    BootNotNoted(_ => 0, 0, [op], 5000);
  }
}
