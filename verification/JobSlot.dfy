/**
 The single REST job slot, shared under one mutex by the HTTP handlers and the main
 loop. The main loop takes a job in one lock section, runs it with the lock released
 and completes it in another, so every interleaving of those sections is a run.
 */
module JobSlot {
  import opened Bytes

  const U32: nat := 0x1_0000_0000

  datatype Status = Idle | Pending | Running | Completed

  datatype Command = Burn | Wipe

  datatype Result = Success | CardNotPresent | AuthFailed | AuthDelay | WipeRefused | Error(message: string)

  datatype Slot = Slot(id: nat, status: Status, command: Option<Command>, result: Option<Result>)

  const EMPTY: Slot := Slot(0, Idle, None, None)

  function NextId(id: nat): (r: nat) {
    var n := (id + 1) % U32;
    if n == 0 then 1 else n
  }

  function Submitted(s: Slot, c: Command): (r: Slot) {
    Slot(NextId(s.id), Pending, Some(c), None)
  }

  class SharedSlot {
    var id: nat
    var status: Status
    var command: Option<Command>
    var result: Option<Result>

    function S(): (s: Slot)
      reads this
    {
      Slot(id, status, command, result)
    }

    constructor ()
      ensures S() == EMPTY
    {
      id, status, command, result := 0, Idle, None, None;
    }

    method Submit(c: Command) returns (accepted: bool)
      modifies this
      ensures accepted <==> old(status) == Idle || old(status) == Completed
      ensures S() == if accepted then Submitted(old(S()), c) else old(S())
    {
      if status != Idle && status != Completed {
        return false;
      }
      id := (id + 1) % U32;
      if id == 0 {
        id := 1;
      }
      status := Pending;
      command := Some(c);
      result := None;
      return true;
    }

    /** The lock section of the submit handler: the id told to the client is computed before submitting. */
    method HandleSubmit(c: Command) returns (told: nat, accepted: bool)
      modifies this
      ensures told == (old(id) + 1) % U32
      ensures accepted <==> old(status) == Idle || old(status) == Completed
      ensures Next(World(old(S()), None, []), Step.Submit(c))
           == World(S(), None, [if accepted then Accepted(c, told, id) else Refused])
    {
      told := (id + 1) % U32;
      accepted := Submit(c);
    }

    /** The first lock section of the main loop. */
    method Take() returns (c: Option<Command>)
      modifies this
      ensures c == if old(status) == Pending then old(command) else None
      ensures S() == if c.Some? then old(S()).(status := Running) else old(S())
      ensures Next(World(old(S()), None, []), LoopTake) == World(S(), c, if c.Some? then [Dispatched(c.value)] else [])
    {
      if status != Pending || command.None? {
        return None;
      }
      status := Running;
      return command;
    }

    /** The second lock section of the main loop. */
    method Finish(r: Result)
      modifies this
      ensures S() == old(S()).(status := Completed, result := Some(r))
      ensures forall c: Command :: Next(World(old(S()), Some(c), []), LoopFinish(r)) == World(S(), None, [Done(r)])
    {
      status := Completed;
      result := Some(r);
    }
  }

  // Interleavings.

  datatype Event =
    | Accepted(command: Command, told: nat, id: nat)
    | Refused
    | Dispatched(command: Command)
    | Done(result: Result)
    | Polled(slot: Slot)

  /** The slot, the command the main loop is running with the lock released, and what happened so far. */
  datatype World = World(slot: Slot, loop: Option<Command>, history: seq<Event>)

  const BOOT: World := World(EMPTY, None, [])

  datatype Step = Submit(command: Command) | Poll | LoopTake | LoopFinish(result: Result)

  /** The effect of the next lock section; a section the main loop is not at does nothing. */
  function Next(w: World, s: Step): (r: World) {
    match s
    case Submit(c) =>
      if w.slot.status == Idle || w.slot.status == Completed then
        var t := Submitted(w.slot, c);
        World(t, w.loop, w.history + [Accepted(c, (w.slot.id + 1) % U32, t.id)])
      else w.(history := w.history + [Refused])
    case Poll => w.(history := w.history + [Polled(w.slot)])
    case LoopTake =>
      if w.loop.None? && w.slot.status == Pending && w.slot.command.Some? then
        World(w.slot.(status := Running), w.slot.command, w.history + [Dispatched(w.slot.command.value)])
      else w
    case LoopFinish(r) =>
      if w.loop.Some? then World(w.slot.(status := Completed, result := Some(r)), None, w.history + [Done(r)])
      else w
  }

  function Run(ss: seq<Step>): (w: World)
  {
    if ss == [] then BOOT else Next(Run(ss[..|ss| - 1]), ss[|ss| - 1])
  }

  /** The life of jobs: acceptances, dispatches and completions, in order. */
  function Jobs(h: seq<Event>): (es: seq<Event>)
  {
    if h == [] then []
    else
      var e := h[|h| - 1];
      Jobs(h[..|h| - 1]) + if e.Accepted? || e.Dispatched? || e.Done? then [e] else []
  }

  /** The number of accepted jobs. */
  function NumAccepted(es: seq<Event>): (n: nat) {
    (|es| + 2) / 3
  }

  /** Ids run 1, 2, ..., 2^32 - 1 and start over at 1. */
  function IdOf(n: nat): (id: nat)
    requires n > 0
  {
    (n - 1) % 0xFFFF_FFFF + 1
  }

  /**
   Event `i` of the life of jobs: every third one accepts, the next dispatches that command, the next
   completes it.
   */
  predicate JobEvent(es: seq<Event>, i: nat)
    requires i < |es|
  {
    if i % 3 == 0 then es[i].Accepted? && es[i].id == IdOf(i / 3 + 1) && es[i].told == ToldTo(i / 3 + 1)
    else if i % 3 == 1 then es[i - 1].Accepted? && es[i] == Dispatched(es[i - 1].command)
    else es[i].Done?
  }

  /** Jobs live one after the other: accepted, dispatched exactly once with the accepted command, done. */
  predicate OneAtATime(es: seq<Event>) {
    forall i :: 0 <= i < |es| ==> JobEvent(es, i)
  }

  /** What the slot and the main loop hold, told from the life of jobs so far. */
  predicate SlotShows(slot: Slot, loop: Option<Command>, es: seq<Event>) {
    if es == [] then slot == EMPTY && loop.None?
    else
      var last := es[|es| - 1];
      && slot.id == IdOf(NumAccepted(es))
      && slot.command.Some?
      && (match last
          case Accepted(c, _, _) => slot.status == Pending && slot.command == Some(c) && slot.result.None? && loop.None?
          case Dispatched(c) =>
            slot.status == Running && slot.command == Some(c) && slot.result.None? && loop == Some(c)
          case Done(r) => slot.status == Completed && slot.result == Some(r) && loop.None?
          case _ => false)
  }

  ghost predicate Invariant(w: World) {
    OneAtATime(Jobs(w.history)) && SlotShows(w.slot, w.loop, Jobs(w.history))
  }

  /** The id told to the client of job `n`: one more than the id of the job before it, wrapped. */
  function ToldTo(n: nat): (told: nat)
    requires n > 0
  {
    ((if n == 1 then 0 else IdOf(n - 1)) + 1) % 0x1_0000_0000
  }

  lemma NextIdIsNext(n: nat)
    ensures n > 0 ==> NextId(IdOf(n)) == IdOf(n + 1)
    ensures NextId(0) == IdOf(1)
  {
  }

  lemma JobsExtend(h: seq<Event>, e: Event)
    ensures Jobs(h + [e]) == if e.Accepted? || e.Dispatched? || e.Done? then Jobs(h) + [e] else Jobs(h)
  {
    assert (h + [e])[..|h|] == h;
  }

  lemma OrderExtends(es: seq<Event>, e: Event)
    requires OneAtATime(es) && JobEvent(es + [e], |es|)
    ensures OneAtATime(es + [e])
  {
    forall i | 0 <= i < |es + [e]|
      ensures JobEvent(es + [e], i)
    {
      if i < |es| {
        assert JobEvent(es, i);
      }
    }
  }

  lemma EventKind(es: seq<Event>, i: nat)
    requires i < |es| && JobEvent(es, i)
    ensures (es[i].Accepted? <==> i % 3 == 0) && (es[i].Dispatched? <==> i % 3 == 1) && (es[i].Done? <==> i % 3 == 2)
  {
  }

  lemma RemainderOfNext(i: nat)
    ensures (i % 3 == 0 <==> (i + 1) % 3 == 1) && (i % 3 == 1 <==> (i + 1) % 3 == 2)
    ensures i % 3 == 2 <==> (i + 1) % 3 == 0
  {
  }

  lemma LastEvent(es: seq<Event>)
    requires OneAtATime(es) && es != []
    ensures var last := es[|es| - 1];
      && (last.Accepted? <==> |es| % 3 == 1) && (last.Dispatched? <==> |es| % 3 == 2) && (last.Done? <==> |es| % 3 == 0)
  {
    var i := |es| - 1;
    assert JobEvent(es, i);
    EventKind(es, i);
    RemainderOfNext(i);
  }

  /** The id and the told id of the next job, from the slot the last one left. */
  lemma NextJobIds(slot: Slot, loop: Option<Command>, es: seq<Event>)
    requires SlotShows(slot, loop, es) && |es| % 3 == 0
    ensures NumAccepted(es) == |es| / 3
    ensures NextId(slot.id) == IdOf(|es| / 3 + 1)
    ensures (slot.id + 1) % U32 == ToldTo(|es| / 3 + 1)
  {
    assert NumAccepted(es) == |es| / 3;
    NextIdIsNext(|es| / 3);
  }

  lemma AcceptExtends(es: seq<Event>, c: Command, told: nat, id: nat)
    requires OneAtATime(es) && |es| % 3 == 0
    requires told == ToldTo(|es| / 3 + 1) && id == IdOf(|es| / 3 + 1)
    ensures OneAtATime(es + [Accepted(c, told, id)])
    ensures SlotShows(Slot(id, Pending, Some(c), None), None, es + [Accepted(c, told, id)])
  {
    var e := Accepted(c, told, id);
    assert (es + [e])[|es|] == e;
    assert JobEvent(es + [e], |es|);
    OrderExtends(es, e);
    assert NumAccepted(es + [e]) == |es| / 3 + 1;
  }

  lemma SubmitExtends(slot: Slot, loop: Option<Command>, es: seq<Event>, c: Command)
    requires OneAtATime(es) && SlotShows(slot, loop, es) && (slot.status == Idle || slot.status == Completed)
    ensures var e := Accepted(c, (slot.id + 1) % U32, NextId(slot.id));
      loop.None? && OneAtATime(es + [e]) && SlotShows(Submitted(slot, c), loop, es + [e])
  {
    if es != [] {
      LastEvent(es);
    }
    NextJobIds(slot, loop, es);
    AcceptExtends(es, c, (slot.id + 1) % U32, NextId(slot.id));
  }

  /** An idle or completed slot takes the command: the state after it, and that it keeps the invariant. */
  lemma SubmitTaken(w: World, c: Command)
    requires Invariant(w) && (w.slot.status == Idle || w.slot.status == Completed)
    ensures var e := Accepted(c, (w.slot.id + 1) % U32, NextId(w.slot.id));
      Invariant(World(Submitted(w.slot, c), w.loop, w.history + [e]))
  {
    SubmitExtends(w.slot, w.loop, Jobs(w.history), c);
    JobsExtend(w.history, Accepted(c, (w.slot.id + 1) % U32, NextId(w.slot.id)));
  }

  lemma SubmitRefused(w: World)
    requires Invariant(w)
    ensures Invariant(w.(history := w.history + [Refused]))
  {
    JobsExtend(w.history, Refused);
  }

  lemma SubmitKeeps(w: World, c: Command)
    requires Invariant(w)
    ensures Invariant(Next(w, Submit(c)))
  {
    if w.slot.status == Idle || w.slot.status == Completed {
      SubmitTaken(w, c);
    } else {
      SubmitRefused(w);
    }
  }

  lemma DispatchExtends(slot: Slot, es: seq<Event>)
    requires OneAtATime(es) && SlotShows(slot, None, es) && slot.status == Pending && slot.command.Some?
    ensures OneAtATime(es + [Dispatched(slot.command.value)])
    ensures SlotShows(slot.(status := Running), slot.command, es + [Dispatched(slot.command.value)])
  {
    LastEvent(es);
    var e := Dispatched(slot.command.value);
    assert (es + [e])[|es|] == e && (es + [e])[|es| - 1] == es[|es| - 1];
    assert JobEvent(es + [e], |es|);
    OrderExtends(es, e);
    assert NumAccepted(es + [e]) == NumAccepted(es);
  }

  lemma DoneExtends(slot: Slot, loop: Option<Command>, es: seq<Event>, r: Result)
    requires OneAtATime(es) && SlotShows(slot, loop, es) && loop.Some?
    ensures OneAtATime(es + [Done(r)])
    ensures SlotShows(slot.(status := Completed, result := Some(r)), None, es + [Done(r)])
  {
    LastEvent(es);
    assert (es + [Done(r)])[|es|] == Done(r);
    assert JobEvent(es + [Done(r)], |es|);
    OrderExtends(es, Done(r));
    assert NumAccepted(es + [Done(r)]) == NumAccepted(es);
  }

  lemma LoopKeeps(w: World, s: Step)
    requires Invariant(w) && (s.LoopTake? || s.LoopFinish?)
    ensures Invariant(Next(w, s))
  {
    var es := Jobs(w.history);
    if s.LoopTake? && w.loop.None? && w.slot.status == Pending {
      DispatchExtends(w.slot, es);
      JobsExtend(w.history, Dispatched(w.slot.command.value));
    } else if s.LoopFinish? && w.loop.Some? {
      DoneExtends(w.slot, w.loop, es, s.result);
      JobsExtend(w.history, Done(s.result));
    }
  }

  lemma StepKeeps(w: World, s: Step)
    requires Invariant(w)
    ensures Invariant(Next(w, s))
  {
    match s
    case Submit(c) => SubmitKeeps(w, c);
    case Poll => JobsExtend(w.history, Polled(w.slot));
    case LoopTake => LoopKeeps(w, s);
    case LoopFinish(_) => LoopKeeps(w, s);
  }

  /** Every interleaving keeps the invariant. */
  lemma {:induction false} RunKeeps(ss: seq<Step>)
    ensures Invariant(Run(ss))
  {
    if ss != [] {
      RunKeeps(ss[..|ss| - 1]);
      StepKeeps(Run(ss[..|ss| - 1]), ss[|ss| - 1]);
    }
  }

  lemma NextFromHistory(w: World, s: Step)
    ensures var r := Next(World(w.slot, w.loop, []), s);
      Next(w, s) == World(r.slot, r.loop, w.history + r.history)
  {
    assert w.history + [] == w.history;
  }

  /** A slot whose lock sections run in the order of the schedule goes through exactly that interleaving. */
  method RunSections(ss: seq<Step>) returns (w: World)
    ensures w == Run(ss) && Invariant(w)
  {
    var shared := new SharedSlot();
    var loop: Option<Command>, history: seq<Event> := None, [];
    for i := 0 to |ss|
      invariant fresh(shared) && World(shared.S(), loop, history) == Run(ss[..i])
    {
      assert ss[..i + 1][..i] == ss[..i];
      NextFromHistory(Run(ss[..i]), ss[i]);
      RunKeeps(ss[..i]);
      match ss[i]
      case Submit(c) =>
        var told, accepted := shared.HandleSubmit(c);
        history := history + [if accepted then Accepted(c, told, shared.id) else Refused];
      case Poll =>
        history := history + [Polled(shared.S())];
      case LoopTake =>
        if loop.None? {
          loop := shared.Take();
          if loop.Some? {
            history := history + [Dispatched(loop.value)];
          }
        }
      case LoopFinish(r) =>
        if loop.Some? {
          shared.Finish(r);
          loop, history := None, history + [Done(r)];
        }
    }
    assert ss[..|ss|] == ss;
    RunKeeps(ss);
    w := World(shared.S(), loop, history);
  }

  /**
   In every interleaving: a result exactly when completed, an id exactly after the first job, one command in
   flight.
   */
  lemma RunFacts(ss: seq<Step>)
    ensures var w := Run(ss);
      && OneAtATime(Jobs(w.history))
      && (w.slot.result.Some? <==> w.slot.status == Completed)
      && (w.slot.id != 0 <==> Jobs(w.history) != [])
      && (w.loop.Some? <==> w.slot.status == Running) && (w.loop.Some? ==> w.loop == w.slot.command)
  {
    RunKeeps(ss);
    var es := Jobs(Run(ss).history);
    if es != [] {
      LastEvent(es);
    }
  }

  /** A poll saw the slot as the life of jobs up to it left it. */
  ghost predicate PollTrue(h: seq<Event>, i: nat)
    requires i < |h|
  {
    h[i].Polled? ==> exists loop :: SlotShows(h[i].slot, loop, Jobs(h[..i]))
  }

  ghost predicate PollsTrue(h: seq<Event>) {
    forall i :: 0 <= i < |h| ==> PollTrue(h, i)
  }

  lemma PollsExtend(h: seq<Event>, e: Event, loop: Option<Command>)
    requires PollsTrue(h) && (e.Polled? ==> SlotShows(e.slot, loop, Jobs(h)))
    ensures PollsTrue(h + [e])
  {
    forall i | 0 <= i < |h + [e]|
      ensures PollTrue(h + [e], i)
    {
      assert (h + [e])[..i] == if i < |h| then h[..i] else h;
      if i < |h| {
        assert PollTrue(h, i);
      }
    }
  }

  lemma StepKeepsPolls(w: World, s: Step)
    requires Invariant(w) && PollsTrue(w.history)
    ensures PollsTrue(Next(w, s).history)
  {
    var h := Next(w, s).history;
    if h != w.history {
      assert h == w.history + [h[|h| - 1]];
      PollsExtend(w.history, h[|h| - 1], w.loop);
    }
  }

  lemma {:induction false} RunKeepsPolls(ss: seq<Step>)
    ensures PollsTrue(Run(ss).history)
  {
    if ss != [] {
      var pre := ss[..|ss| - 1];
      RunKeepsPolls(pre);
      RunKeeps(pre);
      StepKeepsPolls(Run(pre), ss[|ss| - 1]);
    }
  }

  lemma {:induction false} JobsPrefix(h: seq<Event>, i: nat)
    requires i <= |h|
    ensures Jobs(h[..i]) <= Jobs(h)
  {
    if i == |h| {
      assert h[..i] == h;
    } else {
      JobsPrefix(h[..|h| - 1], i);
      assert h[..|h| - 1][..i] == h[..i];
    }
  }

  /**
   What a client sees: a polled slot has a result exactly when it is completed, and that result is the last
   completion before the poll; its id is that of the last accepted job, or 0 before the first.
   */
  lemma PolledSlot(ss: seq<Step>, i: nat)
    requires i < |Run(ss).history| && Run(ss).history[i].Polled?
    ensures var h := Run(ss).history;
      var s, es := h[i].slot, Jobs(h[..i]);
      && (s.result.Some? <==> s.status == Completed)
      && (s.status == Completed <==> es != [] && es[|es| - 1].Done?)
      && (s.status == Completed ==> s.result == Some(es[|es| - 1].result))
      && s.id == (if es == [] then 0 else IdOf(NumAccepted(es)))
  {
    var h := Run(ss).history;
    RunKeepsPolls(ss);
    assert PollTrue(h, i);
    RunKeeps(ss);
    JobsPrefix(h, i);
    var es := Jobs(h[..i]);
    if es != [] {
      PrefixInOrder(Jobs(h), es);
      LastEvent(es);
    }
  }

  lemma PrefixInOrder(es: seq<Event>, pre: seq<Event>)
    requires OneAtATime(es) && pre <= es
    ensures OneAtATime(pre)
  {
    forall i | 0 <= i < |pre|
      ensures JobEvent(pre, i)
    {
      assert JobEvent(es, i);
    }
  }

  /**
   Below the wrap, a polled id that a client was told is that of the client's own job: the last one accepted
   before the poll.
   */
  lemma PolledIdNamesJob(ss: seq<Step>, i: nat, n: nat)
    requires i < |Run(ss).history| && Run(ss).history[i].Polled?
    requires n > 0 && 3 * (n - 1) < |Jobs(Run(ss).history)| && NumAccepted(Jobs(Run(ss).history)) < 0x1_0000_0000
    requires Jobs(Run(ss).history)[3 * (n - 1)].Accepted?
      && Run(ss).history[i].slot.id == Jobs(Run(ss).history)[3 * (n - 1)].told
    ensures n == NumAccepted(Jobs(Run(ss).history[..i]))
  {
    var es, pre := Jobs(Run(ss).history), Jobs(Run(ss).history[..i]);
    PolledSlot(ss, i);
    RunKeeps(ss);
    AcceptedAt(es, n);
    JobsPrefix(Run(ss).history, i);
    assert n <= NumAccepted(es) && NumAccepted(pre) <= NumAccepted(es) && (pre == [] <==> NumAccepted(pre) == 0);
    ToldOnce(n, NumAccepted(pre));
  }

  lemma ToldOnce(n: nat, k: nat)
    requires 0 < n < 0x1_0000_0000 && k < 0x1_0000_0000 && ToldTo(n) == if k == 0 then 0 else IdOf(k)
    ensures n == k
  {
    ToldNamesJob(n);
    if k > 0 {
      ToldNamesJob(k);
    }
  }

  lemma RemainderSteps(m: nat)
    ensures (m + 1) % 0xFFFF_FFFF == if m % 0xFFFF_FFFF + 1 == 0xFFFF_FFFF then 0 else m % 0xFFFF_FFFF + 1
  {
  }

  /** The id told to the client of job `n` names that job, except for the one job after each wrap. */
  lemma ToldNamesJob(n: nat)
    requires n > 0
    ensures ToldTo(n) == IdOf(n) <==> n == 1 || (n - 1) % 0xFFFF_FFFF != 0
    ensures n < 0x1_0000_0000 ==> ToldTo(n) == IdOf(n) == n
    ensures IdOf(n) != 0
  {
    if n > 1 {
      RemainderSteps(n - 2);
    }
  }

  lemma ToldWrong()
    ensures ToldTo(0x1_0000_0000) == 0 && IdOf(0x1_0000_0000) == 1
  {
  }

  lemma AcceptedAt(es: seq<Event>, n: nat)
    requires OneAtATime(es) && n > 0 && 3 * (n - 1) < |es|
    ensures var e := es[3 * (n - 1)];
      e.Accepted? && e.id == IdOf(n) && e.told == ToldTo(n)
  {
    var i := 3 * (n - 1);
    assert i % 3 == 0 && i / 3 == n - 1;
    assert JobEvent(es, i);
  }

  /** In every interleaving job `n` was told its own id, except for the one job after each wrap. */
  lemma ToldInRuns(ss: seq<Step>, n: nat)
    requires n > 0 && 3 * (n - 1) < |Jobs(Run(ss).history)|
    ensures var e := Jobs(Run(ss).history)[3 * (n - 1)];
      e.Accepted? && e.id == IdOf(n) && (e.told == e.id <==> n == 1 || (n - 1) % 0xFFFF_FFFF != 0)
  {
    RunKeeps(ss);
    AcceptedAt(Jobs(Run(ss).history), n);
    ToldNamesJob(n);
  }

  /** While a job is in flight its id and command stay, whatever other sections run. */
  lemma {:induction false} InFlightStays(ss: seq<Step>, more: seq<Step>)
    requires Run(ss).slot.status == Pending || Run(ss).slot.status == Running
    requires forall i :: 0 <= i < |more| ==> !more[i].LoopFinish?
    ensures var w, v := Run(ss).slot, Run(ss + more).slot;
      v.id == w.id && v.command == w.command && v.result == w.result && (v.status == Pending || v.status == Running)
  {
    if more == [] {
      assert ss + more == ss;
    } else {
      var n := |more| - 1;
      InFlightStays(ss, more[..n]);
      assert (ss + more)[..|ss| + n] == ss + more[..n];
    }
  }

  /** A pending job is taken by the main loop's next section, and a running one completed by the one after. */
  lemma JobProgresses(w: World, r: Result)
    requires Invariant(w) && w.slot.status == Pending
    ensures var w1 := Next(w, LoopTake);
      var w2 := Next(w1, LoopFinish(r));
      && w1.slot.status == Running && w1.loop == w.slot.command
      && w2.slot.status == Completed && w2.slot.result == Some(r) && w2.slot.id == w.slot.id
      && w2.slot.command == w.slot.command
  {
  }
}
