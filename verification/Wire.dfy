/**
 The card's session as seen on the wire. For every sequence of APDUs the card answers, well-formed as
 commands or not, the session it holds can be told from the exchanges alone.
 */
module Wire {
  import opened Basics
  import opened Bytes
  import opened CardSpec
  import Card = MockTransport

  datatype Exchange = Exchange(apdu: seq<byte>, data: seq<byte>, sw1: byte, sw2: byte)

  /** The state and the exchanges after a sequence of APDUs, unless the card process has ended. */
  function Talk(x: Suite, s: State, apdus: seq<seq<byte>>): (r: Option<(State, seq<Exchange>)>)
    requires s.Valid()
    ensures r.Some? ==> r.value.0.Valid() && |r.value.1| == |apdus|
  {
    if apdus == [] then Some((s, []))
    else
      var before := Talk(x, s, apdus[..|apdus| - 1]);
      if before.None? then None
      else
        var (t, es) := before.value;
        var a := apdus[|apdus| - 1];
        match Step(x, t, a)
        case Panicked => None
        case Answered(next, data, sw1, sw2) => Some((next, es + [Exchange(a, data, sw1, sw2)]))
  }

  // What an exchange says about the session.

  /** The second part of an authentication was accepted: the card sent its proof. */
  predicate Opens(e: Exchange) {
    Header(e.apdu, 0x90, 0xAF) && |e.data| == 32
  }

  /** The master key was changed. */
  predicate Closes(e: Exchange) {
    Header(e.apdu, 0x90, 0xC4) && |e.apdu| > 5 && e.apdu[5] == 0
  }

  /** An exchange the counter of an open session moves on with. */
  predicate Counts(e: Exchange) {
    || (Header(e.apdu, 0x90, 0xF5) && |e.apdu| != 7)
    || Header(e.apdu, 0x90, 0x5F) || (Header(e.apdu, 0x90, 0xC4) && !Closes(e)) || Header(e.apdu, 0x90, 0x64)
    || Header(e.apdu, 0x90, 0xAD) || Header(e.apdu, 0x90, 0x8D)
  }

  function NumCounted(es: seq<Exchange>): (n: nat) {
    if es == [] then 0 else NumCounted(es[..|es| - 1]) + if Counts(es[|es| - 1]) then 1 else 0
  }

  /** The exchange that opened the session that is still open. */
  function Opened(es: seq<Exchange>): (k: Option<nat>)
    ensures k.Some? ==> k.value < |es|
  {
    if es == [] then None
    else
      var n := |es| - 1;
      if Opens(es[n]) then Some(n) else if Closes(es[n]) then None else Opened(es[..n])
  }

  /** It is the last one that opens a session, and none after it closes one. */
  lemma {:induction false} OpenedExactly(es: seq<Exchange>, k: nat)
    requires k < |es|
    ensures Opened(es) == Some(k) <==> Opens(es[k]) && forall i :: k < i < |es| ==> !Opens(es[i]) && !Closes(es[i])
  {
    var n := |es| - 1;
    if k < n {
      OpenedExactly(es[..n], k);
    }
  }

  // One step.

  function Ticked(session: Option<Session>): (r: Option<Session>) {
    if session.Some? then Some(Advance(session.value)) else None
  }

  /** What an exchange does to the session. */
  predicate Moves(before: Option<Session>, e: Exchange, after: Option<Session>) {
    if Opens(e) then after.Some? && after.value.counter == 0
    else if Closes(e) then after.None?
    else after == if Counts(e) then Ticked(before) else before
  }

  lemma AuthMoves(x: Suite, s: State, a: seq<byte>)
    requires s.Valid() && (Header(a, 0x90, 0x71) || Header(a, 0x90, 0xAF))
    ensures var o := Native(x, s, a);
      o.Answered? ==> Moves(s.session, Exchange(a, o.data, o.sw1, o.sw2), o.next.session)
  {
  }

  lemma NativeMoves(x: Suite, s: State, a: seq<byte>)
    requires s.Valid() && |a| >= 1 && a[0] == 0x90 && !Header(a, 0x90, 0x71) && !Header(a, 0x90, 0xAF)
    ensures var o := Native(x, s, a);
      o.Answered? ==> Moves(s.session, Exchange(a, o.data, o.sw1, o.sw2), o.next.session)
  {
  }

  lemma IsoMoves(x: Suite, s: State, a: seq<byte>)
    requires s.Valid() && (a == [] || a[0] != 0x90)
    ensures var o := Step(x, s, a);
      o.Answered? ==> Moves(s.session, Exchange(a, o.data, o.sw1, o.sw2), o.next.session)
  {
  }

  lemma StepMoves(x: Suite, s: State, a: seq<byte>)
    requires s.Valid()
    ensures var o := Step(x, s, a);
      o.Answered? ==> Moves(s.session, Exchange(a, o.data, o.sw1, o.sw2), o.next.session)
  {
    if a == [] || a[0] != 0x90 {
      IsoMoves(x, s, a);
    } else if Header(a, 0x90, 0x71) || Header(a, 0x90, 0xAF) {
      AuthMoves(x, s, a);
    } else {
      NativeMoves(x, s, a);
    }
  }

  // Whole runs.

  /** The counted exchanges since the one that opened the session. */
  function Since(es: seq<Exchange>): (n: nat) {
    var k := Opened(es);
    if k.None? then 0 else NumCounted(es[k.value + 1..])
  }

  /** The session a run of exchanges leaves, where `origin` is the session its last opening exchange left. */
  ghost predicate SessionIs(session: Option<Session>, es: seq<Exchange>, origin: Option<Session>) {
    var k := Opened(es);
    if k.None? then session.None?
    else
      && origin.Some? && origin.value.counter == 0
      && session == Some(origin.value.(counter := Since(es) % 0x1_0000))
  }

  lemma NumCountedExtend(es: seq<Exchange>, e: Exchange)
    ensures NumCounted(es + [e]) == NumCounted(es) + if Counts(e) then 1 else 0
  {
    assert (es + [e])[..|es|] == es;
  }

  lemma OpenedExtend(es: seq<Exchange>, e: Exchange)
    ensures Opened(es + [e]) == if Opens(e) then Some(|es|) else if Closes(e) then None else Opened(es)
  {
    assert (es + [e])[..|es|] == es;
  }

  lemma CountedBehind(es: seq<Exchange>, e: Exchange, k: nat)
    requires k <= |es|
    ensures NumCounted((es + [e])[k..]) == NumCounted(es[k..]) + if Counts(e) then 1 else 0
  {
    DropExtend(es, e, k);
    NumCountedExtend(es[k..], e);
  }

  lemma SinceOpens(es: seq<Exchange>, e: Exchange)
    requires Opens(e)
    ensures Since(es + [e]) == 0
  {
    OpenedExtend(es, e);
    assert (es + [e])[|es| + 1..] == [];
  }

  lemma SinceGoesOn(es: seq<Exchange>, e: Exchange)
    requires !Opens(e) && !Closes(e) && Opened(es).Some?
    ensures Since(es + [e]) == Since(es) + if Counts(e) then 1 else 0
  {
    OpenedExtend(es, e);
    CountedBehind(es, e, Opened(es).value + 1);
  }

  lemma CounterGoesOn(s: Session, n: nat)
    ensures Advance(s.(counter := n % 0x1_0000)) == s.(counter := (n + 1) % 0x1_0000)
  {
  }

  /** A session that stays open, by the number `n` of exchanges counted before. */
  lemma SessionGoesOn(origin: Session, n: nat, e: Exchange, next: Option<Session>)
    requires !Opens(e) && !Closes(e) && Moves(Some(origin.(counter := n % 0x1_0000)), e, next)
    ensures next == Some(origin.(counter := (n + if Counts(e) then 1 else 0) % 0x1_0000))
  {
    CounterGoesOn(origin, n);
  }

  lemma SessionStep(session: Option<Session>, es: seq<Exchange>, origin: Option<Session>, e: Exchange,
                    next: Option<Session>)
    requires SessionIs(session, es, origin) && Moves(session, e, next)
    ensures SessionIs(next, es + [e], if Opens(e) then next else origin)
  {
    OpenedExtend(es, e);
    if Opens(e) {
      SinceOpens(es, e);
    } else if !Closes(e) && Opened(es).Some? {
      SinceGoesOn(es, e);
      SessionGoesOn(origin.value, Since(es), e, next);
    }
  }

  lemma {:induction false} TalkPrefix(x: Suite, s: State, apdus: seq<seq<byte>>, n: nat)
    requires s.Valid() && Talk(x, s, apdus).Some? && n <= |apdus|
    ensures Talk(x, s, apdus[..n]).Some? && Talk(x, s, apdus[..n]).value.1 == Talk(x, s, apdus).value.1[..n]
  {
    if n == |apdus| {
      assert apdus[..n] == apdus;
    } else {
      TalkPrefix(x, s, apdus[..|apdus| - 1], n);
      assert apdus[..|apdus| - 1][..n] == apdus[..n];
    }
  }

  /** The session left by the exchange that opened the one still open. */
  function OpenedSession(x: Suite, s: State, apdus: seq<seq<byte>>): (r: Option<Session>)
    requires s.Valid() && Talk(x, s, apdus).Some?
  {
    var k := Opened(Talk(x, s, apdus).value.1);
    if k.None? then None else TalkPrefix(x, s, apdus, k.value + 1); Talk(x, s, apdus[..k.value + 1]).value.0.session
  }

  lemma OriginStep(x: Suite, s: State, apdus: seq<seq<byte>>)
    requires s.Valid() && apdus != [] && Talk(x, s, apdus).Some?
    ensures var n := |apdus| - 1;
      var (t, es) := Talk(x, s, apdus).value;
      && Talk(x, s, apdus[..n]).Some?
      && (Opened(es).Some? ==>
            OpenedSession(x, s, apdus) == if Opens(es[n]) then t.session else OpenedSession(x, s, apdus[..n]))
  {
    var n := |apdus| - 1;
    var es := Talk(x, s, apdus).value.1;
    TalkPrefix(x, s, apdus, n);
    if Opens(es[n]) {
      assert apdus[..n + 1] == apdus;
    } else if Opened(es).Some? {
      var k := Opened(es).value;
      assert apdus[..n][..k + 1] == apdus[..k + 1];
    }
  }

  /**
   Whatever APDUs the card has answered since it had no session: it has one exactly when the second part
   of an authentication was accepted and the master key not changed since, it is the session opened then,
   and its counter is the number of counted exchanges since, mod 2^16.
   */
  lemma {:induction false} CounterOnTheWire(x: Suite, s: State, apdus: seq<seq<byte>>)
    requires s.Valid() && s.session.None? && Talk(x, s, apdus).Some?
    ensures var (t, es) := Talk(x, s, apdus).value;
      SessionIs(t.session, es, OpenedSession(x, s, apdus))
  {
    if apdus != [] {
      var n := |apdus| - 1;
      CounterOnTheWire(x, s, apdus[..n]);
      var (t, es) := Talk(x, s, apdus[..n]).value;
      var o := Step(x, t, apdus[n]);
      StepMoves(x, t, apdus[n]);
      var e := Exchange(apdus[n], o.data, o.sw1, o.sw2);
      SessionStep(t.session, es, OpenedSession(x, s, apdus[..n]), e, o.next.session);
      OriginStep(x, s, apdus);
    }
  }

  /**
   A card object that is sent the APDUs one by one, up to the first it does not survive, makes exactly these
   exchanges.
   */
  method SendAll(card: Card.MockTransport, apdus: seq<seq<byte>>) returns (es: seq<Exchange>)
    requires card.S().Valid()
    modifies card
    ensures if |es| == |apdus| then Talk(card.x, old(card.S()), apdus) == Some((card.S(), es))
            else |es| < |apdus| && Talk(card.x, old(card.S()), apdus[..|es| + 1]).None?
  {
    es := [];
    for i := 0 to |apdus|
      invariant |es| == i && card.S().Valid() && Talk(card.x, old(card.S()), apdus[..i]) == Some((card.S(), es))
    {
      assert apdus[..i + 1][..i] == apdus[..i];
      var r := card.Transmit(apdus[i]);
      if r.Panic? {
        return;
      }
      es := es + [Exchange(apdus[i], r.data, r.sw1, r.sw2)];
    }
    assert apdus[..|apdus|] == apdus;
  }
}
