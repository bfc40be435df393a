/** The guarded burn: which key opens the card, and what must hold before it is written. */
module BurnCard {
  import opened Basics
  import opened Bytes
  import opened AuthBench
  import Sun

  datatype Options = Options(dryRun: bool, force: bool, confirm: Option<Sun.Uid>)

  datatype Card = Card(preflight: Option<Sun.Uid>, burns: seq<Event> -> bool)

  datatype Result =
    | PreflightFailed | WrongUid | DryRun | MissingPlaceholders | StillDelayed | NoRandomness | NoKeyWorks | Exited
    | Mutated(ok: bool)

  const PICC: string := "{picc"
  const MAC: string := "{mac}"

  /** The template mirrors the PICC data and the MAC. */
  predicate HasPlaceholders(url: string) {
    Contains(url, PICC) && Contains(url, MAC)
  }

  /** Why a burn is refused before it talks to the card. */
  function Refusal(opts: Options, card: Card): (r: Result) {
    if card.preflight.None? then PreflightFailed
    else if opts.confirm.Some? && opts.confirm != card.preflight then WrongUid
    else if opts.dryRun then DryRun
    else MissingPlaceholders
  }

  /** The gates that need no card: the dry run, the pinned UID and the URL template. */
  predicate Entitled(url: string, opts: Options, card: Card) {
    && !opts.dryRun
    && card.preflight.Some?
    && (opts.confirm.Some? ==> opts.confirm == card.preflight)
    && (opts.force || HasPlaceholders(url))
  }

  // The ladders of one burn.

  /** What the card was asked, ladder by ladder: the state probe, the factory key, the given key. */
  datatype Journey = Journey(
    probe: seq<Event>, state: Climb,
    factory: seq<Event>, onFactory: Climb,
    given: seq<Event>, onGiven: Climb)

  function Trace(j: Journey): (es: seq<Event>) {
    j.probe + (j.factory + j.given)
  }

  /** A ladder on slot 0 that was climbed, or one that was skipped. */
  predicate IsStage(world: World, before: seq<Event>, es: seq<Event>, climbed: bool, key: Block, r: Climb) {
    if climbed then Rides(world, before, 0, key, ATTEMPTS, es, r) else es == []
  }

  /** The state probe lets the burn go on: skipped by force, or settled by any answer but delay. */
  predicate ProbePassed(j: Journey, force: bool) {
    force || j.state.Settled?
  }

  /** The factory key was rejected and its recorded failure did not trip the breaker. */
  predicate FactoryRejected(j: Journey, failures: nat) {
    j.onFactory.WrongKey() && failures + 1 < BREAKER
  }

  /** The stages in order, each climbed exactly when the one before it sends the burn on. */
  predicate IsJourney(world: World, j: Journey, keys: KeySet, force: bool, failures: nat) {
    && IsStage(world, [], j.probe, !force, FACTORY_KEY, j.state)
    && IsStage(world, j.probe, j.factory, ProbePassed(j, force), FACTORY_KEY, j.onFactory)
    && (var third := ProbePassed(j, force) && FactoryRejected(j, failures);
        IsStage(world, j.probe + j.factory, j.given, third, keys.k0, j.onGiven))
  }

  datatype Choice = Chosen(current: Block, previous: KeySet) | Stop(result: Result)

  /** What a ladder says about its key, once its wrong key is recorded as failure number `failures`. */
  function Verdict(r: Climb, failures: nat, onWrong: Choice, onReached: Choice): (c: Choice) {
    match r
    case Exhausted => Stop(StillDelayed)
    case NoRandom => Stop(NoRandomness)
    case Settled(a) => if a == Accepted then onReached else if failures >= BREAKER then Stop(Exited) else onWrong
  }

  /** Factory key first, then the key the burn was given. */
  function KeyChoice(keys: KeySet, onFactory: Climb, onGiven: Climb, failures: nat): (c: Choice) {
    Verdict(onFactory, failures + 1,
            Verdict(onGiven, failures + 2, Stop(NoKeyWorks), Chosen(keys.k0, keys)),
            Chosen(FACTORY_KEY, FACTORY_KEYS))
  }

  /** Where a journey leads. */
  function Destination(j: Journey, keys: KeySet, force: bool, failures: nat): (c: Choice) {
    if !ProbePassed(j, force) then Stop(if j.state == Exhausted then StillDelayed else NoRandomness)
    else KeyChoice(keys, j.onFactory, j.onGiven, failures)
  }

  /** What comes of a journey: where it leads to a key, the call, if there is a random number for it. */
  function Outcome(world: World, j: Journey, c: Choice, card: Card): (r: Result) {
    match c
    case Stop(result) => result
    case Chosen(_, _) => if world.rng(Trace(j)) then Mutated(card.burns(Trace(j))) else NoRandomness
  }

  lemma StageFailures(world: World, before: seq<Event>, es: seq<Event>, climbed: bool, key: Block, r: Climb)
    requires IsStage(world, before, es, climbed, key, r)
    ensures Failures(es) == if climbed && r.WrongKey() then 1 else 0
    ensures |es| <= 11 && forall i :: 0 <= i < |es| ==> es[i].Auth?
    ensures climbed && r.Reached() ==> es != [] && es[|es| - 1] == Auth(0, key, Accepted)
  {
    if climbed {
      RideFailures(world, before, 0, key, ATTEMPTS, es, r);
    }
  }

  /** The failures of the three stages, by their verdicts alone. */
  predicate Tallied(j: Journey, force: bool, failures: nat, onProbe: nat, onKeys: nat) {
    var climbed := ProbePassed(j, force);
    && onProbe == (if !force && j.state.WrongKey() then 1 else 0)
    && onKeys == (if climbed && j.onFactory.WrongKey() then 1 else 0)
                 + (if climbed && FactoryRejected(j, failures) && j.onGiven.WrongKey() then 1 else 0)
  }

  /** The failures of a journey: one for each ladder that ends in a wrong key. */
  lemma JourneyFailures(world: World, j: Journey, keys: KeySet, force: bool, failures: nat)
    requires IsJourney(world, j, keys, force, failures)
    ensures Failures(Trace(j)) == Failures(j.probe) + Failures(j.factory) + Failures(j.given)
    ensures Tallied(j, force, failures, Failures(j.probe), Failures(j.factory) + Failures(j.given))
    ensures |Trace(j)| <= 33 && forall i :: 0 <= i < |Trace(j)| ==> Trace(j)[i].Auth?
  {
    FailuresConcat(j.factory, j.given);
    FailuresConcat(j.probe, j.factory + j.given);
    StageFailures(world, [], j.probe, !force, FACTORY_KEY, j.state);
    StageFailures(world, j.probe, j.factory, ProbePassed(j, force), FACTORY_KEY, j.onFactory);
    var third := ProbePassed(j, force) && FactoryRejected(j, failures);
    StageFailures(world, j.probe + j.factory, j.given, third, keys.k0, j.onGiven);
  }

  lemma LastOf(a: seq<Event>, b: seq<Event>, c: seq<Event>)
    ensures c != [] ==> (a + (b + c))[|a| + |b| + |c| - 1] == c[|c| - 1]
    ensures c == [] && b != [] ==> (a + (b + c))[|a| + |b| - 1] == b[|b| - 1]
  {
  }

  /** Which ladder chose the key. */
  lemma ChosenMeans(j: Journey, keys: KeySet, force: bool, failures: nat)
    requires Destination(j, keys, force, failures).Chosen?
    requires ProbePassed(j, force) ==> j.onFactory != Settled(Delayed)
    ensures ProbePassed(j, force)
    ensures var c := Destination(j, keys, force, failures);
      if j.onFactory.Reached() then c == Chosen(FACTORY_KEY, FACTORY_KEYS) && !FactoryRejected(j, failures)
      else c == Chosen(keys.k0, keys) && FactoryRejected(j, failures) && j.onGiven.Reached()
  {
  }

  /** A key is chosen only as the last thing the card accepted, with the key set it belongs to. */
  lemma ChosenWasAccepted(world: World, j: Journey, keys: KeySet, force: bool, failures: nat)
    requires IsJourney(world, j, keys, force, failures) && Destination(j, keys, force, failures).Chosen?
    ensures var c, es := Destination(j, keys, force, failures), Trace(j);
      && Opens(keys, c.current, c.previous)
      && es != [] && es[|es| - 1] == Auth(0, c.current, Accepted)
  {
    SettledAnswer(world, j.probe, j.factory, ProbePassed(j, force), FACTORY_KEY, j.onFactory);
    ChosenMeans(j, keys, force, failures);
    LastOf(j.probe, j.factory, j.given);
    if j.onFactory.Reached() {
      StageFailures(world, j.probe, j.factory, true, FACTORY_KEY, j.onFactory);
    } else {
      StageFailures(world, j.probe + j.factory, j.given, true, keys.k0, j.onGiven);
    }
  }

  /** A journey fails at most three times, twice if forced or if it leads to a key. */
  lemma TallyBounds(j: Journey, keys: KeySet, force: bool, failures: nat, onProbe: nat, onKeys: nat)
    requires Tallied(j, force, failures, onProbe, onKeys)
    ensures onProbe + onKeys <= if force || Destination(j, keys, force, failures).Chosen? then 2 else 3
  {
  }

  lemma TallyExits(j: Journey, keys: KeySet, force: bool, failures: nat, onProbe: nat, onKeys: nat)
    requires Tallied(j, force, failures, onProbe, onKeys)
    requires ProbePassed(j, force) ==>
      j.onFactory != Settled(Delayed) && (FactoryRejected(j, failures) ==> j.onGiven != Settled(Delayed))
    ensures Destination(j, keys, force, failures) == Stop(Exited) <==> onKeys > 0 && failures + onKeys >= BREAKER
  {
  }

  /** The process ends exactly when a recorded failure reaches the threshold. */
  lemma JourneyExits(world: World, j: Journey, keys: KeySet, force: bool, failures: nat)
    requires IsJourney(world, j, keys, force, failures)
    ensures var recorded := Failures(j.factory) + Failures(j.given);
      Destination(j, keys, force, failures) == Stop(Exited) <==> recorded > 0 && failures + recorded >= BREAKER
  {
    JourneyFailures(world, j, keys, force, failures);
    SettledAnswer(world, j.probe, j.factory, ProbePassed(j, force), FACTORY_KEY, j.onFactory);
    var third := ProbePassed(j, force) && FactoryRejected(j, failures);
    SettledAnswer(world, j.probe + j.factory, j.given, third, keys.k0, j.onGiven);
    TallyExits(j, keys, force, failures, Failures(j.probe), Failures(j.factory) + Failures(j.given));
  }

  lemma SettledAnswer(world: World, before: seq<Event>, es: seq<Event>, climbed: bool, key: Block, r: Climb)
    requires IsStage(world, before, es, climbed, key, r)
    ensures climbed && r.Settled? ==> r.Reached() || r.WrongKey()
  {
    if climbed && r.Settled? {
      assert SettlesAt(world, before, 0, key, |es| - 1, r.answer);
    }
  }

  /** The key that opens the card, and the keys the card is taken to hold: all factory, or those of the burn itself. */
  predicate Opens(keys: KeySet, current: Block, previous: KeySet) {
    || (current == Zeros(16) && previous == KeySet(Zeros(16), Zeros(16), Zeros(16), Zeros(16), Zeros(16)))
    || (current == keys.k0 && previous == keys)
  }

  /** What must hold when the burn call is made: the trace ends with the acceptance of the key it is given. */
  predicate GatesPassed(keys: KeySet, url: string, opts: Options, card: Card, es: seq<Event>, c: Choice)
    requires c.Chosen?
  {
    && Entitled(url, opts, card)
    && es != [] && es[|es| - 1] == Auth(0, c.current, Accepted)
    && Opens(keys, c.current, c.previous)
  }

  // What becomes of cards that settle.

  /** A card that, once its delay is over, accepts the factory key. */
  ghost predicate Blank(world: World) {
    Settles(world, 0, FACTORY_KEY, ATTEMPTS, Accepted)
  }

  /** A card that rejects the factory key and accepts the key the burn was given. */
  ghost predicate Reburnable(world: World, keys: KeySet) {
    Settles(world, 0, FACTORY_KEY, ATTEMPTS, Rejected) && Settles(world, 0, keys.k0, ATTEMPTS, Accepted)
  }

  /** A card that rejects both keys the burn can try. */
  ghost predicate Hostile(world: World, keys: KeySet) {
    Settles(world, 0, FACTORY_KEY, ATTEMPTS, Rejected) && Settles(world, 0, keys.k0, ATTEMPTS, Rejected)
  }

  lemma StageSettles(world: World, before: seq<Event>, es: seq<Event>, climbed: bool, key: Block, r: Climb, a: Answer)
    requires IsStage(world, before, es, climbed, key, r) && Settles(world, 0, key, ATTEMPTS, a)
    ensures climbed ==> r == Settled(a)
  {
    if climbed {
      DelayRiddenOut(world, before, 0, key, ATTEMPTS, a, es, r);
    }
  }

  /** A blank card is opened with the factory key. */
  lemma BlankJourney(world: World, j: Journey, keys: KeySet, force: bool, failures: nat)
    requires IsJourney(world, j, keys, force, failures) && Blank(world)
    ensures Destination(j, keys, force, failures) == Chosen(FACTORY_KEY, FACTORY_KEYS)
  {
    StageSettles(world, [], j.probe, !force, FACTORY_KEY, j.state, Accepted);
    StageSettles(world, j.probe, j.factory, ProbePassed(j, force), FACTORY_KEY, j.onFactory, Accepted);
  }

  /** A card that rejects the factory key is asked with the given key, and its answer decides. */
  lemma ProvisionedJourney(world: World, j: Journey, keys: KeySet, force: bool, failures: nat, a: Answer)
    requires IsJourney(world, j, keys, force, failures) && failures + 1 < BREAKER
    requires Settles(world, 0, FACTORY_KEY, ATTEMPTS, Rejected) && Settles(world, 0, keys.k0, ATTEMPTS, a)
    ensures (force || j.state == Settled(Rejected)) && j.onFactory == Settled(Rejected) && j.onGiven == Settled(a)
  {
    StageSettles(world, [], j.probe, !force, FACTORY_KEY, j.state, Rejected);
    StageSettles(world, j.probe, j.factory, ProbePassed(j, force), FACTORY_KEY, j.onFactory, Rejected);
    StageSettles(world, j.probe + j.factory, j.given, true, keys.k0, j.onGiven, a);
  }

  lemma HostileTally(j: Journey, keys: KeySet, force: bool, failures: nat, onProbe: nat, onKeys: nat)
    requires Tallied(j, force, failures, onProbe, onKeys) && failures + 2 < BREAKER
    requires (force || j.state == Settled(Rejected)) && j.onFactory == j.onGiven == Settled(Rejected)
    ensures onKeys == 2 && onProbe == (if force then 0 else 1)
      && Destination(j, keys, force, failures) == Stop(NoKeyWorks)
  {
  }

  /** Cards that settle, and how their burns end. */
  lemma SettledBurns(world: World, j: Journey, keys: KeySet, force: bool, failures: nat, card: Card)
    requires IsJourney(world, j, keys, force, failures)
    ensures var c := Destination(j, keys, force, failures);
      && (Blank(world) ==> c == Chosen(FACTORY_KEY, FACTORY_KEYS) && Outcome(world, j, c, card).Mutated?)
      && (Reburnable(world, keys) && failures + 1 < BREAKER ==>
            c == Chosen(keys.k0, keys) && Outcome(world, j, c, card).Mutated?)
      && (Hostile(world, keys) && failures + 2 < BREAKER ==>
            && c == Stop(NoKeyWorks) && Failures(j.factory) + Failures(j.given) == 2
            && Failures(Trace(j)) == if force then 2 else 3)
  {
    JourneyFailures(world, j, keys, force, failures);
    if Blank(world) {
      BlankJourney(world, j, keys, force, failures);
      SettlesHasRandom(world, 0, FACTORY_KEY, ATTEMPTS, Accepted, Trace(j));
    }
    if Reburnable(world, keys) && failures + 1 < BREAKER {
      ProvisionedJourney(world, j, keys, force, failures, Accepted);
      SettlesHasRandom(world, 0, keys.k0, ATTEMPTS, Accepted, Trace(j));
    }
    if Hostile(world, keys) && failures + 2 < BREAKER {
      ProvisionedJourney(world, j, keys, force, failures, Rejected);
      HostileTally(j, keys, force, failures, Failures(j.probe), Failures(j.factory) + Failures(j.given));
    }
  }

  // The command.

  /** The state probe of an unforced burn: one ladder with the factory key, nothing recorded. */
  method StateProbe(b: Bench, force: bool) returns (stop: Option<Result>, ghost es: seq<Event>, ghost r: Climb)
    modifies b`trace
    ensures b.trace == old(b.trace) + es && IsStage(b.world, old(b.trace), es, !force, FACTORY_KEY, r)
    ensures old(b.Genuine()) ==> b.Genuine()
    ensures stop == if force || r.Settled? then None else Some(if r == Exhausted then StillDelayed else NoRandomness)
  {
    if force {
      return None, [], Settled(Accepted);
    }
    var climb;
    climb, es := b.Ladder(0, FACTORY_KEY);
    r := climb;
    if climb == Exhausted {
      stop := Some(StillDelayed);
    } else if climb == NoRandom {
      stop := Some(NoRandomness);
    } else {
      stop := None;
    }
  }

  datatype Try = Opened | Wrong | Halt(result: Result)

  /** One ladder on slot 0, with a wrong key recorded. */
  method TryKey(b: Bench, key: Block) returns (t: Try, ghost es: seq<Event>, ghost r: Climb)
    modifies b
    ensures b.trace == old(b.trace) + es && Rides(b.world, old(b.trace), 0, key, ATTEMPTS, es, r)
    ensures old(b.Genuine()) ==> b.Genuine()
    ensures b.failures == old(b.failures) + Failures(es) && Failures(es) == if r.WrongKey() then 1 else 0
    ensures t == match r
                 case Exhausted => Halt(StillDelayed)
                 case NoRandom => Halt(NoRandomness)
                 case Settled(a) =>
                   if a == Accepted then Opened else if b.failures >= BREAKER then Halt(Exited) else Wrong
  {
    var climb;
    climb, es := b.Ladder(0, key);
    r := climb;
    RideFailures(b.world, old(b.trace), 0, key, ATTEMPTS, es, r);
    SettledAnswer(b.world, old(b.trace), es, true, key, r);
    if climb == Settled(Accepted) {
      t := Opened;
    } else if climb == Exhausted {
      t := Halt(StillDelayed);
    } else if climb == NoRandom {
      t := Halt(NoRandomness);
    } else {
      var exited := b.RecordFailure();
      t := if exited then Halt(Exited) else Wrong;
    }
  }

  /** The factory ladder, and the ladder of the given key exactly when the factory key was rejected. */
  method ChooseKey(b: Bench, keys: KeySet)
    returns (c: Choice, ghost factory: seq<Event>, ghost onFactory: Climb, ghost given: seq<Event>,
             ghost onGiven: Climb)
    modifies b
    ensures b.trace == old(b.trace) + (factory + given)
    ensures old(b.Genuine()) ==> b.Genuine()
    ensures Rides(b.world, old(b.trace), 0, FACTORY_KEY, ATTEMPTS, factory, onFactory)
    ensures var second := onFactory.WrongKey() && old(b.failures) + 1 < BREAKER;
      IsStage(b.world, old(b.trace) + factory, given, second, keys.k0, onGiven)
    ensures c == KeyChoice(keys, onFactory, onGiven, old(b.failures))
    ensures b.failures == old(b.failures) + Failures(factory) + Failures(given)
  {
    var t;
    given, onGiven := [], Settled(Accepted);
    t, factory, onFactory := TryKey(b, FACTORY_KEY);
    assert factory + [] == factory;
    if t.Opened? {
      return Chosen(FACTORY_KEY, FACTORY_KEYS), factory, onFactory, given, onGiven;
    } else if t.Halt? {
      return Stop(t.result), factory, onFactory, given, onGiven;
    }
    SettledAnswer(b.world, old(b.trace), factory, true, FACTORY_KEY, onFactory);
    t, given, onGiven := TryKey(b, keys.k0);
    Associates(old(b.trace), factory, given);
    if t.Opened? {
      c := Chosen(keys.k0, keys);
    } else {
      c := Stop(if t.Halt? then t.result else NoKeyWorks);
    }
  }

  /** The gates that talk to the card, up to the mutating call. */
  method Approach(b: Bench, keys: KeySet, force: bool) returns (c: Choice, ghost j: Journey)
    requires b.trace == []
    modifies b
    ensures b.trace == Trace(j) && IsJourney(b.world, j, keys, force, old(b.failures)) && b.Genuine()
    ensures c == Destination(j, keys, force, old(b.failures))
    ensures b.failures == old(b.failures) + Failures(j.factory) + Failures(j.given)
  {
    var stop, probe, state := StateProbe(b, force);
    assert b.trace == probe;
    j := Journey(probe, state, [], Settled(Accepted), [], Settled(Accepted));
    if stop.Some? {
      assert Trace(j) == probe;
      return Stop(stop.value), j;
    }
    ghost var factory, onFactory, given, onGiven;
    c, factory, onFactory, given, onGiven := ChooseKey(b, keys);
    j := Journey(probe, state, factory, onFactory, given, onGiven);
  }

  /** The attempts of a burn, where they lead, and the call at their end. */
  predicate IsBurn(world: World, j: Journey, keys: KeySet, force: bool, card: Card, failures: nat, es: seq<Event>,
                   r: Result)
    requires card.preflight.Some?
  {
    var c := Destination(j, keys, force, failures);
    && IsJourney(world, j, keys, force, failures) && r == Outcome(world, j, c, card)
    && (if r.Mutated? then c.Chosen? && es == Trace(j) + [Burn(card.preflight.value, keys, c.current, c.previous)]
        else es == Trace(j))
  }

  /** What a burn costs the card, and what of it is recorded. */
  lemma BurnCosts(world: World, j: Journey, keys: KeySet, force: bool, card: Card, failures: nat, es: seq<Event>,
                  r: Result)
    requires card.preflight.Some? && IsBurn(world, j, keys, force, card, failures, es, r)
    ensures Failures(es) == Failures(j.probe) + Failures(j.factory) + Failures(j.given) && |es| <= 34
    ensures Failures(es) <= if force || r.Mutated? then 2 else 3
    ensures Failures(j.probe) > 0 <==> !force && j.state.WrongKey()
    ensures var recorded := Failures(j.factory) + Failures(j.given);
      r == Exited <==> recorded > 0 && failures + recorded >= BREAKER
  {
    JourneyFailures(world, j, keys, force, failures);
    TallyBounds(j, keys, force, failures, Failures(j.probe), Failures(j.factory) + Failures(j.given));
    JourneyExits(world, j, keys, force, failures);
    var c := Destination(j, keys, force, failures);
    if r.Mutated? {
      CallAppended(Trace(j), Burn(card.preflight.value, keys, c.current, c.previous));
    }
  }

  /** Cards that settle are burned or refused as they should be, however much of the delay table they use. */
  lemma BurnSettles(world: World, j: Journey, keys: KeySet, force: bool, card: Card, failures: nat, es: seq<Event>,
                    r: Result)
    requires card.preflight.Some? && IsBurn(world, j, keys, force, card, failures, es, r)
    ensures Blank(world) ==> r.Mutated?
    ensures Reburnable(world, keys) && failures + 1 < BREAKER ==> r.Mutated?
    ensures Hostile(world, keys) && failures + 2 < BREAKER ==>
      && r == NoKeyWorks && Failures(es) == (if force then 2 else 3)
      && Failures(j.factory) + Failures(j.given) == 2
  {
    SettledBurns(world, j, keys, force, failures, card);
  }

  /** The burn of an entitled caller. */
  method Proceed(b: Bench, keys: KeySet, opts: Options, card: Card) returns (r: Result, ghost j: Journey)
    requires b.trace == [] && card.preflight.Some?
    modifies b
    ensures IsBurn(b.world, j, keys, opts.force, card, old(b.failures), b.trace, r) && b.Genuine()
    ensures b.failures == old(b.failures) + Failures(j.factory) + Failures(j.given)
  {
    var c;
    c, j := Approach(b, keys, opts.force);
    if c.Stop? {
      return c.result, j;
    }
    if !b.world.rng(b.trace) {
      return NoRandomness, j;
    }
    var call := Burn(card.preflight.value, keys, c.current, c.previous);
    var ok := card.burns(b.trace);
    GenuineExtends(b.world, b.trace, call);
    b.trace := b.trace + [call];
    r := Mutated(ok);
  }

  /**
   The burn. For every card and random source the attempts are a journey, in order, and the mutating call
   is made exactly when the journey ends at a key, the last thing the card accepted, and there is a random
   number for it. Up to it the card suffers at most three failed authentications, two if forced. The
   failures of the two key ladders are recorded; that of the state probe is not.
   */
  method BurnWith(b: Bench, keys: KeySet, url: string, opts: Options, card: Card) returns (r: Result, ghost j: Journey)
    requires b.trace == []
    modifies b
    ensures !Entitled(url, opts, card) ==> b.trace == [] && b.failures == old(b.failures) && r == Refusal(opts, card)
    ensures Entitled(url, opts, card) ==> IsBurn(b.world, j, keys, opts.force, card, old(b.failures), b.trace, r)
    ensures r.Mutated? ==>
      var c := Destination(j, keys, opts.force, old(b.failures));
      c.Chosen? && GatesPassed(keys, url, opts, card, Trace(j), c)
    ensures r.Mutated? && !opts.force ==>
      (exists i :: 0 <= i && At(url, "{picc", i)) && (exists i :: 0 <= i && At(url, "{mac}", i))
    ensures Failures(b.trace) <= (if opts.force || r.Mutated? then 2 else 3) && |b.trace| <= 34 && b.Genuine()
    // Recorded failures are suffered failures, except for the state probe's.
    ensures Entitled(url, opts, card) ==> b.failures == old(b.failures) + Failures(b.trace) - Failures(j.probe)
    ensures b.failures == old(b.failures) + Failures(b.trace) <==>
      !Entitled(url, opts, card) || opts.force || !j.state.WrongKey()
    ensures r.Exited? <==> b.failures > old(b.failures) && b.failures >= 10
    // A blank card and a card that holds the given key are burned.
    ensures Entitled(url, opts, card) && Blank(b.world) ==> r.Mutated?
    ensures Entitled(url, opts, card) && Reburnable(b.world, keys) && old(b.failures) + 1 < BREAKER ==> r.Mutated?
    ensures Entitled(url, opts, card) && Hostile(b.world, keys) && old(b.failures) + 2 < BREAKER ==>
      r == NoKeyWorks && b.failures == old(b.failures) + 2 && Failures(b.trace) == if opts.force then 2 else 3
  {
    j := Journey([], Exhausted, [], Exhausted, [], Exhausted);
    if card.preflight.None? {
      return PreflightFailed, j;
    }
    var uid := card.preflight.value;
    if opts.confirm.Some? && opts.confirm.value != uid {
      return WrongUid, j;
    }
    if opts.dryRun {
      return DryRun, j;
    }
    if !opts.force && !HasPlaceholders(url) {
      return MissingPlaceholders, j;
    }
    r, j := Proceed(b, keys, opts, card);
    BurnCosts(b.world, j, keys, opts.force, card, old(b.failures), b.trace, r);
    BurnSettles(b.world, j, keys, opts.force, card, old(b.failures), b.trace, r);
    if r.Mutated? {
      ChosenWasAccepted(b.world, j, keys, opts.force, old(b.failures));
    }
  }

  lemma RejectingIsHostile(world: World, keys: KeySet)
    requires world == SlowCard(0, Rejected)
    ensures Hostile(world, keys)
  {
    SlowCardSettles(0, Rejected, 0, FACTORY_KEY, ATTEMPTS);
    SlowCardSettles(0, Rejected, 0, keys.k0, ATTEMPTS);
  }

  /** A card that rejects every key suffers three failures of an unforced burn, and the process records two. */
  method RejectingCard(keys: KeySet, uid: Sun.Uid, url: string) returns (b: Bench, r: Result)
    requires HasPlaceholders(url)
    ensures fresh(b) && r == NoKeyWorks && Failures(b.trace) == 3 && b.failures == 2
  {
    var world := SlowCard(0, Rejected);
    RejectingIsHostile(world, keys);
    b := new Bench(world, 0);
    ghost var j;
    r, j := BurnWith(b, keys, url, Options(false, false, None), Card(Some(uid), es => true));
  }

  /** A blank card that delays is burned exactly when the delay table rides its delay out. */
  method SlowBlankCard(d: nat, keys: KeySet, uid: Sun.Uid, url: string) returns (r: Result)
    requires HasPlaceholders(url)
    ensures if d <= 10 then r.Mutated? else r == StillDelayed
  {
    var b := new Bench(SlowCard(d, Accepted), 0);
    SlowCardSettles(d, Accepted, 0, FACTORY_KEY, ATTEMPTS);
    ghost var j;
    r, j := BurnWith(b, keys, url, Options(false, false, None), Card(Some(uid), es => true));
    if d > MAX_DELAYS {
      SlowCardDelays(d, Accepted, [], 0, FACTORY_KEY, ATTEMPTS);
      RidesExactly(b.world, [], 0, FACTORY_KEY, ATTEMPTS, j.probe, j.state);
    }
  }

  // The burn with derived keys.

  predicate Distinct(derive: Sun.Uid -> KeySet, u: Sun.Uid, v: Sun.Uid) {
    derive(u) == derive(v) ==> u == v
  }

  /**
   The burn with keys derived from the UID. The keys are those of the card that is there first, the gates
   judge the card that is there next, and a pinned UID is compared with the second only. So the card gets
   its own keys exactly when both are one card.
   */
  method CmdBurn(b: Bench, derive: Sun.Uid -> KeySet, first: Option<Sun.Uid>, url: string, opts: Options, card: Card)
    returns (r: Result)
    requires b.trace == []
    modifies b
    ensures first.None? ==> r == PreflightFailed && b.trace == [] && b.failures == old(b.failures)
    ensures first.Some? && Entitled(url, opts, card) && Blank(b.world) ==> r.Mutated?
    ensures r.Mutated? ==>
      && first.Some? && card.preflight.Some? && b.trace != []
      && (var call := b.trace[|b.trace| - 1];
          && call.Burn? && call.uid == card.preflight.value && call.keys == derive(first.value)
          && (Distinct(derive, call.uid, first.value) ==> (call.keys == derive(call.uid) <==> first == card.preflight)))
  {
    if first.None? {
      return PreflightFailed;
    }
    ghost var j;
    r, j := BurnWith(b, derive(first.value), url, opts, card);
  }

  /** A card swapped in between gets the keys of the other, though its UID was pinned. */
  method SwappedCard(derive: Sun.Uid -> KeySet, u: Sun.Uid, v: Sun.Uid, url: string) returns (b: Bench, r: Result)
    requires HasPlaceholders(url) && derive(u) != derive(v)
    ensures fresh(b) && r.Mutated? && b.trace != []
    ensures var call := b.trace[|b.trace| - 1]; call.Burn? && call.uid == v && call.keys == derive(u) != derive(v)
  {
    b := new Bench(SlowCard(0, Accepted), 0);
    SlowCardSettles(0, Accepted, 0, FACTORY_KEY, ATTEMPTS);
    r := CmdBurn(b, derive, Some(u), url, Options(false, false, Some(v)), Card(Some(v), es => true));
  }
}
