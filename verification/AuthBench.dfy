/**
 What the card workflows share: authentication attempts against a card that may answer
 anything, the retry ladder that rides out authentication delay, and the process-wide
 counter of recorded failures with its circuit breaker.
 */
module AuthBench {
  import opened Bytes
  import Sun

  /** The answer to one authentication: accepted, 91AE, 91AD, or any other error. */
  datatype Answer = Accepted | Rejected | Delayed | Broken

  datatype KeySet = KeySet(k0: Block, k1: Block, k2: Block, k3: Block, k4: Block)

  const FACTORY_KEY: Block := ZERO_BLOCK
  const FACTORY_KEYS: KeySet := KeySet(FACTORY_KEY, FACTORY_KEY, FACTORY_KEY, FACTORY_KEY, FACTORY_KEY)

  function KeyOf(ks: KeySet, slot: nat): (k: Block)
    requires slot < 5
  {
    if slot == 0 then ks.k0 else if slot == 1 then ks.k1 else if slot == 2 then ks.k2
    else if slot == 3 then ks.k3 else ks.k4
  }

  datatype Event =
    | Auth(slot: nat, key: Block, answer: Answer)
    | Wipe(uid: Sun.Uid, keys: KeySet)
    | Burn(uid: Sun.Uid, keys: KeySet, current: Block, previous: KeySet)

  /** A card and a random source, each free to answer by everything that happened before. */
  datatype World = World(auth: (seq<Event>, nat, Block) -> Answer, rng: seq<Event> -> bool)

  const MAX_DELAYS: nat := 10
  const BREAKER: nat := 10

  predicate IsFailure(e: Event) {
    e.Auth? && (e.answer == Rejected || e.answer == Broken)
  }

  /** Authentications the card evaluated and did not accept. */
  function Failures(es: seq<Event>): (n: nat)
  {
    if es == [] then 0 else Failures(es[..|es| - 1]) + if IsFailure(es[|es| - 1]) then 1 else 0
  }

  lemma {:induction false} FailuresConcat(a: seq<Event>, b: seq<Event>)
    ensures Failures(a + b) == Failures(a) + Failures(b)
  {
    if b == [] {
      assert a + b == a;
    } else {
      FailuresConcat(a, b[..|b| - 1]);
      assert (a + b)[..|a + b| - 1] == a + b[..|b| - 1];
    }
  }

  lemma FailuresOfOne(e: Event)
    ensures Failures([e]) == if IsFailure(e) then 1 else 0
  {
    assert [e][..0] == [];
  }

  /** A mutating call adds no authentication failure. */
  lemma CallAppended(es: seq<Event>, call: Event)
    requires !call.Auth?
    ensures Failures(es + [call]) == Failures(es)
  {
    FailuresOfOne(call);
    FailuresConcat(es, [call]);
  }

  // The retry ladder.

  class AuthRetry {
    var attempt: nat

    constructor ()
      ensures attempt == 0
    {
      attempt := 0;
    }

    /** Grants one more attempt while the delay table lasts. */
    method NextDelay() returns (again: bool)
      modifies this
      ensures again <==> old(attempt) < 10
      ensures attempt == old(attempt) + if again then 1 else 0
    {
      again := attempt < MAX_DELAYS;
      if again {
        attempt := attempt + 1;
      }
    }
  }

  /** How a ladder ends: an answer that is no delay, the last attempt spent on a delay, or no random number. */
  datatype Climb = Settled(answer: Answer) | Exhausted | NoRandom {
    predicate Reached() {
      this == Settled(Accepted)
    }

    predicate WrongKey() {
      this == Settled(Rejected) || this == Settled(Broken)
    }
  }

  const ATTEMPTS: nat := 1 + MAX_DELAYS

  function Delays(slot: nat, key: Block, n: nat): (es: seq<Event>)
    ensures |es| == n
  {
    seq(n, _ => Auth(slot, key, Delayed))
  }

  /** What has happened when `n` attempts with this key were answered by delay. */
  function After(before: seq<Event>, slot: nat, key: Block, n: nat): (es: seq<Event>)
    ensures |es| == |before| + n
  {
    before + Delays(slot, key, n)
  }

  /** Attempt `n` is made and answered with `a`. */
  predicate AnswersAt(world: World, before: seq<Event>, slot: nat, key: Block, n: nat, a: Answer) {
    world.rng(After(before, slot, key, n)) && world.auth(After(before, slot, key, n), slot, key) == a
  }

  predicate DelayedUpTo(world: World, before: seq<Event>, slot: nat, key: Block, n: nat) {
    forall m :: 0 <= m < n ==> AnswersAt(world, before, slot, key, m, Delayed)
  }

  /** Attempt `n` is the first that is not answered by delay, and its answer is `a`. */
  predicate SettlesAt(world: World, before: seq<Event>, slot: nat, key: Block, n: nat, a: Answer) {
    a != Delayed && DelayedUpTo(world, before, slot, key, n) && AnswersAt(world, before, slot, key, n, a)
  }

  /** `es` is what becomes of up to `attempts` attempts with this key, and `r` is how it ends. */
  predicate Rides(world: World, before: seq<Event>, slot: nat, key: Block, attempts: nat, es: seq<Event>, r: Climb) {
    match r
    case Settled(a) =>
      && 0 < |es| <= attempts && es == Delays(slot, key, |es| - 1) + [Auth(slot, key, a)]
      && SettlesAt(world, before, slot, key, |es| - 1, a)
    case Exhausted =>
      es == Delays(slot, key, attempts) && DelayedUpTo(world, before, slot, key, attempts)
    case NoRandom =>
      && |es| < attempts && es == Delays(slot, key, |es|)
      && DelayedUpTo(world, before, slot, key, |es|) && !world.rng(before + es)
  }

  /** The first answer that is no delay comes within the attempts, and it is `a`. */
  ghost predicate SettlesWithin(world: World, before: seq<Event>, slot: nat, key: Block, attempts: nat, a: Answer) {
    exists n :: 0 <= n < attempts && SettlesAt(world, before, slot, key, n, a)
  }

  /** Before the attempts are spent, or the card settles, the random source fails. */
  ghost predicate RandomFailsWithin(world: World, before: seq<Event>, slot: nat, key: Block, attempts: nat) {
    exists n :: 0 <= n < attempts && RandomFailsAt(world, before, slot, key, n)
  }

  predicate RandomFailsAt(world: World, before: seq<Event>, slot: nat, key: Block, n: nat) {
    DelayedUpTo(world, before, slot, key, n) && !world.rng(After(before, slot, key, n))
  }

  lemma SettlesOnce(world: World, before: seq<Event>, slot: nat, key: Block, n: nat, a: Answer)
    requires SettlesAt(world, before, slot, key, n, a)
    ensures forall m: nat, c :: SettlesAt(world, before, slot, key, m, c) ==> m == n && c == a
    ensures forall m: nat :: !RandomFailsAt(world, before, slot, key, m)
    ensures forall m :: m > n ==> !DelayedUpTo(world, before, slot, key, m)
  {
    forall m: nat
      ensures RandomFailsAt(world, before, slot, key, m) ==> false
      ensures m > n ==> !DelayedUpTo(world, before, slot, key, m)
    {
      assert m < n ==> AnswersAt(world, before, slot, key, m, Delayed);
      assert m > n && DelayedUpTo(world, before, slot, key, m) ==> AnswersAt(world, before, slot, key, n, Delayed);
    }
    forall m: nat, c | SettlesAt(world, before, slot, key, m, c)
      ensures m == n && c == a
    {
      assert m < n ==> AnswersAt(world, before, slot, key, m, Delayed);
    }
  }

  lemma DelayExcludes(world: World, before: seq<Event>, slot: nat, key: Block, n: nat)
    requires DelayedUpTo(world, before, slot, key, n)
    ensures forall m, a :: 0 <= m < n ==> !SettlesAt(world, before, slot, key, m, a)
    ensures forall m :: 0 <= m < n ==> !RandomFailsAt(world, before, slot, key, m)
  {
    forall m, a | 0 <= m < n
      ensures !SettlesAt(world, before, slot, key, m, a)
    {
      assert AnswersAt(world, before, slot, key, m, Delayed);
    }
    forall m | 0 <= m < n
      ensures !RandomFailsAt(world, before, slot, key, m)
    {
      assert AnswersAt(world, before, slot, key, m, Delayed);
    }
  }

  lemma FailureExcludes(world: World, before: seq<Event>, slot: nat, key: Block, n: nat)
    requires RandomFailsAt(world, before, slot, key, n)
    ensures forall m: nat, a :: !SettlesAt(world, before, slot, key, m, a)
    ensures forall m :: m > n ==> !DelayedUpTo(world, before, slot, key, m)
    ensures forall m: nat :: RandomFailsAt(world, before, slot, key, m) ==> m == n
  {
    DelayExcludes(world, before, slot, key, n);
    forall m: nat | m > n
      ensures !DelayedUpTo(world, before, slot, key, m)
    {
      assert DelayedUpTo(world, before, slot, key, m) ==> AnswersAt(world, before, slot, key, n, Delayed);
    }
    forall m: nat, a
      ensures !SettlesAt(world, before, slot, key, m, a)
    {
      if m == n {
        assert !AnswersAt(world, before, slot, key, m, a);
      }
    }
  }

  /**
   The verdicts of a ladder, each with its exact condition: it is exhausted exactly when every attempt is
   answered by delay, it settles with an answer exactly when that is the first one that is no delay, and
   it lacks a random number exactly when the source fails before either.
   */
  lemma RidesExactly(world: World, before: seq<Event>, slot: nat, key: Block, attempts: nat, es: seq<Event>, r: Climb)
    requires Rides(world, before, slot, key, attempts, es, r)
    ensures r == Exhausted <==> DelayedUpTo(world, before, slot, key, attempts)
    ensures forall a :: r == Settled(a) <==> SettlesWithin(world, before, slot, key, attempts, a)
    ensures r == NoRandom <==> RandomFailsWithin(world, before, slot, key, attempts)
  {
    match r
    case Settled(a) => SettlesOnce(world, before, slot, key, |es| - 1, a);
    case Exhausted => DelayExcludes(world, before, slot, key, attempts);
    case NoRandom =>
      assert RandomFailsAt(world, before, slot, key, |es|);
      FailureExcludes(world, before, slot, key, |es|);
  }

  /** A ladder is determined by what happened before. */
  lemma RidesOnce(world: World, before: seq<Event>, slot: nat, key: Block, attempts: nat,
                  es: seq<Event>, r: Climb, es': seq<Event>, r': Climb)
    requires Rides(world, before, slot, key, attempts, es, r) && Rides(world, before, slot, key, attempts, es', r')
    ensures r == r' && es == es'
  {
    RidesExactly(world, before, slot, key, attempts, es, r);
    RidesExactly(world, before, slot, key, attempts, es', r');
    match r
    case Settled(a) => SettlesOnce(world, before, slot, key, |es| - 1, a);
    case Exhausted =>
    case NoRandom =>
      assert RandomFailsAt(world, before, slot, key, |es|) && RandomFailsAt(world, before, slot, key, |es'|);
      FailureExcludes(world, before, slot, key, |es|);
  }

  lemma {:induction false} DelaysAreNoFailures(slot: nat, key: Block, n: nat)
    ensures Failures(Delays(slot, key, n)) == 0
  {
    if n > 0 {
      DelaysAreNoFailures(slot, key, n - 1);
      assert Delays(slot, key, n)[..n - 1] == Delays(slot, key, n - 1);
    }
  }

  /** A ladder costs the card one failure if it ends in a wrong key, and none otherwise. */
  lemma RideFailures(world: World, before: seq<Event>, slot: nat, key: Block, attempts: nat, es: seq<Event>, r: Climb)
    requires Rides(world, before, slot, key, attempts, es, r)
    ensures Failures(es) == (if r.WrongKey() then 1 else 0) && |es| <= attempts
    ensures forall i :: 0 <= i < |es| ==> es[i].Auth?
    ensures r.Reached() ==> es != [] && es[|es| - 1] == Auth(slot, key, Accepted)
  {
    if r.Settled? {
      var n := |es| - 1;
      DelaysAreNoFailures(slot, key, n);
      assert es[..n] == Delays(slot, key, n);
    } else {
      DelaysAreNoFailures(slot, key, |es|);
    }
  }

  /** One more attempt, answered with `a`. */
  lemma NextRung(world: World, before: seq<Event>, slot: nat, key: Block, n: nat, a: Answer)
    requires DelayedUpTo(world, before, slot, key, n) && AnswersAt(world, before, slot, key, n, a)
    ensures After(before, slot, key, n) + [Auth(slot, key, a)] == before + (Delays(slot, key, n) + [Auth(slot, key, a)])
    ensures a == Delayed ==>
      && DelayedUpTo(world, before, slot, key, n + 1)
      && Delays(slot, key, n) + [Auth(slot, key, a)] == Delays(slot, key, n + 1)
  {
  }

  /** Whatever happened before, the first answer that is no delay comes within the attempts and is `a`. */
  ghost predicate Settles(world: World, slot: nat, key: Block, attempts: nat, a: Answer) {
    forall h :: SettlesWithin(world, h, slot, key, attempts, a)
  }

  lemma SettlesHasRandom(world: World, slot: nat, key: Block, attempts: nat, a: Answer, h: seq<Event>)
    requires Settles(world, slot, key, attempts, a)
    ensures world.rng(h)
  {
    assert SettlesWithin(world, h, slot, key, attempts, a);
    var n :| 0 <= n < attempts && SettlesAt(world, h, slot, key, n, a);
    assert AnswersAt(world, h, slot, key, 0, if n == 0 then a else Delayed);
    assert After(h, slot, key, 0) == h;
  }

  /** A card that always gives the same answer settles with it. */
  lemma SettledAtOnce(world: World, slot: nat, key: Block, attempts: nat, a: Answer)
    requires a != Delayed && attempts > 0 && forall h :: world.rng(h) && world.auth(h, slot, key) == a
    ensures Settles(world, slot, key, attempts, a)
  {
    forall h
      ensures SettlesWithin(world, h, slot, key, attempts, a)
    {
      assert SettlesAt(world, h, slot, key, 0, a);
    }
  }

  /** Delay is ridden out: a card that settles within the attempts is taken at its word. */
  lemma DelayRiddenOut(world: World, before: seq<Event>, slot: nat, key: Block, attempts: nat, a: Answer,
                       es: seq<Event>, r: Climb)
    requires Settles(world, slot, key, attempts, a) && Rides(world, before, slot, key, attempts, es, r)
    ensures r == Settled(a)
  {
    RidesExactly(world, before, slot, key, attempts, es, r);
  }

  // A card with a delay of its own.

  /** The delays at the end of a trace. */
  function Trailing(es: seq<Event>): (n: nat)
  {
    if es == [] || !es[|es| - 1].Auth? || es[|es| - 1].answer != Delayed then 0 else 1 + Trailing(es[..|es| - 1])
  }

  lemma TrailingDelay(es: seq<Event>, slot: nat, key: Block)
    ensures Trailing(es + [Auth(slot, key, Delayed)]) == Trailing(es) + 1
  {
    assert (es + [Auth(slot, key, Delayed)])[..|es|] == es;
  }

  lemma AfterOneMore(before: seq<Event>, slot: nat, key: Block, n: nat)
    ensures After(before, slot, key, n + 1) == After(before, slot, key, n) + [Auth(slot, key, Delayed)]
  {
  }

  lemma {:induction false} TrailingAfter(before: seq<Event>, slot: nat, key: Block, n: nat)
    ensures Trailing(After(before, slot, key, n)) == Trailing(before) + n
  {
    if n == 0 {
      assert After(before, slot, key, 0) == before;
    } else {
      TrailingAfter(before, slot, key, n - 1);
      AfterOneMore(before, slot, key, n - 1);
      TrailingDelay(After(before, slot, key, n - 1), slot, key);
    }
  }

  /** A card that must be asked `d` times in vain before it answers, and then answers with `a`. */
  function SlowCard(d: nat, a: Answer): (world: World) {
    World((es, slot, key) => if Trailing(es) < d then Delayed else a, es => true)
  }

  lemma SlowCardAnswers(d: nat, a: Answer, h: seq<Event>, slot: nat, key: Block, n: nat)
    ensures AnswersAt(SlowCard(d, a), h, slot, key, n, if Trailing(h) + n < d then Delayed else a)
  {
    TrailingAfter(h, slot, key, n);
  }

  lemma SlowCardDelays(d: nat, a: Answer, h: seq<Event>, slot: nat, key: Block, n: nat)
    requires n == 0 || Trailing(h) + n <= d
    ensures DelayedUpTo(SlowCard(d, a), h, slot, key, n)
  {
    forall m | 0 <= m < n
      ensures AnswersAt(SlowCard(d, a), h, slot, key, m, Delayed)
    {
      SlowCardAnswers(d, a, h, slot, key, m);
    }
  }

  /** Such a card is ridden out exactly when there are more attempts than it delays. */
  lemma SlowCardSettles(d: nat, a: Answer, slot: nat, key: Block, attempts: nat)
    requires a != Delayed
    ensures Settles(SlowCard(d, a), slot, key, attempts, a) <==> d < attempts
  {
    var world := SlowCard(d, a);
    if d < attempts {
      forall h
        ensures SettlesWithin(world, h, slot, key, attempts, a)
      {
        var n: nat := if Trailing(h) < d then d - Trailing(h) else 0;
        SlowCardDelays(d, a, h, slot, key, n);
        SlowCardAnswers(d, a, h, slot, key, n);
        assert SettlesAt(world, h, slot, key, n, a);
      }
    } else {
      SlowCardDelays(d, a, [], slot, key, attempts);
      DelayExcludes(world, [], slot, key, attempts);
      assert !SettlesWithin(world, [], slot, key, attempts, a);
    }
  }

  /** The answer recorded as event `i` is the one the card gives after the events before it. */
  predicate GivenByCard(world: World, es: seq<Event>, i: nat)
    requires i < |es|
  {
    es[i].Auth? ==> es[i].answer == world.auth(es[..i], es[i].slot, es[i].key)
  }

  predicate GenuineTrace(world: World, es: seq<Event>) {
    forall i :: 0 <= i < |es| ==> GivenByCard(world, es, i)
  }

  lemma GenuineExtends(world: World, es: seq<Event>, e: Event)
    requires GenuineTrace(world, es)
    requires e.Auth? ==> e.answer == world.auth(es, e.slot, e.key)
    ensures GenuineTrace(world, es + [e])
  {
    forall i | 0 <= i < |es + [e]|
      ensures GivenByCard(world, es + [e], i)
    {
      assert (es + [e])[..i] == if i < |es| then es[..i] else es;
      if i < |es| {
        assert GivenByCard(world, es, i);
      }
    }
  }

  class Bench {
    const world: World
    var trace: seq<Event>
    var failures: nat  // recorded in this process

    /** Every answer in the trace is the card's. */
    predicate Genuine()
      reads this
    {
      GenuineTrace(world, trace)
    }

    constructor (world: World, failures: nat)
      ensures this.world == world && trace == [] && this.failures == failures
    {
      this.world, trace, this.failures := world, [], failures;
    }

    method Authenticate(slot: nat, key: Block) returns (a: Answer)
      modifies this`trace
      ensures a == world.auth(old(trace), slot, key) && trace == old(trace) + [Auth(slot, key, a)]
      ensures old(Genuine()) ==> Genuine()
    {
      a := world.auth(trace, slot, key);
      if Genuine() {
        GenuineExtends(world, trace, Auth(slot, key, a));
      }
      trace := trace + [Auth(slot, key, a)];
    }

    /** Counts one failure; at the threshold the process ends. */
    method RecordFailure() returns (exited: bool)
      modifies this`failures
      ensures failures == old(failures) + 1 && (exited <==> failures >= 10)
    {
      failures := failures + 1;
      exited := failures >= BREAKER;
    }

    /** Authenticates, retrying while the card answers with delay and the delay table lasts. */
    method Ladder(slot: nat, key: Block) returns (r: Climb, ghost es: seq<Event>)
      modifies this`trace
      ensures trace == old(trace) + es && Rides(world, old(trace), slot, key, ATTEMPTS, es, r)
      ensures old(Genuine()) ==> Genuine()
    {
      var retry := new AuthRetry();
      ghost var n := 0;
      assert old(trace) == After(old(trace), slot, key, 0);
      while true
        invariant trace == After(old(trace), slot, key, n) && DelayedUpTo(world, old(trace), slot, key, n)
        invariant retry.attempt == n <= MAX_DELAYS && fresh(retry)
        invariant old(Genuine()) ==> Genuine()
        decreases MAX_DELAYS - retry.attempt
      {
        if !world.rng(trace) {
          return NoRandom, Delays(slot, key, n);
        }
        var a := Authenticate(slot, key);
        NextRung(world, old(trace), slot, key, n, a);
        if a != Delayed {
          return Settled(a), Delays(slot, key, n) + [Auth(slot, key, a)];
        }
        var again := retry.NextDelay();
        if !again {
          return Exhausted, Delays(slot, key, ATTEMPTS);
        }
        n := n + 1;
      }
    }
  }
}
