/** The key scan: seven candidates, each with its own delay ladder, until one is accepted. */
module ScanKeys {
  import opened Basics
  import opened Bytes
  import opened AuthBench

  datatype AuthResult = Success | Wrong | AuthDelay | Error

  /** What the scan makes of the end of a ladder. */
  function ResultOf(c: Climb): (r: AuthResult) {
    match c
    case Settled(a) => if a == Accepted then Success else if a == Rejected then Wrong else Error
    case Exhausted => AuthDelay
    case NoRandom => Error
  }

  /** Attempts the card answered with 91AE. */
  function Rejections(es: seq<Event>): (n: nat)
  {
    if es == [] then 0
    else Rejections(es[..|es| - 1]) + if es[|es| - 1].Auth? && es[|es| - 1].answer == Rejected then 1 else 0
  }

  lemma {:induction false} RejectionsConcat(a: seq<Event>, b: seq<Event>)
    ensures Rejections(a + b) == Rejections(a) + Rejections(b)
  {
    if b == [] {
      assert a + b == a;
    } else {
      RejectionsConcat(a, b[..|b| - 1]);
      assert (a + b)[..|a + b| - 1] == a + b[..|b| - 1];
    }
  }

  lemma {:induction false} DelaysAreNoRejections(key: Block, n: nat)
    ensures Rejections(Delays(0, key, n)) == 0
  {
    if n > 0 {
      DelaysAreNoRejections(key, n - 1);
      assert Delays(0, key, n)[..n - 1] == Delays(0, key, n - 1);
    }
  }

  /** A candidate costs at most one failure, and a rejection exactly when it is wrong. */
  lemma TryFailures(world: World, before: seq<Event>, key: Block, attempts: nat, es: seq<Event>, c: Climb)
    requires Rides(world, before, 0, key, attempts, es, c)
    ensures Failures(es) == (if c.WrongKey() then 1 else 0) && |es| <= attempts
    ensures Rejections(es) == if ResultOf(c) == Wrong then 1 else 0
  {
    RideFailures(world, before, 0, key, attempts, es, c);
    if c.Settled? {
      var n := |es| - 1;
      DelaysAreNoRejections(key, n);
      assert es[..n] == Delays(0, key, n);
    } else {
      DelaysAreNoRejections(key, |es|);
    }
  }

  method TryAuth(b: Bench, key: Block, attempts: nat) returns (r: AuthResult, ghost es: seq<Event>, ghost c: Climb)
    modifies b`trace
    ensures b.trace == old(b.trace) + es && Rides(b.world, old(b.trace), 0, key, attempts, es, c) && r == ResultOf(c)
    ensures old(b.Genuine()) ==> b.Genuine()
  {
    assert old(b.trace) == After(old(b.trace), 0, key, 0);
    for attempt := 1 to attempts + 1
      invariant b.trace == After(old(b.trace), 0, key, attempt - 1)
      invariant DelayedUpTo(b.world, old(b.trace), 0, key, attempt - 1)
      invariant old(b.Genuine()) ==> b.Genuine()
    {
      ghost var n := attempt - 1;
      if !b.world.rng(b.trace) {
        return Error, Delays(0, key, n), NoRandom;
      }
      var a := b.Authenticate(0, key);
      NextRung(b.world, old(b.trace), 0, key, n, a);
      es := Delays(0, key, n) + [Auth(0, key, a)];
      if a == Accepted {
        return Success, es, Settled(a);
      } else if a == Rejected {
        return Wrong, es, Settled(a);
      } else if a == Broken {
        return Error, es, Settled(a);
      }
      if attempt == attempts {
        return AuthDelay, es, Exhausted;
      }
    }
    return AuthDelay, Delays(0, key, attempts), Exhausted;
  }

  // The scan as a whole.

  datatype Try = Try(es: seq<Event>, end: Climb)

  datatype Result = Found(index: nat) | NotFound | Aborted | Exited

  const CANDIDATES: nat := 7

  /** The number of attempts allowed that is nearest to the number asked for. */
  function Clamp(attempts: nat): (n: nat)
    ensures 1 <= n <= 1000 && (n == attempts || attempts < n == 1 || attempts > n == 1000)
  {
    if attempts < 1 then 1 else if attempts > 1000 then 1000 else attempts
  }

  function Flat(ts: seq<Try>): (es: seq<Event>)
  {
    if ts == [] then [] else Flat(ts[..|ts| - 1]) + ts[|ts| - 1].es
  }

  /** The recorded failures: the candidates the card answered with 91AE. */
  function Recorded(ts: seq<Try>): (n: nat)
  {
    if ts == [] then 0 else Recorded(ts[..|ts| - 1]) + if ResultOf(ts[|ts| - 1].end) == Wrong then 1 else 0
  }

  /** The try of candidate `i` is what becomes of it after all that happened before. */
  predicate IsTry(world: World, before: seq<Event>, ts: seq<Try>, candidates: seq<Block>, attempts: nat, i: nat)
    requires i < |ts| <= |candidates|
  {
    Rides(world, before + Flat(ts[..i]), 0, candidates[i], attempts, ts[i].es, ts[i].end)
  }

  /** The candidates from the first on, in order, each tried once. */
  predicate AreTries(world: World, before: seq<Event>, ts: seq<Try>, candidates: seq<Block>, attempts: nat) {
    |ts| <= |candidates| && forall i :: 0 <= i < |ts| ==> IsTry(world, before, ts, candidates, attempts, i)
  }

  predicate PassedOver(t: Try) {
    ResultOf(t.end) == Wrong || ResultOf(t.end) == Error
  }

  /** The first `n` tries let the scan go on: rejected or broken. */
  predicate AllPassedOver(ts: seq<Try>, n: nat)
    requires n <= |ts|
  {
    forall i :: 0 <= i < n ==> PassedOver(ts[i])
  }

  /** What the scan reports, read off its tries and the recorded failures. */
  function Report(ts: seq<Try>, failures: nat): (r: Result)
    requires ts != []
  {
    match ResultOf(ts[|ts| - 1].end)
    case Success => Found(|ts| - 1)
    case AuthDelay => Aborted
    case Wrong => if failures >= 10 then Exited else NotFound
    case Error => NotFound
  }

  lemma FlatExtend(ts: seq<Try>, t: Try)
    ensures Flat(ts + [t]) == Flat(ts) + t.es
    ensures Recorded(ts + [t]) == Recorded(ts) + if ResultOf(t.end) == Wrong then 1 else 0
  {
    assert (ts + [t])[..|ts|] == ts;
  }

  lemma TriesPrefix(world: World, before: seq<Event>, ts: seq<Try>, candidates: seq<Block>, attempts: nat, n: nat)
    requires AreTries(world, before, ts, candidates, attempts) && n <= |ts|
    ensures AreTries(world, before, ts[..n], candidates, attempts)
  {
    forall i | 0 <= i < n
      ensures IsTry(world, before, ts[..n], candidates, attempts, i)
    {
      assert ts[..n][..i] == ts[..i];
      assert IsTry(world, before, ts, candidates, attempts, i);
    }
  }

  lemma TriesExtend(world: World, before: seq<Event>, ts: seq<Try>, t: Try, candidates: seq<Block>, attempts: nat)
    requires AreTries(world, before, ts, candidates, attempts) && |ts| < |candidates|
    requires Rides(world, before + Flat(ts), 0, candidates[|ts|], attempts, t.es, t.end)
    ensures AreTries(world, before, ts + [t], candidates, attempts)
  {
    forall i | 0 <= i < |ts + [t]|
      ensures IsTry(world, before, ts + [t], candidates, attempts, i)
    {
      if i < |ts| {
        assert (ts + [t])[..i] == ts[..i];
        assert IsTry(world, before, ts, candidates, attempts, i);
      } else {
        assert (ts + [t])[..i] == ts;
      }
    }
  }

  /** `n` attempts for each of `i` candidates. */
  function Times(i: nat, n: nat): (t: nat)
    ensures t == i * n
  {
    if i == 0 then 0 else Times(i - 1, n) + n
  }

  /** A scan costs the card at most one failure per candidate. */
  lemma {:induction false} TriesCost(world: World, before: seq<Event>, ts: seq<Try>, candidates: seq<Block>,
                                     attempts: nat)
    requires AreTries(world, before, ts, candidates, attempts)
    ensures Failures(Flat(ts)) <= |ts| && Rejections(Flat(ts)) == Recorded(ts) <= |ts|
    ensures |Flat(ts)| <= Times(|ts|, attempts)
  {
    if ts != [] {
      var n := |ts| - 1;
      TriesPrefix(world, before, ts, candidates, attempts, n);
      TriesCost(world, before, ts[..n], candidates, attempts);
      FailuresConcat(Flat(ts[..n]), ts[n].es);
      RejectionsConcat(Flat(ts[..n]), ts[n].es);
      assert IsTry(world, before, ts, candidates, attempts, n);
      TryFailures(world, before + Flat(ts[..n]), candidates[n], attempts, ts[n].es, ts[n].end);
    }
  }

  /** A card that, once its delay is over, rejects the candidates before `k` and accepts candidate `k`. */
  ghost predicate FirstOpens(world: World, candidates: seq<Block>, attempts: nat, k: nat)
    requires k < |candidates|
  {
    && Settles(world, 0, candidates[k], attempts, Accepted)
    && forall i :: 0 <= i < k ==> Settles(world, 0, candidates[i], attempts, Rejected)
  }

  lemma FirstAccepted(ts: seq<Try>, k: nat, failures: nat, last: nat)
    requires ts != [] && AllPassedOver(ts, |ts| - 1) && k < last && (|ts| <= k ==> failures < 10)
    requires forall i :: 0 <= i < |ts| && i <= k ==> ts[i].end == Settled(if i < k then Rejected else Accepted)
    requires Report(ts, failures) == NotFound ==> |ts| == last
    ensures Report(ts, failures) == Found(k)
  {
    assert k < |ts| ==> ts[k].end == Settled(Accepted);
  }

  /** Whichever candidate is the first to open the card is the one found, unless the breaker stops the scan before. */
  ghost predicate FindsFirst(world: World, candidates: seq<Block>, attempts: nat, before: nat, r: Result) {
    forall k :: 0 <= k < |candidates| && FirstOpens(world, candidates, attempts, k) && before + k < 10 ==>
      r == Found(k)
  }

  /** The scan finds the first candidate that opens a card, unless the breaker stops it before. */
  lemma FirstIsFound(world: World, h: seq<Event>, ts: seq<Try>, candidates: seq<Block>, attempts: nat,
                     before: nat, failures: nat, k: nat)
    requires k < |candidates| && FirstOpens(world, candidates, attempts, k) && before + k < 10
    requires ts != [] && AreTries(world, h, ts, candidates, attempts) && AllPassedOver(ts, |ts| - 1)
    requires failures <= before + |ts| && (Report(ts, failures) == NotFound ==> |ts| == |candidates|)
    ensures Report(ts, failures) == Found(k)
  {
    forall i | 0 <= i < |ts| && i <= k
      ensures ts[i].end == Settled(if i < k then Rejected else Accepted)
    {
      assert IsTry(world, h, ts, candidates, attempts, i);
      var a := if i < k then Rejected else Accepted;
      DelayRiddenOut(world, h + Flat(ts[..i]), 0, candidates[i], attempts, a, ts[i].es, ts[i].end);
    }
    FirstAccepted(ts, k, failures, |candidates|);
  }

  /** One candidate, with a rejection recorded; `go` says that the scan goes on. */
  method TryCandidate(b: Bench, key: Block, attempts: nat) returns (go: bool, stop: Result, ghost t: Try)
    modifies b
    ensures b.trace == old(b.trace) + t.es && Rides(b.world, old(b.trace), 0, key, attempts, t.es, t.end)
    ensures old(b.Genuine()) ==> b.Genuine()
    ensures var r := ResultOf(t.end);
      && b.failures == old(b.failures) + (if r == Wrong then 1 else 0)
      && (go <==> r == Error || (r == Wrong && b.failures < BREAKER))
      && (!go ==> stop == if r == Success then Found(0) else if r == AuthDelay then Aborted else Exited)
  {
    var a;
    ghost var es, c;
    a, es, c := TryAuth(b, key, attempts);
    t := Try(es, c);
    go, stop := false, Found(0);
    if a == AuthDelay {
      stop := Aborted;
    } else if a == Wrong {
      var exited := b.RecordFailure();
      go, stop := !exited, Exited;
    } else if a == Error {
      go := true;
    }
  }

  /** One more candidate, with all that the scan keeps track of. */
  lemma NextTry(world: World, before: seq<Event>, ts: seq<Try>, t: Try, candidates: seq<Block>, attempts: nat)
    requires AreTries(world, before, ts, candidates, attempts) && AllPassedOver(ts, |ts|) && |ts| < |candidates|
    requires Rides(world, before + Flat(ts), 0, candidates[|ts|], attempts, t.es, t.end)
    ensures before + Flat(ts + [t]) == (before + Flat(ts)) + t.es
    ensures Recorded(ts + [t]) == Recorded(ts) + if ResultOf(t.end) == Wrong then 1 else 0
    ensures AreTries(world, before, ts + [t], candidates, attempts)
    ensures AllPassedOver(ts + [t], |ts|) && (PassedOver(t) ==> AllPassedOver(ts + [t], |ts| + 1))
  {
    FlatExtend(ts, t);
    Associates(before, Flat(ts), t.es);
    TriesExtend(world, before, ts, t, candidates, attempts);
  }

  /** What the issuer key derives for the card under one key version. */
  datatype Derived = Derived(k0: Block, cardKey: Block)

  const STATIC_TEST_KEY: Block := seq(16, _ => 0x11)

  /** The seven, by place. */
  ghost predicate AreCandidates(derived: nat -> Derived, cs: seq<Block>) {
    && |cs| == 7 && (forall i :: 0 <= i < 16 ==> cs[0][i] == 0 && cs[5][i] == 0x11)
    && (forall v :: 0 <= v < 4 ==> cs[v + 1] == derived(v).k0) && cs[6] == derived(1).cardKey
  }

  method ListCandidates(derived: nat -> Derived) returns (cs: seq<Block>)
    ensures AreCandidates(derived, cs)
  {
    var v0, v1, v2, v3 := derived(0), derived(1), derived(2), derived(3);
    cs := [FACTORY_KEY, v0.k0, v1.k0, v2.k0, v3.k0, STATIC_TEST_KEY, v1.cardKey];
  }

  /** The candidates in order, up to the first that ends the scan. */
  method ScanAll(b: Bench, candidates: seq<Block>, attempts: nat) returns (r: Result, ghost ts: seq<Try>)
    requires |candidates| == 7
    modifies b
    ensures b.trace == old(b.trace) + Flat(ts) && AreTries(b.world, old(b.trace), ts, candidates, attempts)
    ensures old(b.Genuine()) ==> b.Genuine()
    ensures ts != [] && AllPassedOver(ts, |ts| - 1) && r == Report(ts, b.failures)
    ensures r == NotFound ==> |ts| == 7
    ensures b.failures == old(b.failures) + Recorded(ts)
  {
    ts := [];
    for i := 0 to CANDIDATES
      invariant |ts| == i && b.trace == old(b.trace) + Flat(ts) && AllPassedOver(ts, i)
      invariant AreTries(b.world, old(b.trace), ts, candidates, attempts)
      invariant old(b.Genuine()) ==> b.Genuine()
      invariant b.failures == old(b.failures) + Recorded(ts)
      invariant i > 0 && ResultOf(ts[i - 1].end) == Wrong ==> b.failures < BREAKER
    {
      var go, stop, t := TryCandidate(b, candidates[i], attempts);
      NextTry(b.world, old(b.trace), ts, t, candidates, attempts);
      ts := ts + [t];
      if !go {
        return if stop.Found? then Found(i) else stop, ts;
      }
    }
    return NotFound, ts;
  }

  /**
   The scan. For every card the attempts are one try per candidate, in order, up to the first that is
   accepted, stays delayed for all its attempts or trips the breaker, and the report is read off the last
   of them. They cost the card at most one failed authentication per candidate, so a process that has
   recorded at most two failures before never trips the breaker.
   */
  method CmdScanKeys(b: Bench, derived: nat -> Derived, requested: nat)
    returns (r: Result, candidates: seq<Block>, ghost ts: seq<Try>)
    modifies b
    ensures AreCandidates(derived, candidates)
    ensures b.trace == old(b.trace) + Flat(ts) && AreTries(b.world, old(b.trace), ts, candidates, Clamp(requested))
    ensures old(b.Genuine()) ==> b.Genuine()
    ensures ts != [] && AllPassedOver(ts, |ts| - 1) && r == Report(ts, b.failures)
    ensures r == NotFound ==> |ts| == 7
    ensures b.failures == old(b.failures) + Recorded(ts) && Recorded(ts) == Rejections(Flat(ts))
    ensures Failures(Flat(ts)) <= 7 && |Flat(ts)| <= Times(|ts|, Clamp(requested))
    ensures old(b.failures) <= 2 ==> r != Exited
    ensures FindsFirst(b.world, candidates, Clamp(requested), old(b.failures), r)
  {
    candidates := ListCandidates(derived);
    r, ts := ScanAll(b, candidates, Clamp(requested));
    TriesCost(b.world, old(b.trace), ts, candidates, Clamp(requested));
    forall k | 0 <= k < |candidates| && FirstOpens(b.world, candidates, Clamp(requested), k)
      && old(b.failures) + k < 10
      ensures r == Found(k)
    {
      FirstIsFound(b.world, old(b.trace), ts, candidates, Clamp(requested), old(b.failures), b.failures, k);
    }
  }

  predicate NoneAccepted(es: seq<Event>) {
    forall i :: 0 <= i < |es| ==> es[i].Auth? && es[i].answer != Accepted
  }

  lemma TryAccepts(world: World, before: seq<Event>, key: Block, attempts: nat, es: seq<Event>, c: Climb)
    requires Rides(world, before, 0, key, attempts, es, c)
    ensures c.Reached() ==> es != [] && es[|es| - 1] == Auth(0, key, Accepted) && NoneAccepted(es[..|es| - 1])
    ensures !c.Reached() ==> NoneAccepted(es)
  {
    if c.Settled? {
      assert es[..|es| - 1] == Delays(0, key, |es| - 1);
    }
  }

  lemma {:induction false} PassedOverNotAccepted(world: World, before: seq<Event>, ts: seq<Try>,
                                                 candidates: seq<Block>, attempts: nat)
    requires AreTries(world, before, ts, candidates, attempts) && AllPassedOver(ts, |ts|)
    ensures NoneAccepted(Flat(ts))
  {
    if ts != [] {
      var n := |ts| - 1;
      TriesPrefix(world, before, ts, candidates, attempts, n);
      PassedOverNotAccepted(world, before, ts[..n], candidates, attempts);
      assert IsTry(world, before, ts, candidates, attempts, n) && PassedOver(ts[n]);
      TryAccepts(world, before + Flat(ts[..n]), candidates[n], attempts, ts[n].es, ts[n].end);
    }
  }

  /** A candidate is found exactly when the card accepted one, and then it is the one accepted, by the last attempt. */
  lemma FoundExactly(world: World, before: seq<Event>, ts: seq<Try>, candidates: seq<Block>, attempts: nat,
                     failures: nat)
    requires ts != [] && AreTries(world, before, ts, candidates, attempts) && AllPassedOver(ts, |ts| - 1)
    ensures var r, es := Report(ts, failures), Flat(ts);
      if r.Found?
      then && r.index == |ts| - 1 && es != [] && es[|es| - 1] == Auth(0, candidates[r.index], Accepted)
           && NoneAccepted(es[..|es| - 1])
      else NoneAccepted(es)
  {
    var n := |ts| - 1;
    var pre, last := Flat(ts[..n]), ts[n].es;
    TriesPrefix(world, before, ts, candidates, attempts, n);
    PassedOverNotAccepted(world, before, ts[..n], candidates, attempts);
    assert IsTry(world, before, ts, candidates, attempts, n);
    TryAccepts(world, before + pre, candidates[n], attempts, last, ts[n].end);
    assert Flat(ts) == pre + last;
    if ts[n].end.Reached() {
      assert (pre + last)[..|pre + last| - 1] == pre + last[..|last| - 1];
    }
  }

  /** The scan is aborted exactly when its last candidate was answered by delay on every attempt. */
  lemma AbortedExactly(world: World, before: seq<Event>, ts: seq<Try>, candidates: seq<Block>, attempts: nat,
                       failures: nat)
    requires ts != [] && AreTries(world, before, ts, candidates, attempts)
    ensures var n := |ts| - 1;
      Report(ts, failures) == Aborted <==> DelayedUpTo(world, before + Flat(ts[..n]), 0, candidates[n], attempts)
  {
    var n := |ts| - 1;
    assert IsTry(world, before, ts, candidates, attempts, n);
    RidesExactly(world, before + Flat(ts[..n]), 0, candidates[n], attempts, ts[n].es, ts[n].end);
  }
}
