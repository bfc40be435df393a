/** The guarded wipe: every gate that stands before the one call that changes the card. */
module WipeCard {
  import opened Basics
  import opened Bytes
  import opened AuthBench
  import Sun
  import Hex

  // Pre-verification of the mirrored p= and c=.

  datatype PreVerdict = Verified | NotLive | Refuse

  predicate IsHex(s: seq<byte>) {
    s != [] && Hex.AllHex(s)
  }

  predicate IsZeroHex(s: seq<byte>) {
    forall i :: 0 <= i < |s| ==> s[i] == 48
  }

  /** The URL carries p= and c= values that a card computed, not a template or static zeros. */
  predicate IsLive(p: seq<byte>, c: seq<byte>) {
    IsHex(p) && IsHex(c) && !IsZeroHex(p) && !IsZeroHex(c)
  }

  /** In digits: both are hex text of at least one digit, and neither is all zeros. */
  lemma LiveDigits(p: seq<byte>, c: seq<byte>)
    ensures IsLive(p, c) <==>
      && p != [] && c != [] && IsHexText(p) && IsHexText(c)
      && (exists i :: 0 <= i < |p| && p[i] != 0x30) && (exists i :: 0 <= i < |c| && c[i] != 0x30)
  {
    HexTextExactly(p);
    HexTextExactly(c);
  }

  predicate IsHexText(s: seq<byte>) {
    forall i :: 0 <= i < |s| ==> 0x30 <= s[i] <= 0x39 || 0x41 <= s[i] <= 0x46 || 0x61 <= s[i] <= 0x66
  }

  lemma HexTextExactly(s: seq<byte>)
    ensures Hex.AllHex(s) <==> IsHexText(s)
  {
    forall i | 0 <= i < |s|
      ensures Hex.Nibble(s[i]).Some? <==> 0x30 <= s[i] <= 0x39 || 0x41 <= s[i] <= 0x46 || 0x61 <= s[i] <= 0x66
    {
    }
  }

  /** `url` is the NDEF URL, if the file could be read and parsed. */
  function PreVerify(x: Suite, keys: KeySet, uid: Sun.Uid, url: Option<seq<byte>>): (v: PreVerdict) {
    if url.None? then Refuse
    else
      var pc := Sun.Extracted(url.value);
      if pc.None? || !IsLive(pc.value.0, pc.value.1) then NotLive
      else
        var picc := Sun.DecryptP(x, keys.k1, pc.value.0);
        if picc.None? then Refuse
        else if picc.value.uid.Some? && picc.value.uid.value != uid then Refuse
        else if !Sun.VerifyC(x, keys.k2, picc.value, pc.value.1) then Refuse
        else Verified
  }

  method PreVerifyPc(x: Suite, keys: KeySet, uid: Sun.Uid, url: Option<seq<byte>>) returns (v: PreVerdict)
    ensures v == PreVerify(x, keys, uid, url)
  {
    if url.None? {
      return Refuse;
    }
    var pc := Sun.ExtractPAndC(url.value);
    if pc.None? {
      return NotLive;
    }
    var (p, c) := pc.value;
    if !IsHex(p) || !IsHex(c) || IsZeroHex(p) || IsZeroHex(c) {
      return NotLive;
    }
    var picc := Sun.PiccDecryptP(x, keys.k1, p);
    if picc.None? || (picc.value.uid.Some? && picc.value.uid.value != uid) {
      return Refuse;
    }
    var ok := Sun.PiccVerifyC(x, keys.k2, picc.value, c);
    return if ok then Verified else Refuse;
  }

  /** A live URL is let through exactly when it verifies under these keys and names this card or no card. */
  lemma PreVerifyExactly(x: Suite, keys: KeySet, uid: Sun.Uid, url: seq<byte>)
    requires Sun.Extracted(url).Some? && IsLive(Sun.Extracted(url).value.0, Sun.Extracted(url).value.1)
    ensures var v := PreVerify(x, keys, uid, Some(url));
      var parsed := Sun.ParseUrl(x, keys.k1, keys.k2, url);
      && v != NotLive
      && (v == Verified <==> parsed.valid && (parsed.uid.None? || parsed.uid.value == uid))
  {
  }

  // The command.

  datatype KeySource = Issuer(derive: Sun.Uid -> KeySet) | Raw(keys: KeySet)

  datatype Options = Options(dryRun: bool, skipPreVerify: bool, confirm: Option<Sun.Uid>)

  /** The rest of the card, as the command meets it. */
  datatype Card = Card(preflight: Option<Sun.Uid>, url: seq<Event> -> Option<seq<byte>>, wipes: seq<Event> -> bool)

  datatype Result =
    | NeedsUid | PreflightFailed | WrongUid | DryRun | FactoryKey | AlreadyFactory | NotVerified
    | SlotRefused(slot: nat) | NoRandomness | Exited
    | Mutated(ok: bool)

  function KeysFor(src: KeySource, uid: Sun.Uid): (ks: KeySet) {
    match src
    case Issuer(derive) => derive(uid)
    case Raw(keys) => keys
  }

  /** The slots whose keys must be proved: the master key, or all five of a raw key set. */
  function NumSlots(src: KeySource): (n: nat) {
    if src.Raw? then 5 else 1
  }

  predicate Authenticated(es: seq<Event>, slot: nat, key: Block) {
    Auth(slot, key, Accepted) in es
  }

  /** The gates that need no card: the pinned UID and the dry run. */
  predicate Entitled(src: KeySource, opts: Options, card: Card) {
    && !opts.dryRun && card.preflight.Some?
    && (opts.confirm.Some? ==> opts.confirm == card.preflight)
    && (src.Raw? ==> opts.confirm.Some?)
  }

  /** Why a wipe is refused before it talks to the card. */
  function Refusal(src: KeySource, opts: Options, card: Card): (r: Result) {
    if src.Raw? && opts.confirm.None? then NeedsUid
    else if card.preflight.None? then PreflightFailed
    else if opts.confirm.Some? && opts.confirm != card.preflight then WrongUid
    else DryRun
  }

  /** Everything that must have happened before a wipe touches the card. */
  ghost predicate GatesPassed(world: World, x: Suite, src: KeySource, opts: Options, card: Card, es: seq<Event>) {
    && Entitled(src, opts, card)
    && (var uid := card.preflight.value;
        var keys := KeysFor(src, uid);
        && |es| >= 3
        && Refused(es[0]) && Refused(es[1])
        && (opts.skipPreVerify || PreVerify(x, keys, uid, card.url(es[..2])) != Refuse)
        && (exists rungs :: Climbed(world, es[..2], rungs, keys) && |rungs| == NumSlots(src) && es[2..] == Flat(rungs))
        && forall s :: 0 <= s < NumSlots(src) ==> Authenticated(es[2..], s, KeyOf(keys, s)))
  }

  datatype SlotVerdict = Passed | Failed | Stopped

  /** One slot: ride out delay, record a wrong key. */
  method AuthenticateSlot(b: Bench, slot: nat, key: Block)
    returns (v: SlotVerdict, ghost es: seq<Event>, ghost r: Climb)
    modifies b
    ensures b.trace == old(b.trace) + es && Rides(b.world, old(b.trace), slot, key, ATTEMPTS, es, r)
    ensures old(b.Genuine()) ==> b.Genuine()
    ensures b.failures == old(b.failures) + if r.WrongKey() then 1 else 0
    ensures v == if r.Reached() then Passed else if r.WrongKey() && b.failures >= BREAKER then Stopped else Failed
  {
    var climb;
    climb, es := b.Ladder(slot, key);
    r := climb;
    if climb == Settled(Accepted) {
      v := Passed;
    } else if climb.Settled? {
      var exited := b.RecordFailure();
      v := if exited then Stopped else Failed;
    } else {
      v := Failed;
    }
  }

  function Flat(rungs: seq<seq<Event>>): (es: seq<Event>)
  {
    if rungs == [] then [] else Flat(rungs[..|rungs| - 1]) + rungs[|rungs| - 1]
  }

  /** The ladder of slot `s` is the one the card makes of it after the slots before, and it ends in acceptance. */
  predicate IsRung(world: World, before: seq<Event>, rungs: seq<seq<Event>>, keys: KeySet, s: nat)
    requires s < |rungs| <= 5
  {
    Rides(world, before + Flat(rungs[..s]), s, KeyOf(keys, s), ATTEMPTS, rungs[s], Settled(Accepted))
  }

  /** One ladder per slot, in order from slot 0, each ending in acceptance. */
  predicate Climbed(world: World, before: seq<Event>, rungs: seq<seq<Event>>, keys: KeySet) {
    |rungs| <= 5 && forall s :: 0 <= s < |rungs| ==> IsRung(world, before, rungs, keys, s)
  }

  lemma FlatExtend(rungs: seq<seq<Event>>, top: seq<Event>)
    ensures Flat(rungs + [top]) == Flat(rungs) + top
  {
    assert (rungs + [top])[..|rungs|] == rungs;
  }

  lemma ClimbedPrefix(world: World, before: seq<Event>, rungs: seq<seq<Event>>, keys: KeySet, n: nat)
    requires Climbed(world, before, rungs, keys) && n <= |rungs|
    ensures Climbed(world, before, rungs[..n], keys)
  {
    forall s | 0 <= s < n
      ensures IsRung(world, before, rungs[..n], keys, s)
    {
      assert rungs[..n][..s] == rungs[..s];
      assert IsRung(world, before, rungs, keys, s);
    }
  }

  lemma ClimbedExtend(world: World, before: seq<Event>, rungs: seq<seq<Event>>, top: seq<Event>, keys: KeySet)
    requires Climbed(world, before, rungs, keys) && |rungs| < 5
    requires Rides(world, before + Flat(rungs), |rungs|, KeyOf(keys, |rungs|), ATTEMPTS, top, Settled(Accepted))
    ensures Climbed(world, before, rungs + [top], keys)
  {
    forall s | 0 <= s < |rungs + [top]|
      ensures IsRung(world, before, rungs + [top], keys, s)
    {
      if s < |rungs| {
        assert (rungs + [top])[..s] == rungs[..s];
        assert IsRung(world, before, rungs, keys, s);
      } else {
        assert (rungs + [top])[..s] == rungs;
      }
    }
  }

  lemma {:induction false} ClimbedFacts(world: World, before: seq<Event>, rungs: seq<seq<Event>>, keys: KeySet)
    requires Climbed(world, before, rungs, keys)
    ensures Failures(Flat(rungs)) == 0 && |Flat(rungs)| <= 11 * |rungs|
    ensures forall i :: 0 <= i < |Flat(rungs)| ==> Flat(rungs)[i].Auth?
  {
    if rungs != [] {
      var n := |rungs| - 1;
      ClimbedPrefix(world, before, rungs, keys, n);
      ClimbedFacts(world, before, rungs[..n], keys);
      assert IsRung(world, before, rungs, keys, n);
      RideFailures(world, before + Flat(rungs[..n]), n, KeyOf(keys, n), ATTEMPTS, rungs[n], Settled(Accepted));
      FailuresConcat(Flat(rungs[..n]), rungs[n]);
    }
  }

  lemma {:induction false} ClimbedAuthenticates(world: World, before: seq<Event>, rungs: seq<seq<Event>>, keys: KeySet,
                                                s: nat)
    requires s < |rungs| && Climbed(world, before, rungs, keys)
    ensures Authenticated(Flat(rungs), s, KeyOf(keys, s))
  {
    var n := |rungs| - 1;
    var top := rungs[n];
    assert Flat(rungs) == Flat(rungs[..n]) + top;
    if s == n {
      assert IsRung(world, before, rungs, keys, n);
      assert top[|top| - 1] in top;
    } else {
      ClimbedPrefix(world, before, rungs, keys, n);
      ClimbedAuthenticates(world, before, rungs[..n], keys, s);
    }
  }

  /** The slots below `last`, in order; a slot that fails ends it with that slot's ladder. */
  method AuthenticateSlots(b: Bench, keys: KeySet, last: nat)
    returns (v: SlotVerdict, at: nat, ghost rungs: seq<seq<Event>>, ghost fall: seq<Event>, ghost r: Climb)
    requires last <= 5
    modifies b
    ensures b.trace == old(b.trace) + (Flat(rungs) + fall)
    ensures Climbed(b.world, old(b.trace), rungs, keys) && |rungs| == at <= last
    ensures if v == Passed then at == last && fall == []
            else at < last && !r.Reached()
                 && Rides(b.world, old(b.trace) + Flat(rungs), at, KeyOf(keys, at), ATTEMPTS, fall, r)
    ensures old(b.Genuine()) ==> b.Genuine()
    ensures b.failures == old(b.failures) + if v != Passed && r.WrongKey() then 1 else 0
    ensures v == Stopped <==> b.failures > old(b.failures) && b.failures >= BREAKER
  {
    rungs, fall, r := [], [], Exhausted;
    at := 0;
    v := Passed;
    assert Flat(rungs) + fall == [];
    while at < last
      invariant at <= last && v == Passed && fall == []
      invariant b.trace == old(b.trace) + Flat(rungs) && |rungs| == at
      invariant Climbed(b.world, old(b.trace), rungs, keys)
      invariant old(b.Genuine()) ==> b.Genuine()
      invariant b.failures == old(b.failures)
    {
      ghost var es;
      v, es, r := AuthenticateSlot(b, at, KeyOf(keys, at));
      Associates(old(b.trace), Flat(rungs), es);
      if v != Passed {
        fall := es;
        return;
      }
      FlatExtend(rungs, es);
      ClimbedExtend(b.world, old(b.trace), rungs, es, keys);
      rungs := rungs + [es];
      at := at + 1;
    }
    assert Flat(rungs) + fall == Flat(rungs);
  }

  // The factory probes.

  predicate IsProbe(e: Event) {
    e.Auth? && e == Auth(0, Zeros(16), e.answer)
  }

  predicate Refused(e: Event) {
    IsProbe(e) && e.answer != Accepted
  }

  /** Both probes were made and refused. */
  predicate Provisioned(probes: seq<Event>) {
    |probes| == 2 && Refused(probes[0]) && Refused(probes[1])
  }

  /**
   Single attempts with the factory key, up to two, cut short only by an acceptance or for want of a random
   number.
   */
  predicate AreProbes(world: World, probes: seq<Event>) {
    && |probes| <= 2 && (forall i :: 0 <= i < |probes| ==> IsProbe(probes[i]))
    && (|probes| == 2 ==> Refused(probes[0]))
    && (|probes| < 2 && (probes == [] || Refused(probes[0])) ==> !world.rng(probes))
  }

  /** What the factory probes say when they do not let the wipe on. */
  function ProbeResult(probes: seq<Event>): (r: Result) {
    if probes == [] || !probes[|probes| - 1].Auth? || probes[|probes| - 1].answer != Accepted then NoRandomness
    else if |probes| == 1 then FactoryKey else AlreadyFactory
  }

  datatype ProbeVerdict = Clear | Stop(result: Result)

  /** The two single-attempt factory probes; neither may be accepted. */
  method FactoryProbes(b: Bench) returns (v: ProbeVerdict, ghost es: seq<Event>)
    requires b.trace == []
    modifies b`trace
    ensures b.trace == es && AreProbes(b.world, es) && b.Genuine()
    ensures v == if Provisioned(es) then Clear else Stop(ProbeResult(es))
  {
    es := [];
    if !b.world.rng(b.trace) {
      return Stop(NoRandomness), es;
    }
    var a := b.Authenticate(0, FACTORY_KEY);
    es := b.trace;
    if a == Accepted {
      return Stop(FactoryKey), es;
    }
    if !b.world.rng(b.trace) {
      return Stop(NoRandomness), es;
    }
    a := b.Authenticate(0, FACTORY_KEY);
    es := b.trace;
    if a == Accepted {
      return Stop(AlreadyFactory), es;
    }
    return Clear, es;
  }

  /** Failures of the two factory probes, which the process does not record. */
  function ProbeFailures(es: seq<Event>): (n: nat) {
    Failures(if |es| < 2 then es else es[..2])
  }

  lemma FewFailures(es: seq<Event>)
    requires |es| <= 2
    ensures Failures(es) ==
            (if |es| > 0 && IsFailure(es[0]) then 1 else 0) + (if |es| > 1 && IsFailure(es[1]) then 1 else 0)
  {
    if |es| == 1 {
      assert es == [es[0]];
      FailuresOfOne(es[0]);
    } else if |es| == 2 {
      assert es == [es[0]] + [es[1]];
      FailuresConcat([es[0]], [es[1]]);
      FailuresOfOne(es[0]);
      FailuresOfOne(es[1]);
    }
  }

  // The attempts of one wipe.

  /** What the card was asked: the factory probes, the slots that accepted, and the slot that did not, if any. */
  datatype Journey = Journey(probes: seq<Event>, rungs: seq<seq<Event>>, fallen: bool, fall: seq<Event>, climb: Climb)

  function Trace(j: Journey): (es: seq<Event>) {
    j.probes + (Flat(j.rungs) + j.fall)
  }

  /** The slot after the climbed ones was refused, by the ladder the card made of it. */
  predicate IsFall(world: World, j: Journey, keys: KeySet, slots: nat) {
    && |j.rungs| < slots <= 5 && !j.climb.Reached()
    && Rides(world, j.probes + Flat(j.rungs), |j.rungs|, KeyOf(keys, |j.rungs|), ATTEMPTS, j.fall, j.climb)
  }

  /** The slots in order, up to all of them or to the one refused. */
  predicate AreSlots(world: World, j: Journey, keys: KeySet, slots: nat) {
    && slots <= 5 && Climbed(world, j.probes, j.rungs, keys)
    && (if j.fallen then IsFall(world, j, keys, slots) else |j.rungs| == slots && j.fall == [])
  }

  /** The probes and, if they and the pre-verification let the wipe on, the slots. */
  predicate IsJourney(world: World, j: Journey, keys: KeySet, slots: nat, verified: bool) {
    && AreProbes(world, j.probes)
    && (if Provisioned(j.probes) && verified then AreSlots(world, j, keys, slots)
        else j.rungs == [] && j.fall == [] && !j.fallen)
  }

  /** Both probes refused and every slot accepted. */
  predicate Through(j: Journey, slots: nat) {
    Provisioned(j.probes) && |j.rungs| == slots && !j.fallen
  }

  predicate WrongSlot(j: Journey) {
    j.fallen && j.climb.WrongKey()
  }

  /** Behind the probes of a journey stand attempts that cost at most one failure. */
  lemma SlotFacts(world: World, j: Journey, keys: KeySet, slots: nat)
    requires AreSlots(world, j, keys, slots)
    ensures var rest := Flat(j.rungs) + j.fall;
      && Failures(rest) == (if WrongSlot(j) then 1 else 0) && |rest| <= 55
      && forall i :: 0 <= i < |rest| ==> rest[i].Auth?
  {
    ClimbedFacts(world, j.probes, j.rungs, keys);
    FailuresConcat(Flat(j.rungs), j.fall);
    if j.fallen {
      RideFailures(world, j.probes + Flat(j.rungs), |j.rungs|, KeyOf(keys, |j.rungs|), ATTEMPTS, j.fall, j.climb);
    }
  }

  lemma ProbesFirst(probes: seq<Event>, rest: seq<Event>)
    requires |probes| <= 2 && (|probes| < 2 ==> rest == [])
    ensures Failures(probes + rest) == Failures(probes) + Failures(rest)
      && ProbeFailures(probes + rest) == Failures(probes)
  {
    FailuresConcat(probes, rest);
    if |probes| == 2 {
      assert (probes + rest)[..2] == probes;
    } else {
      assert probes + rest == probes;
    }
  }

  /** What a journey costs: the probes' failures, and one more if a slot was refused for its key. */
  lemma JourneyFacts(world: World, j: Journey, keys: KeySet, slots: nat, verified: bool)
    requires IsJourney(world, j, keys, slots, verified)
    ensures ProbeFailures(Trace(j)) == Failures(j.probes) <= 2
    ensures Failures(Trace(j)) == Failures(j.probes) + (if WrongSlot(j) then 1 else 0)
    ensures |Trace(j)| <= 57 && forall i :: 0 <= i < |Trace(j)| ==> Trace(j)[i].Auth?
  {
    var rest := Flat(j.rungs) + j.fall;
    if Provisioned(j.probes) && verified {
      SlotFacts(world, j, keys, slots);
    }
    FewFailures(j.probes);
    ProbesFirst(j.probes, rest);
  }

  /** A journey through all gates is what a wipe needs. */
  lemma ThroughIsPassed(world: World, x: Suite, src: KeySource, opts: Options, card: Card, j: Journey)
    requires Entitled(src, opts, card) && LetThrough(x, src, opts, card, j.probes)
    requires IsJourney(world, j, KeysFor(src, card.preflight.value), NumSlots(src), true) && Through(j, NumSlots(src))
    ensures GatesPassed(world, x, src, opts, card, Trace(j))
  {
    var keys := KeysFor(src, card.preflight.value);
    var es := Trace(j);
    assert Flat(j.rungs) + j.fall == Flat(j.rungs);
    assert es[..2] == j.probes && es[2..] == Flat(j.rungs);
    forall s | 0 <= s < NumSlots(src)
      ensures Authenticated(es[2..], s, KeyOf(keys, s))
    {
      ClimbedAuthenticates(world, j.probes, j.rungs, keys, s);
    }
    assert Authenticated(es[2..], 0, KeyOf(keys, 0));
    assert es[0] == j.probes[0] && es[1] == j.probes[1];
  }

  /** The pre-verification gate, with what the probes left of the card. */
  predicate LetThrough(x: Suite, src: KeySource, opts: Options, card: Card, probes: seq<Event>)
    requires card.preflight.Some?
  {
    var uid := card.preflight.value;
    opts.skipPreVerify || PreVerify(x, KeysFor(src, uid), uid, card.url(probes)) != Refuse
  }

  /** What comes of a journey: the first gate that is closed, or the call. */
  function Outcome(world: World, j: Journey, verified: bool, card: Card, failures: nat): (r: Result) {
    if !Provisioned(j.probes) then ProbeResult(j.probes)
    else if !verified then NotVerified
    else if j.fallen then if WrongSlot(j) && failures + 1 >= BREAKER then Exited else SlotRefused(|j.rungs|)
    else if !world.rng(Trace(j)) then NoRandomness
    else Mutated(card.wipes(Trace(j)))
  }

  lemma OutcomeShape(world: World, j: Journey, keys: KeySet, slots: nat, verified: bool, card: Card, failures: nat)
    requires IsJourney(world, j, keys, slots, verified)
    ensures var r := Outcome(world, j, verified, card, failures);
      && (r == Exited <==> WrongSlot(j) && failures + 1 >= BREAKER)
      && (r.Mutated? ==> verified && Through(j, slots))
  {
  }

  /** A card and random source that let a rightly keyed, rightly pinned wipe through, once its delay is over. */
  ghost predicate Cooperative(world: World, x: Suite, src: KeySource, opts: Options, card: Card)
    requires card.preflight.Some?
  {
    && (forall h :: world.auth(h, 0, FACTORY_KEY) != Accepted)
    && (forall h :: LetThrough(x, src, opts, card, h))
    && (forall s :: 0 <= s < NumSlots(src) ==>
          Settles(world, s, KeyOf(KeysFor(src, card.preflight.value), s), ATTEMPTS, Accepted))
  }

  /** Such a card is wiped. */
  lemma CooperativeWiped(world: World, x: Suite, src: KeySource, opts: Options, card: Card, j: Journey, failures: nat)
    requires card.preflight.Some? && Cooperative(world, x, src, opts, card) && GenuineTrace(world, j.probes)
    requires IsJourney(world, j, KeysFor(src, card.preflight.value), NumSlots(src),
                       LetThrough(x, src, opts, card, j.probes))
    ensures Outcome(world, j, LetThrough(x, src, opts, card, j.probes), card, failures).Mutated?
  {
    var keys := KeysFor(src, card.preflight.value);
    SettlesHasRandom(world, 0, KeyOf(keys, 0), ATTEMPTS, Accepted, j.probes);
    SettlesHasRandom(world, 0, KeyOf(keys, 0), ATTEMPTS, Accepted, Trace(j));
    assert |j.probes| > 0 ==> GivenByCard(world, j.probes, 0);
    assert |j.probes| > 1 ==> GivenByCard(world, j.probes, 1);
    if j.fallen {
      var s := |j.rungs|;
      DelayRiddenOut(world, j.probes + Flat(j.rungs), s, KeyOf(keys, s), ATTEMPTS, Accepted, j.fall, j.climb);
    }
  }

  /** The gates that talk to the card, up to the mutating call. */
  method Approach(b: Bench, x: Suite, src: KeySource, opts: Options, card: Card)
    returns (stop: Option<Result>, ghost j: Journey)
    requires b.trace == [] && card.preflight.Some?
    modifies b
    ensures b.Genuine() && b.trace == Trace(j) && GenuineTrace(b.world, j.probes)
    ensures var verified := LetThrough(x, src, opts, card, j.probes);
      && IsJourney(b.world, j, KeysFor(src, card.preflight.value), NumSlots(src), verified)
      && (var r := Outcome(b.world, j, verified, card, old(b.failures)); stop == if r.Mutated? then None else Some(r))
    ensures b.failures == old(b.failures) + if WrongSlot(j) then 1 else 0
  {
    var uid := card.preflight.value;
    var keys := KeysFor(src, uid);
    var probes, ps := FactoryProbes(b);
    j := Journey(ps, [], false, [], Exhausted);
    assert Trace(j) == ps;
    if probes.Stop? {
      return Some(probes.result), j;
    }
    if !opts.skipPreVerify {
      var v := PreVerifyPc(x, keys, uid, card.url(b.trace));
      if v == Refuse {
        return Some(NotVerified), j;
      }
    }
    var v, at, rungs, fall, climb := AuthenticateSlots(b, keys, NumSlots(src));
    j := Journey(ps, rungs, v != Passed, fall, climb);
    if v != Passed {
      return Some(if v == Stopped then Exited else SlotRefused(at)), j;
    }
    if !b.world.rng(b.trace) {
      return Some(NoRandomness), j;
    }
    return None, j;
  }

  /** The attempts of a wipe, where they lead, and the call at their end. */
  predicate IsWipe(world: World, j: Journey, x: Suite, src: KeySource, opts: Options, card: Card, failures: nat,
                   es: seq<Event>, r: Result)
    requires card.preflight.Some?
  {
    var uid := card.preflight.value;
    var verified := LetThrough(x, src, opts, card, j.probes);
    && IsJourney(world, j, KeysFor(src, uid), NumSlots(src), verified)
    && r == Outcome(world, j, verified, card, failures)
    && es == Trace(j) + if r.Mutated? then [Wipe(uid, KeysFor(src, uid))] else []
  }

  /** The wipe of an entitled caller. */
  method Proceed(b: Bench, x: Suite, src: KeySource, opts: Options, card: Card) returns (r: Result, ghost j: Journey)
    requires b.trace == [] && card.preflight.Some?
    modifies b
    ensures b.Genuine() && IsWipe(b.world, j, x, src, opts, card, old(b.failures), b.trace, r)
    ensures GenuineTrace(b.world, j.probes)
    ensures b.failures == old(b.failures) + if WrongSlot(j) then 1 else 0
  {
    var stop;
    stop, j := Approach(b, x, src, opts, card);
    if stop.Some? {
      assert Trace(j) + [] == Trace(j);
      return stop.value, j;
    }
    var uid := card.preflight.value;
    var wipe := Wipe(uid, KeysFor(src, uid));
    var ok := card.wipes(b.trace);
    GenuineExtends(b.world, b.trace, wipe);
    b.trace := b.trace + [wipe];
    return Mutated(ok), j;
  }

  /**
   What a wipe costs: at most three failures in at most 57 attempts, of which all but those of the factory
   probes are recorded, so that all are recorded exactly when neither probe failed. The process ends exactly
   when a recorded failure is the tenth or later.
   */
  predicate Priced(es: seq<Event>, before: nat, after: nat, exited: bool) {
    && Failures(es) <= 3 && |es| <= 57 && (forall i :: 0 <= i < |es| ==> es[i].Auth?)
    && after == before + Failures(es) - ProbeFailures(es) <= before + 1
    && (after == before + Failures(es) <==> forall i :: 0 <= i < |es| && i < 2 ==> !IsFailure(es[i]))
    && (exited <==> after > before && after >= 10)
  }

  /** What an entitled wipe comes to: its gates, its cost, and what of the cost is recorded. */
  lemma WipeFacts(world: World, j: Journey, x: Suite, src: KeySource, opts: Options, card: Card, failures: nat,
                  trace: seq<Event>, r: Result)
    requires Entitled(src, opts, card) && IsWipe(world, j, x, src, opts, card, failures, trace, r)
    ensures r.Mutated? ==> GatesPassed(world, x, src, opts, card, Trace(j)) && Failures(Trace(j)) <= 2
    ensures Priced(Trace(j), failures, failures + (if WrongSlot(j) then 1 else 0), r == Exited)
    ensures Cooperative(world, x, src, opts, card) && GenuineTrace(world, j.probes) ==> r.Mutated?
  {
    var keys, verified := KeysFor(src, card.preflight.value), LetThrough(x, src, opts, card, j.probes);
    JourneyFacts(world, j, keys, NumSlots(src), verified);
    OutcomeShape(world, j, keys, NumSlots(src), verified, card, failures);
    ProbesFailed(Trace(j));
    if r.Mutated? {
      ThroughIsPassed(world, x, src, opts, card, j);
    }
    if Cooperative(world, x, src, opts, card) && GenuineTrace(world, j.probes) {
      CooperativeWiped(world, x, src, opts, card, j, failures);
    }
  }

  /** All five keys of a set were accepted, each in its own slot. */
  predicate AllFiveAccepted(es: seq<Event>, ks: KeySet) {
    && Auth(0, ks.k0, Accepted) in es && Auth(1, ks.k1, Accepted) in es && Auth(2, ks.k2, Accepted) in es
    && Auth(3, ks.k3, Accepted) in es && Auth(4, ks.k4, Accepted) in es
  }

  /** What a wipe has proved, and with which keys it wipes: all five of a raw set, or the UID's by their first. */
  predicate KeysProved(src: KeySource, uid: Sun.Uid, es: seq<Event>, trace: seq<Event>) {
    match src
    case Raw(ks) => AllFiveAccepted(es, ks) && trace == es + [Wipe(uid, ks)]
    case Issuer(derive) => Auth(0, derive(uid).k0, Accepted) in es && trace == es + [Wipe(uid, derive(uid))]
  }

  /** The card, once its delay is over, rejects a key in its own slot: any of the five, or the first of the UID. */
  ghost predicate Rejects(world: World, src: KeySource, uid: Sun.Uid) {
    match src
    case Raw(ks) => RejectsOneOfFive(world, ks)
    case Issuer(derive) => Settles(world, 0, derive(uid).k0, 11, Rejected)
  }

  ghost predicate RejectsOneOfFive(world: World, ks: KeySet) {
    || Settles(world, 0, ks.k0, 11, Rejected) || Settles(world, 1, ks.k1, 11, Rejected)
    || Settles(world, 2, ks.k2, 11, Rejected) || Settles(world, 3, ks.k3, 11, Rejected)
    || Settles(world, 4, ks.k4, 11, Rejected)
  }

  /** The gates, with the slots and keys written out: five for a raw key set, the master key of a derived one. */
  lemma GatesNameKeys(world: World, x: Suite, src: KeySource, opts: Options, card: Card, es: seq<Event>)
    requires GatesPassed(world, x, src, opts, card, es)
    ensures var uid := card.preflight.value; KeysProved(src, uid, es, es + [Wipe(uid, KeysFor(src, uid))])
  {
    var keys, rest := KeysFor(src, card.preflight.value), es[2..];
    assert Authenticated(rest, 0, KeyOf(keys, 0));
    if src.Raw? {
      assert Authenticated(rest, 1, KeyOf(keys, 1)) && Authenticated(rest, 2, KeyOf(keys, 2));
      assert Authenticated(rest, 3, KeyOf(keys, 3)) && Authenticated(rest, 4, KeyOf(keys, 4));
    }
    BehindProbes(es);
  }

  lemma BehindProbes(es: seq<Event>)
    requires |es| >= 2
    ensures forall e :: e in es[2..] ==> e in es
  {
  }

  /** A slot the card rejects was not climbed. */
  lemma RejectedNotClimbed(world: World, before: seq<Event>, rungs: seq<seq<Event>>, keys: KeySet, s: nat)
    requires Climbed(world, before, rungs, keys) && s < |rungs|
    ensures !Settles(world, s, KeyOf(keys, s), 11, Rejected)
  {
    assert IsRung(world, before, rungs, keys, s);
    if Settles(world, s, KeyOf(keys, s), 11, Rejected) {
      DelayRiddenOut(world, before + Flat(rungs[..s]), s, KeyOf(keys, s), 11, Rejected, rungs[s], Settled(Accepted));
    }
  }

  /** A card that rejects one of the keys a wipe must prove is not wiped. */
  lemma RejectingNotWiped(world: World, j: Journey, x: Suite, src: KeySource, opts: Options, card: Card, failures: nat,
                          trace: seq<Event>, r: Result)
    requires card.preflight.Some? && IsWipe(world, j, x, src, opts, card, failures, trace, r) && r.Mutated?
    ensures !Rejects(world, src, card.preflight.value)
  {
    var keys, verified := KeysFor(src, card.preflight.value), LetThrough(x, src, opts, card, j.probes);
    OutcomeShape(world, j, keys, NumSlots(src), verified, card, failures);
    RejectedNotClimbed(world, j.probes, j.rungs, keys, 0);
    if src.Raw? {
      RejectedNotClimbed(world, j.probes, j.rungs, keys, 1);
      RejectedNotClimbed(world, j.probes, j.rungs, keys, 2);
      RejectedNotClimbed(world, j.probes, j.rungs, keys, 3);
      RejectedNotClimbed(world, j.probes, j.rungs, keys, 4);
    }
  }

  /** The wipe of an entitled caller, with all that is promised of it. */
  method WipeEntitled(b: Bench, x: Suite, src: KeySource, opts: Options, card: Card)
    returns (r: Result, ghost j: Journey)
    requires b.trace == [] && Entitled(src, opts, card)
    modifies b
    ensures b.Genuine() && IsWipe(b.world, j, x, src, opts, card, old(b.failures), b.trace, r)
    ensures r.Mutated? ==> GatesPassed(b.world, x, src, opts, card, Trace(j)) && Failures(Trace(j)) <= 2
    ensures r.Mutated? ==> KeysProved(src, card.preflight.value, Trace(j), b.trace)
    ensures Rejects(b.world, src, card.preflight.value) ==> !r.Mutated?
    ensures Priced(Trace(j), old(b.failures), b.failures, r == Exited)
    ensures Cooperative(b.world, x, src, opts, card) ==> r.Mutated?
  {
    r, j := Proceed(b, x, src, opts, card);
    WipeFacts(b.world, j, x, src, opts, card, old(b.failures), b.trace, r);
    if r.Mutated? {
      GatesNameKeys(b.world, x, src, opts, card, Trace(j));
      RejectingNotWiped(b.world, j, x, src, opts, card, old(b.failures), b.trace, r);
    }
  }

  lemma NothingPriced(failures: nat)
    ensures Priced([], failures, failures, false)
  {
  }

  /**
   The wipe. For every card, random source and key source: the attempts `es` are a journey, the mutating
   call is made exactly when it passes all gates, and they cost the card at most three failed authentications.
   */
  method CmdWipe(b: Bench, x: Suite, src: KeySource, opts: Options, card: Card)
    returns (r: Result, ghost es: seq<Event>, ghost j: Journey)
    requires b.trace == []
    modifies b
    ensures !Entitled(src, opts, card) ==>
      b.trace == es == [] && b.failures == old(b.failures) && r == Refusal(src, opts, card)
    ensures Entitled(src, opts, card) ==>
      es == Trace(j) && IsWipe(b.world, j, x, src, opts, card, old(b.failures), b.trace, r)
    ensures r.Mutated? ==> GatesPassed(b.world, x, src, opts, card, es) && Failures(es) <= 2
    // A raw key set is proved in all five slots, a derived one in slot 0, and that set is the one wiped with.
    ensures r.Mutated? ==> card.preflight.Some? && KeysProved(src, card.preflight.value, es, b.trace)
    ensures card.preflight.Some? && Rejects(b.world, src, card.preflight.value) ==> !r.Mutated?
    ensures b.Genuine() && Priced(es, old(b.failures), b.failures, r == Exited)
    ensures Entitled(src, opts, card) && Cooperative(b.world, x, src, opts, card) ==> r.Mutated?
  {
    es, j := [], Journey([], [], false, [], Exhausted);
    NothingPriced(b.failures);
    if src.Raw? && opts.confirm.None? {
      return NeedsUid, es, j;
    }
    if card.preflight.None? {
      return PreflightFailed, es, j;
    }
    var uid := card.preflight.value;
    if opts.confirm.Some? && opts.confirm.value != uid {
      return WrongUid, es, j;
    }
    if opts.dryRun {
      return DryRun, es, j;
    }
    r, j := WipeEntitled(b, x, src, opts, card);
    es := Trace(j);
  }

  lemma ProbesFailed(es: seq<Event>)
    ensures ProbeFailures(es) == 0 <==> forall i :: 0 <= i < |es| && i < 2 ==> !IsFailure(es[i])
  {
    FewFailures(if |es| < 2 then es else es[..2]);
  }

  /** A card that rejects only the factory key suffers two failures of a wipe, and the process records none. */
  method RejectingProbes(x: Suite, keys: KeySet, uid: Sun.Uid) returns (b: Bench, r: Result, ghost es: seq<Event>)
    requires keys.k0 != FACTORY_KEY
    ensures fresh(b) && r.Mutated? && es <= b.trace && Failures(es) == 2 && b.failures == 0
  {
    var answers := (es, slot, key) => if slot == 0 && key == FACTORY_KEY then Rejected else Accepted;
    b := new Bench(World(answers, es => true), 0);
    var src := Issuer(u => keys);
    var opts := Options(false, true, None);
    var card := Card(Some(uid), es => None, es => true);
    SettledAtOnce(b.world, 0, keys.k0, ATTEMPTS, Accepted);
    assert Cooperative(b.world, x, src, opts, card);
    ghost var j;
    r, es, j := CmdWipe(b, x, src, opts, card);
    assert es[0] == b.trace[0] && es[1] == b.trace[1];
    assert GivenByCard(b.world, b.trace, 0) && GivenByCard(b.world, b.trace, 1);
    FewFailures(es[..2]);
  }
}
