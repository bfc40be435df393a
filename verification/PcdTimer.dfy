/**
 The reader's frame timer: a 12-bit prescaler gives an odd divisor of the 13.56 MHz
 carrier and a 16-bit reload counts its ticks. The frame wait time a card declares
 is armed through it.
 */
module PcdTimer {
  import opened Bytes

  const U32_MAX: nat := 0xFFFF_FFFF
  const MIN_DIVISOR: nat := 339
  const MAX_DIVISOR: nat := 8191

  function Saturate(n: nat): (r: nat) {
    if n < U32_MAX then n else U32_MAX
  }

  /** The least odd divisor from `least` on, no less than 339. */
  function OddFrom(least: nat): (div: nat) {
    var div := if least < MIN_DIVISOR then MIN_DIVISOR else least;
    if div % 2 == 0 then div + 1 else div
  }

  /** The divisor for a request: the least one whose reload fits, made odd upwards. */
  function Divisor(ms: nat): (div: nat) {
    OddFrom(Saturate(Saturate(ms * 904) + 4368) / 4369)
  }

  function Reload(ms: nat, div: nat): (reload: nat)
    requires div > 0
  {
    (ms * 13_560_000 + div * 1000 - 1) / (div * 1000)
  }

  datatype Armed = Refused | Armed(div: nat, reload: nat, ms: nat)

  function Program(ms: nat): (a: Armed)
  {
    var div := Divisor(ms);
    if div > MAX_DIVISOR then Refused
    else
      var reload := Reload(ms, div);
      Armed(div, reload, reload * div * 1000 / 13_560_000)
  }

  /** The divisor can express the request with a reload of 16 bits. */
  predicate Suffices(ms: nat, div: nat) {
    div % 2 == 1 && 339 <= div <= 8191 && Reload(ms, div) <= 0xFFFF
  }

  lemma CeilingDivision(a: nat, b: nat)
    requires b > 0
    ensures var c := (a + b - 1) / b;
      c >= 0 && b * c >= a && b * c < a + b
  {
    var c := (a + b - 1) / b;
    assert a + b - 1 == b * c + (a + b - 1) % b;
  }

  /** The reload is the fewest ticks that last at least the request. */
  lemma ReloadIsCeiling(ms: nat, div: nat)
    requires div > 0
    ensures ms * 13560 <= Reload(ms, div) * div < ms * 13560 + div
  {
    CeilingDivision(ms * 13_560_000, div * 1000);
    var c := Reload(ms, div);
    assert div * 1000 * c == 1000 * (c * div);
  }

  lemma ProductMonotone(a: nat, b: nat, c: nat)
    requires a <= b
    ensures a * c <= b * c
  {
  }

  /** The ticks of a reload, as a product `p` of which only its bounds are used. */
  lemma ProductFits(ms: nat, div: nat, c: nat, p: nat)
    requires ms * 13560 <= p < ms * 13560 + div
    requires c <= 0xFFFF ==> p <= 0xFFFF * div
    requires c > 0xFFFF ==> 0x1_0000 * div <= p
    ensures c <= 0xFFFF <==> ms * 904 <= 4369 * div
  {
  }

  lemma FitsIffDivisorLarge(ms: nat, div: nat)
    requires div > 0
    ensures Reload(ms, div) <= 0xFFFF <==> ms * 904 <= 4369 * div
  {
    ReloadIsCeiling(ms, div);
    var c := Reload(ms, div);
    if c <= 0xFFFF {
      ProductMonotone(c, 0xFFFF, div);
    } else {
      ProductMonotone(0x1_0000, c, div);
    }
    ProductFits(ms, div, c, c * div);
  }

  lemma OddFromIsLeast(least: nat, d: nat)
    ensures var div := OddFrom(least);
      && div % 2 == 1 && div >= MIN_DIVISOR && div >= least
      && (d % 2 == 1 && d >= MIN_DIVISOR && d >= least ==> div <= d)
  {
  }

  lemma LeastQuotient(n: nat, d: nat)
    ensures var q := (n + 4368) / 4369;
      n <= 4369 * q && (n <= 4369 * d ==> q <= d)
  {
  }

  /** What saturates is far out of range. */
  lemma SaturatedQuotient(ms: nat)
    ensures var q := Saturate(Saturate(ms * 904) + 4368) / 4369;
      if ms * 904 + 4368 < U32_MAX then q == (ms * 904 + 4368) / 4369 else q > MAX_DIVISOR
  {
  }

  lemma DivisorAtMost(ms: nat, d: nat)
    ensures Divisor(ms) % 2 == 1 && Divisor(ms) >= MIN_DIVISOR
    ensures Divisor(ms) <= MAX_DIVISOR ==> ms * 904 <= 4369 * Divisor(ms)
    ensures d % 2 == 1 && MIN_DIVISOR <= d <= MAX_DIVISOR && ms * 904 <= 4369 * d ==> Divisor(ms) <= d
  {
    var least := Saturate(Saturate(ms * 904) + 4368) / 4369;
    SaturatedQuotient(ms);
    LeastQuotient(ms * 904, d);
    OddFromIsLeast(least, d);
  }

  lemma DivisorIsLeast(ms: nat)
    ensures Divisor(ms) % 2 == 1 && Divisor(ms) >= MIN_DIVISOR
    ensures Divisor(ms) <= MAX_DIVISOR ==> ms * 904 <= 4369 * Divisor(ms)
    ensures forall d: nat :: d % 2 == 1 && MIN_DIVISOR <= d <= MAX_DIVISOR && ms * 904 <= 4369 * d ==> Divisor(ms) <= d
  {
    forall d: nat
      ensures d % 2 == 1 && MIN_DIVISOR <= d <= MAX_DIVISOR && ms * 904 <= 4369 * d ==> Divisor(ms) <= d
    {
      DivisorAtMost(ms, d);
    }
    DivisorAtMost(ms, 0);
  }

  /** An armed timer uses the least sufficient odd divisor and lasts exactly the request in milliseconds. */
  lemma ArmedExactly(ms: nat)
    requires ms <= U32_MAX
    ensures var a := Program(ms);
      a.Armed? ==>
        && Suffices(ms, a.div) && a.reload == Reload(ms, a.div) && a.ms == ms
        && forall d: nat :: Suffices(ms, d) ==> a.div <= d
  {
    var a := Program(ms);
    if a.Armed? {
      DivisorIsLeast(ms);
      FitsIffDivisorLarge(ms, a.div);
      ReloadIsCeiling(ms, a.div);
      assert a.reload * a.div * 1000 / 13_560_000 == a.reload * a.div / 13560;
      forall d: nat | Suffices(ms, d)
        ensures a.div <= d
      {
        FitsIffDivisorLarge(ms, d);
      }
    }
  }

  /** A request is refused exactly when no divisor suffices, which is exactly above 39586 ms. */
  lemma RefusedExactly(ms: nat)
    requires ms <= U32_MAX
    ensures Program(ms).Refused? <==> forall d: nat :: !Suffices(ms, d)
    ensures Program(ms).Refused? <==> ms > 39586
  {
    DivisorIsLeast(ms);
    forall d: nat | Suffices(ms, d)
      ensures Divisor(ms) <= d
    {
      FitsIffDivisorLarge(ms, d);
    }
    if Program(ms).Armed? {
      ArmedExactly(ms);
      assert Suffices(ms, Program(ms).div);
    }
  }

  // The frame wait time.

  /** The frame waiting time integer of TB(1), if the answer to select carries one. */
  function FwiFromAts(ats: seq<byte>): (fwi: Option<nat>)
    ensures fwi.Some? ==> fwi.value < 16
  {
    if |ats| < 2 || ats[1] / 32 % 2 == 0 then None
    else
      var i := if ats[1] / 16 % 2 == 1 then 3 else 2;
      if i < |ats| then Some(ats[i] / 16) else None
  }

  function FrameWaitMs(ats: seq<byte>): (ms: nat) {
    var fwi := FwiFromAts(ats);
    302 * Pow2(if fwi.Some? then fwi.value else 4) / 1000 + 10
  }

  lemma PowersOfTwo()
    ensures Pow2(0) == 1 && Pow2(1) == 2 && Pow2(2) == 4 && Pow2(3) == 8 && Pow2(4) == 16 && Pow2(5) == 32
    ensures Pow2(6) == 64 && Pow2(7) == 128 && Pow2(8) == 256 && Pow2(9) == 512 && Pow2(10) == 1024
    ensures Pow2(11) == 2048 && Pow2(12) == 4096 && Pow2(13) == 8192 && Pow2(14) == 16384 && Pow2(15) == 32768
  {
  }

  // Answers to select, built from their parts.

  /** The parts of an answer: the frame size nibble, TA(1) and TB(1) if sent, the other two flags, and what follows. */
  datatype Ats = Ats(len: byte, fsci: nat, ta: Option<byte>, tb: Option<byte>, tc: bool, rfu: bool, rest: seq<byte>)

  function Flag(on: bool, weight: nat): (n: nat) {
    if on then weight else 0
  }

  function Sent(b: Option<byte>): (bytes: seq<byte>) {
    if b.Some? then [b.value] else []
  }

  function AtsBytes(a: Ats): (bytes: seq<byte>)
    requires a.fsci < 16
  {
    [a.len, a.fsci + Flag(a.ta.Some?, 16) + Flag(a.tb.Some?, 32) + Flag(a.tc, 64) + Flag(a.rfu, 128)]
    + Sent(a.ta) + Sent(a.tb) + a.rest
  }

  lemma FlagsRead(fsci: nat, ta: bool, tb: bool, tc: bool, rfu: bool)
    requires fsci < 16
    ensures var t0 := fsci + Flag(ta, 16) + Flag(tb, 32) + Flag(tc, 64) + Flag(rfu, 128);
      t0 < 256 && (t0 / 16 % 2 == 1 <==> ta) && (t0 / 32 % 2 == 1 <==> tb)
  {
  }

  /** Of an answer in full, the waiting time integer is the high nibble of TB(1), with or without TA(1) before it. */
  lemma FwiOfAts(a: Ats)
    requires a.fsci < 16
    ensures FwiFromAts(AtsBytes(a)) == if a.tb.Some? then Some(a.tb.value / 16) else None
  {
    FlagsRead(a.fsci, a.ta.Some?, a.tb.Some?, a.tc, a.rfu);
    var ats := AtsBytes(a);
    assert ats[1] == a.fsci + Flag(a.ta.Some?, 16) + Flag(a.tb.Some?, 32) + Flag(a.tc, 64) + Flag(a.rfu, 128);
    if a.tb.Some? {
      assert ats[if a.ta.Some? then 3 else 2] == a.tb.value;
    }
  }

  lemma FlagsOf(t0: byte)
    ensures var ta, tb, tc, rfu := t0 / 16 % 2 == 1, t0 / 32 % 2 == 1, t0 / 64 % 2 == 1, t0 / 128 == 1;
      t0 == t0 % 16 + Flag(ta, 16) + Flag(tb, 32) + Flag(tc, 64) + Flag(rfu, 128)
  {
    var h := t0 / 16;
    assert t0 == 16 * h + t0 % 16 && h < 16;
    assert t0 / 32 == h / 2 && t0 / 64 == h / 4 && t0 / 128 == h / 8;
    assert h == h % 2 + 2 * (h / 2 % 2) + 4 * (h / 4 % 2) + 8 * (h / 8);
  }

  /** Every answer whose TB(1) is read is one in full; none is read where it is not sent or cut off. */
  lemma FwiIsSent(ats: seq<byte>) returns (a: Ats)
    requires FwiFromAts(ats).Some?
    ensures a.fsci < 16 && a.tb.Some? && ats == AtsBytes(a)
  {
    var t0 := ats[1];
    var ta, tc, rfu := t0 / 16 % 2 == 1, t0 / 64 % 2 == 1, t0 / 128 == 1;
    FlagsOf(t0);
    var i := if ta then 3 else 2;
    a := Ats(ats[0], t0 % 16, if ta then Some(ats[2]) else None, Some(ats[i]), tc, rfu, ats[i + 1..]);
    assert ats == [ats[0], ats[1]] + ats[2..i] + [ats[i]] + ats[i + 1..];
    assert ats[2..i] == Sent(a.ta);
  }

  lemma WaitBounds(n: nat)
    requires n < 16
    ensures var ms := 302 * Pow2(n) / 1000 + 10;
      ms <= 9905 && 4096 * Pow2(n) * 1000 <= ms * 13_560_000
  {
    PowersOfTwo();
    assert n == 0 || n == 1 || n == 2 || n == 3 || n == 4 || n == 5 || n == 6 || n == 7
        || n == 8 || n == 9 || n == 10 || n == 11 || n == 12 || n == 13 || n == 14 || n == 15;
  }

  /** A wait of `ms` is armed in full and covers the frame waiting time 4096 / fc * 2^n of ISO/IEC 14443-4. */
  predicate Covers(ms: nat, n: nat) {
    && Program(ms).Armed? && Program(ms).ms == ms
    && ms == 302 * Pow2(n) / 1000 + 10 && 4096 * Pow2(n) * 1000 <= ms * 13_560_000
  }

  lemma WaitCovers(n: nat)
    requires n < 16
    ensures Covers(302 * Pow2(n) / 1000 + 10, n)
  {
    var ms := 302 * Pow2(n) / 1000 + 10;
    WaitBounds(n);
    RefusedExactly(ms);
    ArmedExactly(ms);
  }

  /**
   Whatever the card declares, the timer is armed for all of it: the waiting time integer in the high nibble of
   TB(1), and that integer 4 where no TB(1) is sent.
   */
  lemma FrameWaitArmedInFull(a: Ats, n: nat, low: nat)
    requires a.fsci < 16 && n < 16 && low < 16 && (a.tb.None? || a.tb == Some(16 * n + low))
    ensures Covers(FrameWaitMs(AtsBytes(a)), if a.tb.Some? then n else 4)
  {
    FwiOfAts(a);
    assert (16 * n + low) / 16 == n;
    WaitCovers(if a.tb.Some? then n else 4);
  }

  /** An answer that is cut off before its TB(1) waits for the default as well. */
  lemma CutOffArmed(ats: seq<byte>)
    requires forall a: Ats :: a.fsci < 16 && a.tb.Some? ==> ats != AtsBytes(a)
    ensures Covers(FrameWaitMs(ats), 4)
  {
    if FwiFromAts(ats).Some? {
      var a := FwiIsSent(ats);
    }
    WaitCovers(4);
  }

  /** TB(1) 0x71 behind TA(1) 0x77 declares 7: a wait of 48 ms. */
  lemma DeclaredSeven()
    ensures FrameWaitMs([0x06, 0x77, 0x77, 0x71, 0x02, 0x80]) == 48
  {
    PowersOfTwo();
  }
}
