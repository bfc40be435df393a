/** The button debouncer: timed raw samples in, clicks and long presses out. */
module Button {

  const DEBOUNCE_TICKS: nat := 2
  const LONG_PRESS_MS: nat := 1000

  datatype Event = NoEvent | Click | LongPress

  datatype Sample = Sample(pressed: bool, ms: nat)

  datatype State = State(count: nat, pressed: bool, start: nat, fired: bool)

  const START: State := State(0, false, 0, false)

  function Update(s: State, x: Sample): (r: (State, Event)) {
    if x.pressed then
      if !s.pressed then
        var count := if s.count < 255 then s.count + 1 else 255;
        if count >= DEBOUNCE_TICKS then (State(count, true, x.ms, false), NoEvent)
        else (s.(count := count), NoEvent)
      else if !s.fired && x.ms - s.start >= LONG_PRESS_MS then (s.(fired := true), LongPress)
      else (s, NoEvent)
    else
      (s.(count := 0, pressed := false), if s.pressed && !s.fired then Click else NoEvent)
  }

  class ButtonDebounce {
    var count: nat
    var pressed: bool
    var start: nat
    var fired: bool

    function S(): (s: State)
      reads this
    {
      State(count, pressed, start, fired)
    }

    constructor ()
      ensures S() == START
    {
      count, pressed, start, fired := 0, false, 0, false;
    }

    method Poll(x: Sample) returns (e: Event)
      requires count <= 255
      modifies this
      ensures (S(), e) == Update(old(S()), x)
      ensures count <= 255
    {
      if x.pressed {
        if !pressed {
          if count < 255 {
            count := count + 1;
          }
          if count >= DEBOUNCE_TICKS {
            pressed := true;
            start := x.ms;
            fired := false;
          }
        } else {
          // The subtraction saturates at zero.
          var held := if x.ms < start then 0 else x.ms - start;
          if !fired && held >= LONG_PRESS_MS {
            fired := true;
            return LongPress;
          }
        }
      } else {
        count := 0;
        if pressed {
          pressed := false;
          if !fired {
            return Click;
          }
        }
      }
      return NoEvent;
    }
  }

  function StateAfter(xs: seq<Sample>, i: nat): (s: State)
    requires i <= |xs|
  {
    if i == 0 then START else Update(StateAfter(xs, i - 1), xs[i - 1]).0
  }

  /** The event of sample `i`. */
  function EventAt(xs: seq<Sample>, i: nat): (e: Event)
    requires i < |xs|
  {
    Update(StateAfter(xs, i), xs[i]).1
  }

  // The specification, by maximal runs of pressed samples.

  /** The length of the run of pressed samples that ends just before `i`. */
  function RunBefore(xs: seq<Sample>, i: nat): (n: nat)
    requires i <= |xs|
    ensures n <= i
    ensures forall k :: i - n <= k < i ==> xs[k].pressed
    ensures n < i ==> !xs[i - n - 1].pressed
  {
    if i > 0 && xs[i - 1].pressed then RunBefore(xs, i - 1) + 1 else 0
  }

  /** Sample `k` comes at least a second after the second sample of the run that starts at `first`. */
  predicate HeldLong(xs: seq<Sample>, first: nat, k: nat)
    requires first + 1 < |xs| && k < |xs|
  {
    xs[k].ms >= xs[first + 1].ms + 1000
  }

  /** Some sample of the run starting at `first`, after its second and before `i`, was held long. */
  ghost predicate LongBefore(xs: seq<Sample>, first: nat, i: nat)
    requires first + 2 <= i <= |xs|
  {
    exists k :: first + 2 <= k < i && HeldLong(xs, first, k)
  }

  /** No event for a run shorter than two; then LongPress at the first long-held sample, or Click at release. */
  ghost function SpecEvent(xs: seq<Sample>, i: nat): (e: Event)
    requires i < |xs|
  {
    var n := RunBefore(xs, i);
    if n < 2 || LongBefore(xs, i - n, i) then NoEvent
    else if !xs[i].pressed then Click
    else if HeldLong(xs, i - n, i) then LongPress
    else NoEvent
  }

  lemma LongBeforeExtends(xs: seq<Sample>, first: nat, i: nat)
    requires first + 2 < i <= |xs|
    ensures LongBefore(xs, first, i) <==> LongBefore(xs, first, i - 1) || HeldLong(xs, first, i - 1)
  {
    if LongBefore(xs, first, i) {
      var k :| first + 2 <= k < i && HeldLong(xs, first, k);
      assert k == i - 1 || LongBefore(xs, first, i - 1);
    }
  }

  lemma {:induction false} StateTracksRun(xs: seq<Sample>, i: nat)
    requires i <= |xs|
    ensures var s, n := StateAfter(xs, i), RunBefore(xs, i);
      if n < 2 then !s.pressed && s.count == n
      else s.pressed && s.start == xs[i - n + 1].ms && (s.fired <==> LongBefore(xs, i - n, i))
  {
    if i > 0 {
      StateTracksRun(xs, i - 1);
      var first := i - RunBefore(xs, i);
      if first + 2 < i {
        LongBeforeExtends(xs, first, i);
      }
    }
  }

  /** For every timed sample sequence the event of every sample is the specified one. */
  lemma EventsMatchSpec(xs: seq<Sample>, i: nat)
    requires i < |xs|
    ensures EventAt(xs, i) == SpecEvent(xs, i)
  {
    StateTracksRun(xs, i);
  }

  /** A new debouncer polled with the samples in order reports exactly the specified events. */
  method PollAll(xs: seq<Sample>) returns (es: seq<Event>)
    ensures |es| == |xs| && forall i :: 0 <= i < |xs| ==> es[i] == SpecEvent(xs, i)
  {
    var button := new ButtonDebounce();
    es := [];
    for i := 0 to |xs|
      invariant fresh(button) && button.count <= 255 && button.S() == StateAfter(xs, i)
      invariant |es| == i && forall k :: 0 <= k < i ==> es[k] == SpecEvent(xs, k)
    {
      EventsMatchSpec(xs, i);
      var e := button.Poll(xs[i]);
      es := es + [e];
    }
  }

  /** A run and the release that ends it yield at most one event. */
  lemma OneEventPerRun(xs: seq<Sample>, i: nat, j: nat)
    requires i < j < |xs| && forall k :: i <= k < j ==> xs[k].pressed
    requires EventAt(xs, i) != NoEvent
    ensures EventAt(xs, j) == NoEvent
  {
    EventsMatchSpec(xs, i);
    EventsMatchSpec(xs, j);
    SameRun(xs, i, j);
    assert HeldLong(xs, i - RunBefore(xs, i), i);
  }

  lemma {:induction false} SameRun(xs: seq<Sample>, i: nat, j: nat)
    requires i <= j <= |xs| && forall k :: i <= k < j ==> xs[k].pressed
    ensures j - RunBefore(xs, j) == i - RunBefore(xs, i)
    decreases j
  {
    if i < j {
      SameRun(xs, i, j - 1);
    }
  }
}
