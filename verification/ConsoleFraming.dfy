/**
 Byte-level framing of the serial console: bytes are folded into lines one at a
 time, and a line that does not fit is reported once and swallowed whole.
 */
module ConsoleFraming {
  import opened Basics
  import opened Bytes

  const CR: byte := 13
  const LF: byte := 10

  /** A line is the sequence of its characters; each character is one Latin-1 byte value. */
  datatype LineEvent = Line(text: seq<byte>) | Overflow

  /** The UTF-8 width of the character a byte becomes. */
  function ByteWidth(b: byte): (w: nat) {
    if b < 0x80 then 1 else 2
  }

  function LineWidth(text: seq<byte>): (w: nat) {
    if text == [] then 0 else LineWidth(text[..|text| - 1]) + ByteWidth(text[|text| - 1])
  }

  datatype State = State(line: seq<byte>, discarding: bool, done: bool)

  const START: State := State([], false, false)

  function Feed(cap: nat, s: State, b: byte): (r: (State, Option<LineEvent>)) {
    var line := if s.done then [] else s.line;
    var t := State(line, s.discarding, false);
    if b == CR then (t, None)
    else if b == LF then
      if s.discarding then (t.(discarding := false), None)
      else if line == [] then (t, None)
      else (t.(done := true), Some(Line(line)))
    else if s.discarding then (t, None)
    else if LineWidth(line) + ByteWidth(b) > cap then (State([], true, false), Some(Overflow))
    else (t.(line := line + [b]), None)
  }

  class LineAssembler {
    const cap: nat
    var line: seq<byte>
    var discarding: bool
    var done: bool

    function S(): (s: State)
      reads this
    {
      State(line, discarding, done)
    }

    constructor (cap: nat)
      ensures S() == START && this.cap == cap
    {
      this.cap := cap;
      line, discarding, done := [], false, false;
    }

    /** Feeds one byte; the line never exceeds the capacity. */
    method FeedByte(b: byte) returns (e: Option<LineEvent>)
      requires LineWidth(line) <= cap
      modifies this
      ensures (S(), e) == Feed(cap, old(S()), b)
      ensures LineWidth(line) <= cap
    {
      if done {
        line := [];
        done := false;
      }
      if b == CR {
        return None;
      } else if b == LF {
        if discarding {
          discarding := false;
          return None;
        }
        if line == [] {
          return None;
        }
        done := true;
        return Some(Line(line));
      }
      if discarding {
        return None;
      }
      if LineWidth(line) + ByteWidth(b) > cap {
        line := [];
        discarding := true;
        return Some(Overflow);
      }
      line := line + [b];
      return None;
    }
  }

  // The events of a whole stream.

  function Final(cap: nat, s: State, bytes: seq<byte>): (r: State)
  {
    if bytes == [] then s else Feed(cap, Final(cap, s, bytes[..|bytes| - 1]), bytes[|bytes| - 1]).0
  }

  function Events(cap: nat, s: State, bytes: seq<byte>): (es: seq<LineEvent>)
  {
    if bytes == [] then []
    else
      var e := Feed(cap, Final(cap, s, bytes[..|bytes| - 1]), bytes[|bytes| - 1]).1;
      Events(cap, s, bytes[..|bytes| - 1]) + Emitted(e)
  }

  lemma RunExtend(cap: nat, pre: seq<byte>, c: byte)
    ensures var (t, e) := Feed(cap, Final(cap, START, pre), c);
      Final(cap, START, pre + [c]) == t && Events(cap, START, pre + [c]) == Events(cap, START, pre) + Emitted(e)
  {
    assert (pre + [c])[..|pre|] == pre;
  }

  // The specification: split at newlines, drop carriage returns, judge each segment as a whole.

  function WithoutCr(seg: seq<byte>): (r: seq<byte>)
  {
    if seg == [] then []
    else WithoutCr(seg[..|seg| - 1]) + (if seg[|seg| - 1] == 13 then [] else [seg[|seg| - 1]])
  }

  /** The text in UTF-8. */
  function Utf8Text(text: seq<byte>): (bytes: seq<byte>)
  {
    if text == [] then [] else Utf8Text(text[..|text| - 1]) + Utf8(text[|text| - 1])
  }

  /** The width a line is judged by is its length in UTF-8. */
  lemma {:induction false} WidthIsUtf8(text: seq<byte>)
    ensures LineWidth(text) == |Utf8Text(text)|
  {
    if text != [] {
      WidthIsUtf8(text[..|text| - 1]);
    }
  }

  function SegmentEvents(cap: nat, seg: seq<byte>, terminated: bool): (es: seq<LineEvent>) {
    var text := WithoutCr(seg);
    if LineWidth(text) > cap then [Overflow]
    else if terminated && text != [] then [Line(text)]
    else []
  }

  /** The newline-terminated segments of a stream and the open segment after the last newline. */
  datatype Split = Split(closed: seq<seq<byte>>, open: seq<byte>)

  function SplitLines(bytes: seq<byte>): (r: Split)
  {
    if bytes == [] then Split([], [])
    else
      var s, b := SplitLines(bytes[..|bytes| - 1]), bytes[|bytes| - 1];
      if b == 10 then Split(s.closed + [s.open], []) else s.(open := s.open + [b])
  }

  function Joined(segs: seq<seq<byte>>): (bytes: seq<byte>)
  {
    if segs == [] then [] else Joined(segs[..|segs| - 1]) + segs[|segs| - 1] + [10]
  }

  predicate Unbroken(seg: seq<byte>) {
    forall i :: 0 <= i < |seg| ==> seg[i] != 10
  }

  /** Splitting loses nothing. */
  lemma {:induction false} SplitJoins(bytes: seq<byte>)
    ensures var s := SplitLines(bytes);
      Joined(s.closed) + s.open == bytes
  {
    if bytes != [] {
      var pre, b := bytes[..|bytes| - 1], bytes[|bytes| - 1];
      SplitJoins(pre);
      SplitStep(pre, b);
      assert bytes == pre + [b];
      var s := SplitLines(pre);
      JoinedStep(s.closed, s.open, b);
    }
  }

  /** No segment holds a newline. */
  lemma {:induction false} SplitUnbroken(bytes: seq<byte>)
    ensures var s := SplitLines(bytes);
      Unbroken(s.open) && forall i :: 0 <= i < |s.closed| ==> Unbroken(s.closed[i])
  {
    if bytes != [] {
      var pre, b := bytes[..|bytes| - 1], bytes[|bytes| - 1];
      SplitUnbroken(pre);
      SplitStep(pre, b);
      assert bytes == pre + [b];
    }
  }

  lemma JoinedStep(segs: seq<seq<byte>>, seg: seq<byte>, b: byte)
    ensures b == 10 ==> Joined(segs + [seg]) + [] == (Joined(segs) + seg) + [b]
    ensures Joined(segs) + (seg + [b]) == (Joined(segs) + seg) + [b]
  {
    assert (segs + [seg])[..|segs|] == segs;
  }

  function ClosedEvents(cap: nat, segs: seq<seq<byte>>): (es: seq<LineEvent>)
  {
    if segs == [] then [] else ClosedEvents(cap, segs[..|segs| - 1]) + SegmentEvents(cap, segs[|segs| - 1], true)
  }

  function Spec(cap: nat, bytes: seq<byte>): (es: seq<LineEvent>) {
    var s := SplitLines(bytes);
    ClosedEvents(cap, s.closed) + SegmentEvents(cap, s.open, false)
  }

  /** What the assembler holds: the open segment, or the fact that it overflowed. */
  ghost predicate Holds(cap: nat, s: State, open: seq<byte>) {
    var text := WithoutCr(open);
    if LineWidth(text) > cap then s == State([], true, false)
    else !s.discarding && (if s.done then text == [] else s.line == text)
  }

  lemma WithoutCrExtend(seg: seq<byte>, c: byte)
    ensures WithoutCr(seg + [c]) == WithoutCr(seg) + (if c == CR then [] else [c])
    ensures LineWidth(WithoutCr(seg + [c])) == LineWidth(WithoutCr(seg)) + (if c == CR then 0 else ByteWidth(c))
  {
    assert (seg + [c])[..|seg|] == seg;
    var t := WithoutCr(seg);
    assert t + [] == t && (t + [c])[..|t|] == t;
  }

  lemma FeedNewline(cap: nat, s: State, open: seq<byte>)
    requires Holds(cap, s, open)
    ensures var (t, e) := Feed(cap, s, LF);
      Holds(cap, t, []) && SegmentEvents(cap, open, false) + Emitted(e) == SegmentEvents(cap, open, true)
  {
  }

  lemma FeedReturn(cap: nat, s: State, open: seq<byte>)
    requires Holds(cap, s, open)
    ensures var (t, e) := Feed(cap, s, CR);
      Holds(cap, t, open + [CR])
        && SegmentEvents(cap, open, false) + Emitted(e) == SegmentEvents(cap, open + [CR], false)
  {
    WithoutCrExtend(open, CR);
    var text := WithoutCr(open);
    assert text + [] == text;
  }

  lemma FeedOther(cap: nat, s: State, open: seq<byte>, c: byte)
    requires Holds(cap, s, open) && c != LF && c != CR
    ensures var (t, e) := Feed(cap, s, c);
      Holds(cap, t, open + [c]) && SegmentEvents(cap, open, false) + Emitted(e) == SegmentEvents(cap, open + [c], false)
  {
    WithoutCrExtend(open, c);
    var text := WithoutCr(open);
    assert WithoutCr(open + [c]) == text + [c];
  }

  function Emitted(e: Option<LineEvent>): (es: seq<LineEvent>) {
    if e.Some? then [e.value] else []
  }

  lemma SplitStep(pre: seq<byte>, c: byte)
    ensures var p := SplitLines(pre);
      SplitLines(pre + [c]) == if c == LF then Split(p.closed + [p.open], []) else Split(p.closed, p.open + [c])
  {
    assert (pre + [c])[..|pre|] == pre;
  }

  lemma ClosedStep(cap: nat, closed: seq<seq<byte>>, seg: seq<byte>)
    ensures ClosedEvents(cap, closed + [seg]) == ClosedEvents(cap, closed) + SegmentEvents(cap, seg, true)
  {
    assert (closed + [seg])[..|closed|] == closed;
  }

  lemma EmptySegment(cap: nat)
    ensures SegmentEvents(cap, [], false) == []
  {
  }

  /** One byte: what the machine emits is what the specification gains. */
  lemma SpecGains(cap: nat, pre: seq<byte>, c: byte, s: State)
    requires Holds(cap, s, SplitLines(pre).open)
    ensures var (t, e) := Feed(cap, s, c);
      Spec(cap, pre + [c]) == Spec(cap, pre) + Emitted(e) && Holds(cap, t, SplitLines(pre + [c]).open)
  {
    var p := SplitLines(pre);
    var done, so := ClosedEvents(cap, p.closed), SegmentEvents(cap, p.open, false);
    SplitStep(pre, c);
    Associates(done, so, Emitted(Feed(cap, s, c).1));
    if c == LF {
      FeedNewline(cap, s, p.open);
      ClosedStep(cap, p.closed, p.open);
      EmptySegment(cap);
    } else if c == CR {
      FeedReturn(cap, s, p.open);
    } else {
      FeedOther(cap, s, p.open, c);
    }
  }

  /** For every stream and capacity the assembler's events are the specified ones. */
  lemma {:induction false} EventsMatchSpec(cap: nat, bytes: seq<byte>)
    ensures Events(cap, START, bytes) == Spec(cap, bytes)
    ensures Holds(cap, Final(cap, START, bytes), SplitLines(bytes).open)
  {
    if bytes != [] {
      var pre, c := bytes[..|bytes| - 1], bytes[|bytes| - 1];
      assert bytes == pre + [c];
      EventsMatchSpec(cap, pre);
      RunExtend(cap, pre, c);
      SpecGains(cap, pre, c, Final(cap, START, pre));
    }
  }

  /** A new assembler fed a whole stream delivers exactly the specified events. */
  method FeedAll(cap: nat, bytes: seq<byte>) returns (es: seq<LineEvent>)
    ensures es == Spec(cap, bytes)
  {
    var assembler := new LineAssembler(cap);
    es := [];
    for i := 0 to |bytes|
      invariant assembler.cap == cap && fresh(assembler) && LineWidth(assembler.line) <= cap
      invariant assembler.S() == Final(cap, START, bytes[..i]) && es == Events(cap, START, bytes[..i])
    {
      var e := assembler.FeedByte(bytes[i]);
      RunExtend(cap, bytes[..i], bytes[i]);
      assert bytes[..i + 1] == bytes[..i] + [bytes[i]];
      es := es + Emitted(e);
    }
    assert bytes[..|bytes|] == bytes;
    EventsMatchSpec(cap, bytes);
  }

  /** The text is a whole segment, carriage returns aside, and fits. */
  ghost predicate IsWhole(cap: nat, segs: seq<seq<byte>>, text: seq<byte>) {
    0 < LineWidth(text) <= cap && exists i :: 0 <= i < |segs| && text == WithoutCr(segs[i])
  }

  lemma {:induction false} ClosedLinesAreWhole(cap: nat, segs: seq<seq<byte>>, e: LineEvent)
    requires e in ClosedEvents(cap, segs) && e.Line?
    ensures IsWhole(cap, segs, e.text)
  {
    var last := segs[|segs| - 1];
    if e in SegmentEvents(cap, last, true) {
      assert e.text == WithoutCr(segs[|segs| - 1]);
    } else {
      ClosedLinesAreWhole(cap, segs[..|segs| - 1], e);
    }
  }

  /** No part of an overlong line is ever delivered: every delivered line is a whole segment that fits. */
  lemma DeliveredLinesAreWhole(cap: nat, bytes: seq<byte>, e: LineEvent)
    requires e in Events(cap, START, bytes) && e.Line?
    ensures IsWhole(cap, SplitLines(bytes).closed, e.text)
  {
    var s := SplitLines(bytes);
    EventsMatchSpec(cap, bytes);
    assert e !in SegmentEvents(cap, s.open, false);
    ClosedLinesAreWhole(cap, s.closed, e);
  }
}
