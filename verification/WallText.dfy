/** The RFC 3339 text of a wall-clock timestamp (section 5.6 of RFC 3339). */
module WallText {
  import opened CivilDate

  function Digit(d: int): (c: char)
    requires 0 <= d < 10
  {
    "0123456789"[d]
  }

  function Digits(n: nat): (s: string)
    ensures |s| >= 1
  {
    if n < 10 then [Digit(n)] else Digits(n / 10) + [Digit(n % 10)]
  }

  function ZeroDigits(n: nat): (s: string)
    ensures |s| == n
  {
    if n == 0 then "" else "0" + ZeroDigits(n - 1)
  }

  function Pad(n: nat, width: nat): (s: string)
    ensures |s| >= width
  {
    var d := Digits(n);
    if |d| < width then ZeroDigits(width - |d|) + d else d
  }

  function Signed(n: int, width: nat): (s: string)
    requires width > 0
  {
    if n < 0 then "-" + Pad(-n, width - 1) else Pad(n, width)
  }

  datatype Parts = Parts(year: string, month: string, day: string, hour: string, minute: string, second: string,
                         milli: string)

  function Rendered(f: Fields): (p: Parts)
    requires InRange(f)
  {
    Parts(Signed(f.date.year, 4), Pad(f.date.month, 2), Pad(f.date.day, 2),
          Pad(f.hour, 2), Pad(f.minute, 2), Pad(f.second, 2), Pad(f.milli, 3))
  }

  function Assembled(p: Parts): (s: string) {
    p.year + "-" + p.month + "-" + p.day + "T" + p.hour + ":" + p.minute + ":" + p.second + "." + p.milli + "Z"
  }

  function Text(f: Fields): (s: string)
    requires InRange(f)
  {
    Assembled(Rendered(f))
  }

  function WallText(epochMs: nat): (s: string) {
    FieldsInRange(epochMs);
    Text(WallUtc(epochMs))
  }

  function DigitValue(c: char): (d: int) {
    c as int - '0' as int
  }

  function Value(s: string): (n: int) {
    if s == "" then 0 else 10 * Value(s[..|s| - 1]) + DigitValue(s[|s| - 1])
  }

  lemma {:induction false} ValueOfDigits(n: nat)
    ensures Value(Digits(n)) == n
    ensures forall i :: 0 <= i < |Digits(n)| ==> '0' <= Digits(n)[i] <= '9'
  {
    if n < 10 {
      assert Value([Digit(n)][..0]) == 0;
    } else {
      var d := Digits(n);
      assert d[..|d| - 1] == Digits(n / 10);
      ValueOfDigits(n / 10);
    }
  }

  lemma {:induction false} ValueOfZeros(k: nat)
    ensures Value(ZeroDigits(k)) == 0
  {
    if k > 0 {
      ValueOfZeros(k - 1);
      LeadingZero(ZeroDigits(k - 1));
    }
  }

  lemma {:induction false} LeadingZero(s: string)
    ensures Value("0" + s) == Value(s)
  {
    var t := "0" + s;
    if s == "" {
      assert t[..0] == "";
    } else {
      assert t[..|t| - 1] == "0" + s[..|s| - 1];
      LeadingZero(s[..|s| - 1]);
    }
  }

  lemma {:induction false} ValuePadded(k: nat, s: string)
    ensures Value(ZeroDigits(k) + s) == Value(s)
  {
    if k == 0 {
      assert ZeroDigits(0) + s == s;
    } else {
      assert ZeroDigits(k) + s == "0" + (ZeroDigits(k - 1) + s);
      LeadingZero(ZeroDigits(k - 1) + s);
      ValuePadded(k - 1, s);
    }
  }

  lemma ValueOfPad(n: nat, width: nat)
    ensures Value(Pad(n, width)) == n
  {
    ValueOfDigits(n);
    var d := Digits(n);
    if |d| < width {
      ValuePadded(width - |d|, d);
    }
  }

  lemma PadWidth(n: nat, width: nat)
    requires width in {2, 3, 4}
    ensures |Pad(n, width)| == width <==> n < (if width == 2 then 100 else if width == 3 then 1000 else 10000)
  {
    assert |Digits(n)| == 1 <==> n < 10;
    assert |Digits(n)| <= 2 <==> n < 100;
    if n >= 100 {
      assert |Digits(n / 10)| <= 2 <==> n / 10 < 100;
      if n >= 1000 {
        assert |Digits(n / 100)| <= 2 <==> n / 100 < 100;
      }
    }
  }

  predicate FixedWidths(p: Parts) {
    |p.month| == |p.day| == |p.hour| == |p.minute| == |p.second| == 2 && |p.milli| == 3
  }

  lemma AssembledSlices(p: Parts)
    requires FixedWidths(p)
    ensures var t, y := Assembled(p), |p.year|;
      && |t| == y + 20
      && p == Parts(t[..y], t[y + 1..y + 3], t[y + 4..y + 6], t[y + 7..y + 9], t[y + 10..y + 12], t[y + 13..y + 15],
                    t[y + 16..y + 19])
  {
    var t, y := Assembled(p), |p.year|;
    assert t[..y] == p.year && t[y + 1..y + 3] == p.month && t[y + 4..y + 6] == p.day;
    assert t[y + 7..y + 9] == p.hour && t[y + 10..y + 12] == p.minute;
    assert t[y + 13..y + 15] == p.second && t[y + 16..y + 19] == p.milli;
  }

  lemma AssembledInjective(p: Parts, q: Parts)
    requires FixedWidths(p) && FixedWidths(q) && Assembled(p) == Assembled(q)
    ensures p == q
  {
    AssembledSlices(p);
    AssembledSlices(q);
  }

  lemma RenderedWidths(f: Fields)
    requires InRange(f) && f.date.year >= 0
    ensures FixedWidths(Rendered(f)) && (|Rendered(f).year| == 4 <==> f.date.year <= 9999)
  {
    PadWidth(f.date.year, 4);
    PadWidth(f.date.month, 2);
    PadWidth(f.date.day, 2);
    PadWidth(f.hour, 2);
    PadWidth(f.minute, 2);
    PadWidth(f.second, 2);
    PadWidth(f.milli, 3);
  }

  function ReadBack(p: Parts): (f: Fields) {
    Fields(Date(Value(p.year), Value(p.month), Value(p.day)), Value(p.hour), Value(p.minute), Value(p.second),
           Value(p.milli))
  }

  lemma RenderedReadsBack(f: Fields)
    requires InRange(f) && f.date.year >= 0
    ensures ReadBack(Rendered(f)) == f
  {
    ValueOfPad(f.date.year, 4);
    ValueOfPad(f.date.month, 2);
    ValueOfPad(f.date.day, 2);
    ValueOfPad(f.hour, 2);
    ValueOfPad(f.minute, 2);
    ValueOfPad(f.second, 2);
    ValueOfPad(f.milli, 3);
  }

  lemma TextInjective(f: Fields, g: Fields)
    requires InRange(f) && InRange(g) && f.date.year >= 0 && g.date.year >= 0
    ensures Text(f) == Text(g) <==> f == g
    ensures |Text(f)| == 24 <==> f.date.year <= 9999
  {
    var p, q := Rendered(f), Rendered(g);
    RenderedWidths(f);
    RenderedWidths(g);
    AssembledSlices(p);
    if Assembled(p) == Assembled(q) {
      AssembledInjective(p, q);
      RenderedReadsBack(f);
      RenderedReadsBack(g);
    }
  }

  lemma TimestampText(a: nat)
    requires a / 1000 < TWO63
    ensures InRange(WallUtc(a)) && WallUtc(a).date.year >= 0
  {
    FieldsInRange(a);
    CivilIsCalendrical();
    TimestampYear(Civil, a);
  }

  /** The text of the wall clock determines the millisecond, and has the RFC 3339 width through year 9999. */
  lemma TextDeterminesInstant(a: nat, b: nat)
    requires a / 1000 < TWO63 && b / 1000 < TWO63
    ensures WallText(a) == WallText(b) <==> a == b
    ensures |WallText(a)| == 24 <==> WallUtc(a).date.year <= 9999
  {
    TimestampText(a);
    TimestampText(b);
    TextInjective(WallUtc(a), WallUtc(b));
    if a < b {
      WallUtcMonotone(a, b);
    } else if b < a {
      WallUtcMonotone(b, a);
    }
  }
}
