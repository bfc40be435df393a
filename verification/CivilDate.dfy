/**
 The wall-clock text of the audit log: the civil date and time of an epoch value,
 computed by era arithmetic, against the Gregorian calendar stepped day by day.
 */
module CivilDate {

  datatype Date = Date(year: int, month: int, day: int)

  // The calendar.

  predicate Leap(year: int) {
    year % 4 == 0 && (year % 100 != 0 || year % 400 == 0)
  }

  function MonthLength(year: int, month: int): (n: int)
    requires 1 <= month <= 12
  {
    if month == 2 then (if Leap(year) then 29 else 28)
    else if month in {4, 6, 9, 11} then 30
    else 31
  }

  predicate ValidDate(d: Date) {
    1 <= d.month <= 12 && 1 <= d.day <= MonthLength(d.year, d.month)
  }

  /** The day after `d`. */
  function NextDay(d: Date): (r: Date)
    requires ValidDate(d)
    ensures ValidDate(r)
  {
    if d.day < MonthLength(d.year, d.month) then d.(day := d.day + 1)
    else if d.month < 12 then Date(d.year, d.month + 1, 1)
    else Date(d.year + 1, 1, 1)
  }

  /** `n` days after 1970-01-01, one day at a time. */
  function CalendarDate(n: nat): (d: Date)
    ensures ValidDate(d)
  {
    if n == 0 then Date(1970, 1, 1) else NextDay(CalendarDate(n - 1))
  }

  predicate Before(a: Date, b: Date) {
    a.year < b.year || (a.year == b.year && (a.month < b.month || (a.month == b.month && a.day < b.day)))
  }

  // The era arithmetic.

  function YearOfEra(doe: int): (yoe: int) {
    (doe - doe / 1460 + doe / 36524 - doe / 146096) / 365
  }

  /** Days of an era before its year `yoe`, years starting in March. */
  function YearStart(yoe: int): (n: int) {
    365 * yoe + yoe / 4 - yoe / 100
  }

  /** Days of a March-based year before its month `mp`. */
  function MonthStart(mp: int): (n: int) {
    (153 * mp + 2) / 5
  }

  /** Month and day of day `doy` of the March-based year `y`. */
  function CivilOfYear(y: int, doy: int): (d: Date) {
    var mp := (5 * doy + 2) / 153;
    var day := doy - MonthStart(mp) + 1;
    var month := if mp < 10 then mp + 3 else mp - 9;
    Date(if month <= 2 then y + 1 else y, month, day)
  }

  function Civil(days: int): (d: Date) {
    var z := days + 719468;
    var era, doe := z / 146097, z % 146097;
    var yoe := YearOfEra(doe);
    CivilOfYear(yoe + era * 400, doe - YearStart(yoe))
  }

  /** The March-based year `yoe` of an era ends with 29 February. */
  predicate LongYear(yoe: int) {
    yoe % 4 == 3 && (yoe % 100 != 99 || yoe == 399)
  }

  function YearLength(yoe: int): (n: int) {
    if LongYear(yoe) then 366 else 365
  }

  lemma YearParts(c: int, q: int, r: int)
    requires 0 <= c < 4 && 0 <= q < 25 && 0 <= r < 4
    ensures YearStart(100 * c + 4 * q + r) == 36524 * c + 1461 * q + 365 * r
    ensures LongYear(100 * c + 4 * q + r) <==> r == 3 && (q < 24 || c == 3)
  {
    var n := 100 * c + 4 * q + r;
    assert n / 4 == 25 * c + q && n / 100 == c && n % 4 == r && n % 100 == 4 * q + r;
  }

  lemma CenturyTerms(c: int, t: int)
    requires 0 <= c < 4 && 0 <= t && (t < 36524 || (c == 3 && t == 36524))
    ensures (36524 * c + t) / 36524 - (36524 * c + t) / 146096 == c
  {
  }

  lemma CycleTerm(c: int, q: int, v: int)
    requires 0 <= c < 4 && 0 <= q < 25 && 0 <= v <= 1460
    ensures (36524 * c + 1461 * q + v) / 1460 == 25 * c + q + if 24 * c + q + v < 1460 then 0 else 1
  {
    var u := 24 * c + q + v;
    assert 36524 * c + 1461 * q + v == 1460 * (25 * c + q) + u;
    assert u < 2 * 1460;
  }

  lemma YearOfEraInverts(c: int, q: int, r: int, doy: int)
    requires 0 <= c < 4 && 0 <= q < 25 && 0 <= r < 4
    requires 0 <= doy < YearLength(100 * c + 4 * q + r)
    ensures YearOfEra(36524 * c + 1461 * q + 365 * r + doy) == 100 * c + 4 * q + r
  {
    YearParts(c, q, r);
    CenturyTerms(c, 1461 * q + 365 * r + doy);
    CycleTerm(c, q, 365 * r + doy);
    var e := if 24 * c + q + 365 * r + doy < 1460 then 0 else 1;
    assert 0 <= doy - e < 365;
  }

  lemma YearOfEraUnique(yoe: int, doy: int)
    requires 0 <= yoe < 400 && 0 <= doy < YearLength(yoe)
    ensures YearOfEra(YearStart(yoe) + doy) == yoe
    ensures 0 <= YearStart(yoe) + doy < 146097
  {
    var c, q, r := yoe / 100, yoe % 100 / 4, yoe % 4;
    assert yoe == 100 * c + 4 * q + r;
    YearParts(c, q, r);
    YearOfEraInverts(c, q, r, doy);
  }

  /** Centuries, four-year cycles, years and days of a day of an era. */
  lemma EraParts(doe: int) returns (c: int, q: int, r: int, doy: int)
    requires 0 <= doe < 146097
    ensures 0 <= c < 4 && 0 <= q < 25 && 0 <= r < 4
    ensures 0 <= doy < YearLength(100 * c + 4 * q + r)
    ensures doe == 36524 * c + 1461 * q + 365 * r + doy
  {
    c := if doe == 146096 then 3 else doe / 36524;
    var t := doe - 36524 * c;
    q := t / 1461;
    var u := t - 1461 * q;
    r := if u == 1460 then 3 else u / 365;
    doy := u - 365 * r;
    YearParts(c, q, r);
  }

  /** Every day of an era lies in the year the formula names. */
  lemma YearOfEraBounds(doe: int)
    requires 0 <= doe < 146097
    ensures var yoe := YearOfEra(doe);
      0 <= yoe < 400 && YearStart(yoe) <= doe < YearStart(yoe) + YearLength(yoe)
  {
    var c, q, r, doy := EraParts(doe);
    YearParts(c, q, r);
    YearOfEraInverts(c, q, r, doy);
  }

  lemma YearStartNext(yoe: int)
    requires 0 <= yoe < 400
    ensures YearStart(yoe) + YearLength(yoe) == if yoe == 399 then 146097 else YearStart(yoe + 1)
  {
    var c, q, r := yoe / 100, yoe % 100 / 4, yoe % 4;
    assert yoe == 100 * c + 4 * q + r;
    YearParts(c, q, r);
    if r < 3 {
      YearParts(c, q, r + 1);
    } else if q < 24 {
      YearParts(c, q + 1, 0);
    } else if c < 3 {
      YearParts(c + 1, 0, 0);
    }
  }

  /** Day `days` is day `doy` of year `yoe` of era `era`. */
  predicate InYear(days: int, era: int, yoe: int, doy: int) {
    0 <= yoe < 400 && 0 <= doy < YearLength(yoe) && days + 719468 == 146097 * era + YearStart(yoe) + doy
  }

  lemma CivilAt(days: int, era: int, yoe: int, doy: int)
    requires InYear(days, era, yoe, doy)
    ensures Civil(days) == CivilOfYear(yoe + era * 400, doy)
  {
    YearOfEraUnique(yoe, doy);
    assert (days + 719468) / 146097 == era && (days + 719468) % 146097 == YearStart(yoe) + doy;
  }

  lemma RepeatsBy4(y: int, k: int)
    ensures (y + 4 * k) % 4 == y % 4
  {
    assert y + 4 * k == 4 * (y / 4 + k) + y % 4;
  }

  lemma RepeatsBy100(y: int, k: int)
    ensures (y + 100 * k) % 100 == y % 100
  {
    assert y + 100 * k == 100 * (y / 100 + k) + y % 100;
  }

  lemma RepeatsBy400(y: int, k: int)
    ensures (y + 400 * k) % 400 == y % 400
  {
    assert y + 400 * k == 400 * (y / 400 + k) + y % 400;
  }

  lemma LeapRepeats(y: int, era: int)
    ensures Leap(y + 400 * era) <==> Leap(y)
  {
    RepeatsBy4(y, 100 * era);
    RepeatsBy100(y, 4 * era);
    RepeatsBy400(y, era);
  }

  lemma NextBy4(y: int)
    ensures (y + 1) % 4 == 0 <==> y % 4 == 3
  {
  }

  lemma NextBy100(y: int)
    ensures (y + 1) % 100 == 0 <==> y % 100 == 99
  {
  }

  lemma LongYearEndsInLeap(yoe: int)
    requires 0 <= yoe < 400
    ensures LongYear(yoe) <==> Leap(yoe + 1)
  {
    NextBy4(yoe);
    NextBy100(yoe);
    assert yoe < 399 ==> (yoe + 1) % 400 == yoe + 1;
  }

  lemma LongYearIsLeap(era: int, yoe: int)
    requires 0 <= yoe < 400
    ensures LongYear(yoe) <==> Leap(yoe + era * 400 + 1)
  {
    LeapRepeats(yoe + 1, era);
    LongYearEndsInLeap(yoe);
  }

  /** The March-based month `mp` and its length, February (11) aside. */
  function MarchLength(mp: int): (n: int) {
    if mp in {1, 3, 6, 8} then 30 else 31
  }

  lemma MonthBounds(doy: int)
    requires 0 <= doy < 366
    ensures var mp := (5 * doy + 2) / 153;
      && 0 <= mp < 12 && MonthStart(mp) <= doy
      && (mp < 11 ==> doy < MonthStart(mp) + MarchLength(mp) == MonthStart(mp + 1))
  {
    var mp := (5 * doy + 2) / 153;
    assert mp == 0 || mp == 1 || mp == 2 || mp == 3 || mp == 4 || mp == 5
        || mp == 6 || mp == 7 || mp == 8 || mp == 9 || mp == 10 || mp == 11;
  }

  lemma NextMonth(doy: int)
    requires 0 <= doy < 365
    ensures var mp, next := (5 * doy + 2) / 153, (5 * (doy + 1) + 2) / 153;
      next == if mp < 11 && doy + 1 == MonthStart(mp + 1) then mp + 1 else mp
  {
    MonthBounds(doy);
    MonthBounds(doy + 1);
  }

  /** Within a March-based year, and at its end, the next day is the calendar's next day. */
  lemma DayOfYearStep(y: int, doy: int)
    requires 0 <= doy < if Leap(y + 1) then 366 else 365
    ensures ValidDate(CivilOfYear(y, doy))
    ensures NextDay(CivilOfYear(y, doy))
         == if doy + 1 < (if Leap(y + 1) then 366 else 365) then CivilOfYear(y, doy + 1) else CivilOfYear(y + 1, 0)
  {
    MonthBounds(doy);
    if doy < 365 {
      NextMonth(doy);
    }
  }

  lemma NextInYear(days: int, era: int, yoe: int, doy: int)
    requires InYear(days, era, yoe, doy)
    ensures doy + 1 < YearLength(yoe) ==> InYear(days + 1, era, yoe, doy + 1)
    ensures doy + 1 == YearLength(yoe) && yoe < 399 ==> InYear(days + 1, era, yoe + 1, 0)
    ensures doy + 1 == YearLength(yoe) && yoe == 399 ==> InYear(days + 1, era + 1, 0, 0)
  {
    YearStartNext(yoe);
  }

  /** The day after day `doy` of year `yoe`, given only that its date is read off its year. */
  lemma CivilStepAt(days: int, next: int, date: Date, era: int, yoe: int, doy: int)
    requires InYear(days, era, yoe, doy) && next == days + 1
    requires forall e, y, d :: InYear(next, e, y, d) ==> date == CivilOfYear(y + e * 400, d)
    ensures date
         == if doy + 1 < YearLength(yoe) then CivilOfYear(yoe + era * 400, doy + 1)
            else CivilOfYear(yoe + era * 400 + 1, 0)
  {
    NextInYear(days, era, yoe, doy);
  }

  lemma CivilParts(days: int) returns (era: int, yoe: int, doy: int)
    ensures InYear(days, era, yoe, doy)
  {
    var z := days + 719468;
    era := z / 146097;
    YearOfEraBounds(z % 146097);
    yoe := YearOfEra(z % 146097);
    doy := z % 146097 - YearStart(yoe);
  }

  lemma CivilNow(days: int, era: int, yoe: int, doy: int, now: Date, next: Date)
    requires 0 <= yoe < 400 && 0 <= doy < YearLength(yoe)
    requires now == CivilOfYear(yoe + era * 400, doy)
    requires next == if doy + 1 < YearLength(yoe) then CivilOfYear(yoe + era * 400, doy + 1)
                     else CivilOfYear(yoe + era * 400 + 1, 0)
    ensures ValidDate(now) && next == NextDay(now)
  {
    LongYearIsLeap(era, yoe);
    DayOfYearStep(yoe + era * 400, doy);
  }

  /** The era arithmetic moves one calendar day per day, in every era, past and future. */
  lemma CivilStep(days: int)
    ensures ValidDate(Civil(days))
    ensures Civil(days + 1) == NextDay(Civil(days))
  {
    var era, yoe, doy := CivilParts(days);
    CivilAt(days, era, yoe, doy);
    var next := days + 1;
    forall e, y, d | InYear(next, e, y, d)
      ensures Civil(next) == CivilOfYear(y + e * 400, d)
    {
      CivilAt(next, e, y, d);
    }
    CivilStepAt(days, next, Civil(next), era, yoe, doy);
    CivilNow(days, era, yoe, doy, Civil(days), Civil(days + 1));
  }

  ghost predicate Steps(f: int -> Date, n: int) {
    ValidDate(f(n)) && f(n + 1) == NextDay(f(n))
  }

  /** A day numbering that moves like the calendar. */
  ghost predicate Calendrical(f: int -> Date) {
    f(0) == Date(1970, 1, 1) && forall n: int :: Steps(f, n)
  }

  lemma CivilIsCalendrical()
    ensures Calendrical(Civil)
  {
    CivilAt(0, 4, 369, 306);
    forall n: int
      ensures Steps(Civil, n)
    {
      CivilStep(n);
    }
  }

  lemma {:induction false} MatchesCalendar(f: int -> Date, n: nat)
    requires Calendrical(f)
    ensures f(n) == CalendarDate(n)
  {
    if n > 0 {
      MatchesCalendar(f, n - 1);
      assert Steps(f, n - 1);
    }
  }

  lemma {:induction false} DatesMonotone(f: int -> Date, a: int, b: int)
    requires Calendrical(f) && a < b
    ensures Before(f(a), f(b))
    decreases b - a
  {
    assert Steps(f, b - 1);
    if a < b - 1 {
      DatesMonotone(f, a, b - 1);
    }
  }

  // The whole timestamp.

  datatype Fields = Fields(date: Date, hour: int, minute: int, second: int, milli: int)

  const TWO63: int := 0x8000_0000_0000_0000
  const TWO64: int := 0x1_0000_0000_0000_0000

  /** The wrapping cast to a signed 64-bit value. */
  function AsI64(n: nat): (r: int)
    ensures -TWO63 <= r < TWO63
  {
    var low := n % TWO64;
    if low < TWO63 then low else low - TWO64
  }

  function TimeOfDay(date: Date, secs: int, milli: int): (f: Fields) {
    Fields(date, secs / 3600, secs % 3600 / 60, secs % 60, milli)
  }

  function TimestampWith(civil: int -> Date, epochMs: nat): (f: Fields) {
    var secs := AsI64(epochMs / 1000);
    TimeOfDay(civil(secs / 86400), secs % 86400, epochMs % 1000)
  }

  function WallUtc(epochMs: nat): (f: Fields) {
    TimestampWith(Civil, epochMs)
  }

  /** The reference: step the calendar for the days, and split what is left of the last day. */
  function CalendarTime(epochMs: nat): (f: Fields) {
    TimeOfDay(CalendarDate(epochMs / 86_400_000), epochMs / 1000 % 86400, epochMs % 1000)
  }

  lemma WholeDays(ms: nat)
    ensures ms / 86_400_000 == ms / 1000 / 86400
  {
  }

  lemma WrappedIsEarlier(secs: nat)
    requires secs >= TWO63
    ensures AsI64(secs) / 86400 < secs / 86400
  {
    assert AsI64(secs) + 86400 < secs;
  }

  lemma TimestampMatchesCalendar(civil: int -> Date, epochMs: nat)
    requires Calendrical(civil)
    ensures TimestampWith(civil, epochMs) == CalendarTime(epochMs) <==> epochMs / 1000 < 0x8000_0000_0000_0000
  {
    var secs := epochMs / 1000;
    WholeDays(epochMs);
    MatchesCalendar(civil, secs / 86400);
    if secs < TWO63 {
      assert AsI64(secs) == secs;
    } else {
      WrappedIsEarlier(secs);
      DatesMonotone(civil, AsI64(secs) / 86400, secs / 86400);
    }
  }

  /** The computed timestamp is the calendar's exactly while the seconds fit a signed 64-bit value. */
  lemma WallUtcMatchesCalendar(epochMs: nat)
    ensures WallUtc(epochMs) == CalendarTime(epochMs) <==> epochMs / 1000 < 0x8000_0000_0000_0000
  {
    CivilIsCalendrical();
    TimestampMatchesCalendar(Civil, epochMs);
  }

  predicate InRange(f: Fields) {
    ValidDate(f.date) && 0 <= f.hour < 24 && 0 <= f.minute < 60 && 0 <= f.second < 60 && 0 <= f.milli < 1000
  }

  lemma FieldsInRange(epochMs: nat)
    ensures InRange(WallUtc(epochMs))
  {
    CivilStep(AsI64(epochMs / 1000) / 86400);
  }

  predicate Earlier(a: Fields, b: Fields) {
    || Before(a.date, b.date)
    || (a.date == b.date
        && (a.hour < b.hour || (a.hour == b.hour
            && (a.minute < b.minute || (a.minute == b.minute
                && (a.second < b.second || (a.second == b.second && a.milli < b.milli)))))))
  }

  lemma ClockMonotone(s1: int, s2: int)
    requires 0 <= s1 < s2 < 86400
    ensures s1 / 3600 < s2 / 3600 || (s1 / 3600 == s2 / 3600 && (s1 % 3600 / 60 < s2 % 3600 / 60
      || (s1 % 3600 / 60 == s2 % 3600 / 60 && s1 % 60 < s2 % 60)))
  {
    ClockParts(s1);
    ClockParts(s2);
    assert s1 / 60 < s2 / 60 || (s1 / 60 == s2 / 60 && s1 % 60 < s2 % 60);
  }

  lemma ClockParts(s: int)
    requires 0 <= s < 86400
    ensures s % 3600 / 60 == s / 60 % 60 && s / 3600 == s / 60 / 60
  {
  }

  lemma TimeOfDayMonotone(date: Date, s1: int, m1: int, s2: int, m2: int)
    requires 0 <= s1 < 86400 && 0 <= s2 < 86400 && 0 <= m1 < 1000 && 0 <= m2 < 1000
    requires s1 < s2 || (s1 == s2 && m1 < m2)
    ensures Earlier(TimeOfDay(date, s1, m1), TimeOfDay(date, s2, m2))
  {
    if s1 < s2 {
      ClockMonotone(s1, s2);
    }
  }

  lemma InstantSplits(a: nat, b: nat)
    requires a < b
    ensures var sa, sb := a / 1000, b / 1000;
      || sa / 86400 < sb / 86400
      || (sa / 86400 == sb / 86400 && (sa % 86400 < sb % 86400 || (sa % 86400 == sb % 86400 && a % 1000 < b % 1000)))
  {
    assert a / 1000 < b / 1000 || (a / 1000 == b / 1000 && a % 1000 < b % 1000);
  }

  lemma TimestampMonotone(civil: int -> Date, a: nat, b: nat)
    requires Calendrical(civil) && a < b && b / 1000 < 0x8000_0000_0000_0000
    ensures Earlier(TimestampWith(civil, a), TimestampWith(civil, b))
  {
    var sa, sb := a / 1000, b / 1000;
    InstantSplits(a, b);
    assert AsI64(sa) == sa && AsI64(sb) == sb;
    if sa / 86400 < sb / 86400 {
      DatesMonotone(civil, sa / 86400, sb / 86400);
    } else {
      TimeOfDayMonotone(civil(sa / 86400), sa % 86400, a % 1000, sb % 86400, b % 1000);
    }
  }

  lemma TimestampYear(civil: int -> Date, epochMs: nat)
    requires Calendrical(civil) && epochMs / 1000 < TWO63
    ensures TimestampWith(civil, epochMs).date.year >= 1970
  {
    var days := epochMs / 1000 / 86400;
    assert AsI64(epochMs / 1000) == epochMs / 1000;
    if days > 0 {
      DatesMonotone(civil, 0, days);
    }
  }

  /** Later instants have later timestamps, so the fields determine the instant. */
  lemma WallUtcMonotone(a: nat, b: nat)
    requires a < b && b / 1000 < 0x8000_0000_0000_0000
    ensures Earlier(WallUtc(a), WallUtc(b)) && WallUtc(a) != WallUtc(b)
  {
    CivilIsCalendrical();
    TimestampMonotone(Civil, a, b);
  }

  /** The first second that does not fit. */
  lemma WallUtcWraps()
    ensures WallUtc(1000 * 0x8000_0000_0000_0000) != CalendarTime(1000 * 0x8000_0000_0000_0000)
  {
    WallUtcMatchesCalendar(1000 * TWO63);
  }
}
