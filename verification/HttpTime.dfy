/** Gauss' formula in ngx_parse_time.c against counting days year by year and month by month. */
module HttpTime {

  /** A date and time as ngx_parse_http_time has read it; months from 0. */
  datatype Date = Date(year: nat, month: nat, day: nat, hour: nat, min: nat, sec: nat)

  // ---------------------------------------------------------------- the calendar

  predicate Leap(year: int) { year % 4 == 0 && (year % 100 != 0 || year % 400 == 0) }

  function MonthDays(year: int, month: nat): nat
    requires month < 12
  {
    if month == 1 then if Leap(year) then 29 else 28
    else if month == 3 || month == 5 || month == 8 || month == 10 then 30
    else 31
  }

  function YearDays(year: int): nat { if Leap(year) then 366 else 365 }

  /** Days from January 1, 1970 to January 1 of `year`, counted one year at a time. */
  function DaysToYear(year: int): int
    decreases if year < 1970 then 1970 - year else year - 1970
  {
    if year == 1970 then 0
    else if year > 1970 then DaysToYear(year - 1) + YearDays(year - 1)
    else DaysToYear(year + 1) - YearDays(year)
  }

  /** Days from January 1 to the first of `month`, counted one month at a time. */
  function DaysToMonth(year: int, month: nat): nat
    requires month < 12
  {
    if month == 0 then 0 else DaysToMonth(year, month - 1) + MonthDays(year, month - 1)
  }

  /** Seconds since 1970, by counting. */
  function Seconds(d: Date): int
    requires d.month < 12
  {
    (DaysToYear(d.year) + DaysToMonth(d.year, d.month) + d.day - 1) * 86400 + d.hour * 3600 + d.min * 60 + d.sec
  }

  predicate Valid(d: Date) {
    d.month < 12 && d.day <= MonthDays(d.year, d.month) && d.hour < 24 && d.min < 60 && d.sec < 60
  }

  // ---------------------------------------------------------------- the formula

  const TWO_64: int := 0x1_0000_0000_0000_0000
  const TWO_63: int := 0x8000_0000_0000_0000

  /** An ngx_uint_t holds numbers modulo 2^64. */
  function Unsigned(x: int): nat { x % TWO_64 }

  /** The conversion of an uint64_t to a time_t. */
  function Signed(x: nat): int { if x < TWO_63 then x else x - TWO_64 }

  /** The shift of the new year to March 1: the month from 1 to 12, and the year. */
  function Shifted(year: nat, month: nat): (nat, nat)
    requires month < 12
  {
    if month <= 1 then (Unsigned(year - 1), month + 11) else (year, month - 1)
  }

  /** Gauss' formula in unsigned arithmetic, as in lines 237 to 265. */
  function Gauss(d: Date): int
    requires d.month < 12
  {
    var (year, month) := Shifted(d.year, d.month);
    var days := Unsigned(365 * year + year / 4 - year / 100 + year / 400 + 367 * month / 12 - 30 + d.day - 1 - 719527 + 31 + 28);
    Signed(Unsigned(days * 86400 + d.hour * 3600 + d.min * 60 + d.sec))
  }

  /** The same over the integers, for a year already shifted. */
  function GaussDays(year: int, month: int, day: int): int {
    365 * year + year / 4 - year / 100 + year / 400 + 367 * month / 12 - 30 + day - 1 - 719527 + 31 + 28
  }

  // ---------------------------------------------------------------- the formula counts days

  /** Leap days up to the end of `year` of the Gregorian calendar. */
  function LeapDays(year: int): int { year / 4 - year / 100 + year / 400 }

  lemma LeapDaysStep(year: int)
    ensures LeapDays(year) - LeapDays(year - 1) == if Leap(year) then 1 else 0
  {
    DivStep(year, 4);
    DivStep(year, 100);
    DivStep(year, 400);
  }

  lemma DivStep(n: int, k: int)
    requires k > 0
    ensures n / k - (n - 1) / k == if n % k == 0 then 1 else 0
  {
    var q, r := n / k, n % k;
    assert n == k * q + r;
    if r == 0 {
      DivUnique(n - 1, k, q - 1, k - 1);
    } else {
      DivUnique(n - 1, k, q, r - 1);
    }
  }

  lemma DivUnique(n: int, k: int, q: int, r: int)
    requires k > 0 && n == k * q + r && 0 <= r < k
    ensures n / k == q
  {
    var d := n / k - q;
    assert k * d == r - n % k;
    MulBound(k, d);
  }

  lemma MulBound(k: int, d: int)
    requires k > 0
    ensures d >= 1 ==> k * d >= k
    ensures d <= -1 ==> k * d <= -k
  {
  }

  lemma {:induction false} DaysToYearClosed(year: int)
    ensures DaysToYear(year) == 365 * (year - 1970) + LeapDays(year - 1) - LeapDays(1969)
    decreases if year < 1970 then 1970 - year else year - 1970
  {
    if year > 1970 {
      DaysToYearClosed(year - 1);
      LeapDaysStep(year - 1);
    } else if year < 1970 {
      DaysToYearClosed(year + 1);
      LeapDaysStep(year);
    }
  }

  lemma {:induction false} MonthsClosed(year: int, month: nat)
    requires month < 12
    ensures DaysToMonth(year, month)
            == if month <= 1 then 31 * month else 367 * (month - 1) / 12 - 30 + 31 + (if Leap(year) then 29 else 28)
  {
    MonthsUnrolled(year);
  }

  lemma {:induction false} MonthsUnrolled(year: int)
    ensures var f := if Leap(year) then 29 else 28;
            DaysToMonth(year, 0) == 0 && DaysToMonth(year, 1) == 31 && DaysToMonth(year, 2) == 31 + f
            && DaysToMonth(year, 3) == 62 + f && DaysToMonth(year, 4) == 92 + f && DaysToMonth(year, 5) == 123 + f
            && DaysToMonth(year, 6) == 153 + f && DaysToMonth(year, 7) == 184 + f && DaysToMonth(year, 8) == 215 + f
            && DaysToMonth(year, 9) == 245 + f && DaysToMonth(year, 10) == 276 + f && DaysToMonth(year, 11) == 306 + f
  {
    assert DaysToMonth(year, 1) == 31;
    assert DaysToMonth(year, 3) == DaysToMonth(year, 2) + 31;
    assert DaysToMonth(year, 5) == DaysToMonth(year, 4) + 31;
    assert DaysToMonth(year, 7) == DaysToMonth(year, 6) + 31;
    assert DaysToMonth(year, 9) == DaysToMonth(year, 8) + 30;
  }

  /** Over the integers Gauss' formula counts days. */
  lemma {:induction false} GaussCountsDays(year: int, month: nat, day: int)
    requires month < 12
    ensures (if month <= 1 then GaussDays(year - 1, month + 11, day) else GaussDays(year, month - 1, day))
            == DaysToYear(year) + DaysToMonth(year, month) + day - 1
  {
    hide DaysToYear, DaysToMonth;
    DaysToYearClosed(year);
    LeapDaysStep(year);
    MonthsClosed(year, month);
  }

  lemma DaysBounded(d: Date)
    requires Valid(d) && d.year <= 9999
    ensures -719600 <= DaysToYear(d.year) + DaysToMonth(d.year, d.month) + d.day - 1 <= 3000000
  {
    DaysToYearClosed(d.year);
    MonthsUnrolled(d.year);
  }

  lemma WrapBack(x: int)
    requires -TWO_63 <= x < TWO_63
    ensures Signed(Unsigned(x)) == x
  {
    if x < 0 {
      ModIs(x, -1, x + TWO_64);
    } else {
      ModIs(x, 0, x);
    }
  }

  lemma ModIs(x: int, q: int, r: int)
    requires x == q * TWO_64 + r && 0 <= r < TWO_64
    ensures x % TWO_64 == r
  {
  }

  /** Wrapping before a product and a sum or after them makes no difference. */
  lemma WrapOnce(x: int, a: int, b: int)
    ensures Unsigned(Unsigned(x) * a + b) == Unsigned(x * a + b)
  {
    var q := x / TWO_64;
    assert x == TWO_64 * q + Unsigned(x);
    assert x * a + b == TWO_64 * (q * a) + (Unsigned(x) * a + b);
    ModShift(Unsigned(x) * a + b, q * a);
  }

  lemma ModShift(y: int, k: int)
    ensures (TWO_64 * k + y) % TWO_64 == y % TWO_64
  {
    var q, r := y / TWO_64, y % TWO_64;
    ModIs(TWO_64 * k + y, k + q, r);
  }

  /** How far off the formula is where the shifted year wraps around below zero. */
  function Error(d: Date): int {
    if d.year == 0 && d.month <= 1 then 10368 else 0
  }

  lemma ShiftedYear(d: Date)
    requires Valid(d) && d.year <= 9999
    ensures var (year, month) := Shifted(d.year, d.month);
            var days := GaussDays(year, month, d.day);
            Unsigned(days * 86400 + d.hour * 3600 + d.min * 60 + d.sec) == Unsigned(Seconds(d) + Error(d))
  {
    hide DaysToYear, DaysToMonth;
    GaussCountsDays(d.year, d.month, d.day);
    var days := DaysToYear(d.year) + DaysToMonth(d.year, d.month) + d.day - 1;
    if d.month <= 1 && d.year == 0 {
      WrappedYear(d);
    } else if d.month <= 1 {
      ModIs(d.year - 1, 0, d.year - 1);
    }
  }

  lemma WrappedYear(d: Date)
    requires Valid(d) && d.year == 0 && d.month <= 1
    ensures Unsigned(GaussDays(Unsigned(-1), d.month + 11, d.day) * 86400 + d.hour * 3600 + d.min * 60 + d.sec)
            == Unsigned(Seconds(d) + 10368)
  {
    hide DaysToYear, DaysToMonth;
    GaussCountsDays(0, d.month, d.day);
    ModIs(-1, -1, TWO_64 - 1);
    var k := (GaussDays(TWO_64 - 1, d.month + 11, d.day) - GaussDays(-1, d.month + 11, d.day)) * 86400 - 10368;
    assert k == TWO_64 * 31556952;
    ModShift(Seconds(d) + 10368, 31556952);
  }

  /** On every date that the parser lets through, the formula gives the seconds that counting
      gives, except in January and February of the year 0, where it is 10368 seconds ahead. */
  lemma GaussIsExact(d: Date)
    requires Valid(d) && d.year <= 9999
    ensures Gauss(d) == Seconds(d) + Error(d)
    ensures Gauss(d) == Seconds(d) <==> d.year > 0 || d.month > 1
  {
    hide DaysToYear, DaysToMonth;
    var (year, month) := Shifted(d.year, d.month);
    var days := GaussDays(year, month, d.day);
    WrapOnce(days, 86400, d.hour * 3600 + d.min * 60 + d.sec);
    ShiftedYear(d);
    DaysBounded(d);
    WrapBack(Seconds(d) + Error(d));
  }

  // ---------------------------------------------------------------- later dates are larger

  /** One date and time is before another. */
  predicate Earlier(a: Date, b: Date) {
    || a.year < b.year
    || (a.year == b.year && a.month < b.month)
    || (a.year == b.year && a.month == b.month && DaySeconds(a) < DaySeconds(b))
  }

  function DaySeconds(d: Date): nat { d.day * 86400 + d.hour * 3600 + d.min * 60 + d.sec }

  lemma {:induction false} MonthFits(year: int, a: nat, b: nat)
    requires a < b < 12
    ensures DaysToMonth(year, a) + MonthDays(year, a) <= DaysToMonth(year, b)
    decreases b
  {
    if a < b - 1 {
      MonthFits(year, a, b - 1);
    }
  }

  lemma {:induction false} MonthInYear(year: int, month: nat)
    requires month < 12
    ensures DaysToMonth(year, month) + MonthDays(year, month) <= YearDays(year)
  {
    MonthsUnrolled(year);
  }

  lemma {:induction false} YearFits(a: int, b: int)
    requires a < b
    ensures DaysToYear(a) + YearDays(a) <= DaysToYear(b)
    decreases b - a
  {
    if a < b - 1 {
      YearFits(a, b - 1);
    }
    YearStep(b - 1);
  }

  lemma YearStep(year: int)
    ensures DaysToYear(year + 1) == DaysToYear(year) + YearDays(year)
  {
  }

  function Clock(d: Date): nat { d.hour * 3600 + d.min * 60 + d.sec }

  function AtClock(d: Date, clock: nat): Date {
    d.(hour := clock / 3600, min := clock % 3600 / 60, sec := clock % 60)
  }

  lemma ClockThere(d: Date, clock: nat)
    requires clock < 86400
    ensures var e := AtClock(d, clock);
            && Clock(e) == clock && e.hour < 24 && e.min < 60 && e.sec < 60
            && e.year == d.year && e.month == d.month && e.day == d.day
  {
  }

  lemma ClockBelow(d: Date)
    requires Valid(d)
    ensures Clock(d) < 86400
  {
  }

  /** Because of the 10368 seconds the end of February 29 of the year 0 ... */
  predicate EndOfLeapDay(d: Date) { d.year == 0 && d.month == 1 && d.day == 29 && Clock(d) >= 86400 - 10368 }

  /** ... runs into the beginning of March 1. */
  predicate StartOfMarch(d: Date) { d.year == 0 && d.month == 2 && d.day == 1 && Clock(d) < 10368 }

  lemma {:induction false} LaterSeconds(a: Date, b: Date)
    requires Valid(a) && Valid(b) && a.day >= 1 && b.day >= 1 && Earlier(a, b)
    ensures Seconds(a) < Seconds(b)
  {
    hide DaysToYear, DaysToMonth;
    if a.year < b.year {
      YearFits(a.year, b.year);
      MonthInYear(a.year, a.month);
    } else if a.month < b.month {
      MonthFits(a.year, a.month, b.month);
    }
  }

  /** The end of January and February of the year 0. */
  lemma {:induction false} PastFebruary(d: Date)
    requires Valid(d) && d.day >= 1
    ensures var march := (DaysToYear(0) + 60) * 86400;
            && (Error(d) > 0 && !EndOfLeapDay(d) ==> Seconds(d) + 10368 < march)
            && (Error(d) > 0 ==> Seconds(d) < march)
            && (Error(d) == 0 ==> Seconds(d) >= march)
            && (Error(d) == 0 && !StartOfMarch(d) ==> Seconds(d) >= march + 10368)
  {
    hide DaysToYear, DaysToMonth;
    MonthsUnrolled(0);
    if d.year > 0 {
      YearFits(0, d.year);
    } else if d.month > 2 {
      MonthFits(0, 2, d.month);
    }
  }

  /** The number of seconds grows with the date, but for that one overlap. */
  lemma {:induction false} LaterIsLarger(a: Date, b: Date)
    requires Valid(a) && Valid(b) && a.day >= 1 && b.day >= 1 && a.year <= 9999 && b.year <= 9999
    requires Earlier(a, b) && !(EndOfLeapDay(a) && StartOfMarch(b))
    ensures Gauss(a) < Gauss(b)
  {
    hide Gauss, Seconds, EndOfLeapDay, StartOfMarch;
    GaussIsExact(a);
    GaussIsExact(b);
    LaterSeconds(a, b);
    PastFebruary(a);
    PastFebruary(b);
  }

  // ---------------------------------------------------------------- dates that are not told apart

  /** Another date, on a real day, has the same value. */
  ghost predicate Shared(d: Date)
    requires d.month < 12
  {
    exists e :: Valid(e) && e.year <= 9999 && e.day >= 1 && e != d && Gauss(e) == Gauss(d)
  }

  /** Day 0, or the overlap; before January 1 of the year 0 there is no date. */
  predicate Doubtful(d: Date) {
    (d.day == 0 && (d.year > 0 || d.month > 0)) || EndOfLeapDay(d) || StartOfMarch(d)
  }

  /** The other date. */
  function Twin(d: Date): Date
    requires Valid(d) && Doubtful(d)
  {
    if EndOfLeapDay(d) then AtClock(Date(0, 2, 1, 0, 0, 0), Clock(d) - (86400 - 10368))
    else if StartOfMarch(d) then AtClock(Date(0, 1, 29, 0, 0, 0), Clock(d) + (86400 - 10368))
    else if d.month == 0 then d.(year := d.year - 1, month := 11, day := 31)
    else if d.year > 0 || d.month != 2 then d.(month := d.month - 1, day := MonthDays(d.year, d.month - 1))
    else if Clock(d) >= 10368 then AtClock(Date(0, 1, 29, 0, 0, 0), Clock(d) - 10368)
    else AtClock(Date(0, 1, 28, 0, 0, 0), Clock(d) + (86400 - 10368))
  }

  lemma {:induction false} MonthBefore(d: Date)
    requires Valid(d) && d.day == 0 && d.month > 0
    ensures Seconds(d.(month := d.month - 1, day := MonthDays(d.year, d.month - 1))) == Seconds(d)
  {
    hide DaysToYear;
  }

  lemma {:induction false} YearBefore(d: Date)
    requires Valid(d) && d.day == 0 && d.month == 0 && d.year > 0
    ensures Seconds(d.(year := d.year - 1, month := 11, day := 31)) == Seconds(d)
  {
    hide DaysToYear, DaysToMonth;
    YearStep(d.year - 1);
    MonthsUnrolled(d.year - 1);
    MonthsUnrolled(d.year);
  }

  /** Seconds around the end of February of the year 0. */
  lemma {:induction false} AroundMarch(d: Date)
    requires d.year == 0 && 1 <= d.month <= 2
    ensures var march := (DaysToYear(0) + 60) * 86400;
            Seconds(d) == march + (if d.month == 1 then d.day - 30 else d.day - 1) * 86400 + Clock(d)
  {
    hide DaysToYear, DaysToMonth;
    MonthsUnrolled(0);
  }

  lemma {:induction false} TwinInOverlap(d: Date)
    requires Valid(d) && Doubtful(d) && d.year == 0 && 1 <= d.month <= 2
    requires d.day == 0 ==> d.month == 2
    ensures var e := Twin(d); Valid(e) && e.year == 0 && e.day >= 1 && e != d && Seconds(e) + Error(e) == Seconds(d) + Error(d)
  {
    hide DaysToYear, DaysToMonth, Seconds, Clock, AtClock;
    var e := Twin(d);
    ClockBelow(d);
    if EndOfLeapDay(d) {
      ClockThere(Date(0, 2, 1, 0, 0, 0), Clock(d) - (86400 - 10368));
    } else if StartOfMarch(d) {
      ClockThere(Date(0, 1, 29, 0, 0, 0), Clock(d) + (86400 - 10368));
    } else if Clock(d) >= 10368 {
      ClockThere(Date(0, 1, 29, 0, 0, 0), Clock(d) - 10368);
    } else {
      ClockThere(Date(0, 1, 28, 0, 0, 0), Clock(d) + (86400 - 10368));
    }
    AroundMarch(d);
    AroundMarch(e);
  }

  /** With day 0, which the parser accepts, the value is that of the day before, in every month. */
  lemma {:induction false} TwinShares(d: Date)
    requires Valid(d) && d.year <= 9999 && Doubtful(d)
    ensures var e := Twin(d); Valid(e) && e.year <= 9999 && e.day >= 1 && e != d && Gauss(e) == Gauss(d)
  {
    hide Gauss, DaysToYear, DaysToMonth, Seconds;
    if EndOfLeapDay(d) || StartOfMarch(d) || (d.year == 0 && d.month == 2) {
      TwinInOverlap(d);
    } else if d.month == 0 {
      YearBefore(d);
    } else {
      MonthBefore(d);
    }
    GaussIsExact(d);
    GaussIsExact(Twin(d));
  }

  /** A date shares its value with another one on a real day exactly if it says day 0, or lies in
      the overlap of the year 0. */
  lemma {:induction false} SharedIff(d: Date)
    requires Valid(d) && d.year <= 9999
    ensures Shared(d) <==> Doubtful(d)
  {
    hide Gauss;
    if Doubtful(d) {
      TwinShares(d);
      assert Gauss(Twin(d)) == Gauss(d);
    } else {
      forall e | Valid(e) && e.year <= 9999 && e.day >= 1 && e != d ensures Gauss(e) != Gauss(d) {
        NotShared(d, e);
      }
    }
  }

  lemma {:induction false} NotShared(d: Date, e: Date)
    requires Valid(d) && d.year <= 9999 && !Doubtful(d) && Valid(e) && e.year <= 9999 && e.day >= 1 && e != d
    ensures Gauss(e) != Gauss(d)
  {
    hide Gauss;
    if d.day == 0 {
      var first := Date(0, 0, 1, 0, 0, 0);
      GaussIsExact(d);
      GaussIsExact(first);
      if e != first {
        LaterIsLarger(first, e);
      }
    } else if Earlier(d, e) {
      LaterIsLarger(d, e);
    } else {
      SameClock(d, e);
      LaterIsLarger(e, d);
    }
  }

  /** Of two dates one is earlier, unless they are the same. */
  lemma SameClock(d: Date, e: Date)
    requires Valid(d) && Valid(e) && d != e && !Earlier(d, e)
    ensures Earlier(e, d)
  {
    hide MonthDays, DaySeconds;
    if d.year == e.year && d.month == e.month && DaySeconds(d) == DaySeconds(e) {
      SameSeconds(d, e);
    }
  }

  /** Of two times in a month the seconds tell which. */
  lemma SameSeconds(d: Date, e: Date)
    requires d.hour < 24 && d.min < 60 && d.sec < 60 && e.hour < 24 && e.min < 60 && e.sec < 60
    requires DaySeconds(d) == DaySeconds(e)
    ensures d.day == e.day && d.hour == e.hour && d.min == e.min && d.sec == e.sec
  {
    var clock, other := d.hour * 3600 + d.min * 60 + d.sec, e.hour * 3600 + e.min * 60 + e.sec;
    SameParts(86400, d.day, clock, e.day, other);
    SameParts(3600, d.hour, d.min * 60 + d.sec, e.hour, e.min * 60 + e.sec);
    SameParts(60, d.min, d.sec, e.min, e.sec);
  }

  lemma SameParts(k: nat, q: nat, r: nat, p: nat, s: nat)
    requires r < k && s < k && q * k + r == p * k + s
    ensures q == p && r == s
  {
    DivUnique(q * k + r, k, q, r);
    DivUnique(q * k + r, k, p, s);
  }
}
