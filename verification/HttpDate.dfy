/** The scanner of ngx_parse_http_time: three formats of HTTP dates, read in place. */
module HttpDate {
  import opened HttpTime

  datatype Option = None | Some(v: int)

  // ---------------------------------------------------------------- what a text says

  predicate IsDigit(c: char) { '0' <= c <= '9' }

  function Digit(c: char): nat
    requires IsDigit(c)
  {
    c as int - '0' as int
  }

  /** At i stands a number of two, or of four digits. */
  predicate TwoAt(s: string, i: nat, n: nat) {
    i + 2 <= |s| && IsDigit(s[i]) && IsDigit(s[i + 1]) && n == Digit(s[i]) * 10 + Digit(s[i + 1])
  }

  predicate FourAt(s: string, i: nat, n: nat) {
    i + 4 <= |s| && IsDigit(s[i]) && IsDigit(s[i + 1]) && IsDigit(s[i + 2]) && IsDigit(s[i + 3])
    && n == Digit(s[i]) * 1000 + Digit(s[i + 1]) * 100 + Digit(s[i + 2]) * 10 + Digit(s[i + 3])
  }

  predicate CharAt(s: string, i: nat, c: char) { i < |s| && s[i] == c }

  /** The month that three letters are taken for; only as many are looked at as are needed. */
  function MonthOf(a: char, b: char, c: char): Option {
    if a == 'J' then Some(if b == 'a' then 0 else if c == 'n' then 5 else 6)
    else if a == 'F' then Some(1)
    else if a == 'M' then Some(if c == 'r' then 2 else 4)
    else if a == 'A' then Some(if b == 'p' then 3 else 7)
    else if a == 'S' then Some(8)
    else if a == 'O' then Some(9)
    else if a == 'N' then Some(10)
    else if a == 'D' then Some(11)
    else None
  }

  predicate MonthAt(s: string, i: nat, month: nat) {
    i + 3 <= |s| && MonthOf(s[i], s[i + 1], s[i + 2]) == Some(month)
  }

  /** hh:mm:ss at i */
  predicate TimeAt(s: string, i: nat, d: Date) {
    TwoAt(s, i, d.hour) && CharAt(s, i + 2, ':') && TwoAt(s, i + 3, d.min) && CharAt(s, i + 5, ':') && TwoAt(s, i + 6, d.sec)
  }

  /** "10 Nov 2002 23:50:13" at i */
  predicate Rfc822At(s: string, i: nat, d: Date) {
    && TwoAt(s, i, d.day) && CharAt(s, i + 2, ' ') && MonthAt(s, i + 3, d.month) && CharAt(s, i + 6, ' ')
    && FourAt(s, i + 7, d.year) && CharAt(s, i + 11, ' ') && TimeAt(s, i + 12, d)
  }

  /** "10-Dec-02 23:50:13" at i */
  predicate Rfc850At(s: string, i: nat, d: Date) {
    && TwoAt(s, i, d.day) && CharAt(s, i + 2, '-') && MonthAt(s, i + 3, d.month) && CharAt(s, i + 6, '-')
    && TwoAt(s, i + 7, d.year % 100) && 1970 <= d.year < 2070 && CharAt(s, i + 9, ' ') && TimeAt(s, i + 10, d)
  }

  /** A day of one or two digits at i, up to j, and a space. */
  predicate DayAt(s: string, i: nat, day: nat, j: nat) {
    (TwoAt(s, i, day) && j == i + 2 && CharAt(s, j, ' '))
    || (i < |s| && IsDigit(s[i]) && day == Digit(s[i]) && j == i + 1 && CharAt(s, j, ' '))
  }

  /** "Dec 10 23:50:13 2002" or "Dec  1 23:50:13 2002" at i; any character may end the month. */
  predicate IsocAt(s: string, i: nat, d: Date, j: nat) {
    && i + 18 <= |s| && MonthAt(s, i, d.month) && DayAt(s, if s[i + 4] == ' ' then i + 5 else i + 4, d.day, j)
    && TimeAt(s, j + 1, d) && CharAt(s, j + 9, ' ') && FourAt(s, j + 10, d.year)
  }

  /** The place of the first comma or space. */
  function Mark(s: string): (m: nat)
    ensures m <= |s|
    ensures forall k :: 0 <= k < m ==> s[k] != ',' && s[k] != ' '
    ensures m < |s| ==> s[m] == ',' || s[m] == ' '
  {
    if s == "" || s[0] == ',' || s[0] == ' ' then 0 else Mark(s[1..]) + 1
  }

  /** The first place from i that holds no space. */
  function SkipSpaces(s: string, i: nat): (j: nat)
    requires i <= |s|
    ensures i <= j <= |s|
    decreases |s| - i
  {
    if i < |s| && s[i] == ' ' then SkipSpaces(s, i + 1) else i
  }

  /** The text says `d`. */
  predicate Says(s: string, d: Date) {
    var m := Mark(s);
    m < |s| &&
    var i := SkipSpaces(s, m + 1);
    if s[m] == ' ' then exists j :: i <= j <= i + 7 && IsocAt(s, i, d, j)
    else Rfc822At(s, i, d) || Rfc850At(s, i, d)
  }

  // ---------------------------------------------------------------- scanning

  method ReadTwo(s: string, p: nat) returns (r: Option)
    requires p + 2 <= |s|
    ensures r.None? ==> forall n :: !TwoAt(s, p, n)
    ensures r.Some? ==> 0 <= r.v <= 99 && TwoAt(s, p, r.v)
  {
    if s[p] < '0' || s[p] > '9' || s[p + 1] < '0' || s[p + 1] > '9' {
      return None;
    }
    return Some(Digit(s[p]) * 10 + Digit(s[p + 1]));
  }

  method ReadFour(s: string, p: nat) returns (r: Option)
    requires p + 4 <= |s|
    ensures r.None? ==> forall n :: !FourAt(s, p, n)
    ensures r.Some? ==> 0 <= r.v <= 9999 && FourAt(s, p, r.v)
  {
    if !IsDigit(s[p]) || !IsDigit(s[p + 1]) || !IsDigit(s[p + 2]) || !IsDigit(s[p + 3]) {
      return None;
    }
    return Some(Digit(s[p]) * 1000 + Digit(s[p + 1]) * 100 + Digit(s[p + 2]) * 10 + Digit(s[p + 3]));
  }

  method ReadMonth(s: string, p: nat) returns (r: Option)
    requires p + 3 <= |s|
    ensures r == MonthOf(s[p], s[p + 1], s[p + 2])
    ensures r.Some? ==> 0 <= r.v < 12
  {
    match s[p] {
      case 'J' => r := Some(if s[p + 1] == 'a' then 0 else if s[p + 2] == 'n' then 5 else 6);
      case 'F' => r := Some(1);
      case 'M' => r := Some(if s[p + 2] == 'r' then 2 else 4);
      case 'A' => r := Some(if s[p + 1] == 'p' then 3 else 7);
      case 'S' => r := Some(8);
      case 'O' => r := Some(9);
      case 'N' => r := Some(10);
      case 'D' => r := Some(11);
      case _ => r := None;
    }
  }

  /** The time of day; false if there is none at p. */
  method ReadTime(s: string, p: nat) returns (ok: bool, hour: nat, min: nat, sec: nat)
    requires p + 8 <= |s|
    ensures ok ==> hour <= 99 && min <= 99 && sec <= 99
    ensures forall d: Date :: TimeAt(s, p, d) <==> ok && d.hour == hour && d.min == min && d.sec == sec
  {
    ok, hour, min, sec := false, 0, 0, 0;
    var h := ReadTwo(s, p);
    if h.None? {
      return;
    }
    if s[p + 2] != ':' {
      return;
    }
    var m := ReadTwo(s, p + 3);
    if m.None? {
      return;
    }
    if s[p + 5] != ':' {
      return;
    }
    var t := ReadTwo(s, p + 6);
    if t.None? {
      return;
    }
    ok, hour, min, sec := true, h.v, m.v, t.v;
  }

  /** Behind the first comma or space and the spaces that follow; `isoc` if it was a space. */
  method SkipWeekday(s: string) returns (p: nat, isoc: bool)
    ensures var m := Mark(s);
            if m < |s| then p == SkipSpaces(s, m + 1) && isoc == (s[m] == ' ') else p == |s| + 1 && !isoc
  {
    isoc := false;
    p := 0;
    while p < |s|
      invariant p <= |s| && !isoc
      invariant forall k :: 0 <= k < p ==> s[k] != ',' && s[k] != ' '
    {
      if s[p] == ',' {
        break;
      }
      if s[p] == ' ' {
        isoc := true;
        break;
      }
      p := p + 1;
    }
    assert p == Mark(s);
    p := p + 1;
    while p < |s|
      invariant Mark(s) < |s| ==> Mark(s) < p <= |s| && SkipSpaces(s, p) == SkipSpaces(s, Mark(s) + 1)
      invariant Mark(s) == |s| ==> p == |s| + 1
    {
      if s[p] != ' ' {
        break;
      }
      p := p + 1;
    }
  }

  /** The checks at the end, and the formula. */
  method Evaluate(d: Date) returns (r: Option)
    requires d.month < 12
    ensures r == if Valid(d) then Some(Gauss(d)) else None
  {
    if d.hour > 23 || d.min > 59 || d.sec > 59 {
      return None;
    }
    var mday := [31, 28, 31, 30, 31, 30, 31, 31, 30, 31, 30, 31];
    if d.day == 29 && d.month == 1 {
      if d.year % 4 != 0 || (d.year % 100 == 0 && d.year % 400 != 0) {
        return None;
      }
    } else if d.day > mday[d.month] {
      return None;
    }
    return Some(Gauss(d));
  }

  /** "Nov 2002 23:50:13" after the day and a space. */
  method ReadRfc822(s: string, i: nat, day: nat) returns (r: Option, ghost d: Date)
    requires i + 20 <= |s| && TwoAt(s, i, day) && s[i + 2] == ' '
    ensures r.Some? ==> Rfc822At(s, i, d) && Valid(d) && r.v == Gauss(d)
    ensures r.None? ==> forall d' :: Rfc822At(s, i, d') ==> !Valid(d')
  {
    hide Valid, Gauss, TimeAt, TwoAt, FourAt, MonthOf;
    d := Date(0, 0, 0, 0, 0, 0);
    r := None;
    var month := ReadMonth(s, i + 3);
    if month.None? {
      return;
    }
    if s[i + 6] != ' ' {
      return;
    }
    var year := ReadFour(s, i + 7);
    if year.None? {
      return;
    }
    if s[i + 11] != ' ' {
      return;
    }
    var ok, hour, min, sec := ReadTime(s, i + 12);
    if !ok {
      return;
    }
    var date := Date(year.v, month.v, day, hour, min, sec);
    d := date;
    r := Evaluate(date);
    forall d' | Rfc822At(s, i, d') ensures d' == d {
      TwoIs(s, i, d'.day, day);
      FourIs(s, i + 7, d'.year, year.v);
    }
  }

  lemma TwoIs(s: string, i: nat, a: nat, b: nat)
    requires TwoAt(s, i, a) && TwoAt(s, i, b)
    ensures a == b
  {
  }

  lemma FourIs(s: string, i: nat, a: nat, b: nat)
    requires FourAt(s, i, a) && FourAt(s, i, b)
    ensures a == b
  {
  }

  /** "Dec-02 23:50:13" after the day and a dash. */
  method ReadRfc850(s: string, i: nat, day: nat) returns (r: Option, ghost d: Date)
    requires i + 18 <= |s| && TwoAt(s, i, day) && s[i + 2] == '-'
    ensures r.Some? ==> Rfc850At(s, i, d) && Valid(d) && r.v == Gauss(d)
    ensures r.None? ==> forall d' :: Rfc850At(s, i, d') ==> !Valid(d')
  {
    hide Valid, Gauss, TimeAt, TwoAt, FourAt, MonthOf;
    d := Date(0, 0, 0, 0, 0, 0);
    r := None;
    var month := ReadMonth(s, i + 3);
    if month.None? {
      return;
    }
    if s[i + 6] != '-' {
      return;
    }
    var yy := ReadTwo(s, i + 7);
    if yy.None? {
      return;
    }
    var year := yy.v + if yy.v < 70 then 2000 else 1900;
    if s[i + 9] != ' ' {
      return;
    }
    var ok, hour, min, sec := ReadTime(s, i + 10);
    if !ok {
      return;
    }
    var date := Date(year, month.v, day, hour, min, sec);
    d := date;
    r := Evaluate(date);
    forall d' | Rfc850At(s, i, d') ensures d' == d {
      TwoIs(s, i, d'.day, day);
      TwoIs(s, i + 7, d'.year % 100, yy.v);
    }
  }

  /** The day of asctime(), of one or two digits; false if there is none. */
  method ReadDay(s: string, i: nat) returns (ok: bool, day: nat, j: nat)
    requires i + 3 <= |s|
    ensures ok ==> i < j <= i + 2 && j < |s| && day <= 99
    ensures forall n, k :: DayAt(s, i, n, k) ==> ok && n == day && k == j
    ensures ok && s[j] == ' ' ==> DayAt(s, i, day, j)
  {
    ok, day, j := false, 0, i;
    if s[i] < '0' || s[i] > '9' {
      return;
    }
    day := Digit(s[i]);
    j := i + 1;
    if s[j] != ' ' {
      if s[j] < '0' || s[j] > '9' {
        return;
      }
      day := day * 10 + Digit(s[j]);
      j := j + 1;
    }
    ok := true;
  }

  /** "Dec 10 23:50:13 2002" */
  method ReadIsoc(s: string, i: nat) returns (r: Option, ghost d: Date)
    requires i + 18 <= |s|
    ensures r.Some? ==> (exists j :: i <= j <= i + 7 && IsocAt(s, i, d, j)) && Valid(d) && r.v == Gauss(d)
    ensures r.None? ==> forall d', j :: IsocAt(s, i, d', j) ==> !Valid(d')
  {
    hide Valid, Gauss, TimeAt, TwoAt, FourAt, MonthOf, DayAt;
    d := Date(0, 0, 0, 0, 0, 0);
    r := None;
    var month := ReadMonth(s, i);
    if month.None? {
      return;
    }
    var p := i + 4;
    if s[p] == ' ' {
      p := p + 1;
    }
    var found, day, j := ReadDay(s, p);
    if !found {
      return;
    }
    if |s| - j < 14 {
      TooShort(s, i, j);
      return;
    }
    if s[j] != ' ' {
      NoSpace(s, p, j);
      return;
    }
    var ok, hour, min, sec := ReadTime(s, j + 1);
    if !ok {
      return;
    }
    if s[j + 9] != ' ' {
      return;
    }
    var year := ReadFour(s, j + 10);
    if year.None? {
      return;
    }
    var date := Date(year.v, month.v, day, hour, min, sec);
    d := date;
    r := Evaluate(date);
    assert IsocAt(s, i, d, j);
    forall d', k | IsocAt(s, i, d', k) ensures d' == d {
      assert DayAt(s, p, d'.day, k);
      FourIs(s, j + 10, d'.year, year.v);
    }
  }

  lemma TooShort(s: string, i: nat, j: nat)
    requires |s| - j < 14
    ensures forall d' :: !IsocAt(s, i, d', j)
  {
  }

  lemma NoSpace(s: string, p: nat, j: nat)
    requires j < |s| && s[j] != ' '
    ensures forall n :: !DayAt(s, p, n, j)
  {
  }

  /** ngx_parse_http_time: it accepts the texts that say a valid date, and no others, and returns
      what the formula gives for that date.  No character outside the text is read. */
  method ParseHttpTime(s: string) returns (r: Option, ghost d: Date)
    ensures r.Some? ==> Says(s, d) && Valid(d) && r.v == Gauss(d)
    ensures r.None? ==> forall d' :: Says(s, d') ==> !Valid(d')
  {
    hide Valid, Gauss, TimeAt, TwoAt, FourAt, MonthAt, DayAt;
    d := Date(0, 0, 0, 0, 0, 0);
    r := None;
    var p, isoc := SkipWeekday(s);
    if |s| - p < 18 {
      ShortSaysNothing(s, p);
      return;
    }
    if isoc {
      r, d := ReadIsoc(s, p);
      return;
    }
    var day := ReadTwo(s, p);
    if day.None? {
      return;
    }
    if s[p + 2] == ' ' {
      if |s| - (p + 2) < 18 {
        ShortRfc822(s, p);
        return;
      }
      r, d := ReadRfc822(s, p, day.v);
    } else if s[p + 2] == '-' {
      r, d := ReadRfc850(s, p, day.v);
    }
  }

  lemma ShortRfc822(s: string, p: nat)
    requires |s| < p + 20
    ensures forall d :: !Rfc822At(s, p, d)
  {
  }

  lemma {:induction false} ShortSaysNothing(s: string, p: nat)
    requires var m := Mark(s); if m < |s| then p == SkipSpaces(s, m + 1) else p == |s| + 1
    requires |s| - p < 18
    ensures forall d :: !Says(s, d)
  {
  }

  /** A text says at most one date. */
  lemma SaysOne(s: string, a: Date, b: Date)
    requires Says(s, a) && Says(s, b)
    ensures a == b
  {
    hide TwoAt, FourAt, MonthOf, DayAt;
    var i := SkipSpaces(s, Mark(s) + 1);
    if s[Mark(s)] == ' ' {
      var j :| i <= j <= i + 7 && IsocAt(s, i, a, j);
      var k :| i <= k <= i + 7 && IsocAt(s, i, b, k);
      OneDay(s, if s[i + 4] == ' ' then i + 5 else i + 4, a.day, j, b.day, k);
      OneTime(s, j + 1, a, b);
      FourIs(s, j + 10, a.year, b.year);
    } else {
      TwoIs(s, i, a.day, b.day);
      if Rfc822At(s, i, a) {
        OneTime(s, i + 12, a, b);
        FourIs(s, i + 7, a.year, b.year);
      } else {
        OneTime(s, i + 10, a, b);
        TwoIs(s, i + 7, a.year % 100, b.year % 100);
      }
    }
  }

  lemma OneDay(s: string, i: nat, a: nat, j: nat, b: nat, k: nat)
    requires DayAt(s, i, a, j) && DayAt(s, i, b, k)
    ensures a == b && j == k
  {
  }

  lemma OneTime(s: string, i: nat, a: Date, b: Date)
    requires TimeAt(s, i, a) && TimeAt(s, i, b)
    ensures a.hour == b.hour && a.min == b.min && a.sec == b.sec
  {
  }

  // ---------------------------------------------------------------- dates as they are sent

  function C(n: nat): char
    requires n < 10
  {
    '0' + n as char
  }

  const MONTHS: seq<string> :=
    ["Jan", "Feb", "Mar", "Apr", "May", "Jun", "Jul", "Aug", "Sep", "Oct", "Nov", "Dec"]

  /** The date of section 7.1.1.1 of RFC 7231, behind the weekday and ", ". */
  function FixedDate(d: Date): string
    requires Valid(d) && d.year <= 9999
  {
    var m := MONTHS[d.month];
    [C(d.day / 10), C(d.day % 10), ' ', m[0], m[1], m[2], ' ',
     C(d.year / 1000), C(d.year / 100 % 10), C(d.year / 10 % 10), C(d.year % 10), ' ',
     C(d.hour / 10), C(d.hour % 10), ':', C(d.min / 10), C(d.min % 10), ':', C(d.sec / 10), C(d.sec % 10)]
  }

  lemma DigitOfC(n: nat)
    requires n < 10
    ensures IsDigit(C(n)) && Digit(C(n)) == n
  {
  }

  lemma TwoDigits(s: string, i: nat, n: nat)
    requires n <= 99 && i + 2 <= |s| && s[i] == C(n / 10) && s[i + 1] == C(n % 10)
    ensures TwoAt(s, i, n)
  {
    DigitOfC(n / 10);
    DigitOfC(n % 10);
  }

  lemma FourDigits(s: string, i: nat, n: nat)
    requires n <= 9999 && i + 4 <= |s| && s[i] == C(n / 1000) && s[i + 1] == C(n / 100 % 10)
    requires s[i + 2] == C(n / 10 % 10) && s[i + 3] == C(n % 10)
    ensures FourAt(s, i, n)
  {
    DigitOfC(n / 1000);
    DigitOfC(n / 100 % 10);
    DigitOfC(n / 10 % 10);
    DigitOfC(n % 10);
    FourSum(n);
  }

  lemma FourSum(n: nat)
    ensures n == n / 1000 * 1000 + n / 100 % 10 * 100 + n / 10 % 10 * 10 + n % 10
  {
    assert n / 10 / 10 == n / 100 && n / 100 / 10 == n / 1000;
  }

  /** Month names are taken for their months. */
  lemma MonthNames(m: nat)
    requires m < 12
    ensures MonthOf(MONTHS[m][0], MONTHS[m][1], MONTHS[m][2]) == Some(m)
  {
  }

  lemma FixedDateAt(s: string, i: nat, d: Date)
    requires Valid(d) && d.year <= 9999 && i + 20 <= |s| && s[i..i + 20] == FixedDate(d)
    ensures Rfc822At(s, i, d)
  {
    hide TwoAt, FourAt, MonthOf, C;
    var f := FixedDate(d);
    assert forall k :: 0 <= k < 20 ==> f[k] == s[i + k];
    TwoDigits(f, 0, d.day);
    MonthNames(d.month);
    FourDigits(f, 7, d.year);
    TwoDigits(f, 12, d.hour);
    TwoDigits(f, 15, d.min);
    TwoDigits(f, 18, d.sec);
    assert Rfc822At(f, 0, d);
    Shifted822(s, i, f, d);
  }

  lemma Shifted822(s: string, i: nat, f: string, d: Date)
    requires |f| == 20 && i + 20 <= |s| && Rfc822At(f, 0, d)
    requires forall k :: 0 <= k < 20 ==> f[k] == s[i + k]
    ensures Rfc822At(s, i, d)
  {
  }

  /** A date in the preferred format, with any weekday before it and anything behind it, says
      that date: so ngx_parse_http_time returns its seconds. */
  lemma FixedDateSays(weekday: string, d: Date, rest: string)
    requires Valid(d) && d.year <= 9999
    requires forall k :: 0 <= k < |weekday| ==> weekday[k] != ',' && weekday[k] != ' '
    ensures Says(weekday + ", " + FixedDate(d) + rest, d)
  {
    hide FixedDate, Rfc822At;
    var s := weekday + ", " + FixedDate(d) + rest;
    var n := |weekday|;
    assert s[n] == ',' && forall k :: 0 <= k < n ==> s[k] == weekday[k];
    assert Mark(s) == n;
    assert s[n + 1] == ' ';
    FixedLength(d);
    assert s[n + 2..n + 22] == FixedDate(d);
    assert s[n + 2] == FixedDate(d)[0];
    assert SkipSpaces(s, n + 1) == n + 2;
    FixedDateAt(s, n + 2, d);
  }

  lemma FixedLength(d: Date)
    requires Valid(d) && d.year <= 9999
    ensures |FixedDate(d)| == 20 && FixedDate(d)[0] != ' '
  {
    DigitOfC(d.day / 10);
  }

  /** The obsolete format of RFC 850 with its two digits for the year, behind the weekday and ", ". */
  function ShortDate(d: Date): string
    requires Valid(d)
  {
    var m := MONTHS[d.month];
    [C(d.day / 10), C(d.day % 10), '-', m[0], m[1], m[2], '-', C(d.year / 10 % 10), C(d.year % 10), ' ',
     C(d.hour / 10), C(d.hour % 10), ':', C(d.min / 10), C(d.min % 10), ':', C(d.sec / 10), C(d.sec % 10)]
  }

  lemma Shifted850(s: string, i: nat, f: string, d: Date)
    requires |f| == 18 && i + 18 <= |s| && Rfc850At(f, 0, d)
    requires forall k :: 0 <= k < 18 ==> f[k] == s[i + k]
    ensures Rfc850At(s, i, d)
  {
  }

  lemma LastDigits(n: nat)
    ensures n % 100 / 10 == n / 10 % 10 && n % 100 % 10 == n % 10
  {
    var q := n / 100;
    assert n == 100 * q + n % 100;
    assert n / 10 == 10 * q + n % 100 / 10;
  }

  lemma ShortDateAt(s: string, i: nat, d: Date)
    requires Valid(d) && 1970 <= d.year < 2070 && i + 18 <= |s| && s[i..i + 18] == ShortDate(d)
    ensures Rfc850At(s, i, d)
  {
    hide TwoAt, FourAt, MonthOf, C;
    var f := ShortDate(d);
    assert forall k :: 0 <= k < 18 ==> f[k] == s[i + k];
    TwoDigits(f, 0, d.day);
    MonthNames(d.month);
    LastDigits(d.year);
    TwoDigits(f, 7, d.year % 100);
    TwoDigits(f, 10, d.hour);
    TwoDigits(f, 13, d.min);
    TwoDigits(f, 16, d.sec);
    assert Rfc850At(f, 0, d);
    Shifted850(s, i, f, d);
  }

  /** With two digits the year is the one from 1970 to 2069 that ends in them. */
  lemma ShortDateSays(weekday: string, d: Date, rest: string)
    requires Valid(d) && 1970 <= d.year < 2070
    requires forall k :: 0 <= k < |weekday| ==> weekday[k] != ',' && weekday[k] != ' '
    ensures Says(weekday + ", " + ShortDate(d) + rest, d)
  {
    hide ShortDate, Rfc850At;
    var s := weekday + ", " + ShortDate(d) + rest;
    var n := |weekday|;
    assert s[n] == ',' && forall k :: 0 <= k < n ==> s[k] == weekday[k];
    assert Mark(s) == n;
    assert s[n + 1] == ' ';
    ShortLength(d);
    assert s[n + 2..n + 20] == ShortDate(d);
    assert s[n + 2] == ShortDate(d)[0];
    assert SkipSpaces(s, n + 1) == n + 2;
    ShortDateAt(s, n + 2, d);
  }

  lemma ShortLength(d: Date)
    requires Valid(d)
    ensures |ShortDate(d)| == 18 && ShortDate(d)[0] != ' '
  {
    DigitOfC(d.day / 10);
  }

  /** The format of asctime(), with a space in front of a day of one digit, behind the weekday and " ". */
  function AscDate(d: Date): string
    requires Valid(d) && d.year <= 9999
  {
    var m := MONTHS[d.month];
    [m[0], m[1], m[2], ' ', if d.day < 10 then ' ' else C(d.day / 10), C(d.day % 10), ' ',
     C(d.hour / 10), C(d.hour % 10), ':', C(d.min / 10), C(d.min % 10), ':', C(d.sec / 10), C(d.sec % 10), ' ',
     C(d.year / 1000), C(d.year / 100 % 10), C(d.year / 10 % 10), C(d.year % 10)]
  }

  lemma ShiftedAsc(s: string, i: nat, f: string, d: Date)
    requires |f| == 20 && i + 20 <= |s| && IsocAt(f, 0, d, 6)
    requires forall k :: 0 <= k < 20 ==> f[k] == s[i + k]
    ensures IsocAt(s, i, d, i + 6)
  {
  }

  lemma AscDay(f: string, day: nat)
    requires day <= 99 && |f| > 6 && f[4] == (if day < 10 then ' ' else C(day / 10)) && f[5] == C(day % 10) && f[6] == ' '
    ensures DayAt(f, if f[4] == ' ' then 5 else 4, day, 6)
  {
    DigitOfC(day % 10);
    if day >= 10 {
      DigitOfC(day / 10);
      TwoDigits(f, 4, day);
    }
  }

  lemma AscDateAt(s: string, i: nat, d: Date)
    requires Valid(d) && d.year <= 9999 && i + 20 <= |s| && s[i..i + 20] == AscDate(d)
    ensures IsocAt(s, i, d, i + 6)
  {
    hide TwoAt, FourAt, MonthOf, C, DayAt;
    var f := AscDate(d);
    assert forall k :: 0 <= k < 20 ==> f[k] == s[i + k];
    MonthNames(d.month);
    TwoDigits(f, 7, d.hour);
    TwoDigits(f, 10, d.min);
    TwoDigits(f, 13, d.sec);
    FourDigits(f, 16, d.year);
    AscDay(f, d.day);
    assert IsocAt(f, 0, d, 6);
    ShiftedAsc(s, i, f, d);
  }

  lemma AscDateSays(weekday: string, d: Date, rest: string)
    requires Valid(d) && d.year <= 9999
    requires forall k :: 0 <= k < |weekday| ==> weekday[k] != ',' && weekday[k] != ' '
    ensures Says(weekday + " " + AscDate(d) + rest, d)
  {
    hide AscDate, IsocAt;
    var s := weekday + " " + AscDate(d) + rest;
    var n := |weekday|;
    assert s[n] == ' ' && forall k :: 0 <= k < n ==> s[k] == weekday[k];
    assert Mark(s) == n;
    AscLength(d);
    assert s[n + 1..n + 21] == AscDate(d);
    assert s[n + 1] == AscDate(d)[0];
    assert SkipSpaces(s, n + 1) == n + 1;
    AscDateAt(s, n + 1, d);
  }

  lemma AscLength(d: Date)
    requires Valid(d) && d.year <= 9999
    ensures |AscDate(d)| == 20 && AscDate(d)[0] != ' '
  {
  }
}
