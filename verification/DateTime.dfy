/** Calendar dates and Julian day numbers: floor-division arithmetic without loops or tables. */
module DateTime {
  import opened Division

  const INT_MIN := -0x8000_0000
  const INT_MAX := 0x7FFF_FFFF
  const DATE_JD_INVALID := INT_MIN

  /* ---- Division ---- */

  // The / and % of C++ round toward zero.
  function Quot(a: int, b: int): int
    requires b != 0
  {
    if a >= 0 then a / b else -(-a / b)
  }

  function Rem(a: int, b: int): int
    requires b != 0
  {
    if a >= 0 then a % b else -(-a % b)
  }

  function FloorDiv(a: int, b: int): int
    requires b != 0
  {
    if b < 0 && a < 0 then Quot(a, b)
    else
      var (n, d) := if b < 0 then (-a, -b) else (a, b);
      Quot(n - (if n < 0 then d - 1 else 0), d)
  }

  lemma NegativeDivisor(a: int, b: int)
    requires a >= 0 && b > 0
    ensures a / -b == -(a / b)
  {
    var p := a / -b;
    assert a == p * -b + a % -b;
    assert p * -b == -p * b;
    QuotientUnique(a, b, -p);
  }

  lemma FloorDivPositive(a: int, b: int)
    requires b > 0
    ensures FloorDiv(a, b) == a / b
    ensures a / b * b <= a < a / b * b + b
  {
    var q := a / b;
    assert a == q * b + a % b;
    if a < 0 {
      assert -q * b == -(q * b);
      QuotientUnique(b - 1 - a, b, -q);
    }
  }

  lemma FloorDivNegated(a: int, b: int)
    requires b < 0
    ensures FloorDiv(a, b) == FloorDiv(-a, -b)
  {
    if a < 0 {
      NegativeDivisor(-a, -b);
      var c := -b;
      assert -c == b;
    }
  }

  // Rounding is toward minus infinity for every sign of either operand.
  lemma FloorDivIsFloor(a: int, b: int)
    requires b != 0
    ensures var q := FloorDiv(a, b);
      if b > 0 then q * b <= a < q * b + b else q * b + b < a <= q * b
  {
    hide FloorDiv;
    if b > 0 {
      FloorDivPositive(a, b);
    } else {
      FloorDivNegated(a, b);
      FloorDivPositive(-a, -b);
      Negated(FloorDiv(a, b), b);
    }
  }

  lemma Negated(q: int, b: int)
    ensures q * -b == -(q * b)
  {
  }

  /* ---- The calendar ---- */

  // There is no year 0: the year before 1 is -1.
  datatype Ymd = Ymd(year: int, month: int, day: int)

  predicate IsLeapYear(year: int) {
    var y := if year < 1 then year + 1 else year;
    (Rem(y, 4) == 0 && Rem(y, 100) != 0) || Rem(y, 400) == 0
  }

  function DaysInMonth(month: int): int {
    var days := [0, 31, 28, 31, 30, 31, 30, 31, 31, 30, 31, 30, 31];
    days[if month < 1 || month > 12 then 0 else month]
  }

  predicate IsValid(date: Ymd) {
    date.year != 0 && date.day >= 1
    && (date.day <= DaysInMonth(date.month) || (date.day == 29 && date.month == 2 && IsLeapYear(date.year)))
  }

  function DaysInYear(year: int): int {
    if IsLeapYear(year) then 366 else 365
  }

  function YmdToJd(date: Ymd): int {
    var year := if date.year < 0 then date.year + 1 else date.year;
    var a := FloorDiv(14 - date.month, 12);
    var y := year + 4800 - a;
    var m := date.month + 12 * a - 3;
    date.day + FloorDiv(153 * m + 2, 5) + 365 * y + FloorDiv(y, 4) - FloorDiv(y, 100) + FloorDiv(y, 400) - 32045
  }

  function JdToYmd(jd: int): Ymd {
    var a := jd + 32044;
    var b := FloorDiv(4 * a + 3, 146097);
    var c := a - FloorDiv(146097 * b, 4);
    var d := FloorDiv(4 * c + 3, 1461);
    var e := c - FloorDiv(1461 * d, 4);
    var m := FloorDiv(5 * e + 2, 153);
    var day := e - FloorDiv(153 * m + 2, 5) + 1;
    var month := m + 3 - 12 * FloorDiv(m, 10);
    var year := 100 * b + d - 4800 + FloorDiv(m, 10);
    Ymd(if year <= 0 then year - 1 else year, month, day)
  }

  /* ---- Days counted from 1 March of a year that starts in March ---- */

  // Days before year y, and before month m (March is 0) of a year.
  function YearDays(y: int): int {
    365 * y + y / 4 - y / 100 + y / 400
  }

  function MonthDays(m: int): int {
    (153 * m + 2) / 5
  }

  // The year and month of a date when years start in March 4801 BC.
  function MarchYear(date: Ymd): int {
    (if date.year < 0 then date.year + 1 else date.year) + 4800 - (if date.month <= 2 then 1 else 0)
  }

  function MarchMonth(date: Ymd): int {
    if date.month <= 2 then date.month + 9 else date.month - 3
  }

  // A February 29 ends the March year y.
  predicate LongYear(y: int) {
    (y + 1) % 4 == 0 && ((y + 1) % 100 != 0 || (y + 1) % 400 == 0)
  }

  lemma ValidMonth(date: Ymd)
    requires IsValid(date)
    ensures 1 <= date.month <= 12 && 1 <= date.day <= 31
  {
  }

  lemma MarchForm(date: Ymd)
    requires 1 <= date.month <= 12
    ensures YmdToJd(date) == date.day + MonthDays(MarchMonth(date)) + YearDays(MarchYear(date)) - 32045
  {
    hide FloorDiv;
    FloorDivPositive(14 - date.month, 12);
    var y, m := MarchYear(date), MarchMonth(date);
    FloorDivPositive(153 * m + 2, 5);
    FloorDivPositive(y, 4);
    FloorDivPositive(y, 100);
    FloorDivPositive(y, 400);
  }

  // The day of a March year that day a falls on, by century, year and month.
  lemma CenturySplit(b: int, c: int)
    requires 0 <= c <= 36524 && (c == 36524 ==> b % 4 == 3)
    ensures (4 * (146097 * b / 4 + c) + 3) / 146097 == b
  {
    CenturyDays(b);
    assert 4 * (146097 * b / 4 + c) + 3 == 146097 * b + (4 * c + 3 - b % 4);
    QuotientUnique(4 * (146097 * b / 4 + c) + 3, 146097, b);
  }

  lemma CenturyOf(a: int)
    ensures var b := (4 * a + 3) / 146097; var c := a - 146097 * b / 4;
      0 <= c <= 36524 && (c == 36524 ==> b % 4 == 3)
  {
    var b := (4 * a + 3) / 146097;
    CenturyDays(b);
  }

  // Of four centuries the last one is a day longer.
  lemma CenturyDays(b: int)
    ensures 146097 * b / 4 == 36524 * b + b / 4
  {
  }

  lemma YearsInCentury(b: int, d: int)
    requires 0 <= d < 100
    ensures (100 * b + d) / 100 == b && (100 * b + d) / 4 == 25 * b + d / 4
  {
  }

  lemma YearsInCenturies(b: int, d: int)
    requires 0 <= d < 100
    ensures (100 * b + d) / 400 == b / 4
  {
    var k, r := b / 4, b % 4;
    assert 100 * b + d == 400 * k + (100 * r + d);
  }

  lemma LongYears(b: int, d: int)
    requires 0 <= d < 100
    ensures LongYear(100 * b + d) <==> d % 4 == 3 && (d == 99 ==> b % 4 == 3)
  {
    var y := 100 * b + d + 1;
    RemainderUnique(y, 4, 25 * b + (d + 1) / 4, (d + 1) % 4);
    if d < 99 {
      RemainderUnique(y, 100, b, d + 1);
    } else {
      var k, r := (b + 1) / 4, (b + 1) % 4;
      RemainderUnique(y, 100, b + 1, 0);
      RemainderUnique(y, 400, k, 100 * r);
    }
  }

  lemma YearSplit(d: int, e: int)
    requires 0 <= d < 100 && 0 <= e <= 365 && (e == 365 ==> d % 4 == 3)
    ensures (4 * (1461 * d / 4 + e) + 3) / 1461 == d
  {
  }

  lemma YearOf(c: int)
    requires 0 <= c <= 36524
    ensures var d := (4 * c + 3) / 1461; var e := c - 1461 * d / 4;
      0 <= d < 100 && 0 <= e <= 365 && (e == 365 ==> d % 4 == 3) && (d == 99 && e == 365 ==> c == 36524)
  {
  }

  lemma MonthSplit(m: int, k: int)
    requires 0 <= m <= 11 && 0 <= k < MonthDays(m + 1) - MonthDays(m)
    ensures (5 * (MonthDays(m) + k) + 2) / 153 == m
  {
  }

  lemma MonthOf(e: int)
    requires 0 <= e <= 365
    ensures var m := (5 * e + 2) / 153;
      0 <= m <= 11 && MonthDays(m) <= e < MonthDays(m + 1)
  {
  }

  lemma CenturyYear(b: int, d: int)
    requires 0 <= d < 100
    ensures YearDays(100 * b + d) == 146097 * b / 4 + 1461 * d / 4 == 36524 * b + b / 4 + 365 * d + d / 4
    ensures LongYear(100 * b + d) <==> d % 4 == 3 && (d == 99 ==> b % 4 == 3)
  {
    hide LongYear;
    CenturyDays(b);
    YearsInCentury(b, d);
    YearsInCenturies(b, d);
    LongYears(b, d);
    assert 1461 * d / 4 == 365 * d + d / 4;
  }

  /* ---- Both directions ---- */

  // Day k of month m of the March year y.
  predicate MarchDay(y: int, m: int, k: int) {
    && 0 <= m <= 11 && 0 <= k < MonthDays(m + 1) - MonthDays(m)
    && MonthDays(m) + k <= 365 && (MonthDays(m) + k == 365 ==> LongYear(y))
  }

  function FromMarch(y: int, m: int, k: int): Ymd {
    var year := y - 4800 + m / 10;
    Ymd(if year <= 0 then year - 1 else year, m + 3 - 12 * (m / 10), k + 1)
  }

  lemma RemZero(y: int)
    ensures Rem(y, 4) == 0 <==> y % 4 == 0
    ensures Rem(y, 100) == 0 <==> y % 100 == 0
    ensures Rem(y, 400) == 0 <==> y % 400 == 0
  {
    hide Rem;
    RemZeroBy(y, 4);
    RemZeroBy(y, 100);
    RemZeroBy(y, 400);
  }

  lemma RemZeroBy(y: int, b: int)
    requires b > 0
    ensures Rem(y, b) == 0 <==> y % b == 0
  {
    var q, r := y / b, y % b;
    assert -q * b == -(q * b);
    if r == 0 {
      RemainderUnique(-y, b, -q, 0);
    } else {
      assert (-q - 1) * b == -q * b - b;
      RemainderUnique(-y, b, -q - 1, b - r);
    }
  }

  // 4800 is a whole number of the calendar's 400-year cycles.
  lemma SameInCycle(y: int)
    ensures (y + 4800) % 400 == y % 400
    ensures (y + 4800) % 100 == y % 100
    ensures (y + 4800) % 4 == y % 4
  {
    RemainderUnique(y + 4800, 400, y / 400 + 12, y % 400);
    RemainderUnique(y + 4800, 100, y / 100 + 48, y % 100);
    RemainderUnique(y + 4800, 4, y / 4 + 1200, y % 4);
  }

  lemma LeapIsLong(year: int)
    requires year != 0
    ensures IsLeapYear(year) <==> LongYear((if year < 0 then year + 1 else year) + 4799)
  {
    hide Rem;
    var y := if year < 1 then year + 1 else year;
    RemZero(y);
    SameInCycle(y);
    assert IsLeapYear(year) <==> (y % 4 == 0 && y % 100 != 0) || y % 400 == 0;
    LeapAgain(y);
  }

  lemma LeapAgain(y: int)
    ensures (y % 4 == 0 && y % 100 != 0) || y % 400 == 0 <==> y % 4 == 0 && (y % 100 != 0 || y % 400 == 0)
  {
    if y % 400 == 0 {
      RemainderUnique(y, 4, 100 * (y / 400), 0);
    }
  }

  // The valid dates are the days of the March years.
  lemma ValidIsMarchDay(date: Ymd)
    ensures IsValid(date) <==>
      date.year != 0 && 1 <= date.month <= 12 && MarchDay(MarchYear(date), MarchMonth(date), date.day - 1)
  {
    hide LongYear, IsLeapYear;
    if date.year != 0 {
      LeapIsLong(date.year);
    }
  }

  lemma MarchValid(y: int, m: int, k: int)
    requires MarchDay(y, m, k)
    ensures var date := FromMarch(y, m, k);
      IsValid(date) && MarchYear(date) == y && MarchMonth(date) == m
  {
    hide LongYear;
    ValidIsMarchDay(FromMarch(y, m, k));
  }

  // Decoding finds the March year, month and day that a day number was made of.
  lemma Decode(y: int, m: int, k: int)
    requires MarchDay(y, m, k)
    ensures JdToYmd(YearDays(y) + MonthDays(m) + k - 32044) == FromMarch(y, m, k)
  {
    hide FloorDiv, LongYear, YearDays, MonthDays;
    var b, d, e := y / 100, y % 100, MonthDays(m) + k;
    var c := 1461 * d / 4 + e;
    var a := 146097 * b / 4 + c;
    MonthDaysIs(m);
    CenturyYear(b, d);
    InCentury(b, d, e);
    CenturySplit(b, c);
    FloorDivPositive(4 * a + 3, 146097);
    FloorDivPositive(146097 * b, 4);
    YearSplit(d, e);
    FloorDivPositive(4 * c + 3, 1461);
    FloorDivPositive(1461 * d, 4);
    MonthSplit(m, k);
    FloorDivPositive(5 * e + 2, 153);
    FloorDivPositive(153 * m + 2, 5);
    FloorDivPositive(m, 10);
  }

  lemma MonthDaysIs(m: int)
    ensures MonthDays(m) == (153 * m + 2) / 5 && (0 <= m ==> MonthDays(m) >= 0)
  {
  }

  lemma InCentury(b: int, d: int, e: int)
    requires 0 <= d < 100 && 0 <= e <= 365 && (e == 365 ==> LongYear(100 * b + d))
    ensures e == 365 ==> d % 4 == 3
    ensures var c := 1461 * d / 4 + e; 0 <= c <= 36524 && (c == 36524 ==> b % 4 == 3)
  {
    hide LongYear;
    LongYears(b, d);
  }

  // Every day number is a day of a March year.
  lemma Encode(jd: int) returns (y: int, m: int, k: int)
    ensures MarchDay(y, m, k) && jd == YearDays(y) + MonthDays(m) + k - 32044
  {
    hide LongYear, YearDays;
    var a := jd + 32044;
    CenturyOf(a);
    var b := (4 * a + 3) / 146097;
    var c := a - 146097 * b / 4;
    YearOf(c);
    var d := (4 * c + 3) / 1461;
    var e := c - 1461 * d / 4;
    MonthOf(e);
    CenturyYear(b, d);
    y, m := 100 * b + d, (5 * e + 2) / 153;
    k := e - MonthDays(m);
  }

  // A valid date survives the way to its day number and back.
  lemma DateRoundTrip(date: Ymd)
    requires IsValid(date)
    ensures JdToYmd(YmdToJd(date)) == date
  {
    hide YmdToJd, JdToYmd, LongYear, YearDays, MonthDays, IsValid;
    ValidIsMarchDay(date);
    MarchForm(date);
    Decode(MarchYear(date), MarchMonth(date), date.day - 1);
  }

  // Every day number is the number of exactly the date it decodes to.
  lemma JdRoundTrip(jd: int)
    ensures IsValid(JdToYmd(jd)) && YmdToJd(JdToYmd(jd)) == jd
  {
    hide YmdToJd, JdToYmd, LongYear, YearDays, MonthDays, IsValid, FromMarch;
    var y, m, k := Encode(jd);
    Decode(y, m, k);
    MarchValid(y, m, k);
    ValidMonthOf(FromMarch(y, m, k));
    MarchForm(FromMarch(y, m, k));
    FromMarchDay(y, m, k);
  }

  lemma FromMarchDay(y: int, m: int, k: int)
    ensures FromMarch(y, m, k).day == k + 1
  {
  }

  lemma ValidMonthOf(date: Ymd)
    requires IsValid(date)
    ensures 1 <= date.month <= 12
  {
  }

  /* ---- The day after ---- */

  // The calendar's own rule.
  function NextDate(date: Ymd): Ymd {
    var days := if date.month == 2 && IsLeapYear(date.year) then 29 else DaysInMonth(date.month);
    if date.day < days then date.(day := date.day + 1)
    else if date.month < 12 then Ymd(date.year, date.month + 1, 1)
    else Ymd(if date.year == -1 then 1 else date.year + 1, 1, 1)
  }

  // The next day number is the next day of the calendar.
  lemma NextDay(jd: int)
    ensures JdToYmd(jd + 1) == NextDate(JdToYmd(jd))
  {
    hide YmdToJd, JdToYmd, NextDate;
    JdRoundTrip(jd);
    NextNumber(JdToYmd(jd));
    DateRoundTrip(NextDate(JdToYmd(jd)));
  }

  lemma NextNumber(date: Ymd)
    requires IsValid(date)
    ensures IsValid(NextDate(date)) && YmdToJd(NextDate(date)) == YmdToJd(date) + 1
  {
    hide YmdToJd, LongYear, IsLeapYear, YearDays, MonthDays;
    MarchForm(date);
    MarchForm(NextDate(date));
    if date.month == 2 {
      LeapIsLong(date.year);
      YearStep(MarchYear(date));
      February();
    } else {
      MonthStep(date.month);
    }
  }

  lemma MonthStep(month: int)
    requires 1 <= month <= 12 && month != 2
    ensures DaysInMonth(month) >= 28
    ensures var m := if month <= 2 then month + 9 else month - 3;
      MonthDays(m + 1) == MonthDays(m) + DaysInMonth(month)
  {
  }

  lemma February()
    ensures MonthDays(0) == 0 && MonthDays(11) == 337
  {
  }

  // A March year is 365 days long, or 366 when it is long.
  lemma YearStep(y: int)
    ensures YearDays(y + 1) == YearDays(y) + if LongYear(y) then 366 else 365
  {
    hide LongYear, YearDays;
    var b, d := y / 100, y % 100;
    CenturyYear(b, d);
    if d < 99 {
      CenturyYear(b, d + 1);
    } else {
      CenturyYear(b + 1, 0);
    }
  }

  // With one known day this fixes the whole calendar.
  lemma Epoch()
    ensures JdToYmd(0) == Ymd(-4714, 11, 24) && JdToYmd(2440588) == Ymd(1970, 1, 1)
  {
    hide JdToYmd;
    DateRoundTrip(Ymd(-4714, 11, 24));
    DateRoundTrip(Ymd(1970, 1, 1));
  }

  // The date n days later.
  function DaysLater(date: Ymd, n: nat): Ymd {
    if n == 0 then date else NextDate(DaysLater(date, n - 1))
  }

  lemma {:induction false} DaysAdded(jd: int, n: nat)
    ensures JdToYmd(jd + n) == DaysLater(JdToYmd(jd), n)
  {
    hide JdToYmd, NextDate;
    if n > 0 {
      DaysAdded(jd, n - 1);
      NextDay(jd + (n - 1));
    }
  }

  /* ---- Days of the week and of the year ---- */

  // Monday is 1.
  function DayOfWeek(jd: int): int {
    if jd >= 0 then Rem(jd, 7) + 1 else Rem(jd + 1, 7) + 7
  }

  function DayOfYear(jd: int): int {
    jd - YmdToJd(Ymd(JdToYmd(jd).year, 1, 1)) + 1
  }

  // The week runs on through every day number, negative ones and zero included; 1 January 1970 was a Thursday.
  lemma WeekRunsOn(jd: int)
    ensures 1 <= DayOfWeek(jd) <= 7 && DayOfWeek(jd + 1) == DayOfWeek(jd) % 7 + 1
    ensures DayOfWeek(2440588) == 4
  {
    hide DayOfWeek;
    WeekDay(jd);
    WeekDay(jd + 1);
    WeekDay(2440588);
    var q, r := jd / 7, jd % 7;
    RemainderUnique(jd + 1, 7, if r < 6 then q else q + 1, if r < 6 then r + 1 else 0);
    RemainderUnique(2440588, 7, 348655, 3);
  }

  lemma WeekDay(jd: int)
    ensures DayOfWeek(jd) == jd % 7 + 1
  {
    if jd < 0 {
      var q, r := jd / 7, jd % 7;
      RemainderUnique(-(jd + 1), 7, -q - 1, 6 - r);
    }
  }

  // The days of a year before one of its months.
  function DaysBefore(year: int, month: int): int
    requires 1 <= month <= 12
    decreases month
  {
    if month == 1 then 0
    else DaysBefore(year, month - 1) + if month == 3 && IsLeapYear(year) then 29 else DaysInMonth(month - 1)
  }

  lemma InMonth(year: int, month: int, day: int)
    requires 1 <= month <= 12
    ensures YmdToJd(Ymd(year, month, day)) == YmdToJd(Ymd(year, month, 1)) + day - 1
  {
    hide YmdToJd, YearDays, MonthDays;
    MarchForm(Ymd(year, month, day));
    MarchForm(Ymd(year, month, 1));
  }

  lemma {:induction false} FirstOfMonth(year: int, month: int)
    requires year != 0 && 1 <= month <= 12
    ensures YmdToJd(Ymd(year, month, 1)) == YmdToJd(Ymd(year, 1, 1)) + DaysBefore(year, month)
    decreases month
  {
    hide YmdToJd, IsLeapYear;
    if month > 1 {
      FirstOfMonth(year, month - 1);
      var days := if month == 3 && IsLeapYear(year) then 29 else DaysInMonth(month - 1);
      NextNumber(Ymd(year, month - 1, days));
      InMonth(year, month - 1, days);
    }
  }

  // The number of a day in its year counts the months before it.
  lemma DayOfYearCounts(jd: int)
    ensures var date := JdToYmd(jd);
      1 <= date.month <= 12 && DayOfYear(jd) == DaysBefore(date.year, date.month) + date.day
  {
    hide YmdToJd, JdToYmd, IsValid, DaysBefore;
    JdRoundTrip(jd);
    var date := JdToYmd(jd);
    ValidMonth(date);
    ValidYear(date);
    InMonth(date.year, date.month, date.day);
    FirstOfMonth(date.year, date.month);
  }

  lemma ValidYear(date: Ymd)
    requires IsValid(date)
    ensures date.year != 0
  {
  }

  // Days are numbered from 1 to the length of the year, and start over in the next one.
  lemma YearRunsOn(jd: int)
    ensures var year := JdToYmd(jd).year;
      && 1 <= DayOfYear(jd) <= DaysInYear(year)
      && DayOfYear(jd + 1) == if DayOfYear(jd) == DaysInYear(year) then 1 else DayOfYear(jd) + 1
  {
    hide JdToYmd, DayOfYear, YmdToJd, IsLeapYear;
    JdRoundTrip(jd);
    DayOfYearCounts(jd);
    DayOfYearCounts(jd + 1);
    NextDay(jd);
    BeforeMonths(JdToYmd(jd).year);
  }

  lemma BeforeMonths(year: int)
    ensures var leap := if IsLeapYear(year) then 1 else 0;
      && DaysBefore(year, 1) == 0 && DaysBefore(year, 2) == 31 && DaysBefore(year, 3) == 59 + leap
      && DaysBefore(year, 4) == 90 + leap && DaysBefore(year, 5) == 120 + leap && DaysBefore(year, 6) == 151 + leap
      && DaysBefore(year, 7) == 181 + leap && DaysBefore(year, 8) == 212 + leap && DaysBefore(year, 9) == 243 + leap
      && DaysBefore(year, 10) == 273 + leap && DaysBefore(year, 11) == 304 + leap && DaysBefore(year, 12) == 334 + leap
  {
    hide IsLeapYear;
    assert DaysBefore(year, 4) == DaysBefore(year, 3) + 31;
    assert DaysBefore(year, 7) == DaysBefore(year, 4) + 91;
    assert DaysBefore(year, 10) == DaysBefore(year, 7) + 92;
  }

  /* ---- Overflow ---- */

  // A step of the arithmetic stays within jd_t.
  predicate Fits(v: int) {
    INT_MIN <= v <= INT_MAX
  }

  predicate FloorDivFits(a: int, b: int)
    requires b > 0
  {
    Fits(a) && Fits(a - (if a < 0 then b - 1 else 0))
  }

  predicate JdFits(jd: int) {
    var a := jd + 32044;
    var b := FloorDiv(4 * a + 3, 146097);
    var c := a - FloorDiv(146097 * b, 4);
    var d := FloorDiv(4 * c + 3, 1461);
    var e := c - FloorDiv(1461 * d, 4);
    var m := FloorDiv(5 * e + 2, 153);
    && Fits(a) && Fits(4 * a) && FloorDivFits(4 * a + 3, 146097)
    && FloorDivFits(146097 * b, 4) && Fits(c)
    && Fits(4 * c) && FloorDivFits(4 * c + 3, 1461)
    && FloorDivFits(1461 * d, 4) && Fits(e)
    && Fits(5 * e) && FloorDivFits(5 * e + 2, 153)
    && Fits(153 * m) && FloorDivFits(153 * m + 2, 5) && Fits(e - FloorDiv(153 * m + 2, 5))
    && Fits(m + 3) && FloorDivFits(m, 10) && Fits(12 * FloorDiv(m, 10))
    && Fits(100 * b) && Fits(100 * b + d) && Fits(100 * b + d - 4800 + FloorDiv(m, 10) - 1)
  }

  // The steps of decoding, with their bounds.
  lemma JdSteps(jd: int) returns (b: int, c: int, d: int, e: int, m: int)
    ensures var a := jd + 32044;
      && b == FloorDiv(4 * a + 3, 146097) && c == a - FloorDiv(146097 * b, 4)
      && d == FloorDiv(4 * c + 3, 1461) && e == c - FloorDiv(1461 * d, 4) && m == FloorDiv(5 * e + 2, 153)
      && 146097 * b <= 4 * a + 3 < 146097 * b + 146097 && 0 <= c <= 36524
      && 0 <= d < 100 && 0 <= e <= 365 && 0 <= m <= 11 && 0 <= FloorDiv(153 * m + 2, 5) <= e
      && 0 <= FloorDiv(m, 10) <= 1
  {
    hide FloorDiv, LongYear;
    var a := jd + 32044;
    FloorDivPositive(4 * a + 3, 146097);
    b := (4 * a + 3) / 146097;
    CenturyOf(a);
    FloorDivPositive(146097 * b, 4);
    c := a - 146097 * b / 4;
    YearOf(c);
    FloorDivPositive(4 * c + 3, 1461);
    d := (4 * c + 3) / 1461;
    FloorDivPositive(1461 * d, 4);
    e := c - 1461 * d / 4;
    MonthOf(e);
    FloorDivPositive(5 * e + 2, 153);
    m := (5 * e + 2) / 153;
    FloorDivPositive(153 * m + 2, 5);
    FloorDivPositive(m, 10);
  }

  // Decoding overflows nowhere exactly in this window of day numbers.
  lemma JdWindow(jd: int)
    ensures JdFits(jd) <==> -536866432 <= jd <= 536838867
  {
    hide FloorDiv;
    var b, c, d, e, m := JdSteps(jd);
  }

  predicate YmdFits(date: Ymd) {
    var year := if date.year < 0 then date.year + 1 else date.year;
    var a := FloorDiv(14 - date.month, 12);
    var m := date.month + 12 * a - 3;
    MonthFits(date.day, date.month, a, m)
    && Fits(year + 4800) && YearFits(date.day + FloorDiv(153 * m + 2, 5), year + 4800 - a)
  }

  predicate MonthFits(day: int, month: int, a: int, m: int) {
    && FloorDivFits(14 - month, 12) && Fits(12 * a) && Fits(month + 12 * a) && Fits(m)
    && Fits(153 * m) && FloorDivFits(153 * m + 2, 5) && Fits(day + FloorDiv(153 * m + 2, 5))
  }

  predicate YearFits(s: int, y: int) {
    var t := s + 365 * y + FloorDiv(y, 4);
    && Fits(y) && Fits(365 * y) && Fits(s + 365 * y)
    && FloorDivFits(y, 4) && FloorDivFits(y, 100) && FloorDivFits(y, 400)
    && Fits(t) && Fits(t - FloorDiv(y, 100)) && Fits(t - FloorDiv(y, 100) + FloorDiv(y, 400))
    && Fits(t - FloorDiv(y, 100) + FloorDiv(y, 400) - 32045)
  }

  predicate NotAfter(d: Ymd, e: Ymd) {
    d.year < e.year || (d.year == e.year && (d.month < e.month || (d.month == e.month && d.day <= e.day)))
  }

  const FIRST_DATE := Ymd(-5884291, 5, 14)
  const LAST_DATE := Ymd(5874689, 12, 15)

  // The largest step of encoding a valid date.
  function YmdPeak(date: Ymd): int {
    date.day + MonthDays(MarchMonth(date)) + 365 * MarchYear(date) + MarchYear(date) / 4
  }

  // Encoding a valid date overflows nowhere exactly between these two dates.
  lemma YmdWindow(date: Ymd)
    requires IsValid(date)
    ensures YmdFits(date) <==> NotAfter(FIRST_DATE, date) && NotAfter(date, LAST_DATE)
  {
    hide IsValid, YmdFits, YmdPeak, NotAfter;
    PeakDecides(date);
    PeakWindow(date);
  }

  lemma PeakDecides(date: Ymd)
    requires IsValid(date)
    ensures YmdFits(date) <==> Fits(YmdPeak(date))
  {
    hide FloorDiv, IsValid, MonthFits, YearFits;
    ValidMonth(date);
    FloorDivPositive(14 - date.month, 12);
    var m := MarchMonth(date);
    FloorDivPositive(153 * m + 2, 5);
    assert 0 <= (153 * m + 2) / 5 <= 337;
    EveryMonthFits(date.day, date.month);
    PeakLargest(date.day + (153 * m + 2) / 5, MarchYear(date));
  }

  lemma EveryMonthFits(day: int, month: int)
    requires 1 <= month <= 12 && 1 <= day <= 31
    ensures var a := if month <= 2 then 1 else 0; MonthFits(day, month, a, month + 12 * a - 3)
  {
    hide FloorDiv;
    var m := if month <= 2 then month + 9 else month - 3;
    FloorDivPositive(153 * m + 2, 5);
  }

  // No sum of the years, the leap days and the corrections to them is further out than the peak.
  lemma PeakLargest(s: int, y: int)
    requires 1 <= s <= 368
    ensures YearFits(s, y) <==> Fits(s + 365 * y + y / 4)
    ensures YearFits(s, y) ==> Fits(y + 1)
  {
    hide FloorDiv;
    FloorDivPositive(y, 4);
    FloorDivPositive(y, 100);
    FloorDivPositive(y, 400);
  }

  lemma PeakWindow(date: Ymd)
    requires IsValid(date)
    ensures Fits(YmdPeak(date)) <==> NotAfter(FIRST_DATE, date) && NotAfter(date, LAST_DATE)
  {
    hide IsValid;
    ValidMonth(date);
  }

  // In the window of JdWindow neither direction overflows.
  lemma WindowYears(jd: int)
    requires JdFits(jd)
    ensures YmdFits(JdToYmd(jd))
  {
    hide JdToYmd, IsValid, YmdFits, JdFits;
    JdWindow(jd);
    JdRoundTrip(jd);
    DecodedYear(jd);
    YmdWindow(JdToYmd(jd));
    assert NotAfter(FIRST_DATE, JdToYmd(jd)) && NotAfter(JdToYmd(jd), LAST_DATE);
  }

  lemma DecodedYear(jd: int)
    requires -536866432 <= jd <= 536838867
    ensures -1_500_000 <= JdToYmd(jd).year <= 1_500_000
  {
    hide JdToYmd, MonthDays, LongYear;
    var y, m, k := Encode(jd);
    Decode(y, m, k);
    MonthDaysIs(m);
  }

  // No date whose encoding fits is mistaken for the invalid one.
  lemma NeverInvalid(date: Ymd)
    requires IsValid(date) && YmdFits(date)
    ensures YmdToJd(date) != DATE_JD_INVALID
  {
    hide FloorDiv;
    ValidMonth(date);
    FloorDivPositive(14 - date.month, 12);
    var y, m := MarchYear(date), MarchMonth(date);
    FloorDivPositive(153 * m + 2, 5);
    FloorDivPositive(y, 4);
    FloorDivPositive(y, 100);
    FloorDivPositive(y, 400);
  }

  class Date {
    var jd: int

    constructor ()
      ensures jd == DATE_JD_INVALID
    {
      jd := DATE_JD_INVALID;
    }

    method Set(date: Ymd)
      modifies this
      ensures if IsValid(date) then JdToYmd(jd) == date else jd == DATE_JD_INVALID
      ensures IsValid(date) && YmdFits(date) ==> jd != DATE_JD_INVALID
    {
      hide YmdToJd, JdToYmd, IsValid, YmdFits;
      if IsValid(date) {
        jd := YmdToJd(date);
        DateRoundTrip(date);
        if YmdFits(date) {
          NeverInvalid(date);
        }
      } else {
        jd := DATE_JD_INVALID;
      }
    }

    method Get() returns (date: Ymd)
      ensures if jd == DATE_JD_INVALID then date == Ymd(0, 0, 0) else IsValid(date) && YmdToJd(date) == jd
    {
      hide YmdToJd, JdToYmd, IsValid;
      if jd == DATE_JD_INVALID {
        date := Ymd(0, 0, 0);
      } else {
        date := JdToYmd(jd);
        JdRoundTrip(jd);
      }
    }

    // operator+=
    method Add(days: nat)
      modifies this
      ensures JdToYmd(jd) == DaysLater(old(JdToYmd(jd)), days)
    {
      hide JdToYmd, DaysLater;
      DaysAdded(jd, days);
      jd := jd + days;
    }
  }
}
