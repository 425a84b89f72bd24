// The proleptic Gregorian calendar in closed form (src/core/time.cpp), for every day count.
module Calendar {
  import opened Checked

  datatype Date = Date(year: int, month: int, day: int)

  predicate IsLeap(year: int) { (TruncMod(year, 4) == 0 && TruncMod(year, 100) != 0) || TruncMod(year, 400) == 0 }

  const MONTH_DAYS: seq<int> := [31, 28, 31, 30, 31, 30, 31, 31, 30, 31, 30, 31]

  function DaysInMonth(year: int, month: int): int
    requires 1 <= month <= 12
  {
    if month == 2 && IsLeap(year) then 29 else MONTH_DAYS[month - 1]
  }

  predicate IsDate(d: Date) {
    1 <= d.month <= 12 && 1 <= d.day <= DaysInMonth(d.year, d.month)
  }

  // ---- The two conversions ----

  const ERA_DAYS: int := 146097
  const EPOCH_SHIFT: int := 719468

  function YearOfEra(dayOfEra: nat): nat
    requires dayOfEra < 146097
  {
    (dayOfEra - dayOfEra / 1460 + dayOfEra / 36524 - dayOfEra / 146096) / 365
  }

  function YearStart(yearOfEra: int): int { 365 * yearOfEra + yearOfEra / 4 - yearOfEra / 100 }

  function CivilFromDays(days: int): Date {
    var z := days + EPOCH_SHIFT;
    var era := TruncDiv(if z >= 0 then z else z - 146096, 146097);
    EraSplit(z);
    var dayOfEra := z - era * 146097;
    var yearOfEra := YearOfEra(dayOfEra);
    ToCivil(yearOfEra + era * 400, dayOfEra - YearStart(yearOfEra))
  }

  // The civil date of a day of the year that starts in March.
  function ToCivil(year: int, dayOfYear: int): Date {
    var mp := (5 * dayOfYear + 2) / 153;
    var month := if mp < 10 then mp + 3 else mp - 9;
    Date(if month <= 2 then year + 1 else year, month, dayOfYear - MonthStart(mp) + 1)
  }

  function DaysFromCivil(d: Date): int {
    var year := if d.month <= 2 then d.year - 1 else d.year;
    var era := TruncDiv(if year >= 0 then year else year - 399, 400);
    var yearOfEra := year - era * 400;
    var dayOfYear := (153 * (if d.month > 2 then d.month - 3 else d.month + 9) + 2) / 5 + d.day - 1;
    var dayOfEra := YearStart(yearOfEra) + dayOfYear;
    era * 146097 + dayOfEra - EPOCH_SHIFT
  }

  lemma EraSplit(z: int)
    ensures TruncDiv(if z >= 0 then z else z - 146096, 146097) == z / 146097
    ensures z - (z / 146097) * 146097 == z % 146097
  {
  }

  lemma YearSplit(y: int)
    ensures TruncDiv(if y >= 0 then y else y - 399, 400) == y / 400
  {
  }

  // ---- Years within an era of 400 ----

  lemma YearOfCentury(e: int, b: int)
    requires 0 <= e < 36524 && 0 <= b <= 3
    ensures var y := (e - (24 * b + e) / 1460) / 365;
      0 <= y <= 99 && 365 * y + y / 4 <= e && (e < 365 * (y + 1) + (y + 1) / 4)
  {
  }

  lemma CenturyShift(n: int, e: int, b: int)
    requires n == 36524 * b + e && 0 <= e < 36524 && 0 <= b <= 3
    ensures n / 1460 == 25 * b + (24 * b + e) / 1460
    ensures n / 36524 == b && n / 146096 == 0
    ensures (n - n / 1460 + n / 36524 - n / 146096) / 365 == 100 * b + (e - (24 * b + e) / 1460) / 365
  {
  }

  predicate InYear(n: int, y: int) {
    YearStart(y) <= n && (n < YearStart(y + 1) || (y == 399 && n == 146096))
  }

  // The closed form finds the year whose days include the given day of the era.
  lemma YearFound(n: nat)
    requires n < 146097
    ensures 0 <= YearOfEra(n) < 400 && InYear(n, YearOfEra(n))
  {
    if n == 146096 {
    } else {
      var b, e := n / 36524, n % 36524;
      CenturyShift(n, e, b);
      YearOfCentury(e, b);
      var y := (e - (24 * b + e) / 1460) / 365;
      YearInCentury(y, b);
      YearInCentury(y + 1, b);
    }
  }

  lemma YearInCentury(y: int, b: int)
    requires 0 <= y <= 100 && 0 <= b <= 3
    ensures YearStart(100 * b + y) == 36524 * b + 365 * y + y / 4 - (if y == 100 then 1 else 0)
  {
  }

  lemma YearUnique(n: int, x: int, y: int)
    requires 0 <= x < 400 && 0 <= y < 400 && InYear(n, x) && InYear(n, y)
    ensures x == y
  {
    if x < y {
      YearsAscend(x + 1, y);
    } else if y < x {
      YearsAscend(y + 1, x);
    }
  }

  lemma YearsAscend(x: int, y: int)
    requires 0 <= x <= y <= 400
    ensures YearStart(x) <= YearStart(y)
  {
  }

  // ---- Months, counted from March ----

  function MonthStart(mp: int): int { (153 * mp + 2) / 5 }

  function MonthIndex(month: int): int { if month > 2 then month - 3 else month + 9 }

  // The number of days of the year that starts in March of the given civil year.
  function MarchYearDays(year: int): int { if IsLeap(year + 1) then 366 else 365 }

  lemma MonthOfDay(dayOfYear: int)
    requires 0 <= dayOfYear <= 365
    ensures var mp := (5 * dayOfYear + 2) / 153;
      0 <= mp <= 11 && MonthStart(mp) <= dayOfYear && (mp < 11 ==> dayOfYear < MonthStart(mp + 1))
  {
  }

  lemma MonthUnique(mp: int, dayOfYear: int)
    requires 0 <= mp <= 11 && MonthStart(mp) <= dayOfYear <= 365 && (mp < 11 ==> dayOfYear < MonthStart(mp + 1))
    ensures (5 * dayOfYear + 2) / 153 == mp
  {
  }

  lemma MonthLengths(year: int, month: int)
    requires 1 <= month <= 12 && month != 2
    ensures DaysInMonth(year, month) == MonthStart(MonthIndex(month) + 1) - MonthStart(MonthIndex(month))
  {
  }

  // Truncating and Euclidean remainders vanish together.
  lemma TruncModZero(a: int)
    ensures TruncMod(a, 4) == 0 <==> a % 4 == 0
    ensures TruncMod(a, 100) == 0 <==> a % 100 == 0
    ensures TruncMod(a, 400) == 0 <==> a % 400 == 0
  {
    Negation4(a);
    Negation100(a);
    Negation400(a);
  }

  lemma Negation4(a: int)
    ensures a % 4 == 0 <==> -a % 4 == 0
  {
  }

  lemma Negation100(a: int)
    ensures a % 100 == 0 <==> -a % 100 == 0
  {
  }

  lemma Negation400(a: int)
    ensures a % 400 == 0 <==> -a % 400 == 0
  {
  }

  lemma Remainders(year: int)
    ensures year % 4 == (year % 400) % 4 && year % 100 == (year % 400) % 100
  {
    var q, r := year / 400, year % 400;
    assert year == 4 * (100 * q) + r && year == 100 * (4 * q) + r;
  }

  // Leap years repeat every 400 years.
  lemma LeapInEra(year: int)
    ensures IsLeap(year) <==> ((year % 400) % 4 == 0 && (year % 400) % 100 != 0) || year % 400 == 0
  {
    TruncModZero(year);
    Remainders(year);
  }

  lemma NextInEra(year: int)
    ensures (year + 1) % 400 == if year % 400 == 399 then 0 else year % 400 + 1
    ensures (year + 1) / 400 == if year % 400 == 399 then year / 400 + 1 else year / 400
  {
  }

  lemma CenturyRest(b: int, c: int)
    requires 0 <= b <= 3 && 0 <= c <= 99
    ensures (100 * b + c + 1) % 4 == (c + 1) % 4 && ((100 * b + c + 1) % 100 == 0 <==> c == 99)
  {
  }

  lemma QuarterStep(c: int)
    ensures (c + 1) / 4 - c / 4 == if (c + 1) % 4 == 0 then 1 else 0
  {
  }

  lemma YearStep(y: int)
    requires 0 <= y < 399
    ensures YearStart(y + 1) - YearStart(y) == if (y + 1) % 4 == 0 && (y + 1) % 100 != 0 then 366 else 365
  {
    var b, c := y / 100, y % 100;
    YearInCentury(c, b);
    YearInCentury(c + 1, b);
    CenturyRest(b, c);
    QuarterStep(c);
  }

  lemma YearLength(year: int)
    ensures var y := year % 400;
      MarchYearDays(year) == if y == 399 then 366 else YearStart(y + 1) - YearStart(y)
    ensures YearStart(399) == 145731
  {
    LeapInEra(year + 1);
    NextInEra(year);
    if year % 400 < 399 {
      YearStep(year % 400);
    }
  }

  // A March year and a day within it.
  predicate InMarchYear(year: int, dayOfYear: int) { 0 <= dayOfYear < MarchYearDays(year) }

  function MarchYear(d: Date): int { if d.month <= 2 then d.year - 1 else d.year }

  function DayOfMarchYear(d: Date): int { MonthStart(MonthIndex(d.month)) + d.day - 1 }

  lemma ToCivilIsDate(year: int, dayOfYear: int)
    requires InMarchYear(year, dayOfYear)
    ensures IsDate(ToCivil(year, dayOfYear))
    ensures MarchYear(ToCivil(year, dayOfYear)) == year && DayOfMarchYear(ToCivil(year, dayOfYear)) == dayOfYear
  {
    MonthOfDay(dayOfYear);
    var d := ToCivil(year, dayOfYear);
    if d.month != 2 {
      MonthLengths(d.year, d.month);
    }
  }

  lemma FromCivilInYear(d: Date)
    requires IsDate(d)
    ensures InMarchYear(MarchYear(d), DayOfMarchYear(d)) && ToCivil(MarchYear(d), DayOfMarchYear(d)) == d
  {
    if d.month != 2 {
      MonthLengths(d.year, d.month);
    }
    MonthUnique(MonthIndex(d.month), DayOfMarchYear(d));
  }

  // Days before March 1 of the given year, counted from March 1 of year 0.
  function DaysBefore(year: int): int { 146097 * (year / 400) + YearStart(year % 400) }

  // The closed form in two steps: the March year of a day count, then the month.
  lemma CivilSteps(days: int)
    ensures var z := days + EPOCH_SHIFT;
      var y := YearOfEra(z % 146097);
      CivilFromDays(days) == ToCivil(y + (z / 146097) * 400, z % 146097 - YearStart(y))
  {
    EraSplit(days + EPOCH_SHIFT);
  }

  // A day of the era, and the March year it falls in.
  lemma DayInEra(n: nat, era: int) returns (year: int, dayOfYear: int)
    requires n < 146097
    ensures year == YearOfEra(n) + era * 400 && dayOfYear == n - YearStart(YearOfEra(n))
    ensures InMarchYear(year, dayOfYear) && DaysBefore(year) + dayOfYear == era * 146097 + n
  {
    YearFound(n);
    year, dayOfYear := YearOfEra(n) + era * 400, n - YearStart(YearOfEra(n));
    EraYear(YearOfEra(n), era);
    YearLength(year);
  }

  lemma CivilByMarch(days: int) returns (year: int, dayOfYear: int)
    ensures InMarchYear(year, dayOfYear) && days + EPOCH_SHIFT == DaysBefore(year) + dayOfYear
    ensures CivilFromDays(days) == ToCivil(year, dayOfYear)
  {
    CivilSteps(days);
    year, dayOfYear := DayInEra((days + EPOCH_SHIFT) % 146097, (days + EPOCH_SHIFT) / 146097);
  }

  lemma EraYear(y: int, era: int)
    requires 0 <= y < 400
    ensures (y + era * 400) % 400 == y && (y + era * 400) / 400 == era
  {
  }

  lemma DaysByMarch(d: Date)
    ensures DaysFromCivil(d) == DaysBefore(MarchYear(d)) + DayOfMarchYear(d) - EPOCH_SHIFT
  {
    YearSplit(MarchYear(d));
  }

  lemma InEra(year: int, dayOfYear: int) returns (n: int)
    requires InMarchYear(year, dayOfYear)
    ensures n == YearStart(year % 400) + dayOfYear && 0 <= n < 146097 && InYear(n, year % 400)
    ensures DaysBefore(year) + dayOfYear == 146097 * (year / 400) + n
  {
    n := YearStart(year % 400) + dayOfYear;
    YearLength(year);
    YearsAscend(0, year % 400);
    if year % 400 < 399 {
      YearsAscend(year % 400 + 1, 399);
    }
  }

  lemma QuotientUnique(a: int, n: int, b: int, m: int)
    requires 146097 * a + n == 146097 * b + m && 0 <= n < 146097 && 0 <= m < 146097
    ensures a == b && n == m
  {
  }

  // A day count determines its March year.
  lemma MarchUnique(year: int, dayOfYear: int, other: int, otherDay: int)
    requires InMarchYear(year, dayOfYear) && InMarchYear(other, otherDay)
    requires DaysBefore(year) + dayOfYear == DaysBefore(other) + otherDay
    ensures year == other && dayOfYear == otherDay
  {
    var n := InEra(year, dayOfYear);
    var m := InEra(other, otherDay);
    QuotientUnique(year / 400, n, other / 400, m);
    YearUnique(n, year % 400, other % 400);
    assert year == 400 * (year / 400) + year % 400 && other == 400 * (other / 400) + other % 400;
  }

  // ---- The conversions are mutual inverses ----

  lemma DaysRoundTrip(days: int)
    ensures IsDate(CivilFromDays(days)) && DaysFromCivil(CivilFromDays(days)) == days
  {
    var year, dayOfYear := CivilByMarch(days);
    ToCivilIsDate(year, dayOfYear);
    DaysByMarch(CivilFromDays(days));
  }

  lemma DateRoundTrip(d: Date)
    requires IsDate(d)
    ensures CivilFromDays(DaysFromCivil(d)) == d
  {
    var year, dayOfYear := CivilByMarch(DaysFromCivil(d));
    DaysByMarch(d);
    FromCivilInYear(d);
    MarchUnique(year, dayOfYear, MarchYear(d), DayOfMarchYear(d));
  }

  // ---- They count calendar days from 1 January 1970 ----

  // The day after a date, by the calendar's own rules.
  function NextDay(d: Date): Date
    requires 1 <= d.month <= 12
  {
    if d.day < DaysInMonth(d.year, d.month) then Date(d.year, d.month, d.day + 1)
    else if d.month < 12 then Date(d.year, d.month + 1, 1)
    else Date(d.year + 1, 1, 1)
  }

  lemma NextYearStart(year: int)
    ensures DaysBefore(year + 1) == DaysBefore(year) + MarchYearDays(year)
  {
    YearLength(year);
    NextInEra(year);
  }

  lemma NextDayInYear(d: Date)
    requires IsDate(d) && !(d.month == 2 && d.day == DaysInMonth(d.year, d.month))
    ensures MarchYear(NextDay(d)) == MarchYear(d) && DayOfMarchYear(NextDay(d)) == DayOfMarchYear(d) + 1
  {
    if d.month != 2 {
      MonthLengths(d.year, d.month);
    }
  }

  lemma AfterFebruary(d: Date)
    requires IsDate(d) && d.month == 2 && d.day == DaysInMonth(d.year, d.month)
    ensures MarchYear(d) == d.year - 1 && DayOfMarchYear(d) == MarchYearDays(d.year - 1) - 1
    ensures NextDay(d) == Date(d.year, 3, 1) && MarchYear(NextDay(d)) == d.year && DayOfMarchYear(NextDay(d)) == 0
  {
  }

  lemma NextDayValid(d: Date)
    requires IsDate(d)
    ensures IsDate(NextDay(d))
  {
  }

  lemma NextDayCount(d: Date)
    requires IsDate(d)
    ensures IsDate(NextDay(d)) && DaysFromCivil(NextDay(d)) == DaysFromCivil(d) + 1
  {
    NextDayValid(d);
    DaysByMarch(d);
    DaysByMarch(NextDay(d));
    if d.month == 2 && d.day == DaysInMonth(d.year, d.month) {
      NextYearStart(d.year - 1);
      AfterFebruary(d);
    } else {
      NextDayInYear(d);
    }
  }

  lemma EpochDate()
    ensures CivilFromDays(0) == Date(1970, 1, 1)
  {
    var d := Date(1970, 1, 1);
    DaysByMarch(d);
    assert DaysBefore(1969) == 719162 && DayOfMarchYear(d) == 306;
    DateRoundTrip(d);
  }

  lemma DayAfter(days: int, d: Date)
    requires IsDate(d) && DaysFromCivil(d) == days
    ensures CivilFromDays(days + 1) == NextDay(d)
  {
    NextDayCount(d);
    DateRoundTrip(NextDay(d));
  }

  // Day 0 is the epoch and each next day is the calendar's next day, so the closed form is the calendar.
  lemma CountsCalendarDays(days: int)
    ensures CivilFromDays(0) == Date(1970, 1, 1)
    ensures IsDate(CivilFromDays(days)) && CivilFromDays(days + 1) == NextDay(CivilFromDays(days))
  {
    DaysRoundTrip(days);
    DayAfter(days, CivilFromDays(days));
    EpochDate();
  }
}
