/** The Gregorian calendar over day numbers, day 0 being the first of January of year 1. */
module Calendar {

  datatype Date = Date(year: int, month: int, day: int)

  predicate Leap(y: int) { y % 4 == 0 && (y % 100 != 0 || y % 400 == 0) }

  /** Days before the first of January. */
  function BeforeYear(y: int): int { 365 * (y - 1) + (y - 1) / 4 - (y - 1) / 100 + (y - 1) / 400 }

  function MonthLength(y: int, m: int): int {
    if m == 2 then (if Leap(y) then 29 else 28)
    else if m == 4 || m == 6 || m == 9 || m == 11 then 30
    else 31
  }

  /** Days of the year before the first of the month. */
  function BeforeMonth(y: int, m: int): int
    decreases m
  {
    if m <= 1 then 0 else BeforeMonth(y, m - 1) + MonthLength(y, m - 1)
  }

  function DayNumber(d: Date): int { BeforeYear(d.year) + BeforeMonth(d.year, d.month) + d.day - 1 }

  predicate RealDate(d: Date) { 1 <= d.month <= 12 && 1 <= d.day <= MonthLength(d.year, d.month) }

  /** The year of a day, from its place in the 400-, 100-, 4- and 1-year cycles. */
  function YearOf(day: int): int {
    var cycle := day / 146097;
    var inCycle := day % 146097;
    var century := if inCycle / 36524 > 3 then 3 else inCycle / 36524;
    var inCentury := inCycle - 36524 * century;
    var four := inCentury / 1461;
    var inFour := inCentury % 1461;
    var year := if inFour / 365 > 3 then 3 else inFour / 365;
    400 * cycle + 100 * century + 4 * four + year + 1
  }

  function MonthFrom(y: int, m: int, rest: int): Date
    requires 1 <= m <= 12
    decreases 12 - m
  {
    if m == 12 || rest < MonthLength(y, m) then Date(y, m, rest + 1)
    else MonthFrom(y, m + 1, rest - MonthLength(y, m))
  }

  function DateOf(day: int): Date { MonthFrom(YearOf(day), 1, day - BeforeYear(YearOf(day))) }

  function Weekday(day: int): int { (day + 1) % 7 }

  // ----- Years -----

  lemma YearParts(cycle: int, century: int, four: int, year: int)
    requires 0 <= century <= 3 && 0 <= four <= 24 && 0 <= year <= 3
    ensures BeforeYear(400 * cycle + 100 * century + 4 * four + year + 1)
            == 146097 * cycle + 36524 * century + 1461 * four + 365 * year
  {
    var y := 400 * cycle + 100 * century + 4 * four + year;
    assert y / 4 == 100 * cycle + 25 * century + four;
    assert y / 100 == 4 * cycle + century;
    assert y / 400 == cycle;
  }

  /** By how much the quotient grows from one year to the next. */
  function Carry(y: int, k: int): int
    requires k > 0
  {
    if y % k == 0 then 1 else 0
  }

  lemma YearLength(y: int)
    ensures BeforeYear(y + 1) == BeforeYear(y) + (if Leap(y) then 366 else 365)
  {
    hide Leap, Carry;
    NextQuotient(y, 4);
    NextQuotient(y, 100);
    NextQuotient(y, 400);
    LeapCarries(y);
  }

  lemma LeapCarries(y: int)
    ensures Carry(y, 4) - Carry(y, 100) + Carry(y, 400) == if Leap(y) then 1 else 0
  {
    if y % 400 == 0 { Multiples(4 * (y / 400)); }
    if y % 100 == 0 { Multiples(y / 100); }
  }

  lemma Multiples(q: int)
    ensures (100 * q) % 4 == 0 && (100 * q) % 100 == 0
  {
    assert 100 * q == 4 * (25 * q);
  }

  lemma NextQuotient(y: int, k: int)
    requires k == 4 || k == 100 || k == 400
    ensures y / k == (y - 1) / k + Carry(y, k)
  {}

  /** A day lies in the year computed for it. */
  lemma YearOfContains(day: int)
    ensures BeforeYear(YearOf(day)) <= day < BeforeYear(YearOf(day) + 1)
  {
    hide BeforeYear;
    var cycle, inCycle := day / 146097, day % 146097;
    var century := if inCycle / 36524 > 3 then 3 else inCycle / 36524;
    var inCentury := inCycle - 36524 * century;
    var four, inFour := inCentury / 1461, inCentury % 1461;
    var year := if inFour / 365 > 3 then 3 else inFour / 365;
    YearParts(cycle, century, four, year);
    YearLength(YearOf(day));
    if year == 3 && inFour == 1460 { LeapParts(cycle, century, four); }
  }

  lemma LeapParts(cycle: int, century: int, four: int)
    requires 0 <= century <= 3 && 0 <= four <= 24
    requires four < 24 || century == 3
    ensures Leap(400 * cycle + 100 * century + 4 * four + 4)
  {
    var y := 400 * cycle + 100 * century + 4 * four + 4;
    MultipleOfFour(y, 100 * cycle + 25 * century + four + 1);
    if four < 24 {
      NotOfHundred(y, 4 * cycle + century, 4 * four + 4);
    } else {
      MultipleOfFourHundred(y, cycle + 1);
    }
  }

  lemma MultipleOfFour(y: int, q: int)
    requires y == 4 * q
    ensures y % 4 == 0
  {}

  lemma NotOfHundred(y: int, q: int, rest: int)
    requires y == 100 * q + rest && 0 < rest < 100
    ensures y % 100 != 0
  {}

  lemma MultipleOfFourHundred(y: int, q: int)
    requires y == 400 * q
    ensures y % 400 == 0
  {}

  lemma {:induction false} YearsRise(a: int, b: int)
    requires a <= b
    ensures BeforeYear(b) >= BeforeYear(a) + 365 * (b - a)
    decreases b - a
  {
    hide BeforeYear;
    if a < b {
      YearLength(b - 1);
      YearsRise(a, b - 1);
    }
  }

  /** ... and in no other. */
  lemma YearIsUnique(day: int, y: int)
    requires BeforeYear(y) <= day < BeforeYear(y + 1)
    ensures y == YearOf(day)
  {
    hide BeforeYear, YearOf;
    YearOfContains(day);
    if y < YearOf(day) { YearsRise(y + 1, YearOf(day)); }
    if YearOf(day) < y { YearsRise(YearOf(day) + 1, y); }
  }

  // ----- Months -----

  lemma MonthsFillTheYear(y: int)
    ensures BeforeMonth(y, 13) == if Leap(y) then 366 else 365
  {
    assert BeforeMonth(y, 4) == MonthLength(y, 1) + MonthLength(y, 2) + MonthLength(y, 3);
    assert BeforeMonth(y, 7) == BeforeMonth(y, 4) + 91;
    assert BeforeMonth(y, 10) == BeforeMonth(y, 7) + 92;
  }

  lemma {:induction false} MonthFromSplits(y: int, m: int, rest: int)
    requires 1 <= m <= 12 && 0 <= rest && BeforeMonth(y, m) + rest < BeforeMonth(y, 13)
    ensures var d := MonthFrom(y, m, rest);
            d.year == y && RealDate(d) && BeforeMonth(y, d.month) + d.day - 1 == BeforeMonth(y, m) + rest
    decreases 12 - m
  {
    if m < 12 && rest >= MonthLength(y, m) { MonthFromSplits(y, m + 1, rest - MonthLength(y, m)); }
  }

  lemma {:induction false} MonthFromFinds(y: int, m: int, d: Date)
    requires 1 <= m <= d.month && d.year == y && RealDate(d)
    ensures BeforeMonth(y, d.month) >= BeforeMonth(y, m)
    ensures MonthFrom(y, m, BeforeMonth(y, d.month) - BeforeMonth(y, m) + d.day - 1) == d
    decreases 12 - m
  {
    hide MonthLength, BeforeMonth;
    if m < d.month {
      MonthFromFinds(y, m + 1, d);
      NextMonth(y, m);
    }
  }

  lemma NextMonth(y: int, m: int)
    requires 1 <= m
    ensures BeforeMonth(y, m + 1) == BeforeMonth(y, m) + MonthLength(y, m) && MonthLength(y, m) >= 28
  {
    hide Leap;
  }

  // ----- The two directions -----

  /** Every day number is one real date, and comes back from it. */
  lemma DayOfItsDate(day: int)
    ensures RealDate(DateOf(day)) && DayNumber(DateOf(day)) == day
  {
    hide BeforeYear, YearOf, BeforeMonth;
    YearOfContains(day);
    YearLength(YearOf(day));
    MonthsFillTheYear(YearOf(day));
    FirstMonth(YearOf(day));
    MonthFromSplits(YearOf(day), 1, day - BeforeYear(YearOf(day)));
  }

  lemma FirstMonth(y: int)
    ensures BeforeMonth(y, 1) == 0
  {}

  lemma {:induction false} MonthsRise(y: int, a: int, b: int)
    requires 1 <= a <= b
    ensures BeforeMonth(y, a) <= BeforeMonth(y, b)
    decreases b - a
  {
    if a < b { MonthsRise(y, a, b - 1); }
  }

  /** Every real date comes back from its day number. */
  lemma DateOfItsDay(d: Date)
    requires RealDate(d)
    ensures DateOf(DayNumber(d)) == d
  {
    hide BeforeYear, YearOf;
    MonthsRise(d.year, 1, d.month);
    MonthsRise(d.year, d.month + 1, 13);
    MonthsFillTheYear(d.year);
    YearLength(d.year);
    YearIsUnique(DayNumber(d), d.year);
    MonthFromFinds(d.year, 1, d);
  }

  /** The day after a date, as a calendar shows it. */
  function NextDate(d: Date): Date {
    if d.day < MonthLength(d.year, d.month) then Date(d.year, d.month, d.day + 1)
    else if d.month < 12 then Date(d.year, d.month + 1, 1)
    else Date(d.year + 1, 1, 1)
  }

  /** Day after day the dates go through the calendar, and the weekdays through the week. */
  lemma DaysFollow(day: int)
    ensures DateOf(day + 1) == NextDate(DateOf(day))
    ensures Weekday(day + 1) == (Weekday(day) + 1) % 7
  {
    hide BeforeYear, YearOf, DateOf, Leap;
    DayOfItsDate(day);
    var d := DateOf(day);
    MonthsFillTheYear(d.year);
    YearLength(d.year);
    FirstMonth(d.year + 1);
    assert DayNumber(NextDate(d)) == day + 1;
    DateOfItsDay(NextDate(d));
  }

  /** The first of January 1970 was a Thursday, 719162 days after the first of January of year 1. */
  lemma Epoch()
    ensures DayNumber(Date(1970, 1, 1)) == 719162 && Weekday(719162) == 4
  {}

  /** The calendar of a leap year that everybody can look up: the weekdays of the first of every month of
      2024, Sunday being 0. */
  lemma KnownDays()
    ensures forall i :: 0 <= i < 12 ==>
              Weekday(DayNumber(Date(2024, i + 1, 1))) == [1, 4, 5, 1, 3, 6, 1, 4, 0, 2, 5, 0][i]
  {
    assert BeforeYear(2024) == 738885 && Leap(2024);
    hide BeforeYear, BeforeMonth, Leap, Weekday;
    FirstOfMonth(2024);
    forall i | 0 <= i < 12
      ensures Weekday(DayNumber(Date(2024, i + 1, 1))) == [1, 4, 5, 1, 3, 6, 1, 4, 0, 2, 5, 0][i]
    {
      WeekdaysFrom(i);
    }
  }

  lemma WeekdaysFrom(i: nat)
    requires i < 12
    ensures Weekday(738885 + [0, 31, 60, 91, 121, 152, 182, 213, 244, 274, 305, 335][i])
            == [1, 4, 5, 1, 3, 6, 1, 4, 0, 2, 5, 0][i]
  {}

  /** February in the four kinds of years. */
  lemma KnownFebruaries()
    ensures RealDate(Date(2024, 2, 29)) && RealDate(Date(2000, 2, 29)) && !RealDate(Date(2024, 2, 30))
    ensures !RealDate(Date(2023, 2, 29)) && !RealDate(Date(1900, 2, 29)) && RealDate(Date(1900, 2, 28))
  {}

  lemma FirstOfMonth(y: int)
    requires Leap(y)
    ensures forall i :: 0 <= i < 12 ==>
              BeforeMonth(y, i + 1) == [0, 31, 60, 91, 121, 152, 182, 213, 244, 274, 305, 335][i]
  {
    hide Leap;
    assert BeforeMonth(y, 2) == 31 && BeforeMonth(y, 3) == 60 && BeforeMonth(y, 4) == 91;
    assert BeforeMonth(y, 5) == 121 && BeforeMonth(y, 6) == 152 && BeforeMonth(y, 7) == 182;
    assert BeforeMonth(y, 8) == 213 && BeforeMonth(y, 9) == 244 && BeforeMonth(y, 10) == 274;
    assert BeforeMonth(y, 11) == 305 && BeforeMonth(y, 12) == 335;
  }

  /** Time.AddDate for whole years: a 29 February that does not exist becomes the 1 March. */
  function AddYears(day: int, years: int): int {
    var d := DateOf(day);
    DayNumber(Date(d.year + years, d.month, d.day))
  }

  lemma LeapShiftsMonths(y: int, z: int, m: int)
    requires 1 <= m <= 12
    ensures BeforeMonth(y, m) - BeforeMonth(z, m) == if m <= 2 || Leap(y) == Leap(z) then 0 else if Leap(y) then 1 else -1
    decreases m
  {
    if m > 1 { LeapShiftsMonths(y, z, m - 1); }
  }

  function LeapDays(y: int): int { if Leap(y) then 1 else 0 }

  lemma FewLeapYears(y: int)
    ensures LeapDays(y) + LeapDays(y + 1) + LeapDays(y + 2) + LeapDays(y + 3) + LeapDays(y + 4) <= 2
  {
    hide Leap;
    LeapIsFourth(y);
    LeapIsFourth(y + 1);
    LeapIsFourth(y + 2);
    LeapIsFourth(y + 3);
    LeapIsFourth(y + 4);
    assert (y + 1) % 4 == (y % 4 + 1) % 4;
  }

  lemma LeapIsFourth(y: int)
    ensures Leap(y) ==> y % 4 == 0
  {}

  /** Five years are 1825 to 1827 days. */
  lemma FiveYears(day: int)
    ensures 1825 <= AddYears(day, 5) - day <= 1827
  {
    hide BeforeYear, YearOf, BeforeMonth, Leap, DateOf;
    DayOfItsDate(day);
    var d := DateOf(day);
    var y := d.year;
    FewLeapYears(y);
    FewLeapYears(y + 1);
    YearLength(y);
    YearLength(y + 1);
    YearLength(y + 2);
    YearLength(y + 3);
    YearLength(y + 4);
    LeapShiftsMonths(y + 5, y, d.month);
  }
}
