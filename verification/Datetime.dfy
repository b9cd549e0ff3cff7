/** The calendar conversions of libs/resea/datetime.c. */
module Datetime {
  import opened Common

  const EPOCH := 1970

  datatype Date = Date(year: nat, month: nat, day: nat, dayOfWeek: nat, hour: nat, minute: nat, second: nat)

  // ---- the calendar --------------------------------------------------------------------

  predicate IsLeap(year: nat) {
    (year % 4 == 0 && year % 100 != 0) || year % 400 == 0
  }

  function YearDays(year: nat): nat {
    if IsLeap(year) then 366 else 365
  }

  function MonthDays(year: nat, month: nat): (n: nat)
    requires 1 <= month <= 12
    ensures 28 <= n <= 31
  {
    if month == 2 then (if IsLeap(year) then 29 else 28)
    else if month == 4 || month == 6 || month == 9 || month == 11 then 30
    else 31
  }

  /** Days from 1970 to the beginning of a year. */
  function DaysBefore(year: nat): nat
    requires year >= EPOCH
    decreases year
  {
    if year == EPOCH then 0 else DaysBefore(year - 1) + YearDays(year - 1)
  }

  /** Days from the beginning of a year to that of a month; month 13 stands for the end of the year. */
  function MonthStart(year: nat, month: nat): nat
    requires 1 <= month <= 13
  {
    if month == 1 then 0 else MonthStart(year, month - 1) + MonthDays(year, month - 1)
  }

  /** A day and a time of some year, whatever the day of the week says. */
  predicate OnCalendar(d: Date) {
    && 1 <= d.month <= 12 && 1 <= d.day <= MonthDays(d.year, d.month)
    && d.hour < 24 && d.minute < 60 && d.second < 60
  }

  predicate IsDate(d: Date) {
    OnCalendar(d) && d.year >= EPOCH
  }

  /** Days from 1 January 1970 to the date. */
  function DayNumber(d: Date): nat
    requires IsDate(d)
  {
    DaysBefore(d.year) + MonthStart(d.year, d.month) + d.day - 1
  }

  /** Seconds from the beginning of 1970. */
  function Seconds(d: Date): nat
    requires IsDate(d)
  {
    ((DayNumber(d) * 24 + d.hour) * 60 + d.minute) * 60 + d.second
  }

  /** 1 January 1970 was a Thursday; Sunday is day 1. */
  function Weekday(dayNumber: nat): nat {
    (dayNumber + 4) % 7 + 1
  }

  lemma {:induction false} YearsGrow(a: nat, b: nat)
    requires EPOCH <= a < b
    ensures DaysBefore(a) + YearDays(a) <= DaysBefore(b)
  {
    if a + 1 < b { YearsGrow(a, b - 1); }
  }

  lemma {:induction false} MonthsGrow(year: nat, a: nat, b: nat)
    requires 1 <= a < b <= 13
    ensures MonthStart(year, a) + MonthDays(year, a) <= MonthStart(year, b)
  {
    if a + 1 < b { MonthsGrow(year, a, b - 1); }
  }

  /** The months make up the year. */
  lemma YearOfMonths(year: nat)
    ensures MonthStart(year, 13) == YearDays(year)
  {
    assert MonthStart(year, 2) == MonthDays(year, 1);
    assert MonthStart(year, 3) == MonthDays(year, 1) + MonthDays(year, 2);
    assert MonthStart(year, 5) == MonthStart(year, 3) + 61;
    assert MonthStart(year, 7) == MonthStart(year, 5) + 61;
    assert MonthStart(year, 9) == MonthStart(year, 7) + 62;
    assert MonthStart(year, 11) == MonthStart(year, 9) + 61;
  }

  lemma DayInYear(d: Date)
    requires IsDate(d)
    ensures DaysBefore(d.year) <= DayNumber(d) < DaysBefore(d.year) + YearDays(d.year)
  {
    YearOfMonths(d.year);
    MonthsGrow(d.year, d.month, 13);
  }

  /** No two dates have the same number of seconds. */
  lemma SecondsInjective(d: Date, e: Date)
    requires IsDate(d) && IsDate(e) && Seconds(d) == Seconds(e)
    ensures d == e.(dayOfWeek := d.dayOfWeek)
  {
    assert DayNumber(d) == DayNumber(e) && d.hour == e.hour && d.minute == e.minute && d.second == e.second;
    DayInYear(d);
    DayInYear(e);
    if d.year < e.year { YearsGrow(d.year, e.year); }
    if e.year < d.year { YearsGrow(e.year, d.year); }
    if d.month < e.month { MonthsGrow(d.year, d.month, e.month); }
    if e.month < d.month { MonthsGrow(d.year, e.month, d.month); }
  }

  /** The year that a day is in. */
  lemma {:induction false} YearOf(number: nat) returns (year: nat)
    ensures year >= EPOCH && DaysBefore(year) <= number < DaysBefore(year + 1)
  {
    if number == 0 { return EPOCH; }
    year := YearOf(number - 1);
    if number == DaysBefore(year + 1) { year := year + 1; }
  }

  /** The month that a day of a year is in. */
  lemma {:induction false} MonthOf(year: nat, rest: nat, last: nat) returns (month: nat)
    requires 1 <= last <= 12 && rest < MonthStart(year, last + 1)
    ensures 1 <= month <= 12 && MonthStart(year, month) <= rest < MonthStart(year, month) + MonthDays(year, month)
  {
    if rest >= MonthStart(year, last) { return last; }
    month := MonthOf(year, rest, last - 1);
  }

  /** Every number of seconds has a date. */
  lemma SecondsSurjective(n: nat)
    ensures exists d :: IsDate(d) && Seconds(d) == n
  {
    var number := n / 60 / 60 / 24;
    var year := YearOf(number);
    YearOfMonths(year);
    var month := MonthOf(year, number - DaysBefore(year), 12);
    var day := number - DaysBefore(year) - MonthStart(year, month) + 1;
    var d := Date(year, month, day, 1, n / 60 / 60 % 24, n / 60 % 60, n % 60);
    assert IsDate(d) && DayNumber(d) == number && Seconds(d) == n;
  }

  // ---- datetime_to_timestamp() ----------------------------------------------------------

  /** The leap days of the years before. */
  function LeapDays(year: nat): nat
    requires year >= EPOCH
    decreases year
  {
    if year == EPOCH then 0 else LeapDays(year - 1) + if IsLeap(year - 1) then 1 else 0
  }

  lemma {:induction false} DaysAndLeapDays(year: nat)
    requires year >= EPOCH
    ensures DaysBefore(year) == (year - EPOCH) * 365 + LeapDays(year)
  {
    if year > EPOCH { DaysAndLeapDays(year - 1); }
  }

  /** The leap years that the loop over i meets, which computes i + 1970 in 32 bits. */
  function LeapsMet(i: nat): nat {
    if i == 0 then 0 else LeapsMet(i - 1) + if IsLeap((i - 1 + EPOCH) % MODULUS) then 1 else 0
  }

  lemma {:induction false} LeapsMetAre(i: nat)
    requires i + EPOCH <= MODULUS
    ensures LeapsMet(i) == LeapDays(EPOCH + i)
  {
    if i > 0 {
      LeapsMetAre(i - 1);
      assert (i - 1 + EPOCH) % MODULUS == i - 1 + EPOCH;
    }
  }

  lemma {:induction false} LeapsMetGrow(i: nat, j: nat)
    requires i <= j
    ensures LeapsMet(i) <= LeapsMet(j)
    decreases j
  {
    if i < j { LeapsMetGrow(i, j - 1); }
  }

  lemma {:induction false} LeapsMetSlow(i: nat, j: nat)
    requires i <= j
    ensures LeapsMet(j) <= LeapsMet(i) + (j - i)
    decreases j
  {
    if i < j { LeapsMetSlow(i, j - 1); }
  }

  lemma FewLeapsMet(year: nat)
    requires year < MODULUS
    ensures LeapsMet(year) < 0x4000_0000
  {
    var most := MODULUS - EPOCH;
    if year <= most { LeapsMetGrow(year, most); } else { LeapsMetSlow(most, year); }
    LeapsMetAre(most);
    LeapDaysClosed(MODULUS);
    assert LeapYearsTo(MODULUS - 1) - LeapYearsTo(EPOCH - 1) == 1041529092;
  }

  /**
   The year is counted from 1970 in 32 bits, and so is the first term; the rest is computed in 64 bits.  The
   result is right for the years 1970 to 2106 and no others; a date before 1970 comes out as one after 2106.
   */
  method ToTimestamp(d: Date) returns (t: nat)
    requires OnCalendar(d) && d.year < MODULUS
    ensures d.year >= EPOCH ==>
            t == Seconds(d) - (d.year - EPOCH) * (365 * 86400) + (d.year - EPOCH) * (365 * 86400) % MODULUS
    ensures d.year >= EPOCH ==> (t == Seconds(d) <==> d.year <= 2106)
    ensures d.year < EPOCH ==> t >= END_OF_2106
    ensures t / 86400 < LAST_YEAR_STARTS
  {
    var year := (d.year - EPOCH) % MODULUS;
    ghost var product := year * (365 * 86400) % MODULUS;
    t := year * (365 * 86400) % MODULUS;
    for i := 0 to year
      invariant t == product + 86400 * LeapsMet(i)
    {
      if IsLeap((i + EPOCH) % MODULUS) { t := t + 86400; }
    }
    ghost var base := t;
    YearComesBack(d.year);
    for i := 1 to d.month
      invariant t == base + 86400 * MonthStart(d.year, i)
    {
      t := t + 86400 * MonthDays((year + EPOCH) % MODULUS, i);
    }
    t := t + (d.day - 1) * 86400 + d.hour * 3600 + d.minute * 60 + d.second;
    FewLeapsMet(year);
    YearOfMonths(d.year);
    MonthsGrow(d.year, d.month, 13);
    if d.year >= EPOCH {
      YearFits(d.year);
      StampFrom1970(d, product, t);
    } else {
      YearWraps(d.year);
      ManyLeapsMet(year);
    }
  }

  lemma YearFits(year: nat)
    requires EPOCH <= year < MODULUS
    ensures (year - EPOCH) % MODULUS == year - EPOCH
  {
  }

  lemma YearWraps(year: nat)
    requires year < EPOCH
    ensures (year - EPOCH) % MODULUS == MODULUS - EPOCH + year
  {
  }

  /** The year that the two loops see is the year of the date. */
  lemma YearComesBack(year: nat)
    requires year < MODULUS
    ensures ((year - EPOCH) % MODULUS + EPOCH) % MODULUS == year
  {
    if year < EPOCH { YearWraps(year); } else { YearFits(year); }
  }

  /** The terms that datetime_to_timestamp() adds up, for a date from 1970 on. */
  lemma StampFrom1970(d: Date, product: nat, t: nat)
    requires IsDate(d) && d.year < MODULUS && product == (d.year - EPOCH) * (365 * 86400) % MODULUS
    requires t == product + 86400 * LeapsMet(d.year - EPOCH) + 86400 * MonthStart(d.year, d.month)
                  + (d.day - 1) * 86400 + d.hour * 3600 + d.minute * 60 + d.second
    ensures t == Seconds(d) - (d.year - EPOCH) * (365 * 86400) + product
    ensures t == Seconds(d) <==> d.year <= 2106
  {
    var years := d.year - EPOCH;
    LeapsMetAre(years);
    DaysAndLeapDays(d.year);
    SecondsAre(d, years, LeapDays(d.year));
    ProductFits(years);
  }

  lemma SecondsAre(d: Date, years: nat, leaps: nat)
    requires IsDate(d) && DaysBefore(d.year) == years * 365 + leaps
    ensures Seconds(d) == years * (365 * 86400) + 86400 * leaps + 86400 * MonthStart(d.year, d.month)
                          + (d.day - 1) * 86400 + d.hour * 3600 + d.minute * 60 + d.second
  {
  }

  /** A year before 1970 makes the loop run through more leap years than 32 bits of seconds have days. */
  lemma ManyLeapsMet(year: nat)
    requires year >= MODULUS - EPOCH
    ensures 86400 * LeapsMet(year) >= END_OF_2106
  {
    var most := MODULUS - EPOCH;
    LeapsMetGrow(most, year);
    LeapsMetAre(most);
    LeapDaysClosed(MODULUS);
    assert LeapYearsTo(MODULUS - 1) - LeapYearsTo(EPOCH - 1) == 1041529092;
  }

  lemma ProductFits(years: nat)
    ensures years * (365 * 86400) % MODULUS == years * (365 * 86400) <==> years <= 136
  {
  }

  // ---- timestamp_to_datetime() ----------------------------------------------------------

  /** The last year that begins before its first day overflows 32 bits, and that day. */
  const LAST_YEAR := 11761191
  const LAST_YEAR_STARTS := 4294967276

  lemma LastYearStarts()
    ensures DaysBefore(LAST_YEAR) == LAST_YEAR_STARTS && DaysBefore(LAST_YEAR + 1) == MODULUS + 345
  {
    var year := LAST_YEAR;
    DaysAndLeapDays(year);
    LeapDaysClosed(year);
    assert LeapYearsTo(year - 1) == 2852088 && LeapYearsTo(EPOCH - 1) == 477;
    assert DaysBefore(year + 1) == DaysBefore(year) + YearDays(year);
  }

  /** The day counter of the loop in year y. */
  function DayCounter(y: nat): nat
    requires y >= EPOCH
  {
    DaysBefore(y + 1) % MODULUS
  }

  /** The loop over the years ends in year y. */
  ghost predicate EndsIn(number: nat, y: nat)
    requires y >= EPOCH
  {
    DayCounter(y) > number && forall z :: EPOCH <= z < y ==> DayCounter(z) <= number
  }

  /**
   The loop over the years ends in the year of the day exactly if that is not the year in which its counter
   overflows, or later.
   */
  lemma EndsIffBefore(number: nat, y: nat)
    requires y >= EPOCH && DaysBefore(y) <= number < DaysBefore(y + 1)
    ensures EndsIn(number, y) <==> number < LAST_YEAR_STARTS
  {
    LastYearStarts();
    if number < LAST_YEAR_STARTS {
      if y >= LAST_YEAR { NotBefore(LAST_YEAR, y); }
      NotBefore(y + 1, LAST_YEAR);
      forall z | EPOCH <= z < y ensures DayCounter(z) <= number { NotBefore(z + 1, y); }
    } else if y == LAST_YEAR {
      assert DayCounter(y) == 345;
    } else {
      if y < LAST_YEAR { NotBefore(y + 1, LAST_YEAR); } else { NotBefore(LAST_YEAR + 1, y); }
    }
  }

  lemma NotBefore(a: nat, b: nat)
    requires EPOCH <= a <= b
    ensures DaysBefore(a) <= DaysBefore(b)
  {
    if a < b { YearsGrow(a, b); }
  }

  /** Up to the year of such a day the counter does not overflow. */
  lemma NoOverflow(year: nat, number: nat)
    requires year >= EPOCH && DaysBefore(year) <= number < LAST_YEAR_STARTS
    ensures DaysBefore(year + 1) < MODULUS
  {
    LastYearStarts();
    if year >= LAST_YEAR { NotBefore(LAST_YEAR, year); }
    NotBefore(year + 1, LAST_YEAR);
  }

  /** Right for every day before the year in which the day counter overflows. */
  method ToDate(epoch: nat) returns (d: Date)
    requires epoch / 86400 < LAST_YEAR_STARTS
    ensures IsDate(d) && Seconds(d) == epoch && d.dayOfWeek == Weekday(DayNumber(d))
  {
    var second, rest := epoch % 60, epoch / 60;
    var minute := rest % 60;
    rest := rest / 60;
    var hour := rest % 24;
    rest := rest / 24;
    ghost var number: nat := rest;
    var dayOfWeek := (rest + 4) % 7 + 1;
    var year, day := EPOCH, YearDays(EPOCH);
    while day <= rest
      invariant year >= EPOCH && day == DaysBefore(year) + YearDays(year) && DaysBefore(year) <= rest
      decreases rest + 366 - day
    {
      year := year + 1;
      NoOverflow(year, number);
      assert day + YearDays(year) == DaysBefore(year + 1);
      day := (day + YearDays(year)) % MODULUS;
    }
    rest := rest - (day - YearDays(year));
    YearOfMonths(year);
    var month := 1;
    while month <= 12 && rest >= MonthDays(year, month)
      invariant 1 <= month <= 13 && rest >= 0
                && rest + MonthStart(year, month) == number - DaysBefore(year) < YearDays(year)
      decreases 13 - month
    {
      rest := rest - MonthDays(year, month);
      month := month + 1;
    }
    d := Date(year, month, rest + 1, dayOfWeek, hour, minute, second);
  }

  // ---- both -------------------------------------------------------------------------------

  /** The Gregorian rule counts the leap years up to n. */
  function LeapYearsTo(n: nat): int {
    n / 4 - n / 100 + n / 400
  }

  lemma {:induction false} LeapDaysClosed(year: nat)
    requires year >= EPOCH
    ensures LeapDays(year) == LeapYearsTo(year - 1) - LeapYearsTo(EPOCH - 1)
  {
    if year > EPOCH {
      LeapDaysClosed(year - 1);
      LeapYearsStep(year - 1);
    }
  }

  lemma LeapYearsStep(n: nat)
    requires n > 0
    ensures LeapYearsTo(n) - LeapYearsTo(n - 1) == if IsLeap(n) then 1 else 0
  {
    DivStep(n, 4);
    DivStep(n, 100);
    DivStep(n, 400);
    Hundreds(n);
  }

  lemma Hundreds(n: nat)
    ensures (n % 400 == 0 ==> n % 100 == 0) && (n % 100 == 0 ==> n % 4 == 0)
  {
    if n % 400 == 0 { Multiple100(n / 400 * 4); }
    if n % 100 == 0 { Multiple4(n / 100 * 25); }
  }

  lemma Multiple100(k: nat)
    ensures k * 100 % 100 == 0
  {
  }

  lemma Multiple4(k: nat)
    ensures k * 4 % 4 == 0
  {
  }

  lemma DivStep(n: nat, m: nat)
    requires n > 0 && (m == 4 || m == 100 || m == 400)
    ensures n / m - (n - 1) / m == if n % m == 0 then 1 else 0
  {
  }

  /** The first second of 2107, the first year whose product needs more than 32 bits. */
  const END_OF_2106: nat := 4323283200

  lemma YearAndSeconds(d: Date)
    requires IsDate(d)
    ensures Seconds(d) < END_OF_2106 <==> d.year <= 2106
  {
    YearAndDays(d, 2107);
    assert 137 * 365 + LeapYearsTo(2106) - LeapYearsTo(1969) == 50038;
  }

  /** The days before a year in closed form bound the dates before it. */
  lemma YearAndDays(d: Date, year: nat)
    requires IsDate(d) && year >= EPOCH
    ensures DayNumber(d) < (year - EPOCH) * 365 + LeapYearsTo(year - 1) - LeapYearsTo(EPOCH - 1) <==> d.year < year
  {
    DayInYear(d);
    DaysAndLeapDays(year);
    LeapDaysClosed(year);
    if d.year < year { YearsGrow(d.year, year); } else if d.year > year { YearsGrow(year, d.year); }
  }

  /** From a date through seconds and back. */
  method DateRoundTrip(d: Date) returns (e: Date)
    requires OnCalendar(d) && d.year < MODULUS
    ensures IsDate(e) && e.dayOfWeek == Weekday(DayNumber(e))
    ensures e == d.(dayOfWeek := e.dayOfWeek) <==> EPOCH <= d.year <= 2106
  {
    var t := ToTimestamp(d);
    e := ToDate(t);
    YearAndSeconds(e);
    if d.year >= EPOCH && t == Seconds(d) { SecondsInjective(d, e); }
  }

  /** From seconds through a date and back. */
  method TimestampRoundTrip(t: nat) returns (u: nat)
    requires t / 86400 < LAST_YEAR_STARTS
    ensures u == t <==> t < END_OF_2106
  {
    var d := ToDate(t);
    YearAndSeconds(d);
    LastYearStarts();
    DayInYear(d);
    if d.year >= LAST_YEAR { NotBefore(LAST_YEAR, d.year); }
    u := ToTimestamp(d);
  }
}
