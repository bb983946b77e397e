/**
 The Gregorian calendar by a closed formula, without tables of months or leap years, and that the
 calendar of Datetime is this one.
 */
module Gregorian {
  import opened NonLinear
  import opened Datetime

  /** Leap days of the years 1 to y. */
  function LeapDays(y: nat): int {
    y / 4 - y / 100 + y / 400
  }

  /**
   The number of a day of the Gregorian calendar, counted from 1 January 2000, by the well-known
   closed formula: years begin in March, so that a leap day is the last of its year, and from
   March on the months alternate so that five of them have 153 days.
   */
  function CivilDay(year: nat, month: nat, date: int): int
    requires year >= 1 && 1 <= month <= 12
  {
    var y := if month <= 2 then year - 1 else year;
    var m := if month <= 2 then month + 9 else month - 3;
    365 * y + LeapDays(y) + (153 * m + 2) / 5 + date - 730426
  }

  /** The first day of the month after. */
  function NextMonth(year: nat, month: nat): int
    requires year >= 1 && 1 <= month <= 12
  {
    if month == 12 then CivilDay(year + 1, 1, 1) else CivilDay(year, month + 1, 1)
  }

  // ---------------------------------------------------------------- leap years

  lemma NextQuotient(y: nat, p: nat)
    requires p > 1
    ensures Quot(y + 1, p) == Quot(y, p) + if Rest(y + 1, p) == 0 then 1 else 0
  {
    var q, r := y / p, y % p;
    assert y == p * q + r;
    if r + 1 < p {
      DivMod(p, q, r + 1);
    } else {
      DivMod(p, q + 1, 0);
      assert p * (q + 1) == p * q + p;
    }
  }

  lemma Multiples(n: nat)
    ensures Rest(n, 400) == 0 ==> Rest(n, 100) == 0
    ensures Rest(n, 100) == 0 ==> Rest(n, 4) == 0
  {
    if n % 400 == 0 {
      DivMod(100, 4 * (n / 400), 0);
    }
    if n % 100 == 0 {
      DivMod(4, 25 * (n / 100), 0);
    }
  }

  predicate IsLeapYear(year: nat) {
    Rest(year, 4) == 0 && (Rest(year, 100) != 0 || Rest(year, 400) == 0)
  }

  lemma LeapDaysMean(y: nat)
    ensures LeapDays(y) == Quot(y, 4) - Quot(y, 100) + Quot(y, 400)
  {
  }

  lemma LeapDayOf(y: nat)
    ensures LeapDays(y + 1) == LeapDays(y) + if IsLeapYear(y + 1) then 1 else 0
  {
    hide Quot, Rest, LeapDays;
    NextQuotient(y, 4);
    NextQuotient(y, 100);
    NextQuotient(y, 400);
    Multiples(y + 1);
    LeapDaysMean(y);
    LeapDaysMean(y + 1);
  }

  lemma LeapYearIs(year: nat)
    ensures IsLeapYear(2000 + year) == IsLeap(year)
  {
  }

  lemma FebruaryIs(year: nat)
    ensures DaysInFeb(year) == if IsLeapYear(2000 + year) then 29 else 28
    ensures DaysInYear(year) == if IsLeapYear(2000 + year) then 366 else 365
  {
    hide IsLeap, IsLeapYear;
    LeapYearIs(year);
  }

  lemma {:induction false} YearStartIs(year: nat)
    ensures YearStart(year) == 365 * year + LeapDays(1999 + year) - 484
  {
    hide LeapDays, IsLeapYear, DaysInYear;
    if year > 0 {
      YearStartIs(year - 1);
      LeapDayOf(1999 + year - 1);
      FebruaryIs(year - 1);
    } else {
      BeforeStart();
    }
  }

  lemma BeforeStart()
    ensures LeapDays(1999) == 484
  {
  }

  // ---------------------------------------------------------------- months

  /** The days from 1 March to the first of a month. */
  function SinceMarch(month: nat): (d: nat)
    requires 1 <= month <= 12
    ensures d == if month == 1 then 306 else if month == 2 then 337 else if month == 3 then 0 else if month == 4 then 31
                 else if month == 5 then 61 else if month == 6 then 92 else if month == 7 then 122 else if month == 8 then 153
                 else if month == 9 then 184 else if month == 10 then 214 else if month == 11 then 245 else 275
  {
    (153 * (if month <= 2 then month + 9 else month - 3) + 2) / 5
  }

  lemma CivilDayIs(year: nat, month: nat, date: int)
    requires year >= 1 && 1 <= month <= 12
    ensures month <= 2 ==> CivilDay(year, month, date) == 365 * (year - 1) + LeapDays(year - 1) + SinceMarch(month) + date - 730426
    ensures month > 2 ==> CivilDay(year, month, date) == 365 * year + LeapDays(year) + SinceMarch(month) + date - 730426
  {
    hide LeapDays;
  }

  lemma MonthStartIs(year: nat, month: nat)
    requires 1 <= month <= 12
    ensures month == 1 ==> MonthStart(year, month) == 0
    ensures month == 2 ==> MonthStart(year, month) == 31
    ensures month > 2 ==> MonthStart(year, month) == 31 + DaysInFeb(year) + SinceMarch(month)
  {
    hide SinceMarch, DaysInFeb;
    assert MonthStart(year, 2) == 31;
    assert MonthStart(year, 3) == 31 + DaysInFeb(year);
    if month > 3 {
      MonthStartIs(year, month - 1);
    }
  }

  lemma MonthBeginsIs(year: nat, month: nat)
    requires 1 <= month <= 12
    ensures YearStart(year) + MonthStart(year, month) == CivilDay(2000 + year, month, 1)
  {
    hide YearStart, MonthStart, LeapDays, CivilDay, SinceMarch, DaysInFeb, IsLeapYear;
    YearStartIs(year);
    MonthStartIs(year, month);
    FebruaryIs(year);
    LeapDayOf(1999 + year);
    CivilDayIs(2000 + year, month, 1);
    SinceMarchBegins();
  }

  lemma SinceMarchBegins()
    ensures SinceMarch(1) == 306 && SinceMarch(2) == 337
  {
  }

  lemma SameMonthDays(year: nat, month: nat, date: int)
    requires year >= 1 && 1 <= month <= 12
    ensures CivilDay(year, month, date) == CivilDay(year, month, 1) + date - 1
  {
    hide LeapDays;
  }

  /** Day numbers are those of the Gregorian calendar, and so are seconds. */
  lemma SecondsAreCivil(t: Time)
    requires t.year >= 0 && 1 <= t.month <= 12
    ensures DayNumber(t) == CivilDay(2000 + t.year, t.month, t.date)
    ensures Seconds(t) == 86400 * CivilDay(2000 + t.year, t.month, t.date) + 3600 * t.hour + 60 * t.minute + t.second
  {
    MonthBeginsIs(t.year, t.month);
    SameMonthDays(2000 + t.year, t.month, t.date);
    hide YearStart, MonthStart, CivilDay;
  }

  lemma MonthsAre(month: nat, f: int)
    requires 1 <= month <= 12 && 28 <= f <= 29
    ensures DaysInMonth(month, f)
            == if month == 2 then f else if month == 4 || month == 6 || month == 9 || month == 11 then 30 else 31
  {
  }

  /** Months are as long as in the Gregorian calendar: thirty days have April, June, September and November. */
  lemma MonthLengthIsCivil(year: nat, month: nat)
    requires 1 <= month <= 12
    ensures DaysInMonth(month, DaysInFeb(year)) == NextMonth(2000 + year, month) - CivilDay(2000 + year, month, 1)
    ensures DaysInMonth(month, DaysInFeb(year))
            == if month == 4 || month == 6 || month == 9 || month == 11 then 30
               else if month != 2 then 31
               else if (2000 + year) % 4 == 0 && ((2000 + year) % 100 != 0 || (2000 + year) % 400 == 0) then 29
               else 28
  {
    FebruaryIs(year);
    MonthsAre(month, DaysInFeb(year));
    NextMonthIs(year, month);
    hide LeapDays, CivilDay, DaysInFeb, DaysInMonth, NextMonth;
  }

  lemma NextMonthIs(year: nat, month: nat)
    requires 1 <= month <= 12
    ensures NextMonth(2000 + year, month) - CivilDay(2000 + year, month, 1)
            == if month == 2 then if IsLeapYear(2000 + year) then 29 else 28
               else if month == 4 || month == 6 || month == 9 || month == 11 then 30 else 31
  {
    hide LeapDays, CivilDay, IsLeapYear;
    LeapDayOf(1999 + year);
    CivilDayIs(2000 + year, month, 1);
    CivilDayIs(2001 + year, 1, 1);
    if month < 12 {
      CivilDayIs(2000 + year, month + 1, 1);
    }
  }

  /** A time is normal exactly if it names a second of a day of the 256 years from 2000 on. */
  lemma NormalExactlyIf(t: Time)
    ensures Normal(t) <==>
              && 0 <= t.second < 60 && 0 <= t.minute < 60 && 0 <= t.hour < 24 && 0 <= t.year < 256 && 1 <= t.month <= 12
              && CivilDay(2000 + t.year, t.month, 1) <= CivilDay(2000 + t.year, t.month, t.date) < NextMonth(2000 + t.year, t.month)
  {
    if t.year >= 0 && 1 <= t.month <= 12 {
      MonthLengthIsCivil(t.year, t.month);
      SameMonthDays(2000 + t.year, t.month, t.date);
      hide CivilDay, NextMonth, DaysInMonth;
    }
  }
}
