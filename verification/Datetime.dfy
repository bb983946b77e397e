/** Calendar arithmetic: realigning a date whose fields are out of range, and time zones. */
module Datetime {
  import opened NonLinear

  /** Division as div() does it, toward zero. */
  function DivQuot(a: int, b: int): int
    requires b > 0
  {
    if a >= 0 then a / b else -(-a / b)
  }

  function DivRem(a: int, b: int): int
    requires b > 0
  {
    a - b * DivQuot(a, b)
  }

  // ---------------------------------------------------------------- the calendar

  predicate IsLeap(year: int) {
    (year + 2000) % 4 == 0 && ((year + 2000) % 100 != 0 || (year + 2000) % 400 == 0)
  }

  function DaysInYear(year: int): int {
    if IsLeap(year) then 366 else 365
  }

  const DAYS_IN_MONTH: seq<int> := [31, 28, 31, 30, 31, 30, 31, 31, 30, 31, 30, 31]

  function DaysInMonth(month: int, daysInFeb: int): (d: int)
    requires 1 <= month <= 12 && 28 <= daysInFeb <= 29
    ensures 28 <= d <= 31
  {
    if month == 2 then daysInFeb else DAYS_IN_MONTH[month - 1]
  }

  function DaysInFeb(year: int): (d: int)
    ensures 28 <= d <= 29
  {
    if DaysInYear(year) == 366 then 29 else 28
  }

  /** Days from the beginning of 2000 to the beginning of the year. */
  function YearStart(year: nat): int {
    if year == 0 then 0 else YearStart(year - 1) + DaysInYear(year - 1)
  }

  /** Days from the beginning of the year to the beginning of the month. */
  function MonthStart(year: nat, month: nat): int
    requires 1 <= month <= 13
  {
    if month == 1 then 0 else MonthStart(year, month - 1) + DaysInMonth(month - 1, DaysInFeb(year))
  }

  lemma {:induction false} YearIsTwelveMonths(year: nat)
    ensures MonthStart(year, 13) == DaysInYear(year)
  {
    var f := DaysInFeb(year);
    assert MonthStart(year, 2) == 31 && MonthStart(year, 3) == 31 + f && MonthStart(year, 4) == 62 + f;
    assert MonthStart(year, 5) == 92 + f && MonthStart(year, 6) == 123 + f && MonthStart(year, 7) == 153 + f;
    assert MonthStart(year, 8) == 184 + f && MonthStart(year, 9) == 215 + f && MonthStart(year, 10) == 245 + f;
    assert MonthStart(year, 11) == 276 + f && MonthStart(year, 12) == 306 + f;
  }

  /** Date and time; day is the day of the week. */
  datatype Time = Time(hour: int, minute: int, second: int, day: int, date: int, month: int, year: int)

  /** The number of the day, whatever the date. */
  function DayNumber(t: Time): int
    requires t.year >= 0 && 1 <= t.month <= 12
  {
    YearStart(t.year) + MonthStart(t.year, t.month) + t.date - 1
  }

  /** Seconds since the beginning of 2000, with fields that may be out of range. */
  function Seconds(t: Time): int
    requires t.year >= 0 && 1 <= t.month <= 12
  {
    ((DayNumber(t) * 24 + t.hour) * 60 + t.minute) * 60 + t.second
  }

  predicate Normal(t: Time) {
    && 0 <= t.second < 60 && 0 <= t.minute < 60 && 0 <= t.hour < 24
    && 0 <= t.year < 256 && 1 <= t.month <= 12 && 1 <= t.date <= DaysInMonth(t.month, DaysInFeb(t.year))
  }

  lemma {:induction false} MonthsGrow(year: nat, m: nat, n: nat)
    requires 1 <= m < n <= 13
    ensures MonthStart(year, m) + DaysInMonth(m, DaysInFeb(year)) <= MonthStart(year, n)
    decreases n
  {
    if m + 1 < n {
      MonthsGrow(year, m, n - 1);
    }
  }

  lemma {:induction false} YearsGrow(y: nat, z: nat)
    requires y < z
    ensures YearStart(y) + DaysInYear(y) <= YearStart(z)
    decreases z
  {
    if y + 1 < z {
      YearsGrow(y, z - 1);
    }
  }

  lemma DayInYear(t: Time)
    requires Normal(t)
    ensures YearStart(t.year) <= DayNumber(t) < YearStart(t.year) + DaysInYear(t.year)
  {
    MonthsGrow(t.year, t.month, 13);
    YearIsTwelveMonths(t.year);
    if t.month > 1 {
      MonthsGrow(t.year, 1, t.month);
    }
    hide YearStart;
  }

  lemma SameYear(t: Time, u: Time)
    requires Normal(t) && Normal(u) && DayNumber(t) == DayNumber(u)
    ensures t.year >= u.year
  {
    DayInYear(t);
    DayInYear(u);
    hide YearStart, DayNumber;
    if t.year < u.year {
      YearsGrow(t.year, u.year);
    }
  }

  lemma SameMonth(t: Time, u: Time)
    requires Normal(t) && Normal(u) && DayNumber(t) == DayNumber(u) && t.year == u.year
    ensures t.month >= u.month
  {
    hide YearStart, MonthStart;
    if t.month < u.month {
      MonthsGrow(t.year, t.month, u.month);
    }
  }

  /** Two normal times at the same second are the same time. */
  lemma SecondsAreUnique(t: Time, u: Time)
    requires Normal(t) && Normal(u) && Seconds(t) == Seconds(u) && t.day == u.day
    ensures t == u
  {
    assert DayNumber(t) == DayNumber(u) && t.hour == u.hour && t.minute == u.minute && t.second == u.second by {
      hide DayNumber;
    }
    SameYear(t, u);
    SameYear(u, t);
    SameMonth(t, u);
    SameMonth(u, t);
    hide YearStart, MonthStart;
  }

  // ---------------------------------------------------------------- fields of eight bits

  predicate Fits8(v: int) {
    -128 <= v < 128
  }

  /** The year field is unsigned. */
  function Cut8u(v: int): (r: int)
    ensures 0 <= r < 256 && (0 <= v < 256 ==> r == v)
  {
    v % 256
  }

  function Cut8(v: int): (r: int)
    ensures Fits8(r) && (Fits8(v) ==> r == v)
    ensures -256 <= v < 256 ==> r == v || r == v - 256 || r == v + 256
  {
    (v + 128) % 256 - 128
  }

  /** What the types of the fields say. */
  predicate FieldsFit(t: Time) {
    Fits8(t.hour) && Fits8(t.minute) && Fits8(t.second) && Fits8(t.date) && Fits8(t.month) && 0 <= t.year < 256
  }

  /** Carrying seconds, minutes and hours into the date leaves no field's range on the way. */
  predicate Roomy(t: Time) {
    var minute := t.minute + t.second / 60;
    var hour := t.hour + minute / 60;
    Fits8(minute) && Fits8(hour) && Fits8(t.date + hour / 24)
  }

  /** Seconds since the beginning of the day before the first of the month. */
  function InMonth(t: Time): int {
    ((t.date * 24 + t.hour) * 60 + t.minute) * 60 + t.second
  }

  /** Seconds, minutes and hours carried into the date, every sum in eight bits. */
  function Clocked(t: Time): Time {
    var minute := Cut8(t.minute + t.second / 60);
    var hour := Cut8(t.hour + minute / 60);
    t.(second := t.second % 60, minute := minute % 60, hour := hour % 24, date := Cut8(t.date + hour / 24))
  }

  /** The number of years that a month field out of range is worth. */
  function YearsOfMonth(month: int): int {
    if 0 <= month <= 12 then 0 else month / 12
  }

  /** The month in 0 to 12; the year in eight bits. */
  function MonthCarried(t: Time): Time {
    if 0 <= t.month <= 12 then t else t.(month := t.month % 12, year := Cut8u(t.year + YearsOfMonth(t.month)))
  }

  /** What the loops over the months take a time for: month 0 counts as January. */
  function AsRead(t: Time): (r: Time)
    ensures 1 <= r.month <= 12 && (0 <= t.year < 256 ==> 0 <= r.year < 256)
  {
    var c := MonthCarried(t);
    if c.month == 0 then c.(month := 1) else c
  }

  /**
   When no month length is looked up in front of the table: a time in month 1 to 12 must not lie
   before its year; one in month 0 must, but not before the year before.
   */
  predicate Readable(t: Time)
    requires 0 <= t.year < 256
  {
    var r := AsRead(t);
    var s := Seconds(r) - YearStart(r.year) * 86400;
    if MonthCarried(t).month > 0 then s >= 0 else -86400 * DaysInYear(Cut8u(r.year - 1)) <= s < 0
  }

  /** The second that the fields mean when month 0 is the month before January. */
  function MeantSeconds(t: Time): int
    requires 0 <= t.year && 0 <= t.year + YearsOfMonth(t.month) < 256
  {
    Seconds(AsRead(t)) - (if MonthCarried(t).month == 0 then 31 * 86400 else 0)
  }

  /** Carrying costs what the fields that wrap on the way lose. */
  lemma ClockedCosts(t: Time)
    requires FieldsFit(t)
    ensures var c := Clocked(t);
            && FieldsFit(c) && 0 <= c.second < 60 && 0 <= c.minute < 60 && 0 <= c.hour < 24
            && (InMonth(c) == InMonth(t) <==> Roomy(t))
            && -300 * 86400 < InMonth(t) - InMonth(c) < 300 * 86400
            && InMonth(t) - InMonth(c) != 31 * 86400
  {
    hide Cut8, InMonth;
    var c, m := Clocked(t), t.minute + t.second / 60;
    var h := t.hour + Cut8(m) / 60;
    var d := t.date + Cut8(h) / 24;
    LostInAll(t, c, t.second / 60, Cut8(m) / 60, Cut8(h) / 24, m - Cut8(m), h - Cut8(h), d - Cut8(d));
    Losses(m - Cut8(m), h - Cut8(h), d - Cut8(d));
  }

  /** x, y and z are carried on, and e, f and g are lost on the way. */
  lemma LostInAll(t: Time, c: Time, x: int, y: int, z: int, e: int, f: int, g: int)
    requires t.second == 60 * x + c.second && t.minute + x == e + 60 * y + c.minute
    requires t.hour + y == f + 24 * z + c.hour && t.date + z == g + c.date
    ensures InMonth(t) - InMonth(c) == 60 * e + 3600 * f + 86400 * g
  {
  }

  lemma Losses(e: int, f: int, g: int)
    requires (e == 0 || e == 256 || e == -256) && (f == 0 || f == 256 || f == -256) && (g == 0 || g == 256 || g == -256)
    ensures var lost := 60 * e + 3600 * f + 86400 * g;
            && (lost == 0 <==> e == 0 && f == 0 && g == 0)
            && -300 * 86400 < lost < 300 * 86400 && lost != 31 * 86400
  {
  }

  /** Carrying the time of day and reading the month do not interfere. */
  lemma ReadAfterClock(t: Time)
    requires FieldsFit(t)
    ensures var c := Clocked(t);
            && MonthCarried(c).month == MonthCarried(t).month && AsRead(c).year == AsRead(t).year
            && Seconds(AsRead(t)) - Seconds(AsRead(c)) == InMonth(t) - InMonth(c)
            && (Roomy(t) ==> Readable(c) == Readable(t))
  {
    ClockedCosts(t);
    hide Clocked, Roomy, YearStart, MonthStart, Cut8u;
    var c := Clocked(t);
    ClockedKeeps(t);
  }

  lemma ClockedKeeps(t: Time)
    ensures var c := Clocked(t); c.month == t.month && c.year == t.year && c.day == t.day
  {
  }

  /** The seconds of the 256 years that the year field can tell apart. */
  function Era(): int {
    YearStart(256) * 86400
  }

  lemma {:induction false} YearsAreLong(year: nat)
    ensures YearStart(year) >= 365 * year
  {
    if year > 0 {
      YearsAreLong(year - 1);
    }
  }

  lemma EraIsLong()
    ensures Era() > 300 * 86400
  {
    YearsAreLong(256);
    hide YearStart;
  }

  lemma NormalInEra(t: Time)
    requires Normal(t)
    ensures 0 <= Seconds(t) < Era()
  {
    DayInYear(t);
    YearsAreLong(t.year);
    YearsGrow(t.year, 256);
    hide YearStart, MonthStart, DayNumber;
  }

  // ---------------------------------------------------------------- the program

  class TimeInfo {
    var hour: int
    var minute: int
    var second: int
    var day: int
    var date: int
    var month: int
    var year: int

    function State(): Time
      reads this
    {
      Time(hour, minute, second, day, date, month, year)
    }

    constructor (t: Time)
      ensures State() == t
    {
      hour, minute, second, day, date, month, year := t.hour, t.minute, t.second, t.day, t.date, t.month, t.year;
    }

    /** Seconds, minutes and hours into range, carrying into the date. */
    method RealignTimeOfDay()
      requires FieldsFit(State())
      modifies this
      ensures State() == Clocked(old(State())) && FieldsFit(State())
      ensures 0 <= second < 60 && 0 <= minute < 60 && 0 <= hour < 24
      ensures InMonth(State()) == old(InMonth(State())) <==> old(Roomy(State()))
    {
      ClockedCosts(State());
      hide Cut8, Roomy, FieldsFit, InMonth;
      var carry: int;
      carry, second := Carry(second, 60);
      minute := Cut8(minute + carry);
      carry, minute := Carry(minute, 60);
      hour := Cut8(hour + carry);
      carry, hour := Carry(hour, 24);
      date := Cut8(date + carry);
    }

    /** The month into 0 to 12, carrying years. */
    method RealignMonth()
      requires 0 <= year < 256
      modifies this`month, this`year
      ensures State() == MonthCarried(old(State())) && 0 <= month <= 12 && 0 <= year < 256
    {
      hide DivQuot, DivRem, Cut8u;
      if month < 0 || month > 12 {
        DivMeans(month, 12);
        var q := DivQuot(month, 12);
        year := Cut8u(year + q);
        month := DivRem(month, 12);
        if month < 0 {
          OneYearLess(old(year) + q);
          month := month + 12;
          year := Cut8u(year - 1);
          q := q - 1;
        }
        FloorIsUnique(old(month), 12, q, month);
      }
    }

    /** To the month before; the year changes in front of month 0, not of month 1. */
    method StepBack(daysInFeb: int) returns (d: int)
      requires daysInFeb == DaysInFeb(year)
      modifies this`month, this`year
      ensures d == DaysInFeb(year)
      ensures if old(month) == 0 then month == 12 && year == Cut8u(old(year) - 1)
              else month == old(month) - 1 && year == old(year)
    {
      d := daysInFeb;
      month := month - 1;
      if month == -1 {
        year := Cut8u(year - 1);
        month := 12;
        d := FebLength(year);
      }
    }

    /** To the month after; the year field wraps. */
    method StepForward(daysInFeb: int) returns (d: int)
      requires FieldsFit(State()) && 1 <= month <= 12 && daysInFeb == DaysInFeb(year) && date > DaysInMonth(month, daysInFeb)
      modifies this`month, this`year, this`date
      ensures FieldsFit(State()) && 1 <= month <= 12 && 0 < date < old(date) && d == DaysInFeb(year)
      ensures var n := old(DayNumber(State()));
              DayNumber(State()) == n || DayNumber(State()) == n - YearStart(256)
    {
      hide YearStart, MonthStart, DaysInMonth, DaysInFeb;
      ghost var y := year;
      StartOfMonth(year, month + 1);
      d := daysInFeb;
      date := date - DaysInMonth(month, daysInFeb);
      month := month + 1;
      if month > 12 {
        StartOfYear(y);
        ZeroYear();
        year := Cut8u(year + 1);
        month := 1;
        StartOfMonth(year, 1);
        d := FebLength(year);
      }
    }

    /** The loop for a date before the month; base is the year that it moves in. */
    method EarlierMonths(daysInFeb: int, ghost c: Time, ghost base: nat, ghost wraps: int) returns (inBounds: bool)
      requires LoopsIn(c, base, wraps) && State() == MonthCarried(c) && date <= 0 && daysInFeb == DaysInFeb(year)
      modifies this`month, this`year, this`date
      ensures inBounds ==> Normal(State()) && DayNumber(State()) == DayNumber(AsRead(c)) - YearStart(256) * wraps
      ensures inBounds <==> Readable(c)
    {
      hide YearStart, MonthStart, DaysInMonth, DaysInFeb, Readable, Cut8u, IsLeap;
      var february := daysInFeb;
      while date <= 0
        invariant 0 <= month <= 12 && february == DaysInFeb(year)
        invariant month == 0 ==> State() == MonthCarried(c) && date <= 0
        invariant month > 0 ==>
                    && year == base && (date <= 0 || date <= DaysInMonth(month, february))
                    && DayNumber(State()) == DayNumber(AsRead(c)) - YearStart(256) * wraps
        invariant base == year || month == 0
        decreases if month == 0 then 13 else month
      {
        if month > 0 {
          StartOfMonth(year, month);
        } else {
          YearBefore(year, date, base, wraps);
        }
        february := StepBack(february);
        if month < 1 {
          NotReadable(c, base, wraps);
          return false;
        }
        date := date + DaysInMonth(month, february);
      }
      MonthStartIsNat(base, month);
      IsReadable(c, base, wraps);
      inBounds := true;
    }

    /** The loop for a date behind the month. */
    method LaterMonths(daysInFeb: int) returns (ghost wraps: nat)
      requires FieldsFit(State()) && 1 <= month <= 12 && date > 0 && daysInFeb == DaysInFeb(year)
      modifies this`month, this`year, this`date
      ensures FieldsFit(State()) && 1 <= month <= 12 && 0 < date <= DaysInMonth(month, DaysInFeb(year))
      ensures DayNumber(State()) == old(DayNumber(State())) - YearStart(256) * wraps
    {
      hide YearStart, MonthStart, DaysInMonth, DaysInFeb, Cut8u, IsLeap;
      wraps := 0;
      var february := daysInFeb;
      while date > DaysInMonth(month, february)
        invariant FieldsFit(State()) && 1 <= month <= 12 && date > 0 && february == DaysInFeb(year)
        invariant DayNumber(State()) == old(DayNumber(State())) - YearStart(256) * wraps
        decreases date
      {
        ghost var before := DayNumber(State());
        february := StepForward(february);
        assert YearStart(256) * (wraps + 1) == YearStart(256) * wraps + YearStart(256);
        if DayNumber(State()) != before {
          wraps := wraps + 1;
        }
      }
    }

    /**
     realignTimeInfo. inBounds is false if the function reads in front of the table of month
     lengths. Otherwise the result is a normal date, and it is the meant one exactly if the month
     is not 0, no field wrapped while carrying, and the year 2256 has not been reached.
     */
    method Realign() returns (inBounds: bool)
      requires FieldsFit(State())
      modifies this
      ensures inBounds <==> Readable(Clocked(old(State())))
      ensures old(Roomy(State())) ==> (inBounds <==> Readable(old(State())))
      ensures inBounds ==> Normal(State()) && day == old(day)
      ensures inBounds ==> Era() > 0 && Seconds(State()) == Seconds(AsRead(Clocked(old(State())))) % Era()
      ensures inBounds && old(Roomy(State())) ==> Seconds(State()) == Seconds(AsRead(old(State()))) % Era()
      ensures inBounds && 0 <= old(year) + YearsOfMonth(old(month)) < 256 ==>
                (Seconds(State()) == MeantSeconds(old(State())) <==>
                  MonthCarried(old(State())).month > 0 && old(Roomy(State())) && Seconds(AsRead(old(State()))) < Era())
    {
      hide YearStart, MonthStart, DaysInMonth, DaysInFeb, Roomy, Era, Clocked, InMonth, Readable, Cut8u, IsLeap, Seconds,
           MeantSeconds, YearsOfMonth;
      ghost var was := State();
      ReadAfterClock(was);
      ClockedKeeps(was);
      RealignTimeOfDay();
      ghost var c := State();
      RealignMonth();
      ghost var wraps: int := if month == 0 == year then -1 else 0;
      var daysInFeb := FebLength(year);
      if date <= 0 {
        inBounds := EarlierMonths(daysInFeb, c, if month == 0 then Cut8u(year - 1) else year, wraps);
      } else if month == 0 {
        NotInYearBefore(c);
        inBounds := false;
      } else {
        MonthStartIsNat(year, month);
        IsReadable(c, year, 0);
        wraps := LaterMonths(daysInFeb);
        inBounds := true;
      }
      if inBounds {
        Outcome(was, State(), wraps);
      }
    }
  }

  /** One step back from month 0. */
  lemma YearBefore(year: nat, date: int, base: nat, wraps: int)
    requires year < 256 && base == Cut8u(year - 1) && wraps == if year == 0 then -1 else 0
    ensures YearStart(base) + MonthStart(base, 12) + date + DaysInMonth(12, DaysInFeb(base)) - 1
            == YearStart(year) + MonthStart(year, 1) + date - 1 - YearStart(256) * wraps
  {
    hide DaysInFeb;
    ZeroYear();
    StartOfYear(base);
    StartOfMonth(base, 13);
    StartOfMonth(year, 1);
    hide YearStart, MonthStart;
  }

  // What the two ends of the loop over earlier months mean. base is the year in which the loop moves.

  predicate LoopsIn(c: Time, base: nat, wraps: int) {
    && FieldsFit(c) && 0 <= c.second < 60 && 0 <= c.minute < 60 && 0 <= c.hour < 24
    && if MonthCarried(c).month > 0 then base == AsRead(c).year && wraps == 0
       else base == Cut8u(AsRead(c).year - 1) && wraps == if AsRead(c).year == 0 then -1 else 0
  }

  lemma NotReadable(c: Time, base: nat, wraps: int)
    requires LoopsIn(c, base, wraps) && DayNumber(AsRead(c)) - YearStart(256) * wraps < YearStart(base)
    ensures !Readable(c)
  {
    BaseYear(c, base, wraps);
    hide YearStart, MonthStart, DayNumber, AsRead, MonthCarried;
  }

  lemma IsReadable(c: Time, base: nat, wraps: int)
    requires LoopsIn(c, base, wraps) && DayNumber(AsRead(c)) - YearStart(256) * wraps >= YearStart(base)
    requires MonthCarried(c).month == 0 ==> c.date <= 0
    ensures Readable(c)
  {
    BaseYear(c, base, wraps);
    StartOfMonth(AsRead(c).year, 1);
    hide YearStart, MonthStart;
  }

  lemma NotInYearBefore(c: Time)
    requires FieldsFit(c) && MonthCarried(c).month == 0 && c.date > 0
    requires 0 <= c.second < 60 && 0 <= c.minute < 60 && 0 <= c.hour < 24
    ensures !Readable(c)
  {
    StartOfMonth(AsRead(c).year, 1);
    hide YearStart, MonthStart;
  }

  lemma BaseYear(c: Time, base: nat, wraps: int)
    requires LoopsIn(c, base, wraps)
    ensures var y := AsRead(c).year;
            YearStart(base) + YearStart(256) * wraps == YearStart(y) - if MonthCarried(c).month > 0 then 0 else DaysInYear(base)
  {
    ZeroYear();
    StartOfYear(base);
    YearIsTwelveMonths(base);
    hide YearStart, MonthStart, IsLeap;
  }

  /** The result of the loops, against the time before everything. */
  lemma Outcome(was: Time, t: Time, wraps: int)
    requires FieldsFit(was) && Normal(t)
    requires var start := AsRead(Clocked(was));
      && t.hour == start.hour && t.minute == start.minute && t.second == start.second
      && DayNumber(t) == DayNumber(start) - YearStart(256) * wraps
    ensures Era() > 0 && Seconds(t) == Seconds(AsRead(Clocked(was))) % Era()
    ensures Roomy(was) ==> Seconds(t) == Seconds(AsRead(was)) % Era() && Readable(was) == Readable(Clocked(was))
    ensures 0 <= was.year + YearsOfMonth(was.month) < 256 && Readable(Clocked(was)) ==>
              (Seconds(t) == MeantSeconds(was) <==>
                MonthCarried(was).month > 0 && Roomy(was) && Seconds(AsRead(was)) < Era())
  {
    ReadAfterClock(was);
    ClockedCosts(was);
    EraIsLong();
    NormalInEra(t);
    var start := AsRead(Clocked(was));
    DaysAreSeconds(t, start, wraps);
    YearsAreLong(start.year);
    hide YearStart, MonthStart, DayNumber, Seconds, Era, Roomy, Clocked, InMonth, FieldsFit, MonthCarried, AsRead, Normal;
    WrapsAreErased(Era(), wraps, Seconds(t), Seconds(start));
  }

  lemma ZeroYear()
    ensures YearStart(0) == 0
  {
  }

  lemma OneYearLess(y: int)
    ensures Cut8u(Cut8u(y) - 1) == Cut8u(y - 1)
  {
  }

  lemma DaysAreSeconds(t: Time, start: Time, wraps: int)
    requires Normal(t) && start.year >= 0 && 1 <= start.month <= 12
    requires t.hour == start.hour && t.minute == start.minute && t.second == start.second
    requires DayNumber(t) == DayNumber(start) - YearStart(256) * wraps
    ensures Seconds(t) == Seconds(start) - Era() * wraps
  {
    hide YearStart, MonthStart, DayNumber;
    ProductOfDays(YearStart(256), wraps);
  }

  lemma ProductOfDays(d: int, k: int)
    ensures d * k * 86400 == d * 86400 * k
  {
  }

  lemma WrapsAreErased(era: int, wraps: int, t: int, s: int)
    requires 0 <= t < era && t == s - era * wraps
    ensures t == s % era
    ensures wraps == 0 <==> 0 <= s < era
    ensures wraps != 0 ==> t - s >= era || s - t >= era
  {
    if wraps > 0 {
      MulGrows(era, wraps);
    } else if wraps < 0 {
      MulGrows(era, -wraps);
    }
    FloorIsUnique(s, era, wraps, t);
    RestIsUnique(s, era, wraps, t);
  }

  lemma RestIsUnique(v: int, n: int, q: int, r: int)
    requires n > 0 && v == n * q + r && 0 <= r < n
    ensures v % n == r
  {
    DivisionIsUnique(n, q, r, v / n, v % n);
  }

  /** One field into range: the part that is carried and the part that stays. */
  method Carry(v: int, n: int) returns (carry: int, rest: int)
    requires n > 0
    ensures 0 <= rest < n && carry == v / n && rest == v % n
  {
    carry, rest := 0, v;
    if v < 0 || v > n - 1 {
      DivMeans(v, n);
      carry, rest := DivQuot(v, n), DivRem(v, n);
      if rest < 0 {
        assert n * (carry - 1) == n * carry - n;
        rest := rest + n;
        carry := carry - 1;
      }
    }
    FloorIsUnique(v, n, carry, rest);
    RestIsUnique(v, n, carry, rest);
  }

  lemma FloorIsUnique(v: int, n: int, q: int, r: int)
    requires n > 0 && v == n * q + r && 0 <= r < n
    ensures v / n == q
  {
    DivisionIsUnique(n, q, r, v / n, v % n);
  }

  lemma DivMeans(a: int, b: int)
    requires b > 0
    ensures a == b * DivQuot(a, b) + DivRem(a, b) && -b < DivRem(a, b) < b
  {
    if a < 0 {
      assert -a == b * (-a / b) + -a % b;
      assert b * (-(-a / b)) == -(b * (-a / b));
    } else {
      assert a == b * (a / b) + a % b;
    }
  }

  method FebLength(year: int) returns (d: int)
    ensures d == DaysInFeb(year)
  {
    d := 28;
    if DaysInYear(year) == 366 {
      d := 29;
    }
  }

  lemma StartOfMonth(year: nat, month: nat)
    requires 1 <= month <= 13
    ensures MonthStart(year, month)
            == if month == 1 then 0 else MonthStart(year, month - 1) + DaysInMonth(month - 1, DaysInFeb(year))
  {
  }

  lemma StartOfYear(year: nat)
    ensures YearStart(year + 1) == YearStart(year) + MonthStart(year, 13)
  {
    YearIsTwelveMonths(year);
  }

  lemma MonthStartIsNat(year: nat, month: nat)
    requires 1 <= month <= 12
    ensures MonthStart(year, month) >= 0
  {
    if month > 1 {
      MonthsGrow(year, 1, month);
    }
  }

  // ---------------------------------------------------------------- time zones

  /** A shift by time zones of half an hour each. */
  function Shifted(t: Time, zones: int): Time {
    t.(hour := t.hour + DivQuot(zones, 2), minute := t.minute + DivRem(zones, 2) * 30)
  }

  lemma ShiftedSeconds(t: Time, zones: int, u: Time)
    requires Normal(t) && Fits8(zones)
    requires u == Shifted(t, zones) || (u == t.(hour := t.hour - DivQuot(zones, 2), minute := t.minute - DivRem(zones, 2) * 30))
    ensures u == Shifted(t, zones) ==> Seconds(u) == Seconds(t) + 1800 * zones
    ensures u == t.(hour := t.hour - DivQuot(zones, 2), minute := t.minute - DivRem(zones, 2) * 30)
            ==> Seconds(u) == Seconds(t) - 1800 * zones
    ensures FieldsFit(u) && Roomy(u)
  {
    DivMeans(zones, 2);
    assert t.date <= 31;
    hide YearStart, MonthStart, DaysInMonth, DaysInFeb;
  }

  /** The shift by so many half hours does not lead back into the year before. */
  predicate StaysInYear(t: Time, zones: int)
    requires Normal(t)
  {
    Seconds(t) + 1800 * zones >= YearStart(t.year) * 86400
  }

  /** A time shifted within the eras. */
  lemma OneEraAtMost(t: Time, zones: int, u: Time)
    requires Normal(t) && Normal(u) && -128 <= zones <= 128 && StaysInYear(t, zones)
    requires Era() > 0 && Seconds(u) == (Seconds(t) + 1800 * zones) % Era()
    ensures var s := Seconds(t) + 1800 * zones;
            Seconds(u) == if s < Era() then s else s - Era()
  {
    EraIsLong();
    NormalInEra(t);
    YearsAreLong(t.year);
    hide YearStart, Seconds, Era;
    var s := Seconds(t) + 1800 * zones;
    if s < Era() {
      DivMod(Era(), 0, s);
    } else {
      DivMod(Era(), 1, s - Era());
    }
  }

  /** Half an hour west at midnight of any 1 January is such a step back. */
  lemma NewYearGoesAstray(year: nat, day: int)
    requires year < 256
    ensures Normal(Time(0, 0, 0, day, 1, 1, year)) && !StaysInYear(Time(0, 0, 0, day, 1, 1, year), -1)
  {
    hide YearStart;
    StartOfMonth(year, 1);
  }

  /** The seconds that a shift leads to; the 256 years of the year field begin again after their end. */
  function SecondsAfter(t: Time, zones: int): int
    requires Normal(t)
  {
    var s := Seconds(t) + 1800 * zones;
    if s < Era() then s else s - Era()
  }

  method UtcToLocalTime(utc: Time, zones: int) returns (inBounds: bool, local: Time)
    requires Normal(utc) && Fits8(zones)
    ensures inBounds <==> StaysInYear(utc, zones)
    ensures inBounds ==> Normal(local) && Seconds(local) == SecondsAfter(utc, zones) && local.day == utc.day
    ensures inBounds ==> (Seconds(local) == Seconds(utc) + 1800 * zones <==> Seconds(utc) + 1800 * zones < Era())
  {
    hide YearStart, MonthStart, Seconds, Roomy, Era;
    ShiftedSeconds(utc, zones, Shifted(utc, zones));
    EraIsLong();
    var time := new TimeInfo(utc);
    time.hour := Cut8(time.hour + DivQuot(zones, 2));
    time.minute := Cut8(time.minute + DivRem(zones, 2) * 30);
    assert time.State() == Shifted(utc, zones);
    inBounds := time.Realign();
    local := time.State();
    if inBounds {
      OneEraAtMost(utc, zones, local);
    }
  }

  method LocalTimeToUtc(local: Time, zones: int) returns (inBounds: bool, utc: Time)
    requires Normal(local) && Fits8(zones)
    ensures inBounds <==> StaysInYear(local, -zones)
    ensures inBounds ==> Normal(utc) && Seconds(utc) == SecondsAfter(local, -zones) && utc.day == local.day
    ensures inBounds ==> (Seconds(utc) == Seconds(local) - 1800 * zones <==> Seconds(local) - 1800 * zones < Era())
  {
    hide YearStart, MonthStart, Seconds, Roomy, Era;
    ghost var u := local.(hour := local.hour - DivQuot(zones, 2), minute := local.minute - DivRem(zones, 2) * 30);
    ShiftedSeconds(local, zones, u);
    EraIsLong();
    var time := new TimeInfo(local);
    time.minute := Cut8(time.minute - DivRem(zones, 2) * 30);
    time.hour := Cut8(time.hour - DivQuot(zones, 2));
    assert time.State() == u;
    inBounds := time.Realign();
    utc := time.State();
    if inBounds {
      OneEraAtMost(local, -zones, utc);
    }
  }

  /** The shifted time lies in the same year. */
  predicate SameYearAfter(t: Time, zones: int)
    requires Normal(t)
  {
    YearStart(t.year) * 86400 <= Seconds(t) + 1800 * zones < YearStart(t.year + 1) * 86400
  }

  /** A time lies in the year whose seconds it is among. */
  lemma YearOf(t: Time, y: nat)
    requires Normal(t)
    ensures Seconds(t) >= YearStart(t.year) * 86400
    ensures Seconds(t) < YearStart(y + 1) * 86400 ==> t.year <= y
    ensures Seconds(t) >= YearStart(y + 1) * 86400 ==> t.year > y
    ensures t.year > y ==> YearStart(t.year) >= YearStart(y + 1)
  {
    DayInYear(t);
    if t.year > y {
      YearsGrow(y, t.year);
    } else {
      YearsGrow(t.year, y + 1);
    }
    hide MonthStart, DayNumber;
  }

  lemma BackIntoYear(utc: Time, local: Time, zones: int)
    requires Normal(utc) && Normal(local) && Seconds(local) == SecondsAfter(utc, zones) && StaysInYear(utc, zones)
    ensures StaysInYear(local, -zones) <==> SameYearAfter(utc, zones)
    ensures SameYearAfter(utc, zones) ==> Seconds(local) == Seconds(utc) + 1800 * zones
  {
    hide Seconds, YearStart, MonthStart, IsLeap;
    NormalInEra(utc);
    if utc.year + 1 < 256 {
      YearsGrow(utc.year + 1, 256);
    }
    YearsAreLong(local.year);
    if Seconds(utc) + 1800 * zones < Era() {
      BackInEra(utc, local, zones);
    }
  }

  lemma BackInEra(utc: Time, local: Time, zones: int)
    requires Normal(utc) && Normal(local) && Seconds(local) == Seconds(utc) + 1800 * zones && StaysInYear(utc, zones)
    ensures StaysInYear(local, -zones) <==> SameYearAfter(utc, zones)
  {
    hide Seconds, YearStart, MonthStart, IsLeap;
    YearOf(utc, utc.year);
    YearOf(local, utc.year);
    if local.year < utc.year {
      YearOf(utc, local.year);
    }
    if local.year < utc.year {
      YearsGrow(local.year, utc.year);
    }
  }

  /** There and back again gives the same time, and works exactly if the shifted time lies in the same year. */
  method ThereAndBack(utc: Time, zones: int) returns (inBounds: bool, back: Time)
    requires Normal(utc) && Fits8(zones)
    ensures inBounds <==> SameYearAfter(utc, zones)
    ensures inBounds ==> back == utc
  {
    hide YearStart, MonthStart, Seconds, Era;
    var local;
    inBounds, local := UtcToLocalTime(utc, zones);
    back := utc;
    if inBounds {
      BackIntoYear(utc, local, zones);
      inBounds, back := LocalTimeToUtc(local, zones);
      if inBounds {
        NormalInEra(utc);
        SecondsAreUnique(back, utc);
      }
    }
  }
}
