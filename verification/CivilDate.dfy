/**
 * The day count behind billing timestamps (crates/core/src/pricing.rs),
 * compared with the proleptic Gregorian calendar counted day by day.  Leap
 * years follow Appendix C of RFC 3339.
 */
module CivilDate {
  /** Rust's integer division: it truncates toward zero. */
  function TruncDiv(a: int, b: int): int
    requires b > 0
  {
    if a >= 0 then a / b else -((-a) / b)
  }

  function DaysFromCivil(year: int, month: int, day: int): int {
    var y := if month <= 2 then year - 1 else year;
    var era := TruncDiv(if y >= 0 then y else y - 399, 400);
    var yearOfEra := y - era * 400;
    var monthPosition := (month + 9) % 12;
    var dayOfYear := (153 * monthPosition + 2) / 5 + day - 1;
    var dayOfEra := yearOfEra * 365 + yearOfEra / 4 - yearOfEra / 100 + dayOfYear;
    era * 146_097 + dayOfEra - 719_468
  }

  // ------------------------------------------------------- the calendar itself

  datatype Date = Date(year: int, month: int, day: int)

  predicate IsLeap(year: int) {
    year % 4 == 0 && (year % 100 != 0 || year % 400 == 0)
  }

  function YearLength(year: int): nat {
    if IsLeap(year) then 366 else 365
  }

  function MonthLength(year: int, month: int): nat {
    if month == 2 then if IsLeap(year) then 29 else 28
    else if month in {4, 6, 9, 11} then 30
    else 31
  }

  predicate IsValid(d: Date) {
    1 <= d.month <= 12 && 1 <= d.day <= MonthLength(d.year, d.month)
  }

  function NextDay(d: Date): Date {
    if d.day < MonthLength(d.year, d.month) then Date(d.year, d.month, d.day + 1)
    else if d.month < 12 then Date(d.year, d.month + 1, 1)
    else Date(d.year + 1, 1, 1)
  }

  function PreviousDay(d: Date): Date {
    if d.day > 1 then Date(d.year, d.month, d.day - 1)
    else if d.month > 1 then Date(d.year, d.month - 1, MonthLength(d.year, d.month - 1))
    else Date(d.year - 1, 12, 31)
  }

  lemma NeighbourDays(d: Date)
    requires IsValid(d)
    ensures IsValid(NextDay(d)) && PreviousDay(NextDay(d)) == d
    ensures IsValid(PreviousDay(d)) && NextDay(PreviousDay(d)) == d
  {
  }

  /** Days from the start of 1970 to the start of a year, year by year. */
  function DaysBeforeYear(year: int): int
    decreases if year >= 1970 then year - 1970 else 1970 - year
  {
    if year == 1970 then 0
    else if year > 1970 then DaysBeforeYear(year - 1) + YearLength(year - 1)
    else DaysBeforeYear(year + 1) - YearLength(year)
  }

  /** Days from the start of a year to the start of a month, month by month. */
  function DaysBeforeMonth(year: int, month: int): nat
    decreases month
  {
    if month <= 1 then 0 else DaysBeforeMonth(year, month - 1) + MonthLength(year, month - 1)
  }

  function DayCount(d: Date): int {
    DaysBeforeYear(d.year) + DaysBeforeMonth(d.year, d.month) + (d.day - 1)
  }

  // ----------------------------------------------------------------- equivalence

  /** Days before 1 March of a year, up to a constant. */
  function MarchStart(year: int): int {
    365 * year + year / 4 - year / 100 + year / 400
  }

  lemma EraForm(y: int)
    ensures var era := TruncDiv(if y >= 0 then y else y - 399, 400);
            var r := y - era * 400;
            era == y / 400 && 0 <= r < 400 && era * 146_097 + r * 365 + r / 4 - r / 100 == MarchStart(y)
  {
    var era := y / 400;
    var r := y - era * 400;
    assert y / 4 == era * 100 + r / 4;
    assert y / 100 == era * 4 + r / 100;
  }

  /** Days from 1 March to the start of a month. */
  function MonthOffset(month: int): int {
    (153 * ((month + 9) % 12) + 2) / 5
  }

  lemma MonthOffsets(year: int, month: int)
    requires 2 <= month <= 12
    ensures MonthOffset(1) == 306
    ensures month == 3 ==> MonthOffset(2) == 337 && MonthOffset(3) == 0
    ensures month != 3 ==> MonthOffset(month) == MonthOffset(month - 1) + MonthLength(year, month - 1)
  {
  }

  lemma March1969()
    ensures MarchStart(1969) == 719_162
  {
  }

  /** The closed form without eras. */
  lemma ClosedForm(year: int, month: int, day: int)
    requires 1 <= month <= 12
    ensures DaysFromCivil(year, month, day)
            == MarchStart(if month <= 2 then year - 1 else year)
               + MonthOffset(month) + (day - 1) - 719_468
  {
    EraForm(if month <= 2 then year - 1 else year);
  }

  lemma MarchStep(year: int)
    ensures MarchStart(year) - MarchStart(year - 1) == YearLength(year)
  {
    LeapStep(year);
  }

  lemma LeapStep(y: int)
    ensures y / 4 - (y - 1) / 4 == if y % 4 == 0 then 1 else 0
    ensures y / 100 - (y - 1) / 100 == if y % 100 == 0 then 1 else 0
    ensures y / 400 - (y - 1) / 400 == if y % 400 == 0 then 1 else 0
    ensures y % 400 == 0 ==> y % 100 == 0
    ensures y % 100 == 0 ==> y % 4 == 0
  {
  }

  lemma {:induction false} YearStarts(year: int)
    ensures DaysFromCivil(year, 1, 1) == DaysBeforeYear(year)
    decreases if year >= 1970 then year - 1970 else 1970 - year
  {
    hide DaysFromCivil, MarchStart, MonthOffset;
    MonthOffsets(year, 2);
    ClosedForm(year, 1, 1);
    if year == 1970 {
      March1969();
    } else if year > 1970 {
      YearStarts(year - 1);
      ClosedForm(year - 1, 1, 1);
      MarchStep(year - 1);
    } else {
      YearStarts(year + 1);
      ClosedForm(year + 1, 1, 1);
      MarchStep(year);
    }
  }

  lemma {:induction false} MonthStarts(year: int, month: int)
    requires 1 <= month <= 12
    ensures DaysFromCivil(year, month, 1) == DaysBeforeYear(year) + DaysBeforeMonth(year, month)
    decreases month
  {
    hide DaysFromCivil, MarchStart, IsLeap, DaysBeforeYear, MonthOffset;
    if month == 1 {
      YearStarts(year);
    } else {
      MonthStarts(year, month - 1);
      ClosedForm(year, month, 1);
      ClosedForm(year, month - 1, 1);
      MonthOffsets(year, month);
      MarchStep(year);
    }
  }

  /** The formula counts days as the calendar does, for every valid date. */
  lemma FormulaCountsDays(d: Date)
    requires IsValid(d)
    ensures DaysFromCivil(d.year, d.month, d.day) == DayCount(d)
  {
    hide DaysFromCivil, MarchStart;
    MonthStarts(d.year, d.month);
    ClosedForm(d.year, d.month, 1);
    ClosedForm(d.year, d.month, d.day);
  }

  lemma EpochIsZero()
    ensures DaysFromCivil(1970, 1, 1) == 0
  {
    YearStarts(1970);
  }

  lemma {:induction false} YearEnds(year: int)
    ensures DaysBeforeMonth(year, 12) + 31 == YearLength(year)
    ensures DaysBeforeYear(year + 1) == DaysBeforeYear(year) + YearLength(year)
  {
    assert DaysBeforeMonth(year, 4) == DaysBeforeMonth(year, 3) + 31;
    assert DaysBeforeMonth(year, 7) == DaysBeforeMonth(year, 4) + 91;
    assert DaysBeforeMonth(year, 10) == DaysBeforeMonth(year, 7) + 92;
    assert DaysBeforeMonth(year, 12) == DaysBeforeMonth(year, 10) + 61;
  }

  /** Consecutive dates are one apart. */
  lemma NextDayCounts(d: Date)
    requires IsValid(d)
    ensures DaysFromCivil(NextDay(d).year, NextDay(d).month, NextDay(d).day)
            == DaysFromCivil(d.year, d.month, d.day) + 1
  {
    hide DaysFromCivil, IsLeap, DaysBeforeYear;
    NeighbourDays(d);
    FormulaCountsDays(d);
    FormulaCountsDays(NextDay(d));
    YearEnds(d.year);
  }

  predicate Before(a: Date, b: Date) {
    a.year < b.year
    || (a.year == b.year && (a.month < b.month || (a.month == b.month && a.day < b.day)))
  }

  lemma {:induction false} YearsApart(a: int, b: int)
    requires a < b
    ensures DaysBeforeYear(a) + YearLength(a) <= DaysBeforeYear(b)
    decreases b - a
  {
    YearEnds(a);
    if a + 1 < b {
      YearsApart(a + 1, b);
    }
  }

  lemma {:induction false} MonthsApart(year: int, a: int, b: int)
    requires 1 <= a < b <= 12
    ensures DaysBeforeMonth(year, a) + MonthLength(year, a) <= DaysBeforeMonth(year, b)
    decreases b - a
  {
    if a + 1 < b {
      MonthsApart(year, a + 1, b);
    }
  }

  lemma WithinYear(d: Date)
    requires IsValid(d)
    ensures 0 <= DaysBeforeMonth(d.year, d.month) + (d.day - 1) < YearLength(d.year)
  {
    hide IsLeap;
    YearEnds(d.year);
    if d.month < 12 {
      MonthsApart(d.year, d.month, 12);
    }
  }

  /** Earlier dates have smaller counts, and conversely. */
  lemma CountsAreOrdered(a: Date, b: Date)
    requires IsValid(a) && IsValid(b)
    ensures Before(a, b) <==> DaysFromCivil(a.year, a.month, a.day) < DaysFromCivil(b.year, b.month, b.day)
    ensures a == b <==> DaysFromCivil(a.year, a.month, a.day) == DaysFromCivil(b.year, b.month, b.day)
  {
    hide DaysFromCivil, IsLeap, DaysBeforeYear, DaysBeforeMonth, MonthLength;
    FormulaCountsDays(a);
    FormulaCountsDays(b);
    Ordered(a, b);
    Ordered(b, a);
  }

  lemma Ordered(a: Date, b: Date)
    requires IsValid(a) && IsValid(b)
    ensures Before(a, b) ==> DayCount(a) < DayCount(b)
  {
    hide IsLeap, DaysBeforeYear, DaysBeforeMonth;
    WithinYear(a);
    WithinYear(b);
    if a.year < b.year {
      YearsApart(a.year, b.year);
    } else if a.year == b.year && a.month < b.month {
      MonthsApart(a.year, a.month, b.month);
    }
  }

  /** Every integer is the count of a valid date. */
  lemma {:induction false} EveryDayHasADate(n: int) returns (d: Date)
    ensures IsValid(d) && DaysFromCivil(d.year, d.month, d.day) == n
    decreases if n >= 0 then n else -n
  {
    if n == 0 {
      d := Date(1970, 1, 1);
      EpochIsZero();
    } else if n > 0 {
      d := EveryDayHasADate(n - 1);
      NextDayCounts(d);
      NeighbourDays(d);
      d := NextDay(d);
    } else {
      d := EveryDayHasADate(n + 1);
      NeighbourDays(d);
      NextDayCounts(PreviousDay(d));
      d := PreviousDay(d);
    }
  }
}
