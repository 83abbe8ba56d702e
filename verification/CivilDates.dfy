/** Counting days in the proleptic Gregorian calendar. */
module CivilDates {
  import opened Arithmetic

  datatype Date = Date(year: int, month: int, day: int)

  /** The arithmetic form: years from March, in eras of four hundred. */
  function DaysFromCivil(year: int, month: int, day: int): int {
    var y := if month <= 2 then year - 1 else year;
    var era := y / 400;
    var yoe := y - era * 400;
    var mp := (month + 9) % 12;
    var doy := (153 * mp + 2) / 5 + day - 1;
    var doe := yoe * 365 + yoe / 4 - yoe / 100 + doy;
    era * 146097 + doe - 719468
  }

  function Count(d: Date): int {
    DaysFromCivil(d.year, d.month, d.day)
  }

  // ----- the calendar itself -----

  predicate Leap(year: int) {
    year % 4 == 0 && (year % 100 != 0 || year % 400 == 0)
  }

  function DaysInMonth(year: int, month: int): int {
    if month == 2 then (if Leap(year) then 29 else 28)
    else if month == 4 || month == 6 || month == 9 || month == 11 then 30
    else 31
  }

  predicate Valid(d: Date) {
    1 <= d.month <= 12 && 1 <= d.day <= DaysInMonth(d.year, d.month)
  }

  function NextMonth(year: int, month: int): (int, int) {
    if month == 12 then (year + 1, 1) else (year, month + 1)
  }

  function PreviousMonth(year: int, month: int): (int, int) {
    if month == 1 then (year - 1, 12) else (year, month - 1)
  }

  function Next(d: Date): (n: Date)
    requires Valid(d)
    ensures Valid(n)
  {
    if d.day < DaysInMonth(d.year, d.month) then d.(day := d.day + 1)
    else
      var (y, m) := NextMonth(d.year, d.month);
      Date(y, m, 1)
  }

  function Previous(d: Date): (p: Date)
    requires Valid(d)
    ensures Valid(p)
  {
    if d.day > 1 then d.(day := d.day - 1)
    else
      var (y, m) := PreviousMonth(d.year, d.month);
      Date(y, m, DaysInMonth(y, m))
  }

  const EPOCH: Date := Date(1970, 1, 1)

  /** The date `n` days after the epoch, found by stepping the calendar. */
  function Stepped(n: int): (d: Date)
    ensures Valid(d)
    decreases if n < 0 then -n else n
  {
    if n == 0 then EPOCH else if n > 0 then Next(Stepped(n - 1)) else Previous(Stepped(n + 1))
  }

  // ----- the two agree -----

  /** The days before the March of a year. */
  function YearStart(y: int): int {
    365 * y + y / 4 - y / 100 + y / 400
  }

  /** The days from the first of March to the first of a month. */
  function MonthStart(month: int): int {
    (153 * ((month + 9) % 12) + 2) / 5
  }

  lemma EraForm(y: int)
    ensures var era := y / 400;
            var yoe := y - era * 400;
            era * 146097 + yoe * 365 + yoe / 4 - yoe / 100 == YearStart(y)
  {
    var era := y / 400;
    var yoe := y - era * 400;
    assert y / 4 == 100 * era + yoe / 4;
    assert y / 100 == 4 * era + yoe / 100;
  }

  lemma CountForm(year: int, month: int, day: int)
    requires 1 <= month <= 12
    ensures var y := if month <= 2 then year - 1 else year;
            DaysFromCivil(year, month, day) == YearStart(y) + MonthStart(month) + day - 1 - 719468
  {
    EraForm(if month <= 2 then year - 1 else year);
  }

  lemma YearLength(y: int)
    ensures YearStart(y) == YearStart(y - 1) + 365 + (if Leap(y) then 1 else 0)
  {
    Boundary(y, 4);
    Boundary(y, 100);
    Boundary(y, 400);
    Divides(y, 4, 25);
    Divides(y, 100, 4);
  }

  lemma Divides(y: int, k: int, m: int)
    requires k > 0 && m > 0
    ensures y % (k * m) == 0 ==> y % k == 0
  {
    if y % (k * m) == 0 {
      var q := y / (k * m);
      assert y == q * (k * m) == (q * m) * k;
      ModUnique(y, k, q * m, 0);
    }
  }

  lemma Boundary(y: int, k: int)
    requires k == 4 || k == 100 || k == 400
    ensures y / k == (y - 1) / k + (if y % k == 0 then 1 else 0)
  {
  }

  lemma MonthStarts(month: int)
    requires 1 <= month <= 11 && month != 2
    ensures MonthStart(month + 1) == MonthStart(month) + DaysInMonth(0, month)
  {
    if {
      case month == 1 =>
      case month == 3 =>
      case month == 4 =>
      case month == 5 =>
      case month == 6 =>
      case month == 7 =>
      case month == 8 =>
      case month == 9 =>
      case month == 10 =>
      case month == 11 =>
    }
  }

  /** A month later, the first is as many days later as the month has. */
  lemma MonthLength(year: int, month: int)
    requires 1 <= month <= 12
    ensures var (y, m) := NextMonth(year, month);
            DaysFromCivil(y, m, 1) == DaysFromCivil(year, month, 1) + DaysInMonth(year, month)
  {
    var (y, m) := NextMonth(year, month);
    CountForm(year, month, 1);
    CountForm(y, m, 1);
    if month == 2 {
      YearLength(year);
      assert MonthStart(2) == 337 && MonthStart(3) == 0;
    } else if month == 12 {
      assert MonthStart(12) == 275 && MonthStart(1) == 306;
    } else {
      MonthStarts(month);
    }
  }

  lemma DaysAdd(year: int, month: int, day: int)
    ensures DaysFromCivil(year, month, day) == DaysFromCivil(year, month, 1) + day - 1
  {
  }

  lemma NextCounts(d: Date)
    requires Valid(d)
    ensures Count(Next(d)) == Count(d) + 1
  {
    DaysAdd(d.year, d.month, d.day);
    if d.day < DaysInMonth(d.year, d.month) {
      DaysAdd(d.year, d.month, d.day + 1);
    } else {
      MonthLength(d.year, d.month);
    }
  }

  lemma PreviousCounts(d: Date)
    requires Valid(d)
    ensures Count(Previous(d)) == Count(d) - 1
  {
    DaysAdd(d.year, d.month, d.day);
    if d.day > 1 {
      DaysAdd(d.year, d.month, d.day - 1);
    } else {
      var (y, m) := PreviousMonth(d.year, d.month);
      MonthLength(y, m);
      DaysAdd(y, m, DaysInMonth(y, m));
    }
  }

  /** Consecutive dates differ by exactly one day, in both directions. */
  lemma CountSteps(d: Date)
    requires Valid(d)
    ensures Count(Next(d)) == Count(d) + 1
    ensures Count(Previous(d)) == Count(d) - 1
  {
    NextCounts(d);
    PreviousCounts(d);
  }

  lemma {:induction false} CountOfStepped(n: int)
    ensures Count(Stepped(n)) == n
    decreases if n < 0 then -n else n
  {
    if n > 0 {
      CountOfStepped(n - 1);
      CountSteps(Stepped(n - 1));
    } else if n < 0 {
      CountOfStepped(n + 1);
      CountSteps(Stepped(n + 1));
    }
  }

  predicate Before(a: Date, b: Date) {
    a.year < b.year || (a.year == b.year && (a.month < b.month || (a.month == b.month && a.day < b.day)))
  }

  function MonthNumber(d: Date): int {
    12 * d.year + d.month
  }

  /** The first of a later month comes no sooner than the month before it is over. */
  lemma {:induction false} MonthsGrow(a: Date, b: Date)
    requires Valid(a) && Valid(b) && MonthNumber(a) < MonthNumber(b)
    ensures DaysFromCivil(a.year, a.month, 1) + DaysInMonth(a.year, a.month) <= DaysFromCivil(b.year, b.month, 1)
    decreases MonthNumber(b) - MonthNumber(a)
  {
    MonthLength(a.year, a.month);
    var (y, m) := NextMonth(a.year, a.month);
    if MonthNumber(a) + 1 < MonthNumber(b) {
      MonthsGrow(Date(y, m, 1), b);
    } else {
      assert y == b.year && m == b.month;
    }
  }

  /** The count grows strictly with the date. */
  lemma CountGrows(a: Date, b: Date)
    requires Valid(a) && Valid(b) && Before(a, b)
    ensures Count(a) < Count(b)
  {
    DaysAdd(a.year, a.month, a.day);
    DaysAdd(b.year, b.month, b.day);
    if MonthNumber(a) < MonthNumber(b) {
      MonthsGrow(a, b);
    }
  }

  lemma OneIsBefore(a: Date, b: Date)
    requires a != b
    ensures Before(a, b) || Before(b, a)
  {
  }

  /** Every valid date is the one found by stepping as many days as it counts: no two share a count. */
  lemma CountIsStepping(d: Date)
    requires Valid(d)
    ensures Stepped(Count(d)) == d
  {
    var e := Stepped(Count(d));
    CountOfStepped(Count(d));
    if e != d {
      OneIsBefore(d, e);
      if Before(d, e) {
        CountGrows(d, e);
      } else {
        CountGrows(e, d);
      }
    }
  }
}
