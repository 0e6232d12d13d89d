/** Instants: nanoseconds since the start of the year 0 of the proleptic Gregorian calendar. */
module Calendar {
  import opened CommentCursor

  /** Days before a year: 365 each, and one more for every year divisible by 4 but not by 100, or by 400. */
  function YearStart(y: int): int {
    365 * y + (y + 3) / 4 - (y + 99) / 100 + (y + 399) / 400
  }

  function YearLength(y: int): int {
    YearStart(y + 1) - YearStart(y)
  }

  /** Days before a month in its year; the thirteenth month starts the next year. */
  function MonthStart(m: int, y: int): int
    requires 1 <= m <= 13
  {
    [0, 31, 59, 90, 120, 151, 181, 212, 243, 273, 304, 334, 365][m - 1] + if m > 2 then YearLength(y) - 365 else 0
  }

  function DayNumber(d: Date): int
    requires ValidDate(d)
  {
    YearStart(d.year) + MonthStart(d.month, d.year) + d.day - 1
  }

  function TimeOfDay(d: Date): int {
    (3600 * d.hour + 60 * d.minute + d.second) * 1_000_000_000 + d.nanos
  }

  function Instant(d: Date): int
    requires ValidDate(d)
  {
    DayNumber(d) * 86_400_000_000_000 + TimeOfDay(d)
  }

  lemma Every4(y: int)
    ensures (y + 4) / 4 - (y + 3) / 4 == if y % 4 == 0 then 1 else 0
  {
    var q, r := y / 4, y % 4;
    assert y == 4 * q + r;
    assert (y + 4) / 4 == q + 1;
    assert (y + 3) / 4 == if r == 0 then q else q + 1;
  }

  lemma Every100(y: int)
    ensures (y + 100) / 100 - (y + 99) / 100 == if y % 100 == 0 then 1 else 0
  {
    var q, r := y / 100, y % 100;
    assert y == 100 * q + r;
    assert (y + 100) / 100 == q + 1;
    assert (y + 99) / 100 == if r == 0 then q else q + 1;
  }

  lemma Every400(y: int)
    ensures (y + 400) / 400 - (y + 399) / 400 == if y % 400 == 0 then 1 else 0
  {
    var q, r := y / 400, y % 400;
    assert y == 400 * q + r;
    assert (y + 400) / 400 == q + 1;
    assert (y + 399) / 400 == if r == 0 then q else q + 1;
  }

  lemma Hundreds(y: int, q: int)
    requires y == 100 * q
    ensures y % 100 == 0
  {
  }

  lemma Fours(y: int, q: int)
    requires y == 4 * q
    ensures y % 4 == 0
  {
  }

  lemma Multiples(y: int)
    ensures (y % 400 == 0 ==> y % 100 == 0) && (y % 100 == 0 ==> y % 4 == 0)
  {
    var c, q := y / 400, y / 100;
    if y == 400 * c { Hundreds(y, 4 * c); }
    if y == 100 * q { Fours(y, 25 * q); }
  }

  /** A year has 366 days exactly when it is a leap year, and each month the days between its start and the next. */
  lemma Lengths(y: int, m: int)
    requires 1 <= m <= 12
    ensures YearLength(y) == if y % 4 == 0 && (y % 100 != 0 || y % 400 == 0) then 366 else 365
    ensures MonthStart(m + 1, y) - MonthStart(m, y) == DaysIn(m, y)
    ensures MonthStart(13, y) == YearLength(y)
  {
    Every4(y);
    Every100(y);
    Every400(y);
    Multiples(y);
  }

  lemma {:induction false} YearsGrow(y: int, z: int)
    requires y <= z
    ensures YearStart(y) <= YearStart(z)
    decreases z - y
  {
    if y < z {
      YearsGrow(y, z - 1);
      Lengths(z - 1, 1);
    }
  }

  lemma {:induction false} MonthsGrow(y: int, m: int, n: int)
    requires 1 <= m <= n <= 13
    ensures MonthStart(m, y) <= MonthStart(n, y)
    decreases n - m
  {
    if m < n {
      MonthsGrow(y, m, n - 1);
      Lengths(y, n - 1);
    }
  }

  /** A day ends no later than its month, and its month no later than its year. */
  lemma DayWithin(d: Date)
    requires ValidDate(d)
    ensures YearStart(d.year) + MonthStart(d.month, d.year) <= DayNumber(d)
    ensures DayNumber(d) < YearStart(d.year) + MonthStart(d.month + 1, d.year) <= YearStart(d.year + 1)
    ensures YearStart(d.year) <= DayNumber(d)
  {
    Lengths(d.year, d.month);
    MonthsGrow(d.year, d.month + 1, 13);
    MonthsGrow(d.year, 1, d.month);
  }

  lemma DaysInOrder(a: Date, b: Date)
    requires ValidDate(a) && ValidDate(b)
    requires a.year < b.year || (a.year == b.year && a.month < b.month)
    ensures DayNumber(a) < DayNumber(b)
  {
    DayWithin(a);
    DayWithin(b);
    if a.year < b.year {
      YearsGrow(a.year + 1, b.year);
    } else {
      MonthsGrow(a.year, a.month + 1, b.month);
    }
  }

  lemma TimeWithin(d: Date)
    requires ValidDate(d)
    ensures 0 <= TimeOfDay(d) < 86_400_000_000_000
  {
  }

  // ----- Every instant has its date -----

  function Midnight(year: int, month: nat, day: nat): Date {
    Date(year, month, day, 0, 0, 0, 0)
  }

  /** The dates of the day after and of the day before. */
  lemma DayAfter(d: Date) returns (next: Date)
    requires ValidDate(d)
    ensures ValidDate(next) && DayNumber(next) == DayNumber(d) + 1
  {
    Lengths(d.year, d.month);
    if d.day < DaysIn(d.month, d.year) {
      next := Midnight(d.year, d.month, d.day + 1);
    } else if d.month < 12 {
      Lengths(d.year, d.month + 1);
      next := Midnight(d.year, d.month + 1, 1);
    } else {
      next := Midnight(d.year + 1, 1, 1);
    }
  }

  lemma DayBefore(d: Date) returns (last: Date)
    requires ValidDate(d)
    ensures ValidDate(last) && DayNumber(last) == DayNumber(d) - 1
  {
    if d.day > 1 {
      last := Midnight(d.year, d.month, d.day - 1);
    } else if d.month > 1 {
      Lengths(d.year, d.month - 1);
      last := Midnight(d.year, d.month - 1, DaysIn(d.month - 1, d.year));
    } else {
      Lengths(d.year - 1, 12);
      last := Midnight(d.year - 1, 12, 31);
    }
  }

  lemma {:induction false} DateOfDay(n: int) returns (d: Date)
    ensures ValidDate(d) && DayNumber(d) == n
    decreases if n < 0 then -n else n
  {
    if n == 0 {
      d := Midnight(0, 1, 1);
    } else if n > 0 {
      var before := DateOfDay(n - 1);
      d := DayAfter(before);
    } else {
      var after := DateOfDay(n + 1);
      d := DayBefore(after);
    }
  }

  /** The clock that shows t nanoseconds since midnight. */
  lemma ClockOf(t: nat) returns (hour: nat, minute: nat, second: nat, nanos: nat)
    requires t < 86_400_000_000_000
    ensures hour < 24 && minute < 60 && second < 60 && nanos < 1_000_000_000
    ensures (3600 * hour + 60 * minute + second) * 1_000_000_000 + nanos == t
  {
    var seconds := t / 1_000_000_000;
    nanos := t % 1_000_000_000;
    hour, minute, second := seconds / 3600, seconds % 3600 / 60, seconds % 60;
    assert seconds % 3600 % 60 == second;
  }

  /** Every instant is that of exactly one valid date. */
  lemma EveryInstant(n: int) returns (d: Date)
    ensures ValidDate(d) && Instant(d) == n
  {
    var days, t := n / 86_400_000_000_000, n % 86_400_000_000_000;
    var day := DateOfDay(days);
    var hour, minute, second, nanos := ClockOf(t);
    d := Date(day.year, day.month, day.day, hour, minute, second, nanos);
    assert DayNumber(d) == DayNumber(day);
  }
}
