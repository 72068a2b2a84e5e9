/** UTC instants as nanoseconds from 0000-01-01T00:00:00Z, and their civil fields. */
module Calendar {

  type Instant = int

  const NANOS_PER_SECOND := 1_000_000_000
  const NANOS_PER_DAY := 86_400 * NANOS_PER_SECOND

  predicate Leap(y: int) {
    y % 4 == 0 && (y % 100 != 0 || y % 400 == 0)
  }

  function YearLength(y: int): nat {
    if Leap(y) then 366 else 365
  }

  function MonthLength(y: int, m: int): nat {
    if m == 2 then (if Leap(y) then 29 else 28)
    else if m in {4, 6, 9, 11} then 30
    else 31
  }

  /** The lengths of the twelve months. */
  lemma MonthLengths(y: int)
    ensures MonthLength(y, 1) == MonthLength(y, 3) == MonthLength(y, 5) == MonthLength(y, 7) == MonthLength(y, 8)
         == MonthLength(y, 10) == MonthLength(y, 12) == 31
    ensures MonthLength(y, 4) == MonthLength(y, 6) == MonthLength(y, 9) == MonthLength(y, 11) == 30
    ensures MonthLength(y, 2) == if y % 4 == 0 && (y % 100 != 0 || y % 400 == 0) then 29 else 28
  {}

  /** Days from 0000-01-01 to the first day of year y; negative before it. */
  function DaysToYear(y: int): int
    decreases if y < 0 then -y else y
  {
    if y == 0 then 0
    else if y > 0 then DaysToYear(y - 1) + YearLength(y - 1)
    else DaysToYear(y + 1) - YearLength(y)
  }

  /** Days from the first day of year y to the first day of month m. */
  function DaysToMonth(y: int, m: int): nat
    decreases m
  {
    if m <= 1 then 0 else DaysToMonth(y, m - 1) + MonthLength(y, m - 1)
  }

  function YearFrom(day: int, y: int): (r: int)
    requires DaysToYear(y) <= day
    ensures DaysToYear(r) <= day < DaysToYear(r + 1) && y <= r
    decreases day - DaysToYear(y)
  {
    if day < DaysToYear(y + 1) then y else YearFrom(day, y + 1)
  }

  function YearBack(day: int, y: int): (r: int)
    requires day < DaysToYear(y + 1)
    ensures DaysToYear(r) <= day < DaysToYear(r + 1) && r <= y
    decreases DaysToYear(y + 1) - day
  {
    if DaysToYear(y) <= day then y else YearBack(day, y - 1)
  }

  function YearOf(day: int): (r: int)
    ensures DaysToYear(r) <= day < DaysToYear(r + 1)
  {
    if day >= 0 then YearFrom(day, 0) else YearBack(day, -1)
  }

  lemma YearLengthByMonths(y: int)
    ensures DaysToMonth(y, 13) == YearLength(y)
  {
    assert DaysToMonth(y, 4) == 59 + 31 + (if Leap(y) then 1 else 0);
    assert DaysToMonth(y, 7) == DaysToMonth(y, 4) + 91;
    assert DaysToMonth(y, 10) == DaysToMonth(y, 7) + 92;
  }

  function MonthFrom(y: int, rest: nat, m: int): (r: int)
    requires 1 <= m <= 12 && DaysToMonth(y, m) <= rest < DaysToMonth(y, 13)
    ensures m <= r <= 12 && DaysToMonth(y, r) <= rest < DaysToMonth(y, r + 1)
    decreases 12 - m
  {
    if rest < DaysToMonth(y, m + 1) then m else MonthFrom(y, rest, m + 1)
  }

  datatype Date = Date(year: int, month: int, day: int) {
    predicate Valid() {
      1 <= month <= 12 && 1 <= day <= MonthLength(year, month)
    }

    /** The number of the day, counted from 0000-01-01. */
    function Number(): int {
      DaysToYear(year) + DaysToMonth(year, month) + day - 1
    }
  }

  function ToDate(days: int): (d: Date)
    ensures d.Valid() && d.Number() == days
  {
    var year := YearOf(days);
    var dayOfYear := days - DaysToYear(year);
    YearLengthByMonths(year);
    var month := MonthFrom(year, dayOfYear, 1);
    Date(year, month, dayOfYear - DaysToMonth(year, month) + 1)
  }

  datatype Clock = Clock(hour: int, minute: int, second: int, nanos: int) {
    predicate Valid() {
      0 <= hour < 24 && 0 <= minute < 60 && 0 <= second < 60 && 0 <= nanos < NANOS_PER_SECOND
    }

    function Nanos(): int {
      ((hour * 60 + minute) * 60 + second) * NANOS_PER_SECOND + nanos
    }
  }

  function ToClock(rest: int): (c: Clock)
    requires 0 <= rest < NANOS_PER_DAY
    ensures c.Valid() && c.Nanos() == rest
  {
    var s := rest / NANOS_PER_SECOND;
    assert s / 3600 == s / 60 / 60;
    Clock(s / 3600, s / 60 % 60, s % 60, rest % NANOS_PER_SECOND)
  }

  /** The fields RFC 3339 writes for an instant in UTC. */
  datatype Civil = Civil(date: Date, clock: Clock) {
    predicate Valid() {
      date.Valid() && clock.Valid()
    }

    function ToInstant(): Instant {
      date.Number() * NANOS_PER_DAY + clock.Nanos()
    }
  }

  /** Every instant has valid civil fields, and they stand for that instant again. */
  function ToCivil(t: Instant): (c: Civil)
    ensures c.Valid() && c.ToInstant() == t
  {
    Civil(ToDate(t / NANOS_PER_DAY), ToClock(t % NANOS_PER_DAY))
  }

  // ---- the fields of an instant are its only ones ----

  lemma {:induction false} YearsMonotone(y: int, z: int)
    requires y <= z
    ensures DaysToYear(y) <= DaysToYear(z) && (y < z ==> DaysToYear(y + 1) <= DaysToYear(z))
    decreases z - y
  {
    if y == z {
    } else {
      YearsMonotone(y + 1, z);
      assert DaysToYear(y) < DaysToYear(y + 1);
    }
  }

  lemma {:induction false} MonthsMonotone(y: int, m: int, n: int)
    requires 1 <= m <= n
    ensures DaysToMonth(y, m) <= DaysToMonth(y, n) && (m < n ==> DaysToMonth(y, m + 1) <= DaysToMonth(y, n))
    decreases n - m
  {
    if m == n {
    } else {
      MonthsMonotone(y, m + 1, n);
      assert DaysToMonth(y, m + 1) == DaysToMonth(y, m) + MonthLength(y, m);
    }
  }

  lemma DayInYear(d: Date)
    requires d.Valid()
    ensures DaysToYear(d.year) <= d.Number() < DaysToYear(d.year + 1)
    ensures DaysToMonth(d.year, d.month) <= d.Number() - DaysToYear(d.year) < DaysToMonth(d.year, d.month + 1)
  {
    assert DaysToMonth(d.year, d.month + 1) == DaysToMonth(d.year, d.month) + MonthLength(d.year, d.month);
    MonthsMonotone(d.year, d.month + 1, 13);
    YearLengthByMonths(d.year);
  }

  lemma YearUnique(days: int, y: int, z: int)
    requires DaysToYear(y) <= days < DaysToYear(y + 1) && DaysToYear(z) <= days < DaysToYear(z + 1)
    ensures y == z
  {
    if y < z {
      YearsMonotone(y, z);
    } else if z < y {
      YearsMonotone(z, y);
    }
  }

  lemma MonthUnique(rest: int, y: int, m: int, n: int)
    requires 1 <= m && 1 <= n
    requires DaysToMonth(y, m) <= rest < DaysToMonth(y, m + 1) && DaysToMonth(y, n) <= rest < DaysToMonth(y, n + 1)
    ensures m == n
  {
    if m < n {
      MonthsMonotone(y, m, n);
    } else if n < m {
      MonthsMonotone(y, n, m);
    }
  }

  lemma DateUnique(a: Date, b: Date)
    requires a.Valid() && b.Valid() && a.Number() == b.Number()
    ensures a == b
  {
    DayInYear(a);
    DayInYear(b);
    YearUnique(a.Number(), a.year, b.year);
    MonthUnique(a.Number() - DaysToYear(a.year), a.year, a.month, b.month);
  }

  lemma ClockUnique(a: Clock, b: Clock)
    requires a.Valid() && b.Valid() && a.Nanos() == b.Nanos()
    ensures a == b
  {
    assert a.Nanos() / NANOS_PER_SECOND == (a.hour * 60 + a.minute) * 60 + a.second;
    assert b.Nanos() / NANOS_PER_SECOND == (b.hour * 60 + b.minute) * 60 + b.second;
  }

  lemma SplitDay(n: int, rest: int)
    requires 0 <= rest < NANOS_PER_DAY
    ensures (n * NANOS_PER_DAY + rest) / NANOS_PER_DAY == n
  {}

  lemma NanosOfDay(c: Clock)
    requires c.Valid()
    ensures 0 <= c.Nanos() < NANOS_PER_DAY
  {}

  lemma SameInstant(a: Civil, b: Civil)
    requires a.Valid() && b.Valid() && a.ToInstant() == b.ToInstant()
    ensures a == b
  {
    NanosOfDay(a.clock);
    NanosOfDay(b.clock);
    SplitDay(a.date.Number(), a.clock.Nanos());
    SplitDay(b.date.Number(), b.clock.Nanos());
    DateUnique(a.date, b.date);
    ClockUnique(a.clock, b.clock);
  }

  /** Valid fields are the fields of the instant they stand for. */
  lemma CivilUnique(c: Civil)
    requires c.Valid()
    ensures ToCivil(c.ToInstant()) == c
  {
    SameInstant(ToCivil(c.ToInstant()), c);
  }

  // ---- known dates ----

  /** The leap years before year y: every fourth, but for the centuries that 400 does not divide. */
  function LeapsBefore(y: nat): int {
    (y + 3) / 4 - (y + 99) / 100 + (y + 399) / 400
  }

  lemma {:induction false} DaysToYearIs(y: nat)
    ensures DaysToYear(y) == 365 * y + LeapsBefore(y)
  {
    if y == 0 {
    } else {
      DaysToYearIs(y - 1);
      LeapStep(y - 1);
    }
  }

  lemma CenturyIsFourth(y: nat)
    ensures y % 100 == 0 ==> y % 4 == 0
    ensures y % 400 == 0 ==> y % 100 == 0
  {
    assert y == 4 * (25 * (y / 100)) + y % 100;
    assert y == 100 * (4 * (y / 400)) + y % 400;
  }

  lemma LeapStep(y: nat)
    ensures LeapsBefore(y + 1) == LeapsBefore(y) + if Leap(y) then 1 else 0
  {
    CenturyIsFourth(y);
    assert (y + 4) / 4 == (y + 3) / 4 + if y % 4 == 0 then 1 else 0;
    assert (y + 100) / 100 == (y + 99) / 100 + if y % 100 == 0 then 1 else 0;
    assert (y + 400) / 400 == (y + 399) / 400 + if y % 400 == 0 then 1 else 0;
  }

  lemma DecemberOf(y: int)
    ensures DaysToMonth(y, 12) == 334 + if Leap(y) then 1 else 0
  {
    assert DaysToMonth(y, 4) == 59 + 31 + (if Leap(y) then 1 else 0);
    assert DaysToMonth(y, 7) == DaysToMonth(y, 4) + 91;
    assert DaysToMonth(y, 10) == DaysToMonth(y, 7) + 92;
    assert DaysToMonth(y, 12) == DaysToMonth(y, 10) + 61;
  }

  lemma FieldsOf(date: Date, clock: Clock, t: Instant)
    requires date.Valid() && clock.Valid() && t == date.Number() * NANOS_PER_DAY + clock.Nanos()
    ensures ToCivil(t) == Civil(date, clock)
  {
    var c := Civil(date, clock);
    assert c.ToInstant() == t;
    SameInstant(ToCivil(t), c);
  }

  /** The epoch is day 719528. */
  lemma EpochFields(t: Instant, year: nat)
    requires t == 719_528 * NANOS_PER_DAY && year == 1970
    ensures ToCivil(t) == Civil(Date(year, 1, 1), Clock(0, 0, 0, 0))
  {
    DaysToYearIs(year);
    FieldsOf(Date(year, 1, 1), Clock(0, 0, 0, 0), t);
  }

  /** An instant late on the first of December of a leap year. */
  lemma DecemberFields(t: Instant, year: nat)
    requires t == 739_586 * NANOS_PER_DAY + 86_398 * NANOS_PER_SECOND + 500_000_000 && year == 2024
    ensures ToCivil(t) == Civil(Date(year, 12, 1), Clock(23, 59, 58, 500_000_000))
  {
    DaysToYearIs(year);
    DecemberOf(year);
    MonthLengths(year);
    FieldsOf(Date(year, 12, 1), Clock(23, 59, 58, 500_000_000), t);
  }
}
