/** The proleptic Gregorian calendar behind `datetime`: days are numbered
    from 1 for 0001-01-01, and a naive `datetime` is microseconds from that
    day's midnight. */
module Calendar {

  datatype Date = Date(year: int, month: int, day: int)

  const MAX_YEAR := 9999

  predicate IsLeap(year: int) {
    year % 4 == 0 && (year % 100 != 0 || year % 400 == 0)
  }

  function DaysInMonth(year: int, month: int): (days: int)
    ensures 28 <= days <= 31
  {
    if month == 2 then (if IsLeap(year) then 29 else 28)
    else if month == 4 || month == 6 || month == 9 || month == 11 then 30
    else 31
  }

  function DaysBeforeMonth(year: int, month: int): (days: int)
    requires 1 <= month <= 13
    ensures days >= 0
    decreases month
  {
    if month == 1 then 0 else DaysBeforeMonth(year, month - 1) + DaysInMonth(year, month - 1)
  }

  function DaysBeforeYear(year: int): int {
    var past := year - 1;
    past * 365 + past / 4 - past / 100 + past / 400
  }

  predicate IsDate(d: Date) {
    d.year >= 1 && 1 <= d.month <= 12 && 1 <= d.day <= DaysInMonth(d.year, d.month)
  }

  function Ordinal(d: Date): int
    requires IsDate(d)
  {
    DaysBeforeYear(d.year) + DaysBeforeMonth(d.year, d.month) + d.day
  }

  const FIRST := Date(1, 1, 1)

  function NextDay(d: Date): (next: Date)
    requires IsDate(d)
    ensures IsDate(next)
  {
    if d.day < DaysInMonth(d.year, d.month) then d.(day := d.day + 1)
    else if d.month < 12 then Date(d.year, d.month + 1, 1)
    else Date(d.year + 1, 1, 1)
  }

  function PreviousDay(d: Date): (previous: Date)
    requires IsDate(d) && d != FIRST
    ensures IsDate(previous)
  {
    if d.day > 1 then d.(day := d.day - 1)
    else if d.month > 1 then Date(d.year, d.month - 1, DaysInMonth(d.year, d.month - 1))
    else Date(d.year - 1, 12, 31)
  }

  /** The date of day `n`: `n - 1` days after the first. */
  function FromOrdinal(n: int): (d: Date)
    requires n >= 1
    ensures IsDate(d)
  {
    if n == 1 then FIRST else NextDay(FromOrdinal(n - 1))
  }

  lemma YearLength(year: int)
    requires year >= 1
    ensures DaysBeforeYear(year + 1) == DaysBeforeYear(year) + (if IsLeap(year) then 366 else 365)
    ensures DaysBeforeMonth(year, 12) == if IsLeap(year) then 335 else 334
  {
    LeapStep(year);
    MonthSums(year);
  }

  lemma LeapStep(year: int)
    requires year >= 1
    ensures DaysBeforeYear(year + 1) == DaysBeforeYear(year) + (if IsLeap(year) then 366 else 365)
  {
    Quotient4(year - 1);
    Quotient100(year - 1);
    Quotient400(year - 1);
    Multiples(year);
  }

  lemma Quotient4(past: int)
    ensures (past + 1) / 4 - past / 4 == if (past + 1) % 4 == 0 then 1 else 0
  {
  }

  lemma Quotient100(past: int)
    ensures (past + 1) / 100 - past / 100 == if (past + 1) % 100 == 0 then 1 else 0
  {
  }

  lemma Quotient400(past: int)
    ensures (past + 1) / 400 - past / 400 == if (past + 1) % 400 == 0 then 1 else 0
  {
  }

  lemma Multiples(year: int)
    ensures year % 400 == 0 ==> year % 100 == 0
    ensures year % 100 == 0 ==> year % 4 == 0
  {
  }

  lemma MonthSums(year: int)
    ensures DaysBeforeMonth(year, 12) == if IsLeap(year) then 335 else 334
  {
    var leap := if IsLeap(year) then 1 else 0;
    assert DaysBeforeMonth(year, 1) == 0;
    assert DaysBeforeMonth(year, 2) == 31;
    assert DaysBeforeMonth(year, 3) == 59 + leap;
    assert DaysBeforeMonth(year, 4) == 90 + leap;
    assert DaysBeforeMonth(year, 5) == 120 + leap;
    assert DaysBeforeMonth(year, 6) == 151 + leap;
    assert DaysBeforeMonth(year, 7) == 181 + leap;
    assert DaysBeforeMonth(year, 8) == 212 + leap;
    assert DaysBeforeMonth(year, 9) == 243 + leap;
    assert DaysBeforeMonth(year, 10) == 273 + leap;
    assert DaysBeforeMonth(year, 11) == 304 + leap;
    assert DaysBeforeMonth(year, 12) == 334 + leap;
  }

  lemma NextDayOrdinal(d: Date)
    requires IsDate(d)
    ensures Ordinal(NextDay(d)) == Ordinal(d) + 1
  {
    hide DaysBeforeYear, IsLeap;
    YearLength(d.year);
  }

  lemma PreviousDayInverts(d: Date)
    requires IsDate(d) && d != FIRST
    ensures NextDay(PreviousDay(d)) == d
    ensures Ordinal(PreviousDay(d)) == Ordinal(d) - 1
  {
    NextDayOrdinal(PreviousDay(d));
  }

  lemma YearsAccumulate(year: int)
    requires year >= 1
    ensures DaysBeforeYear(year) >= 365 * (year - 1)
  {
  }

  lemma {:induction false} OrdinalOfFromOrdinal(n: int)
    requires n >= 1
    ensures Ordinal(FromOrdinal(n)) == n
    decreases n
  {
    if n > 1 {
      OrdinalOfFromOrdinal(n - 1);
      NextDayOrdinal(FromOrdinal(n - 1));
    }
  }

  lemma OrdinalPositive(d: Date)
    requires IsDate(d)
    ensures Ordinal(d) >= 1
    ensures d != FIRST ==> Ordinal(d) > 1
  {
    YearsAccumulate(d.year);
    if d.month > 1 {
      assert DaysBeforeMonth(d.year, 2) == 31;
      MonthsGrow(d.year, 2, d.month);
    }
  }

  lemma {:induction false} MonthsGrow(year: int, few: int, many: int)
    requires 1 <= few <= many <= 12
    ensures DaysBeforeMonth(year, few) <= DaysBeforeMonth(year, many)
    decreases many
  {
    if few < many {
      MonthsGrow(year, few, many - 1);
    }
  }

  /** Numbering days and reading a day's date are inverse. */
  lemma {:induction false} FromOrdinalOfOrdinal(d: Date)
    requires IsDate(d)
    ensures Ordinal(d) >= 1 && FromOrdinal(Ordinal(d)) == d
    decreases d.year, d.month, d.day
  {
    OrdinalPositive(d);
    if d != FIRST {
      PreviousDayInverts(d);
      FromOrdinalOfOrdinal(PreviousDay(d));
    }
  }

  /** The years `datetime` has are exactly the first `MAX_ORDINAL` days. */
  const MAX_ORDINAL := 3652059

  lemma YearInRange(d: Date)
    requires IsDate(d)
    ensures d.year <= MAX_YEAR <==> Ordinal(d) <= MAX_ORDINAL
  {
    assert DaysBeforeYear(10000) == MAX_ORDINAL;
    YearLength(d.year);
    MonthsGrow(d.year, d.month, 12);
    if d.year <= MAX_YEAR {
      YearsOrdered(d.year + 1, 10000);
      DayWithinYear(d);
    } else {
      YearsOrdered(10000, d.year);
    }
  }

  lemma DayWithinYear(d: Date)
    requires IsDate(d)
    ensures Ordinal(d) <= DaysBeforeYear(d.year + 1)
  {
    YearLength(d.year);
    if d.month < 12 {
      assert DaysBeforeMonth(d.year, d.month + 1) == DaysBeforeMonth(d.year, d.month) + DaysInMonth(d.year, d.month);
      MonthsGrow(d.year, d.month + 1, 12);
    }
  }

  lemma YearsOrdered(a: int, b: int)
    requires 1 <= a <= b
    ensures DaysBeforeYear(a) <= DaysBeforeYear(b)
  {
    YearStep(a - 1, b - 1);
  }

  lemma YearStep(p: int, q: int)
    requires 0 <= p <= q
    ensures p * 365 + p / 4 - p / 100 + p / 400 <= q * 365 + q / 4 - q / 100 + q / 400
  {
    var d := q - p;
    assert q / 100 - p / 100 <= d;
  }

  // ---------------------------------------------------------------------
  // The same calendar without its month table
  // ---------------------------------------------------------------------

  /** A date the Gregorian calendar has, by the lengths of its months. */
  predicate IsRealDate(d: Date) {
    && d.year >= 1 && 1 <= d.month <= 12 && 1 <= d.day <= 31
    && (d.day == 31 ==> d.month != 4 && d.month != 6 && d.month != 9 && d.month != 11)
    && (d.month == 2 ==> d.day <= 28 || (d.day == 29 && HasLeapDay(d.year)))
  }

  /** Every fourth year, save three centuries of four. */
  predicate HasLeapDay(year: int) {
    year % 400 == 0 || (year % 4 == 0 && year % 100 != 0)
  }

  lemma DateExactly(d: Date)
    ensures IsDate(d) <==> IsRealDate(d)
  {
    Multiples(d.year);
  }

  /** The days through `d`, counted in years that begin in March: a leap day
      ends its year there, so neither a leap rule nor a month's length is
      asked for. */
  function DaysThrough(d: Date): int {
    var year := if d.month <= 2 then d.year - 1 else d.year;
    var month := if d.month <= 2 then d.month + 9 else d.month - 3;
    365 * year + year / 4 - year / 100 + year / 400 + (153 * month + 2) / 5 + d.day - 306
  }

  lemma OrdinalExactly(d: Date)
    requires IsDate(d)
    ensures Ordinal(d) == DaysThrough(d)
  {
    hide IsLeap;
    MonthsBefore(d.year, d.month);
    LeapStep(d.year);
  }

  lemma MonthsBefore(year: int, month: int)
    requires 1 <= month <= 12
    ensures DaysBeforeMonth(year, month) ==
            if month == 1 then 0 else if month == 2 then 31
            else 59 + (if IsLeap(year) then 1 else 0) + (153 * (month - 3) + 2) / 5
  {
    hide IsLeap;
    var leap := if IsLeap(year) then 1 else 0;
    assert DaysBeforeMonth(year, 3) == 59 + leap by {
      assert DaysBeforeMonth(year, 2) == 31;
    }
    if month > 3 {
      MonthsBefore(year, month - 1);
    }
  }

  /** Each day number from 1 on has one date, and it is the calendar's. */
  lemma DayNumberExactly(n: int, d: Date)
    requires n >= 1
    ensures FromOrdinal(n) == d <==> IsRealDate(d) && DaysThrough(d) == n
  {
    hide IsRealDate, DaysThrough, Ordinal;
    DateExactly(d);
    OrdinalOfFromOrdinal(n);
    if IsDate(d) {
      OrdinalExactly(d);
      FromOrdinalOfOrdinal(d);
    }
  }

  /** `a` is not later than `b`: by year, then month, then day. */
  predicate NotAfter(a: Date, b: Date) {
    || a.year < b.year
    || (a.year == b.year && (a.month < b.month || (a.month == b.month && a.day <= b.day)))
  }

  /** Days are numbered in the order of their dates. */
  lemma OrdinalOrders(a: Date, b: Date)
    requires IsDate(a) && IsDate(b)
    ensures Ordinal(a) <= Ordinal(b) <==> NotAfter(a, b)
  {
    if NotAfter(a, b) {
      OrdinalRises(a, b);
    } else {
      OrdinalRises(b, a);
      assert a != b;
    }
  }

  lemma OrdinalRises(a: Date, b: Date)
    requires IsDate(a) && IsDate(b) && NotAfter(a, b)
    ensures Ordinal(a) <= Ordinal(b)
    ensures a != b ==> Ordinal(a) < Ordinal(b)
  {
    hide DaysBeforeYear, IsLeap;
    if a.year < b.year {
      DayWithinYear(a);
      YearsOrdered(a.year + 1, b.year);
      MonthsGrow(b.year, 1, b.month);
    } else if a.month < b.month {
      MonthsGrow(a.year, a.month + 1, b.month);
    }
  }

  /** Days any calendar agrees on: the first of the Unix epoch, the leap day
      of 2000, the first of May 2026, and the last. */
  lemma KnownDays()
    ensures FromOrdinal(719163) == Date(1970, 1, 1) && FromOrdinal(730179) == Date(2000, 2, 29)
    ensures FromOrdinal(739737) == Date(2026, 5, 1) && FromOrdinal(MAX_ORDINAL) == Date(9999, 12, 31)
  {
    hide FromOrdinal;
    DayNumberExactly(719163, Date(1970, 1, 1));
    DayNumberExactly(730179, Date(2000, 2, 29));
    DayNumberExactly(739737, Date(2026, 5, 1));
    DayNumberExactly(MAX_ORDINAL, Date(9999, 12, 31));
  }
}
