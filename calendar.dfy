/** The part of Python's `datetime` that the note store relies on: naive date-times, their
    validity, their ordering, the proleptic Gregorian day number (`date.toordinal`) and the
    weekday (`date.weekday`, Monday = 0). */
module Calendar {

  /** `datetime.MINYEAR` and `datetime.MAXYEAR`. */
  const MinYear := 1
  const MaxYear := 9999

  /** Day number of 9999-12-31, the last date Python can represent. */
  const MaxOrdinal := 3652059

  predicate IsLeapYear(y: int)
  {
    y % 4 == 0 && (y % 100 != 0 || y % 400 == 0)
  }

  function DaysInMonth(y: int, m: int): (n: int)
    requires 1 <= m <= 12
    ensures 28 <= n <= 31
  {
    if m == 2 then (if IsLeapYear(y) then 29 else 28)
    else if m == 4 || m == 6 || m == 9 || m == 11 then 30
    else 31
  }

  function DaysInYear(y: int): int
  {
    if IsLeapYear(y) then 366 else 365
  }

  /** A calendar date, the value of `datetime.date()`. */
  datatype Date = Date(year: int, month: int, day: int)
  {
    predicate Valid()
    {
      MinYear <= year <= MaxYear && 1 <= month <= 12 && 1 <= day <= DaysInMonth(year, month)
    }
  }

  /** A naive date-time with microseconds, the value of a Python `datetime` without tzinfo. */
  datatype DateTime = DateTime(year: int, month: int, day: int,
                               hour: int, minute: int, second: int, microsecond: int)
  {
    function DatePart(): Date
    {
      Date(year, month, day)
    }

    /** The range checks of the `datetime` constructor. */
    predicate Valid()
    {
      DatePart().Valid() && 0 <= hour < 24 && 0 <= minute < 60 && 0 <= second < 60
      && 0 <= microsecond < 1000000
    }
  }

  /** The date-times Python can represent. */
  type Timestamp = t: DateTime | t.Valid() witness DateTime(1, 1, 1, 0, 0, 0, 0)

  /** Python's `<` on naive date-times and on dates: lexicographic on the fields. */
  predicate Before(a: DateTime, b: DateTime)
  {
    if a.year != b.year then a.year < b.year
    else if a.month != b.month then a.month < b.month
    else if a.day != b.day then a.day < b.day
    else if a.hour != b.hour then a.hour < b.hour
    else if a.minute != b.minute then a.minute < b.minute
    else if a.second != b.second then a.second < b.second
    else a.microsecond < b.microsecond
  }

  predicate DateBefore(a: Date, b: Date)
  {
    if a.year != b.year then a.year < b.year
    else if a.month != b.month then a.month < b.month
    else a.day < b.day
  }

  /** `Before` is a strict total order: irreflexive, transitive and connected. */
  lemma BeforeIsStrictTotalOrder(a: DateTime, b: DateTime, c: DateTime)
    ensures !Before(a, a)
    ensures Before(a, b) && Before(b, c) ==> Before(a, c)
    ensures a != b ==> Before(a, b) || Before(b, a)
  {
  }

  function DaysBeforeYear(y: int): (n: int)
    requires y >= 1
    ensures n >= 0
  {
    var p := y - 1;
    p * 365 + p / 4 - p / 100 + p / 400
  }

  /** Days in year `y` before the first of month `m`. */
  function DaysBeforeMonth(y: int, m: int): int
    requires 1 <= m <= 12
  {
    [0, 31, 59, 90, 120, 151, 181, 212, 243, 273, 304, 334][m - 1]
    + (if m > 2 && IsLeapYear(y) then 1 else 0)
  }

  /** `date.toordinal()`: 0001-01-01 is day 1. */
  function Ordinal(d: Date): int
    requires d.Valid()
  {
    DaysBeforeYear(d.year) + DaysBeforeMonth(d.year, d.month) + d.day
  }

  /** `date.weekday()`: Monday is 0 and Sunday is 6. */
  function Weekday(d: Date): int
    requires d.Valid()
  {
    (Ordinal(d) + 6) % 7
  }

  /** Day number of the Monday on or before `d`: `d - timedelta(days=d.weekday())`. */
  function WeekStart(d: Date): int
    requires d.Valid()
  {
    Ordinal(d) - Weekday(d)
  }

  /** `x` lies in the inclusive window from the Monday on or before `d` to six days later. */
  predicate InWeekOf(x: Date, d: Date)
    requires x.Valid() && d.Valid()
  {
    WeekStart(d) <= Ordinal(x) <= WeekStart(d) + 6
  }

  // ---------------------------------------------------------------------------------------
  // Day numbers

  /** Each year contributes its own length to the count of days before the next one. */
  lemma DaysBeforeNextYear(y: int)
    requires y >= 1
    ensures DaysBeforeYear(y + 1) == DaysBeforeYear(y) + DaysInYear(y)
  {
    var p := y - 1;
    NextQuotient(p, 4);
    NextQuotient(p, 100);
    NextQuotient(p, 400);
    if y % 400 == 0 {
      DividesBy400(y);
    } else if y % 100 == 0 {
      DividesBy100(y);
    }
  }

  /** Counting one more number adds one multiple of `k` exactly when it is one. */
  lemma NextQuotient(p: nat, k: nat)
    requires k == 4 || k == 100 || k == 400
    ensures (p + 1) / k == p / k + (if (p + 1) % k == 0 then 1 else 0)
  {
    var q, r := p / k, p % k;
    assert p == k * q + r && 0 <= r < k;
    if r + 1 == k {
      assert p + 1 == k * (q + 1);
    } else {
      assert p + 1 == k * q + (r + 1);
    }
  }

  lemma DividesBy400(y: int)
    requires y % 400 == 0
    ensures y % 100 == 0 && y % 4 == 0
  {
    var q := y / 400;
    assert y == 100 * (4 * q);
    assert y == 4 * (100 * q);
  }

  lemma DividesBy100(y: int)
    requires y % 100 == 0
    ensures y % 4 == 0
  {
    var q := y / 100;
    assert y == 4 * (25 * q);
  }

  lemma DaysBeforeMonthBounds(y: int, m: int)
    requires 1 <= m <= 12
    ensures m < 12 ==> DaysBeforeMonth(y, m) + DaysInMonth(y, m) == DaysBeforeMonth(y, m + 1)
    ensures DaysBeforeMonth(y, 12) + DaysInMonth(y, 12) == DaysInYear(y)
  {
  }

  /** Later months start later: month `m` ends no later than month `n` begins. */
  lemma {:induction false} DaysBeforeMonthIncreasing(y: int, m: int, n: int)
    requires 1 <= m < n <= 12
    ensures DaysBeforeMonth(y, m) + DaysInMonth(y, m) <= DaysBeforeMonth(y, n)
    decreases n - m
  {
    if m + 1 < n {
      DaysBeforeMonthIncreasing(y, m + 1, n);
    }
  }

  /** The day numbers of year `y` lie strictly between those of earlier and later years. */
  lemma {:induction false} OrdinalWithinYear(d: Date)
    requires d.Valid()
    ensures DaysBeforeYear(d.year) < Ordinal(d) <= DaysBeforeYear(d.year) + DaysInYear(d.year)
  {
    if d.month < 12 {
      DaysBeforeMonthIncreasing(d.year, d.month, 12);
    }
    DaysBeforeMonthBounds(d.year, 12);
  }

  lemma {:induction false} DaysBeforeYearIncreasing(y: int, z: int)
    requires 1 <= y < z
    ensures DaysBeforeYear(y) + DaysInYear(y) <= DaysBeforeYear(z)
    decreases z - y
  {
    DaysBeforeNextYear(y);
    if y + 1 < z {
      DaysBeforeYearIncreasing(y + 1, z);
    }
  }

  /** Comparing day numbers is comparing dates: the day number is strictly increasing
      in Python's date order. */
  lemma {:induction false} OrdinalOrder(a: Date, b: Date)
    requires a.Valid() && b.Valid()
    ensures DateBefore(a, b) <==> Ordinal(a) < Ordinal(b)
    ensures a == b <==> Ordinal(a) == Ordinal(b)
  {
    if a.year < b.year {
      OrdinalWithinYear(a);
      OrdinalWithinYear(b);
      DaysBeforeYearIncreasing(a.year, b.year);
    } else if b.year < a.year {
      OrdinalWithinYear(a);
      OrdinalWithinYear(b);
      DaysBeforeYearIncreasing(b.year, a.year);
    } else if a.month < b.month {
      DaysBeforeMonthIncreasing(a.year, a.month, b.month);
    } else if b.month < a.month {
      DaysBeforeMonthIncreasing(a.year, b.month, a.month);
    }
  }

  lemma LastOrdinal()
    ensures Ordinal(Date(MaxYear, 12, 31)) == MaxOrdinal
  {
    assert DaysBeforeYear(MaxYear) == 3651694;
    assert DaysBeforeMonth(MaxYear, 12) == 334;
  }

  /** Day numbers run from 1 (0001-01-01) to MaxOrdinal (9999-12-31). */
  lemma OrdinalRange(d: Date)
    requires d.Valid()
    ensures 1 <= Ordinal(d) <= MaxOrdinal
  {
    var last := Date(MaxYear, 12, 31);
    assert d == last || DateBefore(d, last);
    LastOrdinal();
    OrdinalOrder(d, last);
  }

  // ---------------------------------------------------------------------------------------
  // Monday-to-Sunday weeks

  /** The window starts on a Monday no earlier than 0001-01-01, and `d` lies in it. */
  lemma WeekStartIsMonday(d: Date)
    requires d.Valid()
    ensures (WeekStart(d) + 6) % 7 == 0
    ensures 1 <= WeekStart(d) <= Ordinal(d) <= WeekStart(d) + 6
  {
    OrdinalRange(d);
    MondayOnOrBefore(Ordinal(d));
  }

  /** Stepping back from day `o` by its weekday lands on a Monday, not before day 1. */
  lemma MondayOnOrBefore(o: int)
    requires o >= 1
    ensures (o - (o + 6) % 7 + 6) % 7 == 0
    ensures 1 <= o - (o + 6) % 7 <= o
  {
    var m, w := (o + 6) / 7, (o + 6) % 7;
    assert o + 6 == 7 * m + w && 0 <= w < 7;
    assert o - w + 6 == 7 * m;
    assert m >= 1;
  }

  /** Monday-started weeks partition the calendar: `x` is in the week of `d` exactly when
      both have the same Monday. */
  lemma SameWeek(x: Date, d: Date)
    requires x.Valid() && d.Valid()
    ensures InWeekOf(x, d) <==> WeekStart(x) == WeekStart(d)
  {
    var o, q := Ordinal(d), Ordinal(x);
    var m := (o + 6) / 7;
    assert WeekStart(d) + 6 == 7 * m;
    if InWeekOf(x, d) {
      var k := q - WeekStart(d);
      assert q + 6 == 7 * m + k;
      assert (q + 6) % 7 == k by {
        assert (7 * m + k) / 7 == m;
      }
    }
  }

  /** The date-level reading of the week window: `x` is in the week of `d` iff `x` is not
      before that week's Monday and not after its Sunday, as Python compares dates. */
  lemma InWeekOfByDates(x: Date, d: Date, monday: Date, sunday: Date)
    requires x.Valid() && d.Valid() && monday.Valid() && sunday.Valid()
    requires Ordinal(monday) == WeekStart(d) && Ordinal(sunday) == WeekStart(d) + 6
    ensures InWeekOf(x, d) <==> !DateBefore(x, monday) && !DateBefore(sunday, x)
  {
    OrdinalOrder(x, monday);
    OrdinalOrder(sunday, x);
  }

  /** 2024-03-06 is a Wednesday; its week runs from Monday 2024-03-04 to Sunday 2024-03-10. */
  lemma WeekOfWednesdayExample()
    ensures Weekday(Date(2024, 3, 6)) == 2
    ensures InWeekOf(Date(2024, 3, 4), Date(2024, 3, 6)) && InWeekOf(Date(2024, 3, 10), Date(2024, 3, 6))
    ensures !InWeekOf(Date(2024, 3, 3), Date(2024, 3, 6)) && !InWeekOf(Date(2024, 3, 11), Date(2024, 3, 6))
  {
    assert DaysBeforeYear(2024) == 738885;
  }
}
