/** Calendar dates written `YYYY-MM-DD`: the layout "2006-01-02" that Go's
    `time.Parse` and `Time.Format` use in the backend, the form a Postgres DATE is
    served in, and the form the frontend compares as plain strings. */
module Dates {
  import opened Wrappers
  import opened Text

  datatype Date = Date(year: int, month: int, day: int)

  predicate IsLeapYear(y: int) {
    y % 4 == 0 && (y % 100 != 0 || y % 400 == 0)
  }

  function DaysIn(month: int, year: int): int {
    if month == 2 then (if IsLeapYear(year) then 29 else 28)
    else if month == 4 || month == 6 || month == 9 || month == 11 then 30
    else 31
  }

  /** The shape "2006-01-02" asks for: four digits, '-', two digits, '-', two digits. */
  predicate IsoShape(s: string) {
    && |s| == 10 && s[4] == '-' && s[7] == '-'
    && AllDigits(s[..4]) && AllDigits(s[5..7]) && AllDigits(s[8..])
  }

  /** time.Parse("2006-01-02", s): the shape above, a month from 1 to 12 and a day
      that exists in that month (29 February only in leap years); nothing may follow. */
  function ParseIsoDate(s: string): (r: Option<Date>)
    ensures r.Some? ==> IsoShape(s) && 1 <= r.value.month <= 12 && 1 <= r.value.day <= DaysIn(r.value.month, r.value.year)
    ensures r.Some? ==> 0 <= r.value.year <= 9999
  {
    if !IsoShape(s) then None
    else
      var y, m, d := DigitsValue(s[..4]), DigitsValue(s[5..7]), DigitsValue(s[8..]);
      DigitsBound(s[..4]);
      if 1 <= m <= 12 && 1 <= d <= DaysIn(m, y) then Some(Date(y, m, d)) else None
  }

  /** Calendar order. */
  predicate DateBefore(a: Date, b: Date) {
    a.year < b.year || (a.year == b.year && (a.month < b.month || (a.month == b.month && a.day < b.day)))
  }

  // ---------------------------------------------------------------------------
  // Comparing two dates as strings compares them as dates.

  function Pow10(n: nat): nat {
    if n == 0 then 1 else 10 * Pow10(n - 1)
  }

  lemma {:induction false} DigitsBound(s: string)
    requires AllDigits(s)
    ensures DigitsValue(s) < Pow10(|s|)
  {
    if s != [] {
      DigitsBound(s[..|s| - 1]);
    }
  }

  /** DigitsValue read from the most significant digit. */
  lemma {:induction false} DigitsValueFront(s: string)
    requires AllDigits(s) && s != []
    ensures DigitsValue(s) == DigitValue(s[0]) * Pow10(|s| - 1) + DigitsValue(s[1..])
  {
    if |s| > 1 {
      var init := s[..|s| - 1];
      DigitsValueFront(init);
      assert init[1..] == s[1..][..|s[1..]| - 1];
      assert init[0] == s[0];
    } else {
      assert s[1..] == [];
    }
  }

  /** A smaller leading digit makes a smaller number, whatever follows it. */
  lemma LeadingDigit(da: nat, db: nat, ra: nat, rb: nat, p: nat)
    requires da < db && ra < p && rb < p
    ensures da * p + ra < db * p + rb
  {
    assert da * p + ra < da * p + p;
    assert (da + 1) * p == da * p + p;
    assert (da + 1) * p <= db * p;
  }

  /** Equal-length digit strings compare as strings the way their values compare. */
  lemma {:induction false} DigitsOrder(a: string, b: string)
    requires AllDigits(a) && AllDigits(b) && |a| == |b|
    ensures StrLess(a, b) <==> DigitsValue(a) < DigitsValue(b)
    ensures a == b <==> DigitsValue(a) == DigitsValue(b)
  {
    if a != [] {
      if a[0] < b[0] {
        assert DigitsValue(a) < DigitsValue(b) by { LeadingDigitOrder(a, b); }
      } else if b[0] < a[0] {
        assert DigitsValue(b) < DigitsValue(a) by { LeadingDigitOrder(b, a); }
      } else {
        DigitsOrder(a[1..], b[1..]);
        assert DigitsValue(a) - DigitsValue(b) == DigitsValue(a[1..]) - DigitsValue(b[1..]) by {
          DigitsValueFront(a);
          DigitsValueFront(b);
        }
        assert StrLess(a, b) == StrLess(a[1..], b[1..]);
        if a[1..] == b[1..] {
          assert a == [a[0]] + a[1..] && b == [b[0]] + b[1..];
        }
      }
    }
  }

  /** Of two equal-length digit strings, the one with the smaller first digit is smaller. */
  lemma LeadingDigitOrder(a: string, b: string)
    requires AllDigits(a) && AllDigits(b) && |a| == |b| && a != [] && a[0] < b[0]
    ensures DigitsValue(a) < DigitsValue(b)
  {
    DigitsValueFront(a);
    DigitsValueFront(b);
    DigitsBound(a[1..]);
    DigitsBound(b[1..]);
    LeadingDigit(DigitValue(a[0]), DigitValue(b[0]), DigitsValue(a[1..]), DigitsValue(b[1..]), Pow10(|a| - 1));
  }

  /** Comparing `x + u` with `y + v`, where x and y have the same length, compares
      x with y first and u with v only when x and y are equal. */
  lemma {:induction false} StrLessConcat(x: string, u: string, y: string, v: string)
    requires |x| == |y|
    ensures StrLess(x + u, y + v) <==> StrLess(x, y) || (x == y && StrLess(u, v))
  {
    if x != [] {
      assert (x + u)[0] == x[0] && (y + v)[0] == y[0];
      assert (x + u)[1..] == x[1..] + u && (y + v)[1..] == y[1..] + v;
      StrLessConcat(x[1..], u, y[1..], v);
      if x[0] == y[0] && x[1..] == y[1..] {
        assert x == y;
      }
      if x == y {
        assert x[1..] == y[1..];
      }
    } else {
      assert x + u == u && y + v == v;
    }
  }

  /** For two well-formed dates, the string comparison JavaScript performs on
      "YYYY-MM-DD" values is calendar order. */
  lemma IsoStringOrder(a: string, b: string)
    requires ParseIsoDate(a).Some? && ParseIsoDate(b).Some?
    ensures StrLess(a, b) <==> DateBefore(ParseIsoDate(a).value, ParseIsoDate(b).value)
    ensures a == b <==> ParseIsoDate(a).value == ParseIsoDate(b).value
  {
    assert a == a[..4] + (a[4..5] + (a[5..7] + (a[7..8] + a[8..])));
    assert b == b[..4] + (b[4..5] + (b[5..7] + (b[7..8] + b[8..])));
    assert a[4..5] == b[4..5] == "-" && a[7..8] == b[7..8] == "-";
    DigitsOrder(a[..4], b[..4]);
    DigitsOrder(a[5..7], b[5..7]);
    DigitsOrder(a[8..], b[8..]);
    StrLessConcat(a[..4], a[4..5] + (a[5..7] + (a[7..8] + a[8..])), b[..4], b[4..5] + (b[5..7] + (b[7..8] + b[8..])));
    StrLessConcat(a[4..5], a[5..7] + (a[7..8] + a[8..]), b[4..5], b[5..7] + (b[7..8] + b[8..]));
    StrLessConcat(a[5..7], a[7..8] + a[8..], b[5..7], b[7..8] + b[8..]);
    StrLessConcat(a[7..8], a[8..], b[7..8], b[8..]);
    StrLessTrichotomy("-", "-");
  }

  // ---------------------------------------------------------------------------
  // Counting days: the proleptic Gregorian calendar `time.Time` uses.

  /** Days in the months of `year` before `month`. */
  function DaysBeforeMonth(month: int, year: int): (r: nat)
    decreases month
  {
    if month <= 1 then 0 else DaysBeforeMonth(month - 1, year) + DaysIn(month - 1, year) as nat
  }

  function YearLength(year: int): nat { DaysBeforeMonth(13, year) }

  /** Days in the years from 0 up to, not including, `year`. */
  function DaysBeforeYear(year: int): (r: nat)
    decreases year
  {
    if year <= 0 then 0 else DaysBeforeYear(year - 1) + YearLength(year - 1)
  }

  /** The number of the day `d` counted from 1 January of year 0. */
  function DayNumber(d: Date): int {
    DaysBeforeYear(d.year) + DaysBeforeMonth(d.month, d.year) + d.day - 1
  }

  /** A date `ParseIsoDate` can return: a month of the year and a day of it. */
  predicate ValidDate(d: Date) {
    0 <= d.year && 1 <= d.month <= 12 && 1 <= d.day <= DaysIn(d.month, d.year)
  }

  /** Later months start after the whole of each earlier month. */
  lemma {:induction false} MonthsGrow(m1: int, m2: int, year: int)
    requires 1 <= m1 < m2
    ensures DaysBeforeMonth(m2, year) >= DaysBeforeMonth(m1, year) + DaysIn(m1, year)
    decreases m2
  {
    if m2 > m1 + 1 {
      MonthsGrow(m1, m2 - 1, year);
    }
  }

  /** Later years start after the whole of each earlier year. */
  lemma {:induction false} YearsGrow(y1: int, y2: int)
    requires 0 <= y1 < y2
    ensures DaysBeforeYear(y2) >= DaysBeforeYear(y1) + YearLength(y1)
    decreases y2
  {
    if y2 > y1 + 1 {
      YearsGrow(y1, y2 - 1);
    }
  }

  /** Day numbers follow calendar order: one earlier date has a smaller number,
      and the same date the same. */
  lemma DayNumberOrder(a: Date, b: Date)
    requires ValidDate(a) && ValidDate(b)
    ensures DateBefore(a, b) ==> DayNumber(a) < DayNumber(b)
  {
    if a.year < b.year {
      MonthsGrow(a.month, 13, a.year);
      YearsGrow(a.year, b.year);
    } else if a.year == b.year && a.month < b.month {
      MonthsGrow(a.month, b.month, a.year);
    }
  }
}
