/**
 * The slice of Python's `datetime.date` the transformer uses: `strptime(s, '%Y-%m-%d')`,
 * `strftime('%Y-%m-%d')` (also `str(date)`), and `date - timedelta(days=n)`, which raises
 * when the result would fall before 0001-01-01.
 */
module Calendar {
  import opened Wrappers
  import opened Text

  datatype Date = Date(year: int, month: int, day: int)

  predicate IsLeap(y: int) {
    y % 4 == 0 && (y % 100 != 0 || y % 400 == 0)
  }

  function DaysInMonth(y: int, m: int): int
    requires 1 <= m <= 12
  {
    if m == 2 then (if IsLeap(y) then 29 else 28)
    else if m == 4 || m == 6 || m == 9 || m == 11 then 30
    else 31
  }

  function DaysInYear(y: int): int {
    if IsLeap(y) then 366 else 365
  }

  /** A date `datetime.date` can represent (MINYEAR 1 to MAXYEAR 9999). */
  predicate Valid(d: Date) {
    1 <= d.year <= 9999 && 1 <= d.month <= 12 && 1 <= d.day <= DaysInMonth(d.year, d.month)
  }

  function DaysBeforeYear(y: int): nat
    requires y >= 1
  {
    if y == 1 then 0 else DaysBeforeYear(y - 1) + DaysInYear(y - 1)
  }

  function DaysBeforeMonth(y: int, m: int): nat
    requires 1 <= m <= 12
  {
    if m == 1 then 0 else DaysBeforeMonth(y, m - 1) + DaysInMonth(y, m - 1)
  }

  /** `date.toordinal()`: 0001-01-01 is day 1. */
  function Ordinal(d: Date): (n: int)
    requires Valid(d)
    ensures n >= 1
  {
    DaysBeforeYear(d.year) + DaysBeforeMonth(d.year, d.month) + d.day
  }

  lemma DaysBeforeDecember(y: int)
    ensures DaysBeforeMonth(y, 12) + 31 == DaysInYear(y)
  {
    assert DaysBeforeMonth(y, 2) == 31;
    assert DaysBeforeMonth(y, 3) == 31 + DaysInMonth(y, 2);
    assert DaysBeforeMonth(y, 4) == 62 + DaysInMonth(y, 2);
    assert DaysBeforeMonth(y, 5) == 92 + DaysInMonth(y, 2);
    assert DaysBeforeMonth(y, 6) == 123 + DaysInMonth(y, 2);
    assert DaysBeforeMonth(y, 7) == 153 + DaysInMonth(y, 2);
    assert DaysBeforeMonth(y, 8) == 184 + DaysInMonth(y, 2);
    assert DaysBeforeMonth(y, 9) == 215 + DaysInMonth(y, 2);
    assert DaysBeforeMonth(y, 10) == 245 + DaysInMonth(y, 2);
    assert DaysBeforeMonth(y, 11) == 276 + DaysInMonth(y, 2);
    assert DaysBeforeMonth(y, 12) == 306 + DaysInMonth(y, 2);
  }

  /** The day before `d`; None for 0001-01-01, the first day `date` can hold. */
  function PrevDay(d: Date): (r: Option<Date>)
    requires Valid(d)
    ensures r.None? <==> d == Date(1, 1, 1)
    ensures r.Some? ==> Valid(r.value) && Ordinal(r.value) == Ordinal(d) - 1
  {
    if d.day > 1 then Some(Date(d.year, d.month, d.day - 1))
    else if d.month > 1 then
      MonthBack(d);
      Some(Date(d.year, d.month - 1, DaysInMonth(d.year, d.month - 1)))
    else if d.year > 1 then
      YearBack(d);
      Some(Date(d.year - 1, 12, 31))
    else None
  }

  lemma MonthBack(d: Date)
    requires Valid(d) && d.day == 1 && d.month > 1
    ensures var p := Date(d.year, d.month - 1, DaysInMonth(d.year, d.month - 1));
      Valid(p) && Ordinal(p) == Ordinal(d) - 1
  {
  }

  lemma YearBack(d: Date)
    requires Valid(d) && d.day == 1 && d.month == 1 && d.year > 1
    ensures Valid(Date(d.year - 1, 12, 31)) && Ordinal(Date(d.year - 1, 12, 31)) == Ordinal(d) - 1
  {
    DaysBeforeDecember(d.year - 1);
  }

  /** 0001-01-01 is the only date with ordinal 1. */
  lemma OrdinalOne(d: Date)
    requires Valid(d)
    ensures Ordinal(d) == 1 <==> d == Date(1, 1, 1)
  {
    if d.year > 1 {
      assert DaysBeforeYear(d.year) >= DaysInYear(d.year - 1);
    }
    if d.month > 1 {
      assert DaysBeforeMonth(d.year, d.month) >= DaysInMonth(d.year, d.month - 1);
    }
  }

  /** `d - timedelta(days=n)`; None where Python raises OverflowError. */
  function MinusDays(d: Date, n: nat): (r: Option<Date>)
    requires Valid(d)
    ensures r.Some? <==> n < Ordinal(d)
    ensures r.Some? ==> Valid(r.value) && Ordinal(r.value) == Ordinal(d) - n
    decreases n
  {
    if n == 0 then Some(d)
    else match PrevDay(d)
      case None => OrdinalOne(d); None
      case Some(p) => MinusDays(p, n - 1)
  }

  /** Distinct dates have distinct ordinals, so `MinusDays` names exactly one date. */
  lemma OrdinalInjective(a: Date, b: Date)
    requires Valid(a) && Valid(b) && Ordinal(a) == Ordinal(b)
    ensures a == b
  {
    if a.year < b.year {
      OrdinalYearBound(a);
      DaysBeforeYearMono(a.year + 1, b.year);
      assert false;
    } else if b.year < a.year {
      OrdinalYearBound(b);
      DaysBeforeYearMono(b.year + 1, a.year);
      assert false;
    } else if a.month < b.month {
      DaysBeforeMonthMono(a.year, a.month + 1, b.month);
      assert false;
    } else if b.month < a.month {
      DaysBeforeMonthMono(a.year, b.month + 1, a.month);
      assert false;
    }
  }

  /** Every day of year `y` comes before the first day of year `y + 1`. */
  lemma OrdinalYearBound(d: Date)
    requires Valid(d)
    ensures Ordinal(d) <= DaysBeforeYear(d.year + 1)
  {
    if d.month < 12 {
      DaysBeforeMonthMono(d.year, d.month + 1, 12);
    }
    DaysBeforeDecember(d.year);
  }

  lemma {:induction false} DaysBeforeYearMono(y1: int, y2: int)
    requires 1 <= y1 <= y2
    ensures DaysBeforeYear(y1) <= DaysBeforeYear(y2)
    decreases y2 - y1
  {
    if y1 < y2 {
      DaysBeforeYearMono(y1, y2 - 1);
    }
  }

  /** Months before `m2` cover at least the days of month `m1 - 1` and all before it. */
  lemma {:induction false} DaysBeforeMonthMono(y: int, m1: int, m2: int)
    requires 2 <= m1 <= m2 <= 12
    ensures DaysBeforeMonth(y, m1 - 1) + DaysInMonth(y, m1 - 1) <= DaysBeforeMonth(y, m2)
    decreases m2 - m1
  {
    if m1 < m2 {
      DaysBeforeMonthMono(y, m1, m2 - 1);
    }
  }

  // ---------------------------------------------------------------------------
  // Text form

  function Pad2(n: nat): (r: string)
    requires n < 100
    ensures |r| == 2 && AllDigits(r)
  {
    [DigitChar(n / 10), DigitChar(n % 10)]
  }

  function Pad4(n: nat): (r: string)
    requires n < 10000
    ensures |r| == 4 && AllDigits(r)
  {
    Pad2(n / 100) + Pad2(n % 100)
  }

  /** `d.strftime('%Y-%m-%d')` and `str(d)`, with the year always padded to four digits (as
      `str(d)` does; `%Y` pads it only on some platforms). */
  function FormatDate(d: Date): (r: string)
    requires Valid(d)
    ensures |r| == 10
  {
    Pad4(d.year) + "-" + Pad2(d.month) + "-" + Pad2(d.day)
  }

  /** What `%m` accepts: `1[0-2]|0[1-9]|[1-9]`. */
  predicate MonthToken(t: string) {
    1 <= |t| <= 2 && AllDigits(t) && 1 <= ParseNat(t) <= 12
  }

  /** What `%d` accepts: `3[01]|[12]\d|0[1-9]|[1-9]| [1-9]`. */
  predicate DayToken(t: string) {
    (1 <= |t| <= 2 && AllDigits(t) && 1 <= ParseNat(t) <= 31)
    || (|t| == 2 && t[0] == ' ' && '1' <= t[1] <= '9')
  }

  function DayValue(t: string): nat
    requires DayToken(t)
  {
    if t[0] == ' ' then DigitValue(t[1]) else ParseNat(t)
  }

  /**
   * `datetime.strptime(s, '%Y-%m-%d').date()`, with None where it raises: the whole text must
   * be four digits, a month token and a day token separated by '-', and name a real date.
   */
  function ParseDate(s: string): (r: Option<Date>)
    ensures r.Some? ==> Valid(r.value)
  {
    var parts := Split(s, "-");
    if |parts| == 3 && |parts[0]| == 4 && AllDigits(parts[0])
       && MonthToken(parts[1]) && DayToken(parts[2]) then
      var d := Date(ParseNat(parts[0]), ParseNat(parts[1]), DayValue(parts[2]));
      if Valid(d) then Some(d) else None
    else
      None
  }

  lemma ParsePad2(n: nat)
    requires n < 100
    ensures ParseNat(Pad2(n)) == n
  {
    ParseNatSnoc([], DigitChar(n / 10));
    ParseNatSnoc([DigitChar(n / 10)], DigitChar(n % 10));
    assert [] + [DigitChar(n / 10)] == [DigitChar(n / 10)];
  }

  lemma ParsePad4(n: nat)
    requires n < 10000
    ensures ParseNat(Pad4(n)) == n
  {
    var hi, lo := Pad2(n / 100), Pad2(n % 100);
    ParsePad2(n / 100);
    ParsePad2(n % 100);
    ParseNatSnoc(hi, lo[0]);
    ParseNatSnoc(hi + [lo[0]], lo[1]);
    assert hi + [lo[0]] + [lo[1]] == hi + lo;
    ParseNatSnoc([], lo[0]);
    ParseNatSnoc([lo[0]], lo[1]);
    assert [] + [lo[0]] == [lo[0]];
    assert [lo[0]] + [lo[1]] == lo;
  }

  /** Splitting on a one-character separator peels off a first piece that does not hold it. */
  lemma {:induction false} SplitOneChar(a: string, b: string, sep: string)
    requires |sep| == 1 && forall i :: 0 <= i < |a| ==> a[i] != sep[0]
    ensures Split(a + sep + b, sep) == [a] + Split(b, sep)
    decreases |a|
  {
    var s := a + sep + b;
    if a == [] {
      assert s[..1] == sep;
      assert s[1..] == b;
    } else {
      assert s[..1] != sep by { assert s[0] == a[0]; }
      assert s[1..] == a[1..] + sep + b;
      SplitOneChar(a[1..], b, sep);
      assert [a[0]] + a[1..] == a;
    }
  }

  lemma SplitNoChar(a: string, sep: string)
    requires |sep| == 1 && forall i :: 0 <= i < |a| ==> a[i] != sep[0]
    ensures Split(a, sep) == [a]
  {
    ContainsSkipNoHead(a, "", sep);
    assert a + "" == a;
    NotContainsShort("", sep);
    SplitSingle(a, sep);
  }

  /** `strptime` reads back what `strftime` wrote. */
  lemma {:induction false} ParseFormatDate(d: Date)
    requires Valid(d)
    ensures ParseDate(FormatDate(d)) == Some(d)
  {
    var y, m, dd := Pad4(d.year), Pad2(d.month), Pad2(d.day);
    SplitOneChar(y, m + "-" + dd, "-");
    assert y + "-" + m + "-" + dd == y + "-" + (m + "-" + dd);
    SplitOneChar(m, dd, "-");
    SplitNoChar(dd, "-");
    var parts := Split(FormatDate(d), "-");
    assert parts == [y, m, dd];
    ParsePad4(d.year);
    ParsePad2(d.month);
    ParsePad2(d.day);
  }
}
