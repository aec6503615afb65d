/** Calendar days as Python's `datetime` handles them, and `generate_dates`
    of scripts/newsScrapper.py: it reads its two bounds with
    `strptime(.., "%Y-%m-%d")`, walks from the first to the last day one
    `timedelta(days=1)` at a time and renders each day with
    `strftime("%b%d.%Y").lower()`, e.g. "apr20.2017". */
module Calendar {
  import opened Wrappers
  import opened Text

  /** A day of the proleptic Gregorian calendar; the parsed `datetime`
      values are always at midnight, so only the day matters. */
  datatype Date = Date(year: nat, month: nat, day: nat)

  const MinYear: nat := 1
  const MaxYear: nat := 9999

  /** The day of `datetime.max`: the day after it cannot be represented. */
  const MaxDate := Date(9999, 12, 31)

  predicate IsLeap(y: nat)
  {
    y % 4 == 0 && (y % 100 != 0 || y % 400 == 0)
  }

  function DaysInMonth(y: nat, m: nat): nat
    requires 1 <= m <= 12
  {
    if m == 2 then (if IsLeap(y) then 29 else 28)
    else if m == 4 || m == 6 || m == 9 || m == 11 then 30
    else 31
  }

  function DaysInYear(y: nat): nat
  {
    if IsLeap(y) then 366 else 365
  }

  /** A day that `datetime` can represent. */
  predicate Valid(d: Date)
  {
    MinYear <= d.year <= MaxYear && 1 <= d.month <= 12 && 1 <= d.day <= DaysInMonth(d.year, d.month)
  }

  /** The days in the years before `y`, counted year by year. */
  function DaysBeforeYear(y: nat): nat
    requires y >= 1
  {
    if y == 1 then 0 else DaysBeforeYear(y - 1) + DaysInYear(y - 1)
  }

  /** The count agrees with CPython's `_days_before_year`, which computes it
      in closed form from the leap-year rule. */
  lemma {:induction false} DaysBeforeYearClosedForm(y: nat)
    requires y >= 1
    ensures var p := y - 1; DaysBeforeYear(y) == 365 * p + p / 4 - p / 100 + p / 400
  {
    if y > 1 {
      DaysBeforeYearClosedForm(y - 1);
      QuotientsStep(y - 1);
    }
  }

  /** How the three quotients of the closed form grow from `p - 1` to `p`,
      and how the divisibilities nest. */
  lemma QuotientsStep(p: nat)
    requires p >= 1
    ensures p / 4 == (p - 1) / 4 + (if p % 4 == 0 then 1 else 0)
    ensures p / 100 == (p - 1) / 100 + (if p % 100 == 0 then 1 else 0)
    ensures p / 400 == (p - 1) / 400 + (if p % 400 == 0 then 1 else 0)
    ensures p % 400 == 0 ==> p % 100 == 0
    ensures p % 100 == 0 ==> p % 4 == 0
  {
  }

  /** CPython's `_days_before_month`: the days of year `y` before month `m`. */
  function DaysBeforeMonth(y: nat, m: nat): nat
    requires 1 <= m <= 12
  {
    [0, 31, 59, 90, 120, 151, 181, 212, 243, 273, 304, 334][m - 1]
      + (if m > 2 && IsLeap(y) then 1 else 0)
  }

  /** `date.toordinal()`: day 1 is 0001-01-01. CPython adds a `timedelta`
      by going through this number. */
  function Ordinal(d: Date): int
    requires Valid(d)
  {
    DaysBeforeYear(d.year) + DaysBeforeMonth(d.year, d.month) + d.day
  }

  /** The month table adds up: month `m` ends where month `m + 1` starts,
      and December ends with the year. */
  lemma MonthsAddUp(y: nat, m: nat)
    requires 1 <= m <= 12
    ensures m < 12 ==> DaysBeforeMonth(y, m + 1) == DaysBeforeMonth(y, m) + DaysInMonth(y, m)
    ensures m == 12 ==> DaysBeforeMonth(y, m) + DaysInMonth(y, m) == DaysInYear(y)
  {
  }

  /** Whole years: a later year starts after every day of an earlier one. */
  lemma {:induction false} YearsIncrease(y1: nat, y2: nat)
    requires 1 <= y1 < y2
    ensures DaysBeforeYear(y1) + DaysInYear(y1) <= DaysBeforeYear(y2)
    decreases y2 - y1
  {
    if y1 + 1 < y2 {
      YearsIncrease(y1 + 1, y2);
    }
  }

  /** Within one year: a later month starts after every day of an earlier one. */
  lemma MonthsIncrease(y: nat, m1: nat, m2: nat)
    requires 1 <= m1 < m2 <= 12
    ensures DaysBeforeMonth(y, m1) + DaysInMonth(y, m1) <= DaysBeforeMonth(y, m2)
  {
  }

  /** A valid day lies inside its year. */
  lemma DayOfYearBound(d: Date)
    requires Valid(d)
    ensures DaysBeforeYear(d.year) < Ordinal(d) <= DaysBeforeYear(d.year) + DaysInYear(d.year)
  {
    MonthsAddUp(d.year, 12);
    if d.month < 12 {
      MonthsIncrease(d.year, d.month, 12);
    }
  }

  /** `d + timedelta(days=1)`, by the calendar's rule; `None` where CPython
      raises OverflowError. Its result is the day whose ordinal is one
      more, which is how CPython computes it. */
  function NextDay(d: Date): (r: Option<Date>)
    requires Valid(d)
    ensures r.None? <==> d == MaxDate
    ensures r.Some? ==> Valid(r.value) && Ordinal(r.value) == Ordinal(d) + 1
  {
    if d.day < DaysInMonth(d.year, d.month) then
      Some(Date(d.year, d.month, d.day + 1))
    else if d.month < 12 then
      MonthsAddUp(d.year, d.month);
      Some(Date(d.year, d.month + 1, 1))
    else if d.year < MaxYear then
      MonthsAddUp(d.year, 12);
      Some(Date(d.year + 1, 1, 1))
    else
      None
  }

  /** Python's `<=` on two `datetime`s at midnight: by year, then month, then day. */
  predicate AtOrBefore(a: Date, b: Date)
  {
    a.year < b.year
    || (a.year == b.year && (a.month < b.month || (a.month == b.month && a.day <= b.day)))
  }

  /** Comparing two days field by field is comparing their ordinals. */
  lemma OrderIsOrdinal(a: Date, b: Date)
    requires Valid(a) && Valid(b)
    ensures AtOrBefore(a, b) <==> Ordinal(a) <= Ordinal(b)
  {
    DayOfYearBound(a);
    DayOfYearBound(b);
    if a.year < b.year {
      YearsIncrease(a.year, b.year);
    } else if b.year < a.year {
      YearsIncrease(b.year, a.year);
    } else if a.month < b.month {
      MonthsIncrease(a.year, a.month, b.month);
    } else if b.month < a.month {
      MonthsIncrease(a.year, b.month, a.month);
    }
  }

  /** Two valid days with the same ordinal are the same day. */
  lemma OrdinalInjective(a: Date, b: Date)
    requires Valid(a) && Valid(b) && Ordinal(a) == Ordinal(b)
    ensures a == b
  {
    OrderIsOrdinal(a, b);
    OrderIsOrdinal(b, a);
  }

  /** The days from `first` to `last`, both included, in calendar order;
      no day at all when `first` comes after `last`. */
  function DateRange(first: Date, last: Date): (ds: seq<Date>)
    requires Valid(first) && Valid(last)
    ensures |ds| == if Ordinal(first) <= Ordinal(last) then Ordinal(last) - Ordinal(first) + 1 else 0
    ensures forall i :: 0 <= i < |ds| ==> Valid(ds[i])
    decreases Ordinal(last) - Ordinal(first)
  {
    OrderIsOrdinal(first, last);
    OrderIsOrdinal(last, first);
    if !AtOrBefore(first, last) then []
    else if first == last then [first]
    else [first] + DateRange(NextDay(first).value, last)
  }

  /** The `i`-th day of the range is `i` days after `first`. */
  lemma {:induction false} DateRangeAt(first: Date, last: Date, i: nat)
    requires Valid(first) && Valid(last) && i < |DateRange(first, last)|
    ensures Ordinal(DateRange(first, last)[i]) == Ordinal(first) + i
    decreases i
  {
    if i > 0 {
      OrderIsOrdinal(first, last);
      OrderIsOrdinal(last, first);
      var next := NextDay(first).value;
      assert DateRange(first, last)[i] == DateRange(next, last)[i - 1];
      DateRangeAt(next, last, i - 1);
    }
  }

  /** The range starts at `first` and ends at `last`. */
  lemma DateRangeEnds(first: Date, last: Date)
    requires Valid(first) && Valid(last) && AtOrBefore(first, last)
    ensures var ds := DateRange(first, last);
      |ds| > 0 && ds[0] == first && ds[|ds| - 1] == last
  {
    var ds := DateRange(first, last);
    OrderIsOrdinal(first, last);
    DateRangeAt(first, last, 0);
    DateRangeAt(first, last, |ds| - 1);
    OrdinalInjective(ds[0], first);
    OrdinalInjective(ds[|ds| - 1], last);
  }

  /** Each day of the range is followed by the next calendar day. */
  lemma DateRangeConsecutive(first: Date, last: Date)
    requires Valid(first) && Valid(last)
    ensures var ds := DateRange(first, last);
      forall i :: 0 <= i < |ds| - 1 ==> NextDay(ds[i]) == Some(ds[i + 1])
  {
    var ds := DateRange(first, last);
    forall i | 0 <= i < |ds| - 1 ensures NextDay(ds[i]) == Some(ds[i + 1]) {
      var a, b := ds[i], ds[i + 1];
      DateRangeAt(first, last, i);
      DateRangeAt(first, last, i + 1);
      if a == MaxDate {
        OrderIsOrdinal(b, MaxDate);
      } else {
        OrdinalInjective(NextDay(a).value, b);
      }
    }
  }

  /** The days of the range are strictly increasing. */
  lemma DateRangeIncreasing(first: Date, last: Date)
    requires Valid(first) && Valid(last)
    ensures var ds := DateRange(first, last);
      forall i, j :: 0 <= i < j < |ds| ==> AtOrBefore(ds[i], ds[j]) && ds[i] != ds[j]
  {
    var ds := DateRange(first, last);
    forall i, j | 0 <= i < j < |ds| ensures AtOrBefore(ds[i], ds[j]) && ds[i] != ds[j] {
      DateRangeAt(first, last, i);
      DateRangeAt(first, last, j);
      OrderIsOrdinal(ds[i], ds[j]);
    }
  }

  /** `%b` in the C locale, lower-cased. */
  const MonthAbbreviations: seq<string> :=
    ["jan", "feb", "mar", "apr", "may", "jun", "jul", "aug", "sep", "oct", "nov", "dec"]

  /** `date.strftime("%b%d.%Y").lower()`: abbreviated month, two-digit day,
      a dot and the four-digit year. */
  function DateKey(d: Date): string
    requires Valid(d)
  {
    MonthAbbreviations[d.month - 1] + Pad2(d.day) + "." + Pad4(d.year)
  }

  /** The month whose abbreviation is `abbr`. */
  function MonthOfAbbreviation(abbr: string): (r: Option<nat>)
    ensures r.Some? ==> 1 <= r.value <= 12 && MonthAbbreviations[r.value - 1] == abbr
    ensures forall m :: 1 <= m <= 12 && MonthAbbreviations[m - 1] == abbr ==> r == Some(m)
  {
    if abbr == "jan" then Some(1) else if abbr == "feb" then Some(2)
    else if abbr == "mar" then Some(3) else if abbr == "apr" then Some(4)
    else if abbr == "may" then Some(5) else if abbr == "jun" then Some(6)
    else if abbr == "jul" then Some(7) else if abbr == "aug" then Some(8)
    else if abbr == "sep" then Some(9) else if abbr == "oct" then Some(10)
    else if abbr == "nov" then Some(11) else if abbr == "dec" then Some(12)
    else None
  }

  /** Reads a date key back into the day it names. */
  function ParseDateKey(s: string): Option<Date>
  {
    if |s| == 10 && s[5] == '.' && AllDigits(s[3..5]) && AllDigits(s[6..])
       && MonthOfAbbreviation(s[..3]).Some?
    then Some(Date(DecimalValue(s[6..]), MonthOfAbbreviation(s[..3]).value, DecimalValue(s[3..5])))
    else None
  }

  /** A date key names its day unambiguously. */
  lemma DateKeyRoundTrip(d: Date)
    requires Valid(d)
    ensures ParseDateKey(DateKey(d)) == Some(d)
  {
    var s := DateKey(d);
    var abbr := MonthAbbreviations[d.month - 1];
    assert s[..3] == abbr && s[3..5] == Pad2(d.day) && s[5] == '.' && s[6..] == Pad4(d.year);
  }

  /** Different days get different keys. */
  lemma DateKeyInjective(a: Date, b: Date)
    requires Valid(a) && Valid(b) && DateKey(a) == DateKey(b)
    ensures a == b
  {
    DateKeyRoundTrip(a);
    DateKeyRoundTrip(b);
  }

  /** The key of every day of `ds`, in order. */
  function Keys(ds: seq<Date>): (ks: seq<string>)
    requires forall i :: 0 <= i < |ds| ==> Valid(ds[i])
    ensures |ks| == |ds|
  {
    if ds == [] then [] else [DateKey(ds[0])] + Keys(ds[1..])
  }

  /** The `i`-th key is the key of the `i`-th day. */
  lemma {:induction false} KeysAt(ds: seq<Date>, i: nat)
    requires forall k :: 0 <= k < |ds| ==> Valid(ds[k])
    requires i < |ds|
    ensures Keys(ds)[i] == DateKey(ds[i])
  {
    if i > 0 {
      KeysAt(ds[1..], i - 1);
    }
  }

  /** The keys of a range are pairwise distinct. */
  lemma RangeKeysDistinct(first: Date, last: Date)
    requires Valid(first) && Valid(last)
    ensures var ks := Keys(DateRange(first, last));
      forall i, j :: 0 <= i < j < |ks| ==> ks[i] != ks[j]
  {
    var ds := DateRange(first, last);
    forall i, j | 0 <= i < j < |ds| ensures Keys(ds)[i] != Keys(ds)[j] {
      KeysAt(ds, i);
      KeysAt(ds, j);
      DateRangeAt(first, last, i);
      DateRangeAt(first, last, j);
      if DateKey(ds[i]) == DateKey(ds[j]) {
        DateKeyInjective(ds[i], ds[j]);
      }
    }
  }

  /** The first key is the key of `first` and the last the key of `last`. */
  lemma RangeKeysEnds(first: Date, last: Date)
    requires Valid(first) && Valid(last) && AtOrBefore(first, last)
    ensures var ks := Keys(DateRange(first, last));
      |ks| > 0 && ks[0] == DateKey(first) && ks[|ks| - 1] == DateKey(last)
  {
    var ds := DateRange(first, last);
    DateRangeEnds(first, last);
    KeysAt(ds, 0);
    KeysAt(ds, |ds| - 1);
  }

  /** Bounds in the wrong order give no key at all. */
  lemma ReversedBoundsEmpty(first: Date, last: Date)
    requires Valid(first) && Valid(last) && !AtOrBefore(first, last)
    ensures Keys(DateRange(first, last)) == []
  {
    OrderIsOrdinal(first, last);
  }

  /** strptime's `%m` at position `i` (regex `1[0-2]|0[1-9]|[1-9]`, first
      alternative that matches): the month and the position after it. */
  function MonthField(s: string, i: nat): (r: Option<(nat, nat)>)
    ensures r.Some? ==> 1 <= r.value.0 <= 12 && i < r.value.1 <= |s|
  {
    if i + 2 <= |s| && s[i] == '1' && '0' <= s[i + 1] <= '2' then
      Some((10 + DigitValue(s[i + 1]), i + 2))
    else if i + 2 <= |s| && s[i] == '0' && '1' <= s[i + 1] <= '9' then
      Some((DigitValue(s[i + 1]), i + 2))
    else if i < |s| && '1' <= s[i] <= '9' then
      Some((DigitValue(s[i]), i + 1))
    else None
  }

  /** strptime's `%d` at position `i` (regex `3[01]|[12]\d|0[1-9]|[1-9]| [1-9]`,
      first alternative that matches): the day and the position after it. */
  function DayField(s: string, i: nat): (r: Option<(nat, nat)>)
    ensures r.Some? ==> 1 <= r.value.0 <= 31 && i < r.value.1 <= |s|
  {
    if i + 2 <= |s| && s[i] == '3' && '0' <= s[i + 1] <= '1' then
      Some((30 + DigitValue(s[i + 1]), i + 2))
    else if i + 2 <= |s| && '1' <= s[i] <= '2' && IsDigit(s[i + 1]) then
      Some((10 * DigitValue(s[i]) + DigitValue(s[i + 1]), i + 2))
    else if i + 2 <= |s| && s[i] == '0' && '1' <= s[i + 1] <= '9' then
      Some((DigitValue(s[i + 1]), i + 2))
    else if i < |s| && '1' <= s[i] <= '9' then
      Some((DigitValue(s[i]), i + 1))
    else if i + 2 <= |s| && s[i] == ' ' && '1' <= s[i + 1] <= '9' then
      Some((DigitValue(s[i + 1]), i + 2))
    else None
  }

  /** `datetime.strptime(s, "%Y-%m-%d")` on ASCII text: four digits, a dash,
      the month, a dash, the day and nothing after it, naming a day that
      exists. `None` where CPython raises ValueError. */
  function ParseIsoDate(s: string): (r: Option<Date>)
    ensures r.Some? ==> Valid(r.value)
  {
    if |s| < 5 || !AllDigits(s[..4]) || s[4] != '-' then None
    else match MonthField(s, 5)
      case None => None
      case Some((m, i)) =>
        if i >= |s| || s[i] != '-' then None
        else match DayField(s, i + 1)
          case None => None
          case Some((d, j)) =>
            var date := Date(DecimalValue(s[..4]), m, d);
            if j != |s| || !Valid(date) then None else Some(date)
  }

  /** `date.strftime("%Y-%m-%d")`, the form the bounds are written in. */
  function IsoText(d: Date): string
  {
    Pad4(d.year) + "-" + Pad2(d.month) + "-" + Pad2(d.day)
  }

  /** `%m` reads back a zero-padded month. */
  lemma MonthFieldPad(s: string, i: nat, m: nat)
    requires 1 <= m <= 12 && i + 2 <= |s| && s[i..i + 2] == Pad2(m)
    ensures MonthField(s, i) == Some((m, i + 2))
  {
    assert s[i] == s[i..i + 2][0] && s[i + 1] == s[i..i + 2][1];
  }

  /** `%d` reads back a zero-padded day. */
  lemma DayFieldPad(s: string, i: nat, d: nat)
    requires 1 <= d <= 31 && i + 2 <= |s| && s[i..i + 2] == Pad2(d)
    ensures DayField(s, i) == Some((d, i + 2))
  {
    assert s[i] == s[i..i + 2][0] && s[i + 1] == s[i..i + 2][1];
  }

  /** Every valid day written as `%Y-%m-%d` parses back to itself. */
  lemma IsoRoundTrip(d: Date)
    requires Valid(d)
    ensures ParseIsoDate(IsoText(d)) == Some(d)
  {
    var s := IsoText(d);
    assert |s| == 10;
    assert s[..4] == Pad4(d.year) && s[4] == '-' && s[7] == '-';
    assert s[5..7] == Pad2(d.month) && s[8..10] == Pad2(d.day);
    MonthFieldPad(s, 5, d.month);
    DayFieldPad(s, 8, d.day);
  }

  /** The errors `generate_dates` can raise. */
  datatype DateError = ValueError | OverflowError

  /** One step of the walk: a non-empty range is its first day followed by
      the range from the next day on. */
  lemma DateRangeUnfold(current: Date, last: Date)
    requires Valid(current) && Valid(last) && AtOrBefore(current, last) && current != MaxDate
    ensures Keys(DateRange(current, last))
      == [DateKey(current)] + Keys(DateRange(NextDay(current).value, last))
  {
    var next := NextDay(current).value;
    OrderIsOrdinal(current, last);
    OrderIsOrdinal(next, last);
    OrderIsOrdinal(last, current);
    var ds := DateRange(current, last);
    assert ds[1..] == DateRange(next, last);
  }

  /** `generate_dates(start_date_str, end_date_str)`. */
  method GenerateDates(startText: string, endText: string) returns (r: Result<seq<string>, DateError>)
    ensures ParseIsoDate(startText).None? || ParseIsoDate(endText).None? ==> r == Failure(ValueError)
    ensures ParseIsoDate(startText).Some? && ParseIsoDate(endText).Some? ==>
      var first, last := ParseIsoDate(startText).value, ParseIsoDate(endText).value;
      && (r.Failure? <==> AtOrBefore(first, last) && last == MaxDate)
      && (r.Failure? ==> r.error == OverflowError)
      && (r.Success? ==> r.value == Keys(DateRange(first, last)))
  {
    var start := ParseIsoDate(startText);
    var end := ParseIsoDate(endText);
    if start.None? || end.None? {
      return Failure(ValueError);
    }
    r := WalkDays(start.value, end.value);
  }

  /** The `while current <= end_date` loop of `generate_dates`. */
  method WalkDays(first: Date, last: Date) returns (r: Result<seq<string>, DateError>)
    requires Valid(first) && Valid(last)
    ensures r.Failure? <==> AtOrBefore(first, last) && last == MaxDate
    ensures r.Failure? ==> r.error == OverflowError
    ensures r.Success? ==> r.value == Keys(DateRange(first, last))
  {
    var dates: seq<string> := [];
    var current := first;
    while AtOrBefore(current, last)
      invariant Valid(current)
      invariant AtOrBefore(first, current) || !AtOrBefore(first, last)
      invariant Keys(DateRange(first, last)) == dates + Keys(DateRange(current, last))
      decreases Ordinal(last) - Ordinal(current)
    {
      var next := NextDay(current);
      if next.None? {
        assert current == MaxDate == last && AtOrBefore(first, MaxDate);
        return Failure(OverflowError);
      }
      WalkStep(first, last, current);
      var key := DateKey(current);
      AppendAssoc(dates, [key], Keys(DateRange(next.value, last)));
      dates := dates + [key];
      current := next.value;
    }
    assert AtOrBefore(current, MaxDate);
    return Success(dates);
  }

  lemma AppendAssoc<T>(a: seq<T>, b: seq<T>, c: seq<T>)
    ensures a + (b + c) == (a + b) + c
  {
  }

  /** What one turn of the loop in `WalkDays` needs: the next day is still
      after `first`, it is one day closer to `last`, and the keys still to
      produce lose their first element. */
  lemma WalkStep(first: Date, last: Date, current: Date)
    requires Valid(first) && Valid(last) && Valid(current) && current != MaxDate
    requires AtOrBefore(current, last) && AtOrBefore(first, current)
    ensures var next := NextDay(current).value;
      && AtOrBefore(first, next)
      && Ordinal(last) - Ordinal(next) < Ordinal(last) - Ordinal(current)
      && Keys(DateRange(current, last)) == [DateKey(current)] + Keys(DateRange(next, last))
  {
    var next := NextDay(current).value;
    OrderIsOrdinal(first, current);
    OrderIsOrdinal(first, next);
    DateRangeUnfold(current, last);
  }

  /** The bounds `main` uses, the defaults of `generate_dates`. */
  const DefaultStart := "2017-04-20"
  const DefaultEnd := "2019-11-11"

  /** The number of keys `generate_dates` yields with its default bounds. */
  const DefaultDays := 936

  /** `generate_dates()` with its default bounds, as `main` calls it: it
      cannot fail. */
  method DefaultDates() returns (dates: seq<string>)
    ensures dates == Keys(DateRange(Date(2017, 4, 20), Date(2019, 11, 11)))
    ensures |dates| == DefaultDays
  {
    var r := GenerateDates(DefaultStart, DefaultEnd);
    DefaultBounds();
    DefaultRange();
    assert r.Success?;
    dates := r.value;
  }

  /** The zero-padded fields of the default bounds. */
  lemma DefaultFields()
    ensures Pad4(2017) == "2017" && Pad4(2019) == "2019"
    ensures Pad2(4) == "04" && Pad2(20) == "20" && Pad2(11) == "11"
  {
    DefaultPad2();
    assert Pad2(17) == "17" && Pad2(19) == "19";
    assert Pad4(2017) == Pad2(20) + Pad2(17);
    assert Pad4(2019) == Pad2(20) + Pad2(19);
  }

  lemma DefaultPad2()
    ensures Pad2(4) == "04" && Pad2(20) == "20" && Pad2(11) == "11"
  {
    assert DigitChar(0) == '0' && DigitChar(4) == '4';
    assert DigitChar(2) == '2' && DigitChar(1) == '1';
  }

  /** The default bounds parse to 2017-04-20 and 2019-11-11. */
  lemma DefaultBounds()
    ensures ParseIsoDate(DefaultStart) == Some(Date(2017, 4, 20))
    ensures ParseIsoDate(DefaultEnd) == Some(Date(2019, 11, 11))
  {
    DefaultFields();
    IsoRoundTrip(Date(2017, 4, 20));
    IsoRoundTrip(Date(2019, 11, 11));
    assert IsoText(Date(2017, 4, 20)) == DefaultStart;
    assert IsoText(Date(2019, 11, 11)) == DefaultEnd;
  }

  /** The keys of the default bounds. */
  lemma DefaultKeys()
    ensures DateKey(Date(2017, 4, 20)) == "apr20.2017"
    ensures DateKey(Date(2019, 11, 11)) == "nov11.2019"
  {
    DefaultFields();
  }

  /** With its default bounds, `generate_dates` yields 936 keys, from
      "apr20.2017" to "nov11.2019". */
  lemma DefaultRange()
    ensures var ks := Keys(DateRange(Date(2017, 4, 20), Date(2019, 11, 11)));
      |ks| == DefaultDays && ks[0] == "apr20.2017" && ks[935] == "nov11.2019"
  {
    var first, last := Date(2017, 4, 20), Date(2019, 11, 11);
    assert DaysBeforeYear(2019) == DaysBeforeYear(2017) + 365 + 365;
    assert Ordinal(last) - Ordinal(first) == 935;
    OrderIsOrdinal(first, last);
    RangeKeysEnds(first, last);
    DefaultKeys();
  }
}
