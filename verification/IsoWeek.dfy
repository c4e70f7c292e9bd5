/**
 Publication weeks. A date is a day number counted from 1 January 1970; the calendar is the proleptic
 Gregorian one that the language's dates use, including its rule that years 0 to 99 given to the
 constructor mean 1900 to 1999.
 */
module IsoWeek {

  // ----- The calendar -----

  predicate Leap(year: int) { year % 4 == 0 && (year % 100 != 0 || year % 400 == 0) }

  function DayFromYear(year: int): int
  {
    365 * (year - 1970) + (year - 1969) / 4 - (year - 1901) / 100 + (year - 1601) / 400
  }

  /** Leap years are the ones the three divisions step at. */
  lemma YearLength(year: int)
    ensures DayFromYear(year + 1) == DayFromYear(year) + (if Leap(year) then 366 else 365)
  {
    assert DayFromYear(year + 1) == 365 * (year - 1969) + (year - 1968) / 4 - (year - 1900) / 100 + (year - 1600) / 400;
    FourthYears(year);
    HundredthYears(year);
    FourHundredthYears(year);
    CenturiesAreFourthYears(year);
  }

  lemma CenturiesAreFourthYears(year: int)
    ensures (year % 400 == 0 ==> year % 100 == 0) && (year % 100 == 0 ==> year % 4 == 0)
  {
  }

  lemma FourthYears(year: int)
    ensures (year - 1968) / 4 == (year - 1969) / 4 + if year % 4 == 0 then 1 else 0
  {
  }

  lemma HundredthYears(year: int)
    ensures (year - 1900) / 100 == (year - 1901) / 100 + if year % 100 == 0 then 1 else 0
  {
  }

  lemma FourHundredthYears(year: int)
    ensures (year - 1600) / 400 == (year - 1601) / 400 + if year % 400 == 0 then 1 else 0
  {
  }

  lemma {:induction false} YearsAscend(a: int, b: int)
    requires a < b
    ensures DayFromYear(a) + 365 <= DayFromYear(b)
    decreases b - a
  {
    YearLength(b - 1);
    if a < b - 1 { YearsAscend(a, b - 1); }
  }

  predicate InYear(day: int, year: int) { DayFromYear(year) <= day < DayFromYear(year + 1) }

  lemma YearIsUnique(day: int, a: int, b: int)
    requires InYear(day, a) && InYear(day, b)
    ensures a == b
  {
    if a < b && a + 1 < b { YearsAscend(a + 1, b); }
    if b < a && b + 1 < a { YearsAscend(b + 1, a); }
  }

  function YearOf(day: int): (year: int)
    ensures InYear(day, year)
  {
    YearFrom(day, 1970 + if day >= 0 then day / 366 else day / 365)
  }

  function YearFrom(day: int, guess: int): (year: int)
    requires DayFromYear(guess) <= day
    ensures InYear(day, year)
    decreases day - DayFromYear(guess)
  {
    YearLength(guess);
    if day < DayFromYear(guess + 1) then guess else YearFrom(day, guess + 1)
  }

  /** The first day of a month (0 to 11) within its year. */
  function MonthStart(leap: bool, month: nat): nat
    requires month < 12
  {
    [0, 31, 59, 90, 120, 151, 181, 212, 243, 273, 304, 334][month] + if leap && month >= 2 then 1 else 0
  }

  function MonthFrom(leap: bool, dayInYear: nat, guess: nat): (month: nat)
    requires guess < 12
    requires MonthStart(leap, guess) <= dayInYear
    ensures month < 12 && MonthStart(leap, month) <= dayInYear
    ensures month < 11 ==> dayInYear < MonthStart(leap, month + 1)
    decreases 12 - guess
  {
    if guess == 11 || dayInYear < MonthStart(leap, guess + 1) then guess else MonthFrom(leap, dayInYear, guess + 1)
  }

  function MonthOf(day: int): (month: nat)
    ensures month < 12
  {
    MonthFrom(Leap(YearOf(day)), day - DayFromYear(YearOf(day)), 0)
  }

  function DayOfMonth(day: int): int
  {
    day - DayFromYear(YearOf(day)) - MonthStart(Leap(YearOf(day)), MonthOf(day)) + 1
  }

  function MakeDay(year: int, month: nat, date: int): int
    requires month < 12
  {
    DayFromYear(year) + MonthStart(Leap(year), month) + date - 1
  }

  predicate TwoDigit(year: int) { 0 <= year <= 99 }

  /** The full year a constructor argument stands for. */
  function FullYear(year: int): int { if TwoDigit(year) then 1900 + year else year }

  function DateUtc(year: int, month: nat, date: int): int
    requires month < 12
  {
    MakeDay(FullYear(year), month, date)
  }

  // ----- Weeks -----

  /** Sunday is 0. */
  function WeekdayOf(day: int): nat { (day + 4) % 7 }

  /** Monday is 1 and Sunday 7. */
  function IsoWeekday(day: int): nat { if WeekdayOf(day) == 0 then 7 else WeekdayOf(day) }

  /** The Monday of the week a day falls in. */
  function Monday(day: int): (m: int)
    ensures m <= day < m + 7 && WeekdayOf(m) == 1
  {
    day - (day + 3) % 7
  }

  predicate SameWeek(a: int, b: int) { Monday(a) == Monday(b) }

  // ----- The label -----

  datatype Label = Label(year: int, week: int)

  /** A week's number, counted from the day that stands for the start of the year. */
  function WeekNumber(thursday: int, yearStart: int): int { -((-(thursday - yearStart + 1)) / 7) }

  /** The day whose week is labelled: the date itself, or its namesake in the twentieth century. */
  function Read(day: int): int { DateUtc(YearOf(day), MonthOf(day), DayOfMonth(day)) }

  function LabelOf(day: int): Label
  {
    WeekLabel(Read(day))
  }

  function WeekLabel(day: int): Label { LabelOfThursday(Monday(day) + 3) }

  function LabelOfThursday(thursday: int): Label
  {
    Label(YearOf(thursday), WeekNumber(thursday, DateUtc(YearOf(thursday), 0, 1)))
  }

  /** Rebuilds the date in UTC, moves it to the Thursday of its week, and counts weeks from 1 January. */
  method IsoWeekLabel(day: int) returns (text: string)
    ensures text == TextOf(day)
  {
    var utc := DateUtc(YearOf(day), MonthOf(day), DayOfMonth(day));
    ThursdayOf(utc);
    utc := MakeDay(YearOf(utc), MonthOf(utc), DayOfMonth(utc) + 4 - IsoWeekday(utc));
    var yearStart := DateUtc(YearOf(utc), 0, 1);
    var week := WeekNumber(utc, yearStart);
    LabelFromThursday(day, utc);
    text := Render(Label(YearOf(utc), week));
  }

  // ----- What the label means -----

  /** Reading a date back gives the same day, except in years 0 to 99, where it lands far away. */
  lemma ReadBack(day: int)
    ensures !TwoDigit(YearOf(day)) ==> Read(day) == day
    ensures TwoDigit(YearOf(day)) ==> Read(day) >= day + 600000
  {
    var y := YearOf(day);
    if TwoDigit(y) {
      assert DayFromYear(1900 + y) >= DayFromYear(y) + 600100;
    }
  }

  lemma LabelFromThursday(day: int, thursday: int)
    requires thursday == Monday(Read(day)) + 3
    ensures LabelOf(day) == LabelOfThursday(thursday)
  {
    WeekLabelOf(Read(day), thursday);
  }

  lemma WeekLabelOf(day: int, thursday: int)
    requires thursday == Monday(day) + 3
    ensures WeekLabel(day) == LabelOfThursday(thursday)
  {
  }

  lemma ThursdayOf(day: int)
    ensures MakeDay(YearOf(day), MonthOf(day), DayOfMonth(day) + 4 - IsoWeekday(day))
         == Monday(day) + 3
  {
    assert (day + 3) % 7 == IsoWeekday(day) - 1;
  }

  /** Days a whole number of weeks apart have the same number only when they are the same day. */
  lemma WeekNumberSeparates(a: int, b: int, start: int, weeks: int)
    requires b == a + 7 * weeks
    ensures WeekNumber(b, start) == WeekNumber(a, start) + weeks
  {
  }

  lemma MondaysAreWeeksApart(a: int, b: int) returns (weeks: int)
    ensures Monday(b) == Monday(a) + 7 * weeks
  {
    weeks := (b + 3) / 7 - (a + 3) / 7;
  }

  lemma MonthsAreShort(day: int)
    ensures 1 <= DayOfMonth(day) <= 31
  {
    YearLength(YearOf(day));
    MonthLength(Leap(YearOf(day)), day - DayFromYear(YearOf(day)));
  }

  lemma MonthLength(leap: bool, dayInYear: nat)
    requires dayInYear < if leap then 366 else 365
    ensures MonthStart(leap, MonthFrom(leap, dayInYear, 0)) <= dayInYear < MonthStart(leap, MonthFrom(leap, dayInYear, 0)) + 31
  {
  }

  lemma MonthsFit(leap: bool, month: nat)
    requires month < 12
    ensures MonthStart(leap, month) + 31 <= if leap then 366 else 365
  {
  }

  lemma ReadYear(day: int)
    ensures YearOf(Read(day)) == FullYear(YearOf(day))
  {
    var full := FullYear(YearOf(day));
    YearLength(full);
    MonthsAreShort(day);
    MonthsFit(Leap(full), MonthOf(day));
    YearIsUnique(Read(day), YearOf(Read(day)), full);
  }

  /** Two dates share a label exactly when the dates they are read as share a Monday-to-Sunday week. */
  lemma LabelSeparatesWeeks(a: int, b: int)
    ensures LabelOf(a) == LabelOf(b) <==> SameWeek(Read(a), Read(b))
  {
    WeeksDiffer(Read(a), Read(b));
  }

  lemma WeeksDiffer(p: int, q: int)
    ensures WeekLabel(p) == WeekLabel(q) <==> SameWeek(p, q)
  {
    var weeks := MondaysAreWeeksApart(p, q);
    ThursdaysDiffer(Monday(p) + 3, Monday(q) + 3, weeks);
  }

  lemma ThursdaysDiffer(s: int, t: int, weeks: int)
    requires t == s + 7 * weeks
    ensures LabelOfThursday(s) == LabelOfThursday(t) <==> weeks == 0
  {
    WeekNumberSeparates(s, t, DateUtc(YearOf(s), 0, 1), weeks);
  }

  /** The label is exact for dates outside the years 0 to 99. */
  lemma LabelIsExact(a: int, b: int)
    requires !TwoDigit(YearOf(a)) && !TwoDigit(YearOf(b))
    ensures LabelOf(a) == LabelOf(b) <==> SameWeek(a, b)
  {
    ReadBack(a);
    ReadBack(b);
    LabelSeparatesWeeks(a, b);
  }

  /** Every date in the years 0 to 99 shares its label with a date in another week. */
  lemma TwoDigitYearsCollide(day: int)
    requires TwoDigit(YearOf(day))
    ensures !SameWeek(day, Read(day)) && LabelOf(day) == LabelOf(Read(day))
  {
    ReadBack(day);
    var r := Read(day);
    ReadYear(day);
    ReadBack(r);
    LabelSeparatesWeeks(day, r);
  }

  /** Section 4.1.4 of ISO 8601:2004: the first week of a year is the one with 4 January in it, weeks run from Monday
      to Sunday, and a week belongs to the year its Thursday is in. */
  ghost predicate IsCalendarWeek(day: int, l: Label)
  {
    && InYear(Monday(day) + 3, l.year)
    && Monday(day) == Monday(DayFromYear(l.year) + 3) + 7 * (l.week - 1)
  }

  /** The label is the calendar's exactly when neither the date nor the Thursday of its week is in the years 0
      to 99. */
  lemma LabelIsCalendarWeek(day: int)
    ensures IsCalendarWeek(day, LabelOf(day)) <==> !TwoDigit(YearOf(day)) && !TwoDigit(YearOf(Monday(day) + 3))
    ensures IsCalendarWeek(day, LabelOf(day)) ==> 1 <= LabelOf(day).week <= 53
  {
    var monday := Monday(day);
    var year := YearOf(monday + 3);
    if TwoDigit(YearOf(day)) {
      FarYear(day, monday, LabelOf(day));
    } else if TwoDigit(year) {
      FarStart(day, monday, year, LabelOf(day));
    } else {
      PlainLabel(day, monday, year);
      ThursdayIsCalendarWeek(day, monday, year);
    }
  }

  /** A date in the years 0 to 99 gets a year far from its own. */
  lemma FarYear(day: int, monday: int, l: Label)
    requires TwoDigit(YearOf(day)) && monday == Monday(day) && l == LabelOf(day)
    ensures !InYear(monday + 3, l.year)
  {
    ReadBack(day);
    ReadThursday(day, Monday(Read(day)), l);
    YearLength(l.year);
  }

  lemma ReadThursday(day: int, monday: int, l: Label)
    requires monday == Monday(Read(day)) && l == LabelOf(day)
    ensures InYear(monday + 3, l.year)
  {
    LabelFromThursday(day, monday + 3);
  }

  /** A date whose Thursday alone is in those years gets a number counted from a start far off. */
  lemma FarStart(day: int, monday: int, year: int, l: Label)
    requires !TwoDigit(YearOf(day)) && monday == Monday(day) && year == YearOf(monday + 3) && TwoDigit(year) && l == LabelOf(day)
    ensures !IsCalendarWeek(day, l)
  {
    FarLabel(day, monday, year, l);
    ThursdayIsCalendarWeek(day, monday, year);
    WeekIsUnique(day, l, Label(year, WeekNumber(monday + 3, DayFromYear(year))));
  }

  lemma WeekIsUnique(day: int, a: Label, b: Label)
    requires a.year == b.year && a.week != b.week && IsCalendarWeek(day, b)
    ensures !IsCalendarWeek(day, a)
  {
  }

  lemma FarLabel(day: int, monday: int, year: int, l: Label)
    requires !TwoDigit(YearOf(day)) && monday == Monday(day) && year == YearOf(monday + 3) && TwoDigit(year) && l == LabelOf(day)
    ensures l.year == year && l.week < 0
  {
    PlainReading(day);
    FarWeek(monday + 3, year);
  }

  lemma FarWeek(thursday: int, year: int)
    requires TwoDigit(year) && year == YearOf(thursday)
    ensures LabelOfThursday(thursday).year == year && LabelOfThursday(thursday).week < 0
  {
    YearLength(year);
    assert DayFromYear(1900 + year) >= DayFromYear(year) + 600100;
    LongBefore(thursday, DayFromYear(1900 + year));
  }

  lemma LongBefore(thursday: int, start: int)
    requires thursday + 1000 <= start
    ensures WeekNumber(thursday, start) < 0
  {
  }

  lemma PlainLabel(day: int, monday: int, year: int)
    requires !TwoDigit(YearOf(day)) && !TwoDigit(year) && monday == Monday(day) && year == YearOf(monday + 3)
    ensures LabelOf(day) == Label(year, WeekNumber(monday + 3, DayFromYear(year)))
  {
    PlainReading(day);
    PlainThursday(monday + 3, year);
  }

  lemma PlainReading(day: int)
    requires !TwoDigit(YearOf(day))
    ensures LabelOf(day) == LabelOfThursday(Monday(day) + 3)
  {
    ReadBack(day);
    assert LabelOf(day) == WeekLabel(day);
  }

  lemma PlainThursday(thursday: int, year: int)
    requires year == YearOf(thursday) && !TwoDigit(year)
    ensures LabelOfThursday(thursday) == Label(year, WeekNumber(thursday, DayFromYear(year)))
  {
    YearStart(year);
  }

  lemma YearStart(year: int)
    requires !TwoDigit(year)
    ensures DateUtc(year, 0, 1) == DayFromYear(year)
  {
  }

  lemma ThursdayIsCalendarWeek(day: int, monday: int, year: int)
    requires monday == Monday(day) && InYear(monday + 3, year)
    ensures IsCalendarWeek(day, Label(year, WeekNumber(monday + 3, DayFromYear(year))))
    ensures 1 <= WeekNumber(monday + 3, DayFromYear(year)) <= 53
  {
    YearLength(year);
    var start := DayFromYear(year);
    var weeks := MondaysAreWeeksApart(start + 3, day);
    FirstThursday(start);
    WeeksFromFirst(start, Monday(start + 3) + 3, monday + 3, weeks);
  }

  lemma WeeksFromFirst(start: int, first: int, thursday: int, weeks: int)
    requires start <= first < start + 7 && WeekNumber(first, start) == 1
    requires start <= thursday < start + 366 && thursday == first + 7 * weeks
    ensures 0 <= weeks <= 52 && WeekNumber(thursday, start) == 1 + weeks
  {
    WeekNumberSeparates(first, thursday, start, weeks);
  }

  /** The week with 4 January in it is the one with the year's first Thursday. */
  lemma FirstThursday(start: int)
    ensures start <= Monday(start + 3) + 3 < start + 7 && WeekNumber(Monday(start + 3) + 3, start) == 1
  {
  }

  // ----- The label as text -----

  function Digit(n: nat): char requires n < 10 { "0123456789"[n] }

  function Natural(n: nat): (s: string)
    ensures s != [] && forall i | 0 <= i < |s| :: s[i] != 'W' && s[i] != '-'
  {
    if n < 10 then [Digit(n)] else Natural(n / 10) + [Digit(n % 10)]
  }

  function Decimal(n: int): (s: string)
    ensures s != [] && forall i | 0 <= i < |s| :: s[i] != 'W'
  {
    if n < 0 then "-" + Natural(-n) else Natural(n)
  }

  function PadTwo(s: string): string { if |s| == 1 then "0" + s else s }

  function Render(l: Label): string
  {
    Decimal(l.year) + "-W" + PadTwo(Decimal(l.week))
  }

  /** The text determines the label, so counting distinct texts counts distinct labels. */
  lemma RenderIsInjective(a: Label, b: Label)
    requires Render(a) == Render(b)
    ensures a == b
  {
    var p, q := Decimal(a.year) + "-", Decimal(b.year) + "-";
    assert Render(a) == p + "W" + PadTwo(Decimal(a.week)) && Render(b) == q + "W" + PadTwo(Decimal(b.week));
    SplitAtMark(p, PadTwo(Decimal(a.week)), q, PadTwo(Decimal(b.week)));
    assert Decimal(a.year) == p[..|p| - 1] && Decimal(b.year) == q[..|q| - 1];
    DecimalIsInjective(a.year, b.year);
    PaddingIsInjective(a.week, b.week);
  }

  lemma SplitAtMark(p: string, x: string, q: string, y: string)
    requires p + "W" + x == q + "W" + y && 'W' !in p && 'W' !in q
    ensures p == q && x == y
  {
    var s := p + "W" + x;
    assert s[|p|] == 'W' && s[|q|] == 'W';
    assert forall i | 0 <= i < |p| :: s[i] == p[i];
    assert forall i | 0 <= i < |q| :: s[i] == q[i];
    assert |p| == |q|;
    assert p == s[..|p|] && x == s[|p| + 1..] && y == s[|q| + 1..];
  }

  lemma {:induction false} NaturalIsInjective(m: nat, n: nat)
    requires Natural(m) == Natural(n)
    ensures m == n
  {
    var s := Natural(m);
    if m >= 10 && n >= 10 {
      assert Natural(m / 10) == s[..|s| - 1] == Natural(n / 10);
      NaturalIsInjective(m / 10, n / 10);
      assert Digit(m % 10) == s[|s| - 1] == Digit(n % 10);
    }
  }

  lemma DecimalIsInjective(m: int, n: int)
    requires Decimal(m) == Decimal(n)
    ensures m == n
  {
    assert (m < 0 <==> Decimal(m)[0] == '-') && (n < 0 <==> Decimal(n)[0] == '-');
    if m < 0 && n < 0 {
      assert Natural(-m) == Decimal(m)[1..] == Natural(-n);
      NaturalIsInjective(-m, -n);
    } else if m >= 0 && n >= 0 {
      NaturalIsInjective(m, n);
    }
  }

  lemma {:induction false} NoLeadingZero(n: nat)
    requires n > 0
    ensures Natural(n)[0] != '0'
  {
    if n >= 10 { NoLeadingZero(n / 10); }
  }

  lemma PaddingIsInjective(m: int, n: int)
    requires PadTwo(Decimal(m)) == PadTwo(Decimal(n))
    ensures m == n
  {
    NoPadding(m);
    NoPadding(n);
    if |Decimal(m)| == 1 && |Decimal(n)| == 1 {
      assert Decimal(m) == PadTwo(Decimal(m))[1..] && Decimal(n) == PadTwo(Decimal(n))[1..];
    }
    DecimalIsInjective(m, n);
  }

  lemma NoPadding(n: int)
    ensures |Decimal(n)| == 1 || Decimal(n)[0] != '0'
  {
    if n > 0 { NoLeadingZero(n); }
  }

  // ----- Counting weeks -----

  function Distinct<T(==)>(values: seq<T>): nat { |set v | v in values| }

  /** Two descriptions that tell the same entries apart find equally many. */
  lemma {:induction false} SameDistinctions<A, B>(xs: seq<A>, ys: seq<B>)
    requires |xs| == |ys| && forall i, j | 0 <= i < |xs| && 0 <= j < |xs| :: xs[i] == xs[j] <==> ys[i] == ys[j]
    ensures Distinct(xs) == Distinct(ys)
  {
    if xs != [] {
      var n := |xs| - 1;
      SameDistinctions(xs[..n], ys[..n]);
      DistinctAppended(xs);
      DistinctAppended(ys);
    }
  }

  predicate Repeats<T(==)>(values: seq<T>, n: nat)
    requires n < |values|
  {
    exists i | 0 <= i < n :: values[i] == values[n]
  }

  lemma DistinctAppended<T>(values: seq<T>)
    requires values != []
    ensures var n := |values| - 1; Distinct(values) == Distinct(values[..n]) + if Repeats(values, n) then 0 else 1
  {
    var n := |values| - 1;
    var rest, last := (set v | v in values[..n]), values[n];
    assert values == values[..n] + [last];
    assert (set v | v in values) == rest + {last};
  }

  function TextOf(day: int): string { Render(LabelOf(day)) }

  lemma TextIsExact(a: int, b: int)
    ensures TextOf(a) == TextOf(b) <==> SameWeek(Read(a), Read(b))
  {
    LabelSeparatesWeeks(a, b);
    if TextOf(a) == TextOf(b) { RenderIsInjective(LabelOf(a), LabelOf(b)); }
  }

  function Texts(days: seq<int>): (t: seq<string>)
    ensures |t| == |days| && forall i | 0 <= i < |days| :: t[i] == TextOf(days[i])
  {
    seq(|days|, i requires 0 <= i < |days| => TextOf(days[i]))
  }

  ghost function Mondays(days: seq<int>): (m: seq<int>)
    ensures |m| == |days| && forall i | 0 <= i < |days| :: m[i] == Monday(days[i])
  {
    seq(|days|, i requires 0 <= i < |days| => Monday(days[i]))
  }

  /** The dates as the label reads them. */
  ghost function ReadAll(days: seq<int>): (r: seq<int>)
    ensures |r| == |days| && forall i | 0 <= i < |days| :: r[i] == Read(days[i])
  {
    seq(|days|, i requires 0 <= i < |days| => Read(days[i]))
  }

  /** Counting the distinct texts counts the calendar weeks of the dates as they are read, which outside the
      years 0 to 99 are the dates themselves. */
  lemma LabelsCountWeeks(days: seq<int>)
    ensures Distinct(Texts(days)) == Distinct(Mondays(ReadAll(days)))
    ensures (forall i | 0 <= i < |days| :: !TwoDigit(YearOf(days[i]))) ==> ReadAll(days) == days
  {
    var t, m := Texts(days), Mondays(ReadAll(days));
    forall i, j | 0 <= i < |days| && 0 <= j < |days| ensures t[i] == t[j] <==> m[i] == m[j] {
      TextIsExact(days[i], days[j]);
    }
    SameDistinctions(t, m);
    if forall i | 0 <= i < |days| :: !TwoDigit(YearOf(days[i])) {
      forall i | 0 <= i < |days| ensures ReadAll(days)[i] == days[i] {
        ReadBack(days[i]);
      }
    }
  }
}
