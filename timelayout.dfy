/** The fixed time layout "20060102150405" (YYYYMMDDhhmmss, UTC) that the
    client uses to read bar times and to write request times.

    A time is an integer number of milliseconds since 0000-01-01T00:00:00 UTC
    in the proleptic Gregorian calendar. The layout covers the years
    0000 to 9999, that is the times in [0, EndOfTime). */
module TimeLayout {
  import opened Wrappers
  import opened Numbers

  // Times are in milliseconds: 1000 to the second, 86_400_000 to the day.
  // The factors are written as literals so that the arithmetic stays linear.

  /** time.Time.Truncate(time.Second): the latest whole second not after t. */
  function Floor(t: int): (r: int)
    ensures r <= t < r + 1000
    ensures r % 1000 == 0
  {
    t - t % 1000
  }

  /** A whole second is its own floor, and flooring is monotone. */
  lemma FloorFacts(s: int, t: int)
    ensures s % 1000 == 0 ==> Floor(s) == s
    ensures s <= t ==> Floor(s) <= Floor(t)
    ensures s % 1000 == 0 && s <= t ==> s <= Floor(t)
    ensures s % 1000 == 0 && t < s ==> Floor(t) < s
  {
  }

  /** Adding less than a second to a whole second keeps it as the floor. */
  lemma FloorOfSum(t: int, ms: int)
    requires t % 1000 == 0 && 0 <= ms < 1000
    ensures Floor(t + ms) == t && (t + ms) % 1000 == ms
  {
    assert t == t / 1000 * 1000;
  }

  predicate IsLeapYear(y: int) {
    y % 4 == 0 && (y % 100 != 0 || y % 400 == 0)
  }

  function DaysInYear(y: int): int {
    if IsLeapYear(y) then 366 else 365
  }

  function DaysInMonth(y: int, m: int): (d: int)
    requires 1 <= m <= 12
    ensures 28 <= d <= 31
  {
    if m == 2 then (if IsLeapYear(y) then 29 else 28)
    else if m == 4 || m == 6 || m == 9 || m == 11 then 30
    else 31
  }

  /** Days from 0000-01-01 to the first day of year y (year 0 is a leap year). */
  function DaysBeforeYear(y: nat): nat {
    365 * y + (y + 3) / 4 - (y + 99) / 100 + (y + 399) / 400
  }

  /** Days from the first of January of year y to the first day of month m. */
  function DaysBeforeMonth(y: int, m: int): (d: nat)
    requires 1 <= m <= 12
  {
    [0, 31, 59, 90, 120, 151, 181, 212, 243, 273, 304, 334][m - 1]
      + (if IsLeapYear(y) && m > 2 then 1 else 0)
  }

  const EndOfTime: int := DaysBeforeYear(10000) * 86_400_000

  /** Consecutive years follow each other without gap or overlap. */
  lemma DaysBeforeNextYear(y: nat)
    ensures DaysBeforeYear(y + 1) == DaysBeforeYear(y) + DaysInYear(y)
  {
    var leap4 := if y % 4 == 0 then 1 else 0;
    var leap100 := if y % 100 == 0 then 1 else 0;
    var leap400 := if y % 400 == 0 then 1 else 0;
    assert (y + 4) / 4 - (y + 3) / 4 == leap4 by {
      assert (y + 4) / 4 == y / 4 + 1;
      assert (y + 3) / 4 == y / 4 + 1 - leap4;
    }
    assert (y + 100) / 100 - (y + 99) / 100 == leap100 by {
      assert (y + 100) / 100 == y / 100 + 1;
      assert (y + 99) / 100 == y / 100 + 1 - leap100;
    }
    assert (y + 400) / 400 - (y + 399) / 400 == leap400 by {
      assert (y + 400) / 400 == y / 400 + 1;
      assert (y + 399) / 400 == y / 400 + 1 - leap400;
    }
    LeapDivisors(y);
    assert DaysInYear(y) == 365 + leap4 - leap100 + leap400;
  }

  /** A multiple of 400 is a multiple of 100, and a multiple of 100 a multiple of 4. */
  lemma LeapDivisors(y: nat)
    ensures y % 400 == 0 ==> y % 100 == 0
    ensures y % 100 == 0 ==> y % 4 == 0
  {
    if y % 400 == 0 {
      assert y == 100 * (4 * (y / 400));
    }
    if y % 100 == 0 {
      assert y == 4 * (25 * (y / 100));
    }
  }

  /** A later year starts no earlier than the end of an earlier one. */
  lemma {:induction false} DaysBeforeYearOrdered(a: nat, b: nat)
    requires a < b
    ensures DaysBeforeYear(a) + DaysInYear(a) <= DaysBeforeYear(b)
    decreases b - a
  {
    DaysBeforeNextYear(a);
    if a + 1 < b {
      DaysBeforeYearOrdered(a + 1, b);
    }
  }

  /** Consecutive months follow each other, and December ends the year. */
  lemma MonthsAdjacent(y: int, m: int)
    requires 1 <= m <= 12
    ensures m < 12 ==> DaysBeforeMonth(y, m + 1) == DaysBeforeMonth(y, m) + DaysInMonth(y, m)
    ensures m == 12 ==> DaysBeforeMonth(y, m) + DaysInMonth(y, m) == DaysInYear(y)
  {
  }

  /** A later month starts no earlier than the end of an earlier one. */
  lemma {:induction false} MonthsOrdered(y: int, a: int, b: int)
    requires 1 <= a < b <= 12
    ensures DaysBeforeMonth(y, a) + DaysInMonth(y, a) <= DaysBeforeMonth(y, b)
    decreases b - a
  {
    MonthsAdjacent(y, a);
    if a + 1 < b {
      MonthsOrdered(y, a + 1, b);
      MonthsAdjacent(y, a + 1);
    }
  }

  /** A calendar date and time of day, field by field as the layout writes it. */
  datatype DateTime = DateTime(year: int, month: int, day: int, hour: int, minute: int, second: int)

  predicate Valid(c: DateTime) {
    && 0 <= c.year <= 9999
    && 1 <= c.month <= 12
    && 1 <= c.day <= DaysInMonth(c.year, c.month)
    && 0 <= c.hour < 24
    && 0 <= c.minute < 60
    && 0 <= c.second < 60
  }

  /** The time a valid date and time of day denotes. */
  function ToMs(c: DateTime): (t: int)
    requires Valid(c)
    ensures 0 <= t < EndOfTime
    ensures t % 1000 == 0
  {
    DayNumberBounds(c);
    (DayNumber(c) * 86400 + c.hour * 3600 + c.minute * 60 + c.second) * 1000
  }

  /** Days from 0000-01-01 to the date of c. */
  function DayNumber(c: DateTime): nat
    requires Valid(c)
  {
    DaysBeforeYear(c.year) + DaysBeforeMonth(c.year, c.month) + c.day - 1
  }

  /** The day of the year lies inside the year, and the day number before the end of year 9999. */
  lemma DayNumberBounds(c: DateTime)
    requires Valid(c)
    ensures DaysBeforeMonth(c.year, c.month) + c.day - 1 < DaysInYear(c.year)
    ensures DayNumber(c) < DaysBeforeYear(10000)
  {
    MonthsAdjacent(c.year, 12);
    if c.month < 12 {
      MonthsOrdered(c.year, c.month, 12);
    }
    if c.year < 9999 {
      DaysBeforeYearOrdered(c.year, 9999);
    }
    DaysBeforeNextYear(9999);
  }

  /** The year a day number falls in, searching upward from year `from`,
      with the day's offset inside that year. */
  function YearOf(days: nat, from: nat): (r: (nat, nat))
    ensures from <= r.0 && r.1 < DaysInYear(r.0)
    decreases days
  {
    if days < DaysInYear(from) then (from, days)
    else YearOf(days - DaysInYear(from), from + 1)
  }

  /** The year found and the offset inside it account for every day searched. */
  lemma {:induction false} YearOfSum(days: nat, from: nat)
    ensures DaysBeforeYear(YearOf(days, from).0) + YearOf(days, from).1 == DaysBeforeYear(from) + days
    decreases days
  {
    if days >= DaysInYear(from) {
      DaysBeforeNextYear(from);
      YearOfSum(days - DaysInYear(from), from + 1);
    }
  }

  /** The month and day-of-month of the day `doy` of year y, searching upward from month m. */
  function MonthOf(y: int, doy: nat, m: int): (r: (int, int))
    requires 1 <= m <= 12
    requires DaysBeforeMonth(y, m) <= doy < DaysInYear(y)
    ensures m <= r.0 <= 12 && 1 <= r.1 <= DaysInMonth(y, r.0)
    ensures DaysBeforeMonth(y, r.0) + r.1 - 1 == doy
    decreases 12 - m
  {
    MonthsAdjacent(y, m);
    if m == 12 || doy < DaysBeforeMonth(y, m + 1) then (m, doy - DaysBeforeMonth(y, m) + 1)
    else MonthOf(y, doy, m + 1)
  }

  /** The date and time of day of t, seconds and below dropped. */
  function FromMs(t: int): (c: DateTime)
    requires 0 <= t < EndOfTime
    ensures Valid(c)
  {
    DateOf(t / 86_400_000, t % 86_400_000 / 1000)
  }

  /** The date of a day number and the time of day of a second of that day. */
  function DateOf(days: nat, secs: nat): (c: DateTime)
    requires days < DaysBeforeYear(10000) && secs < 86400
    ensures Valid(c)
  {
    YearOfBelow10000(days);
    var (y, doy) := YearOf(days, 0);
    var (m, d) := MonthOf(y, doy, 1);
    DateTime(y, m, d, secs / 3600, secs / 60 % 60, secs % 60)
  }

  /** Every day before the end of year 9999 falls in a year the layout can write. */
  lemma YearOfBelow10000(days: nat)
    requires days < DaysBeforeYear(10000)
    ensures YearOf(days, 0).0 <= 9999
  {
    YearOfSum(days, 0);
    var y := YearOf(days, 0).0;
    if y > 9999 {
      DaysBeforeYearOrdered(9999, y);
      DaysBeforeNextYear(9999);
    }
  }

  /** The year of a day number is unique. */
  lemma YearUnique(y1: nat, d1: nat, y2: nat, d2: nat)
    requires d1 < DaysInYear(y1) && d2 < DaysInYear(y2)
    requires DaysBeforeYear(y1) + d1 == DaysBeforeYear(y2) + d2
    ensures y1 == y2 && d1 == d2
  {
    if y1 < y2 {
      DaysBeforeYearOrdered(y1, y2);
    } else if y2 < y1 {
      DaysBeforeYearOrdered(y2, y1);
    }
  }

  /** The month of a day of the year is unique. */
  lemma MonthUnique(y: int, m1: int, d1: int, m2: int, d2: int)
    requires 1 <= m1 <= 12 && 1 <= d1 <= DaysInMonth(y, m1)
    requires 1 <= m2 <= 12 && 1 <= d2 <= DaysInMonth(y, m2)
    requires DaysBeforeMonth(y, m1) + d1 == DaysBeforeMonth(y, m2) + d2
    ensures m1 == m2 && d1 == d2
  {
    if m1 < m2 {
      MonthsOrdered(y, m1, m2);
    } else if m2 < m1 {
      MonthsOrdered(y, m2, m1);
    }
  }

  /** A time splits into whole days, whole seconds of the day, and milliseconds. */
  lemma SplitTime(t: int)
    requires t >= 0
    ensures t == t / 86_400_000 * 86_400_000 + t % 86_400_000 / 1000 * 1000 + t % 1000
    ensures t % 86_400_000 / 1000 < 86400
  {
    assert t % 86_400_000 == t % 86_400_000 / 1000 * 1000 + t % 86_400_000 % 1000;
    assert t % 86_400_000 % 1000 == t % 1000;
  }

  /** Days and seconds of the day joined into a time are recovered by division. */
  lemma JoinTime(days: nat, sod: nat)
    requires sod < 86400
    ensures (days * 86_400_000 + sod * 1000) / 86_400_000 == days
    ensures (days * 86_400_000 + sod * 1000) % 86_400_000 / 1000 == sod
  {
    var t := days * 86_400_000 + sod * 1000;
    assert 0 <= sod * 1000 < 86_400_000;
    assert t % 86_400_000 == sod * 1000;
  }

  /** A second of the day splits into hour, minute and second. */
  lemma SplitSecondOfDay(secs: nat)
    ensures secs == secs / 3600 * 3600 + secs / 60 % 60 * 60 + secs % 60
  {
    assert secs / 60 == secs / 3600 * 60 + secs / 60 % 60;
  }

  /** Hour, minute and second joined into a second of the day are recovered by division. */
  lemma JoinSecondOfDay(h: nat, m: nat, s: nat)
    requires h < 24 && m < 60 && s < 60
    ensures var secs := h * 3600 + m * 60 + s;
      secs < 86400 && secs / 3600 == h && secs / 60 % 60 == m && secs % 60 == s
  {
    var secs := h * 3600 + m * 60 + s;
    assert secs / 60 == h * 60 + m;
  }

  /** The date and time of day of t denote its day number and second of the day. */
  lemma FromMsParts(t: int)
    requires 0 <= t < EndOfTime
    ensures DayNumber(FromMs(t)) == t / 86_400_000
    ensures FromMs(t).hour * 3600 + FromMs(t).minute * 60 + FromMs(t).second == t % 86_400_000 / 1000
  {
    var days := t / 86_400_000;
    YearOfSum(days, 0);
    SplitSecondOfDay(t % 86_400_000 / 1000);
  }

  /** Splitting a time into date and time of day and joining them again gives the time floored to the second. */
  lemma ToMsOfFromMs(t: int)
    requires 0 <= t < EndOfTime
    ensures ToMs(FromMs(t)) == Floor(t)
  {
    FromMsParts(t);
    SplitTime(t);
  }

  /** A valid date and time of day is the date of its day number at its second of the day. */
  lemma DateOfDayNumber(c: DateTime)
    requires Valid(c)
    ensures DayNumber(c) < DaysBeforeYear(10000)
    ensures c.hour * 3600 + c.minute * 60 + c.second < 86400
    ensures DateOf(DayNumber(c), c.hour * 3600 + c.minute * 60 + c.second) == c
  {
    DayNumberBounds(c);
    JoinSecondOfDay(c.hour, c.minute, c.second);
    var days := DayNumber(c);
    YearOfSum(days, 0);
    var (y, r) := YearOf(days, 0);
    YearUnique(y, r, c.year, DaysBeforeMonth(c.year, c.month) + c.day - 1);
    var (m, d) := MonthOf(y, r, 1);
    MonthUnique(y, m, d, c.month, c.day);
  }

  /** A valid date and time of day is recovered from the time it denotes. */
  lemma FromMsOfToMs(c: DateTime)
    requires Valid(c)
    ensures FromMs(ToMs(c)) == c
  {
    DateOfDayNumber(c);
    JoinTime(DayNumber(c), c.hour * 3600 + c.minute * 60 + c.second);
  }

  /** The value of a four-digit field, most significant digit first. */
  function FieldValue4(a: char, b: char, c: char, d: char): (n: nat)
    requires IsDigit(a) && IsDigit(b) && IsDigit(c) && IsDigit(d)
    ensures n < 10000
  {
    1000 * DigitValue(a) + 100 * DigitValue(b) + 10 * DigitValue(c) + DigitValue(d)
  }

  /** The value of a two-digit field. */
  function FieldValue2(a: char, b: char): (n: nat)
    requires IsDigit(a) && IsDigit(b)
    ensures n < 100
  {
    10 * DigitValue(a) + DigitValue(b)
  }

  /** The four decimal digits of a number below 10000 are its thousands, hundreds, tens and units. */
  lemma SplitDigits4(n: nat)
    requires n < 10000
    ensures n == 1000 * (n / 1000) + 100 * (n / 100 % 10) + 10 * (n / 10 % 10) + n % 10
    ensures n / 1000 < 10
  {
    assert n == 10 * (n / 10) + n % 10;
    assert n / 10 == 10 * (n / 100) + n / 10 % 10;
    assert n / 100 == 10 * (n / 1000) + n / 100 % 10;
  }

  /** Reading four digits as a number and taking it apart again gives back the digits. */
  lemma JoinDigits4(a: nat, b: nat, c: nat, d: nat)
    requires a < 10 && b < 10 && c < 10 && d < 10
    ensures var n := 1000 * a + 100 * b + 10 * c + d;
      n / 1000 == a && n / 100 % 10 == b && n / 10 % 10 == c && n % 10 == d
  {
    var n := 1000 * a + 100 * b + 10 * c + d;
    assert n / 10 == 100 * a + 10 * b + c;
    assert n / 100 == 10 * a + b;
  }

  /** The six fixed-width fields of a 14-digit layout string. */
  function Fields(s: string): (c: DateTime)
    requires |s| == 14 && AllDigits(s)
  {
    DateTime(FieldValue4(s[0], s[1], s[2], s[3]), FieldValue2(s[4], s[5]), FieldValue2(s[6], s[7]),
             FieldValue2(s[8], s[9]), FieldValue2(s[10], s[11]), FieldValue2(s[12], s[13]))
  }

  /** time.Parse("20060102150405", s): exactly fourteen digits forming a
      valid date and time of day, read as UTC. */
  function ParseLayout(s: string): (r: Result<int>)
    ensures r.Failure? ==> r.error == TimeParseError(s)
    ensures r.Success? ==> 0 <= r.value < EndOfTime && r.value % 1000 == 0
  {
    if |s| != 14 || !AllDigits(s) then Failure(TimeParseError(s))
    else if !Valid(Fields(s)) then Failure(TimeParseError(s))
    else Success(ToMs(Fields(s)))
  }

  /** The layout accepts exactly the fourteen-digit strings whose fields form a valid date and time. */
  lemma ParseLayoutAccepts(s: string)
    ensures ParseLayout(s).Success? <==> |s| == 14 && AllDigits(s) && Valid(Fields(s))
  {
  }

  /** A valid date and time of day written as fourteen zero-padded digits, fields read back unchanged. */
  function Render(c: DateTime): (s: string)
    requires Valid(c)
    ensures |s| == 14 && AllDigits(s)
    ensures Fields(s) == c
  {
    SplitDigits4(c.year);
    [DigitChar(c.year / 1000), DigitChar(c.year / 100 % 10), DigitChar(c.year / 10 % 10), DigitChar(c.year % 10),
     DigitChar(c.month / 10), DigitChar(c.month % 10), DigitChar(c.day / 10), DigitChar(c.day % 10),
     DigitChar(c.hour / 10), DigitChar(c.hour % 10), DigitChar(c.minute / 10), DigitChar(c.minute % 10),
     DigitChar(c.second / 10), DigitChar(c.second % 10)]
  }

  /** Every fourteen-digit string is the rendering of its own fields. */
  lemma RenderOfFields(s: string)
    requires |s| == 14 && AllDigits(s) && Valid(Fields(s))
    ensures Render(Fields(s)) == s
  {
    var c := Fields(s);
    JoinDigits4(DigitValue(s[0]), DigitValue(s[1]), DigitValue(s[2]), DigitValue(s[3]));
    assert c.year / 1000 == DigitValue(s[0]) && c.year / 100 % 10 == DigitValue(s[1]);
    assert c.year / 10 % 10 == DigitValue(s[2]) && c.year % 10 == DigitValue(s[3]);
    JoinDigits2(s[4], s[5]);
    JoinDigits2(s[6], s[7]);
    JoinDigits2(s[8], s[9]);
    JoinDigits2(s[10], s[11]);
    JoinDigits2(s[12], s[13]);
    var r := Render(c);
    assert forall i :: 0 <= i < 14 ==> r[i] == DigitChar(DigitValue(s[i]));
    forall i | 0 <= i < 14 {
      DigitCharOfValue(s[i]);
    }
  }

  /** Two digits read as a field and taken apart again give back the digits. */
  lemma JoinDigits2(a: char, b: char)
    requires IsDigit(a) && IsDigit(b)
    ensures FieldValue2(a, b) / 10 == DigitValue(a) && FieldValue2(a, b) % 10 == DigitValue(b)
  {
  }

  /** time.Time.Format("20060102150405"): the date and time of day of t as fourteen digits. */
  function FormatLayout(t: int): (s: string)
    requires 0 <= t < EndOfTime
    ensures |s| == 14 && AllDigits(s)
  {
    Render(FromMs(t))
  }

  /** Formatting a time and parsing it back gives the time with its sub-second part dropped. */
  lemma ParseOfFormat(t: int)
    requires 0 <= t < EndOfTime
    ensures ParseLayout(FormatLayout(t)) == Success(Floor(t))
  {
    ToMsOfFromMs(t);
  }

  /** Every string the layout accepts is reprinted exactly from the time it denotes. */
  lemma FormatOfParse(s: string)
    requires ParseLayout(s).Success?
    ensures FormatLayout(ParseLayout(s).value) == s
  {
    ParseLayoutAccepts(s);
    FromMsOfToMs(Fields(s));
    RenderOfFields(s);
  }
}
