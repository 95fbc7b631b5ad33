/** Calendar dates as the Go time package parses and formats them with the two
    layouts the core uses: "2006-01-02" (payment dates, report ranges) and
    "060102" (the code generator's date stamp and separator). */
module Dates {
  import opened Common

  datatype Date = Date(year: int, month: int, day: int)

  /** The date of Go's zero time.Time, which a failed time.Parse returns. */
  const ZeroDate: Date := Date(1, 1, 1)

  predicate IsLeapYear(y: int) { y % 4 == 0 && (y % 100 != 0 || y % 400 == 0) }

  function DaysIn(year: int, month: int): int
    requires 1 <= month <= 12
  {
    if month == 2 then (if IsLeapYear(year) then 29 else 28)
    else if month == 4 || month == 6 || month == 9 || month == 11 then 30
    else 31
  }

  /** A day that exists in the proleptic Gregorian calendar. */
  predicate ValidDate(d: Date)
  {
    1 <= d.month <= 12 && 1 <= d.day <= DaysIn(d.year, d.month)
  }

  /** time.Time.Before on two dates at midnight UTC. */
  predicate Before(a: Date, b: Date)
  {
    a.year < b.year
    || (a.year == b.year && a.month < b.month)
    || (a.year == b.year && a.month == b.month && a.day < b.day)
  }

  // ---------------------------------------------------------------------
  // Layout "2006-01-02"

  /** The regular expression ^\d{4}-\d{2}-\d{2}$ (ASCII digits). */
  predicate MatchesDayPattern(s: string)
  {
    |s| == 10 && AllDigits(s[0..4]) && s[4] == '-' && AllDigits(s[5..7])
    && s[7] == '-' && AllDigits(s[8..10])
  }

  /** The regular expression ^\d{4}-\d{2}$ (ASCII digits). */
  predicate MatchesMonthPattern(s: string)
  {
    |s| == 7 && AllDigits(s[0..4]) && s[4] == '-' && AllDigits(s[5..7])
  }

  /** time.Parse("2006-01-02", s): four-digit year, two-digit month and day,
      no further text, and a day that exists in that month. */
  function ParseYMD(s: string): (r: Option<Date>)
    ensures r.Some? ==> MatchesDayPattern(s) && ValidDate(r.value) && r.value == DayFields(s)
    ensures MatchesDayPattern(s) ==> (r.Some? <==> ValidDate(DayFields(s)))
    ensures MatchesDayPattern(s) && !(1 <= DigitsValue(s[5..7]) <= 12) ==> r.None?
  {
    if MatchesDayPattern(s) then
      var d := Date(DigitsValue(s[0..4]), DigitsValue(s[5..7]), DigitsValue(s[8..10]));
      if ValidDate(d) then Some(d) else None
    else None
  }

  /** The year, month and day fields of a "2006-01-02" text, read as numbers. */
  function DayFields(s: string): Date
    requires MatchesDayPattern(s)
  {
    Date(DigitsValue(s[0..4]), DigitsValue(s[5..7]), DigitsValue(s[8..10]))
  }

  /** `t, _ := time.Parse(...)`: the parse error is dropped and the zero time kept. */
  function ParseYMDOrZero(s: string): Date
  {
    match ParseYMD(s)
    case Some(d) => d
    case None => ZeroDate
  }

  function TwoDigits(n: nat): (s: string)
    requires n < 100
    ensures |s| == 2 && AllDigits(s)
  {
    [DigitChar(n / 10), DigitChar(n % 10)]
  }

  function FourDigits(n: nat): (s: string)
    requires n < 10000
    ensures |s| == 4 && AllDigits(s)
  {
    TwoDigits(n / 100) + TwoDigits(n % 100)
  }

  /** time.Time.Format("2006-01-02") for years 0..9999. */
  function FormatYMD(d: Date): (s: string)
    requires ValidDate(d) && 0 <= d.year <= 9999
    ensures MatchesDayPattern(s)
  {
    FourDigits(d.year) + "-" + TwoDigits(d.month) + "-" + TwoDigits(d.day)
  }

  // ---------------------------------------------------------------------
  // Layout "060102"

  /** The two-digit year field of time.Parse: Go reads it with its internal
      atoi, which also accepts a sign followed by one digit ("+5", "-5"). */
  function YearField(t: string): (r: Option<int>)
    requires |t| == 2
    ensures r.Some? ==> -9 <= r.value <= 99
  {
    TwoDigitsValue(t);
    if AllDigits(t) then Some(DigitsValue(t) as int)
    else if (t[0] == '+' || t[0] == '-') && IsDigit(t[1]) then
      var v := t[1] as int - '0' as int;
      Some(if t[0] == '-' then -v else v)
    else None
  }

  /** time.Parse("060102", s): a two-digit year (69..99 in the 1900s, the
      rest in the 2000s), two-digit month and day, no further text. */
  function ParseYYMMDD(s: string): (r: Option<Date>)
    ensures r.Some? ==> ValidDate(r.value) && 1900 <= r.value.year <= 2099
    ensures r.Some? ==> StampShaped(s) && r.value == StampFields(s)
    ensures StampShaped(s) ==> (r.Some? <==> ValidDate(StampFields(s)))
  {
    if |s| == 6 && YearField(s[0..2]).Some? && AllDigits(s[2..4]) && AllDigits(s[4..6]) then
      var yy := YearField(s[0..2]).value;
      var d := Date(if yy >= 69 then 1900 + yy else 2000 + yy, DigitsValue(s[2..4]), DigitsValue(s[4..6]));
      if ValidDate(d) then Some(d) else None
    else None
  }

  /** Six characters: a year field time.Parse accepts, then two digits and two digits. */
  predicate StampShaped(s: string)
  {
    |s| == 6 && YearField(s[0..2]).Some? && AllDigits(s[2..4]) && AllDigits(s[4..6])
  }

  /** Go's century rule for a two-digit year: 69 and above are in the 1900s,
      the rest in the 2000s. */
  function CenturyOf(yy: int): int
  {
    if yy >= 69 then 1900 + yy else 2000 + yy
  }

  /** The date a "060102" text names, before the day is checked. */
  function StampFields(s: string): Date
    requires StampShaped(s)
  {
    Date(CenturyOf(YearField(s[0..2]).value), DigitsValue(s[2..4]), DigitsValue(s[4..6]))
  }

  /** time.Time.Format("060102"). */
  function FormatYYMMDD(d: Date): (s: string)
    requires ValidDate(d) && d.year >= 0
    ensures |s| == 6 && AllDigits(s)
  {
    TwoDigits(d.year % 100) + TwoDigits(d.month) + TwoDigits(d.day)
  }

  /** What time.Now().Format("060102") can produce: six digits naming a real day. */
  predicate IsDateStamp(s: string)
  {
    |s| == 6 && AllDigits(s) && ParseYYMMDD(s).Some?
  }

  /** A two-character digit string is worth ten times its first digit plus its second. */
  lemma TwoDigitsValue(t: string)
    requires |t| == 2
    ensures AllDigits(t) ==> DigitsValue(t) == (t[0] as int - '0' as int) * 10 + (t[1] as int - '0' as int)
  {
    if AllDigits(t) {
      var h := t[..1];
      assert t[..|t| - 1] == h && h[..|h| - 1] == [] && h[|h| - 1] == t[0];
      assert DigitsValue(h) == t[0] as int - '0' as int;
    }
  }

  lemma TwoDigitsRoundTrip(t: string)
    requires |t| == 2 && AllDigits(t)
    ensures DigitsValue(t) < 100 && TwoDigits(DigitsValue(t)) == t
  {
    TwoDigitsValue(t);
    var a := t[0] as int - '0' as int;
    var b := t[1] as int - '0' as int;
    assert (a * 10 + b) / 10 == a && (a * 10 + b) % 10 == b;
  }

  /** A stamp written by the generator itself parses and formats back to itself,
      so its first four characters are its own year and month. */
  lemma StampRoundTrip(s: string)
    requires IsDateStamp(s)
    ensures FormatYYMMDD(ParseYYMMDD(s).value) == s
  {
    var d := ParseYYMMDD(s).value;
    TwoDigitsRoundTrip(s[0..2]);
    TwoDigitsRoundTrip(s[2..4]);
    TwoDigitsRoundTrip(s[4..6]);
    assert d.year % 100 == DigitsValue(s[0..2]);
    assert s == s[0..2] + s[2..4] + s[4..6];
  }

  /** The century pivot at work: "69" is read as 1969 and "68" as 2068, so a
      stamp's two-digit year alone fixes its full year. */
  lemma CenturyPivot()
    ensures ParseYYMMDD("690101") == Some(Date(1969, 1, 1))
    ensures ParseYYMMDD("680101") == Some(Date(2068, 1, 1))
  {
    var a, b := "690101", "680101";
    TwoDigitsValue(a[0..2]);
    TwoDigitsValue(a[2..4]);
    TwoDigitsValue(a[4..6]);
    TwoDigitsValue(b[0..2]);
    assert b[2..4] == a[2..4] && b[4..6] == a[4..6];
  }

  lemma TwoDigitsOf(n: nat)
    requires n < 100
    ensures DigitsValue(TwoDigits(n)) == n
  {
    TwoDigitsValue(TwoDigits(n));
  }

  /** Appending two digits multiplies the value so far by a hundred. */
  lemma AppendTwoDigits(a: string, b: string)
    requires AllDigits(a) && |b| == 2 && AllDigits(b)
    ensures DigitsValue(a + b) == DigitsValue(a) * 100 + DigitsValue(b)
  {
    var ab := a + b;
    assert ab[..|ab| - 1] == a + [b[0]];
    assert (a + [b[0]])[..|a|] == a;
    TwoDigitsValue(b);
  }

  lemma FourDigitsOf(n: nat)
    requires n < 10000
    ensures DigitsValue(FourDigits(n)) == n
  {
    AppendTwoDigits(TwoDigits(n / 100), TwoDigits(n % 100));
    TwoDigitsOf(n / 100);
    TwoDigitsOf(n % 100);
  }

  /** A formatted date parses back to itself. */
  lemma FormatYMDRoundTrip(d: Date)
    requires ValidDate(d) && 0 <= d.year <= 9999
    ensures ParseYMD(FormatYMD(d)) == Some(d)
  {
    var s := FormatYMD(d);
    assert s[0..4] == FourDigits(d.year);
    assert s[5..7] == TwoDigits(d.month);
    assert s[8..10] == TwoDigits(d.day);
    FourDigitsOf(d.year);
    TwoDigitsOf(d.month);
    TwoDigitsOf(d.day);
  }

  /** A four-digit text is the four-digit form of its value. */
  lemma FourDigitsRoundTrip(t: string)
    requires |t| == 4 && AllDigits(t)
    ensures DigitsValue(t) < 10000 && FourDigits(DigitsValue(t)) == t
  {
    var hi, lo := t[..2], t[2..];
    assert t == hi + lo;
    AppendTwoDigits(hi, lo);
    TwoDigitsRoundTrip(hi);
    TwoDigitsRoundTrip(lo);
    var n := DigitsValue(t);
    assert n / 100 == DigitsValue(hi) && n % 100 == DigitsValue(lo);
  }

  /** A text the "2006-01-02" layout accepts is the formatting of the date it
      names, so parsing loses nothing. */
  lemma ParseYMDRoundTrip(s: string)
    requires ParseYMD(s).Some?
    ensures 0 <= ParseYMD(s).value.year <= 9999 && FormatYMD(ParseYMD(s).value) == s
  {
    FourDigitsRoundTrip(s[0..4]);
    TwoDigitsRoundTrip(s[5..7]);
    TwoDigitsRoundTrip(s[8..10]);
    assert s == s[0..4] + "-" + s[5..7] + "-" + s[8..10];
  }
}
