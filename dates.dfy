/** Calendar days as pandas holds them, and the two text forms the pipeline reads:
    day-first "dd/mm/yyyy" (strptime's %d/%m/%Y) and ISO "yyyy-mm-dd" (what `to_csv` writes). */
module Dates {
  import opened Basics
  import opened Lexical

  datatype Date = Date(year: int, month: int, day: int)

  /** Gregorian leap years. */
  predicate IsLeapYear(y: int)
  {
    y % 4 == 0 && (y % 100 != 0 || y % 400 == 0)
  }

  function DaysInMonth(year: int, month: int): (n: int)
    requires 1 <= month <= 12
    ensures 28 <= n <= 31
    ensures n == 31 <==> month in {1, 3, 5, 7, 8, 10, 12}
  {
    if month == 2 then (if IsLeapYear(year) then 29 else 28)
    else if month == 4 || month == 6 || month == 9 || month == 11 then 30
    else 31
  }

  predicate IsCalendarDay(d: Date)
  {
    1 <= d.month <= 12 && 1 <= d.day <= DaysInMonth(d.year, d.month)
  }

  /** Strict chronological order of days. */
  predicate Before(a: Date, b: Date)
  {
    || a.year < b.year
    || (a.year == b.year && a.month < b.month)
    || (a.year == b.year && a.month == b.month && a.day < b.day)
  }

  /** Chronological order is a strict total order. */
  lemma BeforeTransitive(a: Date, b: Date, c: Date)
    requires Before(a, b) && Before(b, c)
    ensures Before(a, c)
  {
  }

  lemma BeforeTotal(a: Date, b: Date)
    ensures a == b || Before(a, b) || Before(b, a)
    ensures !(Before(a, b) && Before(b, a)) && !Before(a, a)
  {
  }

  /** The first and the last midnight that a nanosecond pandas Timestamp can hold
      (its range is 1677-09-21 00:12:43 to 2262-04-11 23:47:16). */
  const FirstTimestampDay := Date(1677, 9, 22)
  const LastTimestampDay := Date(2262, 4, 11)

  /** A real calendar day that pandas can hold as a Timestamp; any other parsed day is NaT. */
  predicate IsTimestampDay(d: Date)
  {
    IsCalendarDay(d) && !Before(d, FirstTimestampDay) && !Before(LastTimestampDay, d)
  }

  /** strptime's %d: "01"-"31", one digit "1"-"9", or a space and a digit " 1"-" 9". */
  function DayToken(t: string): Option<int>
  {
    if |t| == 2 && AllDigits(t) && 1 <= DigitsValue(t) <= 31 then Some(DigitsValue(t))
    else if |t| == 1 && IsDigit(t[0]) && t[0] != '0' then Some(DigitValue(t[0]))
    else if |t| == 2 && t[0] == ' ' && IsDigit(t[1]) && t[1] != '0' then Some(DigitValue(t[1]))
    else None
  }

  /** strptime's %m: "01"-"12" or one digit "1"-"9". */
  function MonthToken(t: string): Option<int>
  {
    if |t| == 2 && AllDigits(t) && 1 <= DigitsValue(t) <= 12 then Some(DigitsValue(t))
    else if |t| == 1 && IsDigit(t[0]) && t[0] != '0' then Some(DigitValue(t[0]))
    else None
  }

  /** The day named by the three fields of "%d/%m/%Y", if each is a valid token and together
      they name a Timestamp day. */
  function DayFirstFields(dayText: string, monthText: string, yearText: string): (r: Option<Date>)
    ensures r.Some? ==> IsTimestampDay(r.value)
  {
    match (DayToken(dayText), MonthToken(monthText))
    case (Some(dd), Some(mm)) =>
      if |yearText| == 4 && AllDigits(yearText) && IsTimestampDay(Date(DigitsValue(yearText), mm, dd))
      then Some(Date(DigitsValue(yearText), mm, dd))
      else None
    case _ => None
  }

  /** pandas' `to_datetime(format="%d/%m/%Y", errors="coerce")` on one text value: the whole
      text must be a %d token, '/', a %m token, '/', and four digits, naming a Timestamp day;
      otherwise the result is NaT (None). No token can hold a '/', so the two slashes split
      the text as the format's regular expression does. */
  function ParseDayFirst(s: string): (r: Option<Date>)
    ensures r.Some? ==> IsTimestampDay(r.value) && |s| >= 8
  {
    var i := IndexOf(s, '/');
    if i == |s| then None
    else
      var rest := s[i + 1..];
      var j := IndexOf(rest, '/');
      if j == |rest| then None
      else DayFirstFields(s[..i], rest[..j], rest[j + 1..])
  }

  /** Text made of two slash-free fields and a third, joined by slashes, is read field by field. */
  lemma ParseDayFirstSplit(a: string, b: string, c: string)
    requires forall i :: 0 <= i < |a| ==> a[i] != '/'
    requires forall i :: 0 <= i < |b| ==> b[i] != '/'
    ensures ParseDayFirst(a + "/" + b + "/" + c) == DayFirstFields(a, b, c)
  {
    var rest := b + "/" + c;
    var s := a + "/" + b + "/" + c;
    assert s == a + ['/'] + rest;
    IndexOfAfter(a, '/', rest);
    assert s[..|a|] == a && s[|a| + 1..] == rest;
    assert rest == b + ['/'] + c;
    IndexOfAfter(b, '/', c);
    assert rest[..|b|] == b && rest[|b| + 1..] == c;
  }

  lemma TimestampYears(d: Date)
    requires IsTimestampDay(d)
    ensures 1677 <= d.year <= 2262 && d.year < Pow10(4) && d.month < Pow10(2) && d.day < Pow10(2)
  {
    assert Pow10(2) == 100;
    assert Pow10(4) == 10000;
  }

  /** strftime's "%d/%m/%Y". */
  function FormatDayFirst(d: Date): (s: string)
    requires IsTimestampDay(d)
    ensures |s| == 10
  {
    TimestampYears(d);
    PadLeft(d.day, 2) + "/" + PadLeft(d.month, 2) + "/" + PadLeft(d.year, 4)
  }

  /** The fixed positions of "dd/mm/yyyy" text. */
  lemma DayFirstPositions(a: string, b: string, c: string)
    requires |a| == 2 && |b| == 2 && |c| == 4
    ensures var s := a + "/" + b + "/" + c;
      && |s| == 10 && s[..2] == a && s[2] == '/' && s[3..5] == b && s[5] == '/' && s[6..10] == c && s[6..] == c
  {
    var s := a + "/" + b + "/" + c;
    assert s[..2] == a;
    assert s[3..5] == b;
    assert s[6..] == c;
  }

  /** Ten-character text with slashes at positions 2 and 5 is its three fields joined by slashes. */
  lemma DayFirstJoin(s: string)
    requires |s| == 10 && s[2] == '/' && s[5] == '/'
    ensures s == s[..2] + "/" + s[3..5] + "/" + s[6..] && s[6..] == s[6..10]
  {
  }

  /** Two-digit day and month fields and a four-digit year field naming a Timestamp day are
      that day's "dd/mm/yyyy" text. */
  lemma FormatDayFirstOfFields(a: string, b: string, c: string, d: Date)
    requires |a| == 2 && |b| == 2 && |c| == 4 && AllDigits(a) && AllDigits(b) && AllDigits(c)
    requires d == Date(DigitsValue(c), DigitsValue(b), DigitsValue(a)) && IsTimestampDay(d)
    ensures FormatDayFirst(d) == a + "/" + b + "/" + c
  {
    PadLeftOfDigits(a);
    PadLeftOfDigits(b);
    PadLeftOfDigits(c);
  }

  /** Every Timestamp day written as "dd/mm/yyyy" is read back as that day. */
  lemma ParseDayFirstRoundTrip(d: Date)
    requires IsTimestampDay(d)
    ensures ParseDayFirst(FormatDayFirst(d)) == Some(d)
  {
    TimestampYears(d);
    var a, b, c := PadLeft(d.day, 2), PadLeft(d.month, 2), PadLeft(d.year, 4);
    assert forall i :: 0 <= i < |a| ==> IsDigit(a[i]);
    assert forall i :: 0 <= i < |b| ==> IsDigit(b[i]);
    ParseDayFirstSplit(a, b, c);
    assert DayToken(a) == Some(d.day);
    assert MonthToken(b) == Some(d.month);
  }

  /** strftime's "%Y-%m-%d", the text `to_csv` writes for a midnight Timestamp. */
  function FormatIso(d: Date): (s: string)
    requires IsTimestampDay(d)
    ensures |s| == 10
  {
    TimestampYears(d);
    PadLeft(d.year, 4) + "-" + PadLeft(d.month, 2) + "-" + PadLeft(d.day, 2)
  }

  /** pandas' `to_datetime` on ISO text "yyyy-mm-dd": the day it names, if it is a Timestamp day. */
  function ParseIso(s: string): (r: Option<Date>)
    ensures r.Some? ==> IsTimestampDay(r.value) && |s| == 10
  {
    if |s| == 10 && s[4] == '-' && s[7] == '-' && AllDigits(s[..4]) && AllDigits(s[5..7]) && AllDigits(s[8..]) then
      var d := Date(DigitsValue(s[..4]), DigitsValue(s[5..7]), DigitsValue(s[8..]));
      if IsTimestampDay(d) then Some(d) else None
    else None
  }

  /** The fixed positions of "yyyy-mm-dd" text. */
  lemma IsoPositions(y: string, m: string, dd: string)
    requires |y| == 4 && |m| == 2 && |dd| == 2
    ensures var s := y + "-" + m + "-" + dd;
      && |s| == 10 && s[..4] == y && s[4] == '-' && s[5..7] == m && s[7] == '-' && s[8..] == dd
  {
    var s := y + "-" + m + "-" + dd;
    assert s[..4] == y;
    assert s[5..7] == m;
    assert s[8..] == dd;
  }

  /** Reading back what `to_csv` wrote gives the same day. */
  lemma ParseIsoRoundTrip(d: Date)
    requires IsTimestampDay(d)
    ensures ParseIso(FormatIso(d)) == Some(d)
  {
    TimestampYears(d);
    IsoPositions(PadLeft(d.year, 4), PadLeft(d.month, 2), PadLeft(d.day, 2));
  }

  /** ISO text is read as a day only when it is exactly that day's ISO text. */
  lemma ParseIsoExact(s: string, d: Date)
    requires ParseIso(s) == Some(d)
    ensures IsTimestampDay(d) && s == FormatIso(d)
  {
    var y, m, dd := s[..4], s[5..7], s[8..];
    assert d == Date(DigitsValue(y), DigitsValue(m), DigitsValue(dd));
    TimestampYears(d);
    PadLeftOfDigits(y);
    PadLeftOfDigits(m);
    PadLeftOfDigits(dd);
    assert PadLeft(d.year, 4) == y && PadLeft(d.month, 2) == m && PadLeft(d.day, 2) == dd;
    assert s == y + "-" + m + "-" + dd;
  }
}
