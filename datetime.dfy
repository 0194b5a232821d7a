/**
 * Go's time.Parse, restricted to the two layouts the receipt engine uses:
 * "2006-01-02" for the purchase date and "15:04" for the purchase time.
 */
module DateTime {
  import opened Wrappers
  import opened Arith
  import opened Digits

  /** A calendar date in the proleptic Gregorian calendar, as time.Parse reads it. */
  datatype Date = Date(year: nat, month: nat, day: nat)

  predicate IsLeapYear(year: nat)
  {
    year % 4 == 0 && (year % 100 != 0 || year % 400 == 0)
  }

  /** The number of days in a month of a year. */
  function DaysIn(month: nat, year: nat): nat
    requires 1 <= month <= 12
  {
    if month == 2 then (if IsLeapYear(year) then 29 else 28)
    else if month == 4 || month == 6 || month == 9 || month == 11 then 30
    else 31
  }

  /** A date the layout can write: four-digit year, a month of the year, a day of that month. */
  predicate IsCalendarDate(d: Date)
  {
    d.year < 10000 && 1 <= d.month <= 12 && 1 <= d.day <= DaysIn(d.month, d.year)
  }

  /**
   * time.Parse("2006-01-02", s): exactly four digits, '-', two digits, '-', two digits
   * and nothing after; the month must be 1 to 12 and the day must exist in that month.
   */
  function ParseDate(s: string): (r: Option<Date>)
  {
    if |s| == 10 && AllDigits(s[..4]) && s[4] == '-' && AllDigits(s[5..7]) && s[7] == '-' && AllDigits(s[8..]) then
      var d := Date(Value(s[..4]), Value(s[5..7]), Value(s[8..]));
      if IsCalendarDate(d) then Some(d) else None
    else None
  }

  /** The layout "2006-01-02" written out for a date. */
  function FormatDate(d: Date): string
  {
    Fixed(d.year, 4) + "-" + Fixed(d.month, 2) + "-" + Fixed(d.day, 2)
  }

  /** Every calendar date is accepted in its layout form and read back unchanged. */
  lemma ParseFormatDate(d: Date)
    requires IsCalendarDate(d)
    ensures ParseDate(FormatDate(d)) == Some(d)
  {
    var s := FormatDate(d);
    assert s[..4] == Fixed(d.year, 4);
    assert s[5..7] == Fixed(d.month, 2);
    assert s[8..] == Fixed(d.day, 2);
    assert Pow10(4) == 10000 && Pow10(2) == 100;
    ValueOfFixed(d.year, 4);
    ValueOfFixed(d.month, 2);
    ValueOfFixed(d.day, 2);
  }

  /** The parser accepts nothing but the layout form of the date it returns. */
  lemma FormatParseDate(s: string)
    requires ParseDate(s).Some?
    ensures IsCalendarDate(ParseDate(s).value)
    ensures FormatDate(ParseDate(s).value) == s
  {
    FixedOfValue(s[..4]);
    FixedOfValue(s[5..7]);
    FixedOfValue(s[8..]);
    assert s == s[..4] + "-" + s[5..7] + "-" + s[8..];
  }

  /** A parsed day of month is odd exactly when the last character of the date is an odd digit. */
  lemma OddDayFromText(s: string)
    requires ParseDate(s).Some?
    ensures ParseDate(s).value.day % 2 == 1 <==> s[9] in "13579"
  {
    var dd := s[8..];
    ValueSnoc(dd);
    assert dd[..1] == [s[8]] && dd[1] == s[9];
    assert Value([s[8]]) == DigitValue(s[8]) by {
      ValueSnoc([s[8]]);
      assert [s[8]][..0] == [];
    }
  }

  /** A time of day, as time.Parse reads it with the layout "15:04". */
  datatype Clock = Clock(hour: nat, minute: nat)

  predicate IsTimeOfDay(c: Clock)
  {
    c.hour < 24 && c.minute < 60
  }

  /**
   * time.Parse("15:04", s): the hour is one or two digits (a second digit is taken when
   * present), then ':', then exactly two digits of minute, and nothing after; the hour
   * must be below 24 and the minute below 60.
   */
  function ParseClock(s: string): (r: Option<Clock>)
  {
    if |s| == 0 || !IsDigit(s[0]) then None
    else
      var h := if |s| >= 2 && IsDigit(s[1]) then 2 else 1;
      var rest := s[h..];
      if |rest| == 3 && rest[0] == ':' && IsDigit(rest[1]) && IsDigit(rest[2]) then
        var c := Clock(Value(s[..h]), Value(rest[1..]));
        if IsTimeOfDay(c) then Some(c) else None
      else None
  }

  /** The layout "15:04" written out for a time of day. */
  function FormatClock(c: Clock): string
  {
    Fixed(c.hour, 2) + ":" + Fixed(c.minute, 2)
  }

  lemma ParseFormatClock(c: Clock)
    requires IsTimeOfDay(c)
    ensures ParseClock(FormatClock(c)) == Some(c)
  {
    var s := FormatClock(c);
    assert s[..2] == Fixed(c.hour, 2);
    assert s[2..][1..] == Fixed(c.minute, 2);
    assert Pow10(2) == 100;
    ValueOfFixed(c.hour, 2);
    ValueOfFixed(c.minute, 2);
  }

  /** An hour below ten may also be written with a single digit. */
  lemma ParseShortHourClock(c: Clock)
    requires IsTimeOfDay(c) && c.hour < 10
    ensures ParseClock(Fixed(c.hour, 1) + ":" + Fixed(c.minute, 2)) == Some(c)
  {
    var s := Fixed(c.hour, 1) + ":" + Fixed(c.minute, 2);
    assert s[..1] == Fixed(c.hour, 1);
    assert s[1..][1..] == Fixed(c.minute, 2);
    assert Pow10(1) == 10 && Pow10(2) == 100;
    ValueOfFixed(c.hour, 1);
    ValueOfFixed(c.minute, 2);
  }

  /**
   * The parser accepts the layout form of the time it returns and, for an hour below
   * ten, the same text with the hour's leading zero left out.
   */
  lemma FormatParseClock(s: string)
    requires ParseClock(s).Some?
    ensures var c := ParseClock(s).value;
      IsTimeOfDay(c) && (s == FormatClock(c) || (c.hour < 10 && s == Fixed(c.hour, 1) + ":" + Fixed(c.minute, 2)))
  {
    var h := if |s| >= 2 && IsDigit(s[1]) then 2 else 1;
    FixedOfValue(s[..h]);
    FixedOfValue(s[h + 1..]);
    assert s == s[..h] + ":" + s[h + 1..];
    assert Pow10(1) == 10;
  }

  /** Minutes since midnight. */
  function Minutes(c: Clock): nat
  {
    60 * c.hour + c.minute
  }

  /** t.After(u) for two times parsed with the same layout. */
  predicate After(t: Clock, u: Clock)
  {
    Minutes(t) > Minutes(u)
  }

  /** t.Before(u) for two times parsed with the same layout. */
  predicate Before(t: Clock, u: Clock)
  {
    Minutes(t) < Minutes(u)
  }

  /** Strictly after 14:00 and strictly before 16:00. */
  predicate InAfternoonWindow(c: Clock)
  {
    After(c, Clock(14, 0)) && Before(c, Clock(16, 0))
  }

  /** The window bounds the engine parses are 14:00 and 16:00. */
  lemma WindowBounds()
    ensures ParseClock("14:00") == Some(Clock(14, 0))
    ensures ParseClock("16:00") == Some(Clock(16, 0))
  {
    ParseFormatClock(Clock(14, 0));
    ParseFormatClock(Clock(16, 0));
    assert FormatClock(Clock(14, 0)) == "14:00";
    assert FormatClock(Clock(16, 0)) == "16:00";
  }

  /** The window is 14:01 through 15:59; neither bound is inside it. */
  lemma AfternoonWindowHours(c: Clock)
    requires IsTimeOfDay(c)
    ensures InAfternoonWindow(c) <==> (c.hour == 14 && c.minute >= 1) || c.hour == 15
  {
  }
}
