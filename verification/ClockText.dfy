/**
 Wall-clock text. The API takes and gives times of day as HH:MM; inside they are
 durations in nanoseconds.
 */
module ClockText {
  import opened LocalClock
  import opened Outcomes
  import opened Text

  function DigitValue(c: char): (n: int)
    requires IsDigit(c)
    ensures 0 <= n <= 9
  {
    c as int - '0' as int
  }

  function DigitChar(n: int): (c: char)
    requires 0 <= n <= 9
    ensures IsDigit(c) && DigitValue(c) == n
  {
    ('0' as int + n) as char
  }

  function TwoDigits(n: int): string
    requires 0 <= n < 100
  {
    [DigitChar(n / 10), DigitChar(n % 10)]
  }

  // Go's getnum: one or two leading digits, exactly two if `fixed`, and the rest.
  function GetNum(s: string, fixed: bool): Option<(int, string)> {
    if |s| == 0 || !IsDigit(s[0]) then None
    else if |s| == 1 || !IsDigit(s[1]) then
      if fixed then None else Some((DigitValue(s[0]), s[1..]))
    else Some((10 * DigitValue(s[0]) + DigitValue(s[1]), s[2..]))
  }

  // time.Parse with the layout "15:04": the hour may have one digit.
  function ParseTime(s: string): Option<(int, int)> {
    match GetNum(s, false)
    case None => None
    case Some((hour, afterHour)) =>
      if hour >= 24 || |afterHour| == 0 || afterHour[0] != ':' then None
      else
        match GetNum(afterHour[1..], true)
        case None => None
        case Some((minute, rest)) => if minute >= 60 || rest != "" then None else Some((hour, minute))
  }

  function FormatTime(hour: int, minute: int): string
    requires 0 <= hour < 24 && 0 <= minute < 60
  {
    TwoDigits(hour) + ":" + TwoDigits(minute)
  }

  function ParseClock(value: string): Option<int> {
    match ParseTime(value)
    case None => None
    case Some((hour, minute)) =>
      if |value| != 5 || hour < 0 || minute < 0 || FormatTime(hour, minute) != value then None
      else Some(hour * NANOS_PER_HOUR + minute * NANOS_PER_MINUTE)
  }

  // Midnight of some day plus the duration, shown as hour and minute.
  function FormatClock(duration: int): string {
    FormatTime(duration / NANOS_PER_HOUR % 24, duration / NANOS_PER_MINUTE % 60)
  }

  // ----- what is accepted -----

  predicate IsClockText(s: string) {
    && |s| == 5 && s[2] == ':'
    && IsDigit(s[0]) && IsDigit(s[1]) && IsDigit(s[3]) && IsDigit(s[4])
    && 10 * DigitValue(s[0]) + DigitValue(s[1]) <= 23
    && 10 * DigitValue(s[3]) + DigitValue(s[4]) <= 59
  }

  function Minutes(s: string): int
    requires IsClockText(s)
  {
    60 * (10 * DigitValue(s[0]) + DigitValue(s[1])) + 10 * DigitValue(s[3]) + DigitValue(s[4])
  }

  lemma TwoDigitsOf(a: char, b: char)
    requires IsDigit(a) && IsDigit(b)
    ensures TwoDigits(10 * DigitValue(a) + DigitValue(b)) == [a, b]
  {
    var n := 10 * DigitValue(a) + DigitValue(b);
    assert n / 10 == DigitValue(a) && n % 10 == DigitValue(b);
  }

  // Exactly the two-digit texts from 00:00 to 23:59 are accepted, with their
  // meaning in minutes.
  lemma ParsesExactly(s: string)
    ensures ParseClock(s).Some? <==> IsClockText(s)
    ensures IsClockText(s) ==> ParseClock(s) == Some(Minutes(s) * NANOS_PER_MINUTE)
  {
    if IsClockText(s) {
      TwoDigitsOf(s[0], s[1]);
      TwoDigitsOf(s[3], s[4]);
      assert s[2..][1..] == [s[3], s[4]] && [s[3], s[4]][2..] == [];
      assert s == [s[0], s[1]] + ":" + [s[3], s[4]];
    }
  }

  // Of the two checks after time.Parse the length alone would do: the only other
  // texts time.Parse lets in are the four-character ones with a one-digit hour.
  lemma LengthDecides(s: string)
    ensures ParseTime(s).Some? <==> IsClockText(s) || (|s| == 4 && IsClockText("0" + s))
  {
    if |s| == 5 {
      assert |s[2..][1..]| == 2 && s[2..][1..] == [s[3], s[4]];
    } else if |s| == 4 {
      assert s[1..][1..] == [s[2], s[3]];
      assert DigitValue('0') == 0;
    }
  }

  // ----- round trips -----

  // FormatTime writes a clock text with the minutes it was given, and the only one.
  lemma FormatIsText(hour: int, minute: int)
    requires 0 <= hour < 24 && 0 <= minute < 60
    ensures var s := FormatTime(hour, minute); IsClockText(s) && Minutes(s) == 60 * hour + minute
  {
    var s := FormatTime(hour, minute);
    assert s[0] == DigitChar(hour / 10) && s[1] == DigitChar(hour % 10);
    assert s[3] == DigitChar(minute / 10) && s[4] == DigitChar(minute % 10);
  }

  lemma TextIsFormat(s: string)
    requires IsClockText(s)
    ensures 0 <= Minutes(s) < 1440
    ensures s == FormatTime(Minutes(s) / 60, Minutes(s) % 60)
  {
    var hour, minute := 10 * DigitValue(s[0]) + DigitValue(s[1]), 10 * DigitValue(s[3]) + DigitValue(s[4]);
    assert Minutes(s) == 60 * hour + minute;
    assert Minutes(s) / 60 == hour && Minutes(s) % 60 == minute;
    TwoDigitsOf(s[0], s[1]);
    TwoDigitsOf(s[3], s[4]);
  }

  // Formatting sees only the whole minutes of the day.
  lemma FormatSeesMinutes(duration: int)
    ensures var m := duration / NANOS_PER_MINUTE % 1440;
            FormatClock(duration) == FormatTime(m / 60, m % 60)
  {
    hide FormatTime;
    HoursOf(duration);
    HourOfDay(duration / NANOS_PER_MINUTE);
  }

  lemma HoursOf(duration: int)
    ensures duration / NANOS_PER_HOUR == duration / NANOS_PER_MINUTE / 60
  {
  }

  lemma HourOfDay(minutes: int)
    ensures minutes % 1440 / 60 == minutes / 60 % 24 && minutes % 1440 % 60 == minutes % 60
  {
    var day, rest := minutes / 1440, minutes % 1440;
    assert minutes / 60 == 24 * day + rest / 60;
  }

  lemma ParseThenFormat(s: string)
    requires ParseClock(s).Some?
    ensures FormatClock(ParseClock(s).value) == s
  {
    hide FormatClock, FormatTime, ParseClock, ParseTime, Minutes, IsClockText;
    ParsesExactly(s);
    TextIsFormat(s);
    FormatSeesMinutes(ParseClock(s).value);
    WholeMinutes(Minutes(s));
  }

  lemma WholeMinutes(minutes: int)
    ensures minutes * NANOS_PER_MINUTE / NANOS_PER_MINUTE == minutes
  {
  }

  // Whatever the duration, formatting keeps the whole minutes of its day.
  lemma FormatThenParse(duration: int)
    ensures ParseClock(FormatClock(duration))
            == Some(duration / NANOS_PER_MINUTE % 1440 * NANOS_PER_MINUTE)
    ensures ParseClock(FormatClock(duration)) == Some(duration)
            <==> 0 <= duration < NANOS_PER_DAY && duration % NANOS_PER_MINUTE == 0
  {
    var m := duration / NANOS_PER_MINUTE % 1440;
    FormatSeesMinutes(duration);
    FormatIsText(m / 60, m % 60);
    ParsesExactly(FormatClock(duration));
    assert Minutes(FormatClock(duration)) == m;
    KeptExactly(duration);
  }

  lemma KeptExactly(duration: int)
    ensures duration / NANOS_PER_MINUTE % 1440 * NANOS_PER_MINUTE == duration
            <==> 0 <= duration < NANOS_PER_DAY && duration % NANOS_PER_MINUTE == 0
  {
    var minutes := duration / NANOS_PER_MINUTE;
    assert duration == minutes * NANOS_PER_MINUTE + duration % NANOS_PER_MINUTE;
  }

  // Nothing is lost on the way from the request to the database, back to the
  // response, and onto a calendar date.
  lemma StoredAndShown(s: string, date: int, offset: int)
    requires ParseClock(s).Some?
    ensures IsClockText(s)
    ensures var stored := ToPgTime(ParseClock(s).value);
            && stored == Minutes(s) * MICROS_PER_MINUTE
            && 0 <= stored < MICROS_PER_DAY
            && FormatClock(FromPgTime(stored)) == s
            && LocalTimeOnDate(date, FromPgTime(stored), offset)
               == date * NANOS_PER_DAY + Minutes(s) * NANOS_PER_MINUTE - offset * NANOS_PER_MICRO
  {
    ParsesExactly(s);
    ParseThenFormat(s);
    StoredClockExact(ParseClock(s).value);
    LocalTimeOnDateExact(date, ParseClock(s).value, offset);
  }
}
