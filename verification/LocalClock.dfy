/**
 Local wall-clock arithmetic.

 An Instant counts microseconds of UTC since 1970-01-01, the resolution of
 PostgreSQL's timestamptz. A timezone is a fixed offset in microseconds. A local
 date is the number of local midnights since 1970-01-01.
 */
module LocalClock {

  type Instant = int

  const MICROS_PER_MINUTE := 60_000_000
  const MICROS_PER_DAY := 86_400_000_000
  const NANOS_PER_MICRO := 1_000
  const NANOS_PER_SECOND := 1_000_000_000
  const NANOS_PER_MINUTE := 60_000_000_000
  const NANOS_PER_HOUR := 3_600_000_000_000
  const NANOS_PER_DAY := 86_400_000_000_000

  // ----- the SQL side: t AT TIME ZONE zone, ::date, ::time, EXTRACT(ISODOW) -----

  function LocalDate(t: Instant, offset: int): int {
    (t + offset) / MICROS_PER_DAY
  }

  function LocalTime(t: Instant, offset: int): int {
    (t + offset) % MICROS_PER_DAY
  }

  // Monday is 1 and Sunday is 7; 1970-01-01 was a Thursday.
  function IsoDayOfWeek(date: int): int {
    (date + 3) % 7 + 1
  }

  // One weekly wall-clock interval: a technician shift or an opening-hours row.
  datatype Window = Window(dayOfWeek: int, startsAt: int, endsAt: int)

  predicate ValidWindow(w: Window) {
    && 1 <= w.dayOfWeek <= 7
    && 0 <= w.startsAt < w.endsAt < MICROS_PER_DAY
  }

  // The booking test: weekday, one local date, both time-of-day bounds.
  predicate InWindow(w: Window, startsAt: Instant, endsAt: Instant, offset: int) {
    && w.dayOfWeek == IsoDayOfWeek(LocalDate(startsAt, offset))
    && LocalDate(startsAt, offset) == LocalDate(endsAt, offset)
    && LocalTime(startsAt, offset) >= w.startsAt
    && LocalTime(endsAt, offset) <= w.endsAt
  }

  // Half-open overlap, as in `a.starts_at < $ends AND a.ends_at > $starts`.
  predicate Overlaps(s1: Instant, e1: Instant, s2: Instant, e2: Instant) {
    s1 < e2 && e1 > s2
  }

  predicate WindowsOverlap(v: Window, w: Window) {
    v.dayOfWeek == w.dayOfWeek && Overlaps(v.startsAt, v.endsAt, w.startsAt, w.endsAt)
  }

  // ----- the Go side: time.Weekday, time.Duration, time.Date -----

  // Go numbers Sunday 0.
  function GoWeekday(date: int): int {
    (date + 4) % 7
  }

  function ShiftWeekday(date: int): int {
    if GoWeekday(date) == 0 then 7 else GoWeekday(date)
  }

  // Go's / and % truncate toward zero.
  function Quo(a: int, b: int): int
    requires b > 0
  {
    if a >= 0 then a / b else -((-a) / b)
  }

  function Rem(a: int, b: int): int
    requires b > 0
  {
    a - b * Quo(a, b)
  }

  // pgtype.Time keeps whole microseconds of a Go duration in nanoseconds.
  function ToPgTime(duration: int): int {
    Quo(duration, NANOS_PER_MICRO)
  }

  function FromPgTime(micros: int): int {
    micros * NANOS_PER_MICRO
  }

  // time.Date in a zone `offset` microseconds ahead of UTC, as UTC nanoseconds.
  function GoDate(date: int, hours: int, minutes: int, seconds: int, nanos: int, offset: int): int {
    date * NANOS_PER_DAY
    + hours * NANOS_PER_HOUR + minutes * NANOS_PER_MINUTE + seconds * NANOS_PER_SECOND + nanos
    - offset * NANOS_PER_MICRO
  }

  function LocalTimeOnDate(date: int, clock: int, offset: int): int {
    var hours := Quo(clock, NANOS_PER_HOUR);
    var minutes := Quo(Rem(clock, NANOS_PER_HOUR), NANOS_PER_MINUTE);
    var seconds := Quo(Rem(clock, NANOS_PER_MINUTE), NANOS_PER_SECOND);
    var nanos := Rem(clock, NANOS_PER_SECOND);
    GoDate(date, hours, minutes, seconds, nanos, offset)
  }

  // The booking [startsAt, endsAt] lies inside the interval that the calendar of
  // `date` shows for the shift.
  predicate InCalendarShift(w: Window, date: int, startsAt: Instant, endsAt: Instant, offset: int) {
    && w.dayOfWeek == ShiftWeekday(date)
    && LocalTimeOnDate(date, FromPgTime(w.startsAt), offset) <= startsAt * NANOS_PER_MICRO
    && endsAt * NANOS_PER_MICRO <= LocalTimeOnDate(date, FromPgTime(w.endsAt), offset)
  }

  // The calendar of `date` fetches what overlaps that local day.
  predicate OnCalendarDay(date: int, startsAt: Instant, endsAt: Instant, offset: int) {
    Overlaps(startsAt, endsAt, date * MICROS_PER_DAY - offset, (date + 1) * MICROS_PER_DAY - offset)
  }

  // ----- lemmas -----

  lemma WeekdaysAgree(date: int)
    ensures ShiftWeekday(date) == IsoDayOfWeek(date)
  {
    assert (date + 4) % 7 == ((date + 3) % 7 + 1) % 7;
  }

  // Thursday 1 January 1970 fixes all weekdays.
  lemma WeekdaysFollow(date: int)
    ensures IsoDayOfWeek(0) == 4
    ensures IsoDayOfWeek(date + 1) == if IsoDayOfWeek(date) == 7 then 1 else IsoDayOfWeek(date) + 1
  {
  }

  lemma Divides(c: int, b: int)
    requires b > 0
    ensures c == b * (c / b) + c % b && 0 <= c % b < b
  {
  }

  lemma RemOf(a: int, b: int)
    requires b > 0
    ensures Rem(a, b) == if a >= 0 then a % b else -((-a) % b)
  {
    Divides(if a >= 0 then a else -a, b);
    var q := (if a >= 0 then a else -a) / b;
    assert b * -q == -(b * q);
  }

  // Truncating division: the remainder is smaller than the divisor and never has the
  // opposite sign of the dividend.
  lemma GoDivision(a: int, b: int)
    requires b > 0
    ensures a == b * Quo(a, b) + Rem(a, b) && -b < Rem(a, b) < b
    ensures (Rem(a, b) > 0 ==> a > 0) && (Rem(a, b) < 0 ==> a < 0)
  {
    assert a == b * Quo(a, b) + Rem(a, b) by {
      hide Quo;
    }
    RemOf(a, b);
    hide Quo, Rem;
    var r := (if a >= 0 then a else -a) % b;
    RemBounds(if a >= 0 then a else -a, b, r);
  }

  lemma RemBounds(c: int, b: int, r: int)
    requires c >= 0 && b > 0 && r == c % b
    ensures 0 <= r < b && (c == 0 ==> r == 0)
  {
  }

  // Splitting off a smaller unit from a remainder loses nothing, for either sign.
  lemma SplitMinutes(clock: int)
    ensures Quo(Rem(clock, NANOS_PER_HOUR), NANOS_PER_MINUTE) * NANOS_PER_MINUTE + Rem(clock, NANOS_PER_MINUTE)
            == Rem(clock, NANOS_PER_HOUR)
  {
    var c := if clock >= 0 then clock else -clock;
    assert c / NANOS_PER_MINUTE == 60 * (c / NANOS_PER_HOUR) + (c - NANOS_PER_HOUR * (c / NANOS_PER_HOUR)) / NANOS_PER_MINUTE;
  }

  lemma SplitSeconds(clock: int)
    ensures Quo(Rem(clock, NANOS_PER_MINUTE), NANOS_PER_SECOND) * NANOS_PER_SECOND + Rem(clock, NANOS_PER_SECOND)
            == Rem(clock, NANOS_PER_MINUTE)
  {
    var c := if clock >= 0 then clock else -clock;
    assert c / NANOS_PER_SECOND == 60 * (c / NANOS_PER_MINUTE) + (c - NANOS_PER_MINUTE * (c / NANOS_PER_MINUTE)) / NANOS_PER_SECOND;
  }

  lemma SplitHours(clock: int)
    ensures Quo(clock, NANOS_PER_HOUR) * NANOS_PER_HOUR + Rem(clock, NANOS_PER_HOUR) == clock
  {
  }

  // Splitting a clock into hours, minutes, seconds and nanoseconds loses nothing.
  lemma LocalTimeOnDateExact(date: int, clock: int, offset: int)
    ensures LocalTimeOnDate(date, clock, offset) == date * NANOS_PER_DAY + clock - offset * NANOS_PER_MICRO
  {
    SplitHours(clock);
    SplitMinutes(clock);
    SplitSeconds(clock);
  }

  lemma StoredClockExact(duration: int)
    ensures FromPgTime(ToPgTime(duration)) == duration <==> duration % NANOS_PER_MICRO == 0
  {
  }

  lemma CalendarShiftBounds(w: Window, date: int, startsAt: Instant, endsAt: Instant, offset: int)
    ensures InCalendarShift(w, date, startsAt, endsAt, offset) <==>
      && w.dayOfWeek == IsoDayOfWeek(date)
      && date * MICROS_PER_DAY + w.startsAt - offset <= startsAt
      && endsAt <= date * MICROS_PER_DAY + w.endsAt - offset
  {
    WeekdaysAgree(date);
    LocalTimeOnDateExact(date, FromPgTime(w.startsAt), offset);
    LocalTimeOnDateExact(date, FromPgTime(w.endsAt), offset);
  }

  // The booking's local-clock test accepts exactly the intervals that lie inside
  // a shift interval the calendar shows, and the only such date is the local date
  // of the start.
  lemma BookingTestIsCalendarShift(w: Window, startsAt: Instant, endsAt: Instant, offset: int)
    requires ValidWindow(w) && startsAt <= endsAt
    ensures InWindow(w, startsAt, endsAt, offset) <==>
            exists date :: InCalendarShift(w, date, startsAt, endsAt, offset)
    ensures forall date :: InCalendarShift(w, date, startsAt, endsAt, offset) ==> date == LocalDate(startsAt, offset)
  {
    forall date | InCalendarShift(w, date, startsAt, endsAt, offset)
      ensures date == LocalDate(startsAt, offset) && InWindow(w, startsAt, endsAt, offset)
    {
      CalendarShiftBounds(w, date, startsAt, endsAt, offset);
    }
    if InWindow(w, startsAt, endsAt, offset) {
      CalendarShiftBounds(w, LocalDate(startsAt, offset), startsAt, endsAt, offset);
    }
  }

  // A non-empty interval is fetched for exactly the dates on which it has an instant.
  lemma FetchedWhenOnDate(date: int, startsAt: Instant, endsAt: Instant, offset: int)
    requires startsAt < endsAt
    ensures OnCalendarDay(date, startsAt, endsAt, offset)
            <==> exists t: Instant :: startsAt <= t < endsAt && LocalDate(t, offset) == date
  {
    var midnight := date * MICROS_PER_DAY - offset;
    if OnCalendarDay(date, startsAt, endsAt, offset) {
      var t := if startsAt < midnight then midnight else startsAt;
      assert LocalDate(t, offset) == date;
    }
  }

  // A non-empty interval inside one local date shows up on that date's calendar
  // and on no other.
  lemma OnOneCalendarDay(startsAt: Instant, endsAt: Instant, offset: int, date: int)
    requires startsAt < endsAt && LocalDate(startsAt, offset) == LocalDate(endsAt, offset)
    ensures OnCalendarDay(date, startsAt, endsAt, offset) <==> date == LocalDate(startsAt, offset)
  {
  }

  // Two windows that both hold a non-empty booking overlap.
  lemma SharedBookingOverlaps(v: Window, w: Window, startsAt: Instant, endsAt: Instant, offset: int)
    requires startsAt < endsAt
    requires InWindow(v, startsAt, endsAt, offset) && InWindow(w, startsAt, endsAt, offset)
    ensures WindowsOverlap(v, w)
  {
  }
}
