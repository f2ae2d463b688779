/**
 * Records of the listening log and the columns the script derives from them
 * (MP1.py lines 34-40): the listening time parsed with the format "%H:%M",
 * the French weekday label of the date, and the hour bucket of the time.
 */
module Events {
  import opened Wrappers
  import Tally

  type Hour = h: int | 0 <= h < 24
  type Minute = m: int | 0 <= m < 60

  /** Weekday index, Monday = 0 … Sunday = 6 (pandas' dayofweek). */
  type Weekday = d: int | 0 <= d < 7

  /** A time of day, the value of `.dt.time` for a parsed "%H:%M" string. */
  datatype Clock = Clock(hour: Hour, minute: Minute)

  /** The fixed display order of the weekday labels (jours_order). */
  const JoursOrder: seq<string> := ["Lundi", "Mardi", "Mercredi", "Jeudi", "Vendredi", "Samedi", "Dimanche"]

  /** The labels the weekend selection keeps. */
  const WeekendLabels: seq<string> := ["Samedi", "Dimanche"]

  /** The French name day_name gives a weekday. */
  function DayLabel(d: Weekday): string {
    JoursOrder[d]
  }

  /**
   * Weekday of a date given as a day number counted from 1970-01-01 (a
   * Thursday), pandas' own epoch. Dafny's % is Euclidean; with the positive
   * divisor 7 it agrees with the floor modulus pandas uses for dates before
   * the epoch.
   */
  function WeekdayOf(epochDay: int): Weekday {
    (epochDay + 3) % 7
  }

  // ---------------------------------------------------------------------------
  // Parsing "%H:%M"
  // ---------------------------------------------------------------------------

  predicate IsDigit(c: char) {
    '0' <= c <= '9'
  }

  /** Decimal value of a string of digits. */
  function Decimal(s: string): (n: nat)
    requires forall i :: 0 <= i < |s| ==> IsDigit(s[i])
    ensures |s| == 1 ==> n <= 9
  {
    if |s| == 0 then 0 else 10 * Decimal(s[..|s| - 1]) + DigitValue(s[|s| - 1])
  }

  function DigitValue(c: char): (n: nat)
    requires IsDigit(c)
    ensures n <= 9
  {
    c as int - '0' as int
  }

  /**
   * What strptime's %H (max 23) and %M (max 59) accept: one digit, or two
   * digits whose value does not exceed the maximum.
   */
  predicate IsField(s: string, max: nat) {
    || (|s| == 1 && IsDigit(s[0]))
    || (|s| == 2 && IsDigit(s[0]) && IsDigit(s[1]) && Decimal(s) <= max)
  }

  /**
   * pd.to_datetime(…, format='%H:%M'): the text before the first ':' is the
   * hour, the rest the minute, and the whole text must be consumed. None
   * stands for the parse error that aborts the script.
   */
  function ParseClock(s: string): (r: Option<Clock>)
    ensures r.Some? ==>
      ':' in s &&
      var k := Tally.FirstIndex(s, ':');
      && IsField(s[..k], 23) && IsField(s[k + 1..], 59)
      && r.value.hour == Decimal(s[..k]) && r.value.minute == Decimal(s[k + 1..])
  {
    if ':' !in s then None
    else
      var k := Tally.FirstIndex(s, ':');
      var hh, mm := s[..k], s[k + 1..];
      if IsField(hh, 23) && IsField(mm, 59) then Some(Clock(Decimal(hh), Decimal(mm)))
      else None
  }

  // ---------------------------------------------------------------------------
  // Rows
  // ---------------------------------------------------------------------------

  /**
   * One row of the log as loaded, after header normalisation: the date
   * (already a day number), the listening time as text, genre, duration in
   * minutes, platform, and the values of any further columns. None is a
   * missing cell.
   */
  datatype RawRow = RawRow(
    date: Option<int>,
    time: Option<string>,
    genre: Option<string>,
    duration: Option<int>,
    platform: Option<string>,
    extra: seq<Option<string>>)

  /**
   * The same row once the time is parsed and the weekday (standing for its
   * label jour_semaine) and hour bucket (heure_arrondie) are added.
   */
  datatype Row = Row(
    date: Option<int>,
    time: Option<Clock>,
    genre: Option<string>,
    duration: Option<int>,
    platform: Option<string>,
    extra: seq<Option<string>>,
    day: Option<Weekday>,
    hour: Option<Hour>)

  /** A row with no missing field: one listening event as the statistics see it. */
  datatype Event = Event(day: Weekday, hour: Hour, genre: string, duration: int, platform: string)

  /** No cell of the row is missing (what dropna keeps). */
  predicate Complete(r: Row) {
    && r.date.Some? && r.time.Some? && r.genre.Some? && r.duration.Some? && r.platform.Some?
    && r.day.Some? && r.hour.Some?
    && AllPresent(r.extra)
  }

  /** None of the cells is missing. */
  predicate AllPresent(cells: seq<Option<string>>) {
    |cells| == 0 || (cells[0].Some? && AllPresent(cells[1..]))
  }

  /** The time cell, the error when it is present and does not parse. */
  predicate MalformedTime(raw: RawRow) {
    raw.time.Some? && ParseClock(raw.time.value).None?
  }

  /**
   * Lines 34-40 on one row: the time is parsed (a missing time stays
   * missing), and the weekday and hour are derived from the date and time.
   */
  function Derive(raw: RawRow): (r: Option<Row>)
    ensures r.None? <==> MalformedTime(raw)
    ensures r.Some? ==>
      && r.value.day.Some? == raw.date.Some?
      && (raw.date.Some? ==> r.value.day.value == WeekdayOf(raw.date.value))
      && r.value.hour.Some? == raw.time.Some?
      && (raw.time.Some? ==> r.value.time == ParseClock(raw.time.value))
      && (raw.time.Some? ==> r.value.time.Some? && r.value.hour.value == r.value.time.value.hour)
      && (raw.time.None? ==> r.value.time.None?)
      && r.value.date == raw.date && r.value.genre == raw.genre && r.value.duration == raw.duration
      && r.value.platform == raw.platform && r.value.extra == raw.extra
  {
    var time: Option<Option<Clock>> :=
      match raw.time
      case None => Some(None)
      case Some(s) => (match ParseClock(s) case None => None case Some(c) => Some(Some(c)));
    match time
    case None => None
    case Some(t) =>
      var day := match raw.date case None => None case Some(n) => Some(WeekdayOf(n));
      var hour := match t case None => None case Some(c) => Some(c.hour);
      Some(Row(raw.date, t, raw.genre, raw.duration, raw.platform, raw.extra, day, hour))
  }

  /** The event a complete row records. */
  function ToEvent(r: Row): Event
    requires Complete(r)
  {
    Event(r.day.value, r.hour.value, r.genre.value, r.duration.value, r.platform.value)
  }

  // ---------------------------------------------------------------------------
  // Lemmas
  // ---------------------------------------------------------------------------

  /** The seven labels are different from one another. */
  lemma JoursOrderDistinct()
    ensures |JoursOrder| == 7
    ensures Tally.Distinct(JoursOrder)
  {
    forall i, j | 0 <= i < j < 7 ensures JoursOrder[i] != JoursOrder[j] {
      assert JoursOrder[i][0] != JoursOrder[j][0] || JoursOrder[i][1] != JoursOrder[j][1];
    }
  }

  /** Distinct weekdays carry distinct labels. */
  lemma DayLabelInjective(a: Weekday, b: Weekday)
    ensures DayLabel(a) == DayLabel(b) <==> a == b
  {
    JoursOrderDistinct();
  }

  /** The weekend filter on labels keeps exactly Saturday and Sunday. */
  lemma WeekendLabelsAreSaturdayAndSunday(d: Weekday)
    ensures DayLabel(d) in WeekendLabels <==> d == 5 || d == 6
  {
    JoursOrderDistinct();
    assert WeekendLabels == JoursOrder[5..];
  }

  /** Any "H:M" text strptime accepts parses to the hour and minute it spells. */
  lemma ParseClockAccepts(hh: string, mm: string)
    requires IsField(hh, 23) && IsField(mm, 59)
    ensures ParseClock(hh + ":" + mm) == Some(Clock(Decimal(hh), Decimal(mm)))
  {
    var s := hh + ":" + mm;
    assert s[..|hh|] == hh && s[|hh|] == ':' && s[|hh| + 1..] == mm;
    Tally.FirstIndexUnique(s, ':', |hh|);
  }

  /**
   * The hour bucket of a row whose time reads "HH:MM" is present, lies in
   * 0..23, and is the value of the HH field.
   */
  lemma HourBucketIsLeadingField(raw: RawRow, hh: string, mm: string)
    requires raw.time == Some(hh + ":" + mm)
    requires IsField(hh, 23) && IsField(mm, 59)
    ensures Derive(raw).Some?
    ensures Derive(raw).value.hour == Some(Decimal(hh))
    ensures 0 <= Decimal(hh) < 24
  {
    ParseClockAccepts(hh, mm);
  }
}
