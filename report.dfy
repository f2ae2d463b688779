/**
 * One run of the script (MP1.py lines 28-140): the prepared events, the
 * tables behind the four charts, and the single row of results.
 */
module Report {
  import opened Wrappers
  import opened Events
  import opened Cleaning
  import Tally
  import Temporal
  import Preferences
  import Headers

  /** The results row (lines 135-140), without the mean duration. */
  datatype Results = Results(topGenre: string, weekendPlatform: string, sessions: nat)

  /** Everything a run computes. */
  datatype Outputs = Outputs(
    hourly: seq<(Hour, nat)>,
    daily: seq<(string, Option<nat>)>,
    heatmap: Temporal.Heatmap,
    minutesPerPlatform: seq<(string, int)>,
    results: Results)

  /** The columns read by name at lines 34 and 35, before any time is parsed. */
  const ConvertedColumns: seq<string> := ["date", "heure_ecoute"]
  /** The column read at line 99. */
  const GenreColumns: seq<string> := ["genre"]
  /** The columns read at lines 103 and 119, before the weekend selection. */
  const PlatformColumns: seq<string> := ["duree", "plateforme"]
  /** Every column the script reads by name. */
  const RequiredColumns: seq<string> := ConvertedColumns + GenreColumns + PlatformColumns

  /** The failure of one lookup df[name], if it fails. */
  function LookupFault(hs: seq<string>, name: string): Option<Fault> {
    match Headers.Select(hs, name)
    case Column(_) => None
    case Missing => Some(MissingColumn(name))
    case Doubled => Some(DoubledColumn(name))
  }

  /** The failure of the first lookup df[name] among names that fails, if any. */
  function ColumnFault(hs: seq<string>, names: seq<string>): (r: Option<Fault>)
    ensures r.None? <==> forall i :: 0 <= i < |names| ==> LookupFault(hs, names[i]).None?
  {
    if |names| == 0 then None
    else if LookupFault(hs, names[0]).Some? then LookupFault(hs, names[0])
    else ColumnFault(hs, names[1..])
  }

  /** A failing lookup list fails at its first failing lookup. */
  lemma {:induction false} ColumnFaultIsFirst(hs: seq<string>, names: seq<string>)
    ensures ColumnFault(hs, names).Some? ==> exists i ::
      && 0 <= i < |names|
      && ColumnFault(hs, names) == LookupFault(hs, names[i])
      && forall k :: 0 <= k < i ==> LookupFault(hs, names[k]).None?
  {
    if ColumnFault(hs, names).None? {
    } else if LookupFault(hs, names[0]).Some? {
      assert ColumnFault(hs, names) == LookupFault(hs, names[0]);
    } else {
      assert ColumnFault(hs, names) == ColumnFault(hs, names[1..]);
      ColumnFaultIsFirst(hs, names[1..]);
      var j :| 0 <= j < |names[1..]| && ColumnFault(hs, names[1..]) == LookupFault(hs, names[1..][j]) &&
        forall k :: 0 <= k < j ==> LookupFault(hs, names[1..][k]).None?;
      assert names[1..][j] == names[j + 1];
      forall k | 0 <= k < j + 1 ensures LookupFault(hs, names[k]).None? {
        if k > 0 {
          assert names[k] == names[1..][k - 1];
        }
      }
    }
  }

  /**
   * The statistics of prepared events, for a table with header row hs; fails
   * where the script's column lookups or idxmax calls raise.
   */
  function Statistics(hs: seq<string>, es: seq<Event>): Result<Outputs, Fault> {
    match ColumnFault(hs, GenreColumns)
    case Some(f) => Err(f)
    case None =>
      match Preferences.TopGenre(es)
      case None => Err(NoGenre)
      case Some(genre) =>
        match ColumnFault(hs, PlatformColumns)
        case Some(f) => Err(f)
        case None =>
          match Preferences.WeekendPlatform(es)
          case None => Err(NoWeekendEvent)
          case Some(platform) =>
            Ok(Outputs(Temporal.HourTable(es), Temporal.DayTable(es), Temporal.HeatmapData(es),
                       Preferences.PlatformTotals(es), Results(genre, platform, Sessions(es))))
  }

  /** A whole run as a function of the header row and the loaded rows. */
  function Run(hs: seq<string>, raws: seq<RawRow>): Result<Outputs, Fault> {
    match ColumnFault(hs, ConvertedColumns)
    case Some(f) => Err(f)
    case None =>
      match Clean(raws)
      case Err(f) => Err(f)
      case Ok(es) => Statistics(hs, es)
  }

  /** A whole run: look up the date and time columns, prepare the log, then compute its statistics. */
  method Analyse(hs: seq<string>, raws: seq<RawRow>) returns (r: Result<Outputs, Fault>)
    ensures r == Run(hs, raws)
  {
    var fault := ColumnFault(hs, ConvertedColumns);
    if fault.Some? {
      return Err(fault.value);
    }
    var prepared := Prepare(raws);
    match prepared
    case Err(f) => r := Err(f);
    case Ok(es) => r := Statistics(hs, es);
  }

  /** A list of lookups joined from two succeeds exactly when both parts do. */
  lemma ColumnFaultConcat(hs: seq<string>, a: seq<string>, b: seq<string>)
    ensures ColumnFault(hs, a + b).None? <==> ColumnFault(hs, a).None? && ColumnFault(hs, b).None?
  {
    var c := a + b;
    assert forall i :: 0 <= i < |a| ==> c[i] == a[i];
    assert forall i :: 0 <= i < |b| ==> c[|a| + i] == b[i];
  }

  /** The header row fails exactly when one of the columns the script reads by name is missing or doubled. */
  lemma RequiredColumnsFault(hs: seq<string>)
    ensures ColumnFault(hs, RequiredColumns).None? <==>
      && ColumnFault(hs, ConvertedColumns).None?
      && ColumnFault(hs, GenreColumns).None?
      && ColumnFault(hs, PlatformColumns).None?
  {
    ColumnFaultConcat(hs, ConvertedColumns, GenreColumns);
    ColumnFaultConcat(hs, ConvertedColumns + GenreColumns, PlatformColumns);
  }

  /**
   * A run fails exactly when a column the script reads by name is missing or
   * doubled, a time does not parse, or no prepared event falls on a weekend
   * (an empty log included).
   */
  lemma RunFailsExactlyWhen(hs: seq<string>, raws: seq<RawRow>)
    ensures Run(hs, raws).Err? <==>
      || ColumnFault(hs, RequiredColumns).Some?
      || Clean(raws).Err?
      || forall i :: 0 <= i < |Clean(raws).value| ==> Clean(raws).value[i].day < 5
  {
    RequiredColumnsFault(hs);
    if Clean(raws).Ok? {
      var es := Clean(raws).value;
      Preferences.TopGenreCorrect(es);
      Preferences.WeekendPlatformCorrect(es);
    }
  }

  /**
   * Statistics that succeed count one session per event; the hourly and
   * weekday tables each account for every event; the genre and weekend
   * platform are maximal choices.
   */
  lemma StatisticsCorrect(hs: seq<string>, es: seq<Event>)
    ensures Statistics(hs, es).Ok? ==>
      && var o := Statistics(hs, es).value;
      && o.hourly == Temporal.HourTable(es)
      && o.daily == Temporal.DayTable(es)
      && o.heatmap == Temporal.HeatmapData(es)
      && o.minutesPerPlatform == Preferences.PlatformTotals(es)
      && o.results.sessions == |es|
      && Tally.Total(o.hourly) == |es|
      && Tally.SumPresent(o.daily) == |es|
      && (forall i :: 0 <= i < |es| ==>
            Tally.Count(Preferences.Genres(es), es[i].genre) <=
            Tally.Count(Preferences.Genres(es), o.results.topGenre))
      && (forall q :: Tally.Count(Preferences.Platforms(Preferences.WeekendEvents(es)), q) <=
                      Tally.Count(Preferences.Platforms(Preferences.WeekendEvents(es)), o.results.weekendPlatform))
  {
    if Statistics(hs, es).Ok? {
      var genre, platform := Preferences.TopGenre(es).value, Preferences.WeekendPlatform(es).value;
      assert Statistics(hs, es).value ==
        Outputs(Temporal.HourTable(es), Temporal.DayTable(es), Temporal.HeatmapData(es),
                Preferences.PlatformTotals(es), Results(genre, platform, Sessions(es)));
      Preferences.TopGenreCorrect(es);
      Preferences.WeekendPlatformCorrect(es);
      Temporal.HourTableCorrect(es);
      Temporal.DayTableCorrect(es);
    }
  }

  /**
   * A run that succeeds counts one session per prepared event; its hourly
   * and weekday tables each account for every session; its genre and weekend
   * platform are maximal choices.
   */
  lemma RunCorrect(hs: seq<string>, raws: seq<RawRow>)
    ensures Run(hs, raws).Ok? ==>
      && Clean(raws).Ok?
      && var es, o := Clean(raws).value, Run(hs, raws).value;
      && o.hourly == Temporal.HourTable(es)
      && o.daily == Temporal.DayTable(es)
      && o.heatmap == Temporal.HeatmapData(es)
      && o.minutesPerPlatform == Preferences.PlatformTotals(es)
      && o.results.sessions == |es|
      && Tally.Total(o.hourly) == |es|
      && Tally.SumPresent(o.daily) == |es|
      && (forall i :: 0 <= i < |es| ==>
            Tally.Count(Preferences.Genres(es), es[i].genre) <=
            Tally.Count(Preferences.Genres(es), o.results.topGenre))
      && (forall q :: Tally.Count(Preferences.Platforms(Preferences.WeekendEvents(es)), q) <=
                      Tally.Count(Preferences.Platforms(Preferences.WeekendEvents(es)), o.results.weekendPlatform))
  {
    if Run(hs, raws).Ok? {
      var es := Clean(raws).value;
      assert Run(hs, raws) == Statistics(hs, es);
      StatisticsCorrect(hs, es);
    }
  }
}
