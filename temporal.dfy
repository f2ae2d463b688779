/**
 * Temporal analysis of the cleaned events (MP1.py lines 64-82): listens per
 * hour of the day, per weekday in the fixed order of jours_order, and per
 * (weekday, hour) pair as the table behind the heatmap.
 */
module Temporal {
  import opened Wrappers
  import opened Events
  import Tally

  /** The heure_arrondie column. */
  function Hours(es: seq<Event>): seq<Hour> {
    seq(|es|, i requires 0 <= i < |es| => es[i].hour)
  }

  /** The weekday of every event. */
  function Days(es: seq<Event>): seq<Weekday> {
    seq(|es|, i requires 0 <= i < |es| => es[i].day)
  }

  /** The jour_semaine column: the French label of every event's weekday. */
  function DayLabels(es: seq<Event>): seq<string> {
    seq(|es|, i requires 0 <= i < |es| => DayLabel(es[i].day))
  }

  /** Number of events on weekday d. */
  function DayCount(es: seq<Event>, d: Weekday): nat {
    Tally.Count(Days(es), d)
  }

  /** Number of events on weekday d in hour h. */
  function PairCount(es: seq<Event>, d: Weekday, h: Hour): nat {
    if |es| == 0 then 0
    else
      var e := es[|es| - 1];
      PairCount(es[..|es| - 1], d, h) + (if e.day == d && e.hour == h then 1 else 0)
  }

  /** The hours below n that occur in hs, ascending. */
  function PresentBelow(hs: seq<Hour>, n: nat): (r: seq<Hour>)
    requires n <= 24
    ensures forall h: Hour :: h in r <==> h in hs && h < n
    ensures forall i :: 0 <= i < |r| ==> r[i] < n
    ensures forall i, j :: 0 <= i < j < |r| ==> r[i] < r[j]
  {
    if n == 0 then []
    else PresentBelow(hs, n - 1) + (if n - 1 in hs then [n - 1] else [])
  }

  /** The hours at which some event happens, ascending. */
  function PresentHours(es: seq<Event>): seq<Hour> {
    PresentBelow(Hours(es), 24)
  }

  // ---------------------------------------------------------------------------
  // Line 64: value_counts().sort_index() of the hour column
  // ---------------------------------------------------------------------------

  function HourTable(es: seq<Event>): seq<(Hour, nat)> {
    Tally.TableOf(Hours(es), PresentHours(es))
  }

  // ---------------------------------------------------------------------------
  // Lines 73-75: value_counts().reindex(jours_order) of the weekday labels
  // ---------------------------------------------------------------------------

  function DayTable(es: seq<Event>): seq<(string, Option<nat>)> {
    Tally.Reindex(Tally.ValueCounts(DayLabels(es)), JoursOrder)
  }

  // ---------------------------------------------------------------------------
  // Line 82: pivot_table(index=jour_semaine, columns=heure_arrondie,
  //          aggfunc='size', fill_value=0).reindex(jours_order)
  // ---------------------------------------------------------------------------

  /** The heatmap table: hour columns, and one row of (hour, cell) per label. */
  datatype Heatmap = Heatmap(columns: seq<Hour>, rows: seq<(string, seq<(Hour, Option<nat>)>)>)

  /** Hours of the events whose weekday label is name, in event order. */
  function HoursOn(es: seq<Event>, name: string): (r: seq<Hour>)
    ensures forall i :: 0 <= i < |r| ==> r[i] in Hours(es)
  {
    if |es| == 0 then []
    else
      var p := es[..|es| - 1];
      var e := es[|es| - 1];
      assert Hours(es) == Hours(p) + [e.hour];
      HoursOn(p, name) + (if DayLabel(e.day) == name then [e.hour] else [])
  }

  /** Pivot rows for the given labels: the size of every (label, column) group, 0 for an empty one. */
  function PivotOver(es: seq<Event>, cols: seq<Hour>, labels: seq<string>): seq<(string, seq<(Hour, nat)>)> {
    seq(|labels|, i requires 0 <= i < |labels| => (labels[i], Tally.TableOf(HoursOn(es, labels[i]), cols)))
  }

  /** The pivot table, one row per label that occurs. */
  function Pivot(es: seq<Event>, cols: seq<Hour>): seq<(string, seq<(Hour, nat)>)> {
    PivotOver(es, cols, Tally.Dedup(DayLabels(es)))
  }

  /** A pivot row as a heatmap row: every cell present. */
  function Fill(t: seq<(Hour, nat)>): seq<(Hour, Option<nat>)> {
    seq(|t|, i requires 0 <= i < |t| => (t[i].0, Some(t[i].1)))
  }

  /** The row reindex adds for a label the pivot lacks: every cell missing. */
  function Blank(cols: seq<Hour>): seq<(Hour, Option<nat>)> {
    seq(|cols|, i requires 0 <= i < |cols| => (cols[i], None))
  }

  function HeatmapData(es: seq<Event>): Heatmap {
    var cols := PresentHours(es);
    var r := Tally.Reindex(Pivot(es, cols), JoursOrder);
    Heatmap(cols, seq(|r|, i requires 0 <= i < |r| =>
      (r[i].0, match r[i].1 case Some(t) => Fill(t) case None => Blank(cols))))
  }

  // ---------------------------------------------------------------------------
  // Lemmas
  // ---------------------------------------------------------------------------

  lemma ColumnsSnoc(es: seq<Event>)
    requires |es| > 0
    ensures Hours(es) == Hours(es[..|es| - 1]) + [es[|es| - 1].hour]
    ensures Days(es) == Days(es[..|es| - 1]) + [es[|es| - 1].day]
    ensures DayLabels(es) == DayLabels(es[..|es| - 1]) + [DayLabel(es[|es| - 1].day)]
  {
  }

  /** The hour columns: ascending, and exactly the hours at which something was listened to. */
  lemma PresentHoursCorrect(es: seq<Event>)
    ensures forall i, j :: 0 <= i < j < |PresentHours(es)| ==> PresentHours(es)[i] < PresentHours(es)[j]
    ensures forall h: Hour :: h in PresentHours(es) <==> h in Hours(es)
    ensures Tally.Distinct(PresentHours(es))
  {
    var hs := Hours(es);
    forall h: Hour | h in hs ensures h in PresentHours(es) {
      var i :| 0 <= i < |hs| && hs[i] == h;
    }
  }

  /**
   * The hourly table: keys strictly ascending, exactly the hours present, each
   * count positive and equal to the number of events in that hour, and the
   * counts add up to the number of events.
   */
  lemma HourTableCorrect(es: seq<Event>)
    ensures forall i, j :: 0 <= i < j < |HourTable(es)| ==> HourTable(es)[i].0 < HourTable(es)[j].0
    ensures forall h: Hour :: h in Tally.Keys(HourTable(es)) <==> h in Hours(es)
    ensures forall i :: 0 <= i < |HourTable(es)| ==>
      HourTable(es)[i].1 == Tally.Count(Hours(es), HourTable(es)[i].0) > 0
    ensures Tally.Total(HourTable(es)) == |es|
  {
    PresentHoursCorrect(es);
    var hs := Hours(es);
    assert Tally.Keys(HourTable(es)) == PresentHours(es);
    Tally.CountsSumToLength(hs, PresentHours(es));
  }

  /**
   * Sorting value_counts by key gives the hourly table: the same entries
   * (and as many), ordered by hour.
   */
  lemma HourTableIsSortedValueCounts(es: seq<Event>)
    ensures |HourTable(es)| == |Tally.ValueCounts(Hours(es))|
    ensures forall p :: p in HourTable(es) <==> p in Tally.ValueCounts(Hours(es))
  {
    var hs := Hours(es);
    var ph, d := PresentHours(es), Tally.Dedup(hs);
    PresentHoursCorrect(es);
    Tally.SameElementsSameLength(ph, d);
    forall p ensures p in HourTable(es) <==> p in Tally.ValueCounts(hs) {
      Tally.InTableOf(hs, ph, p);
      Tally.InTableOf(hs, d, p);
    }
  }

  /** Counting labels is counting weekdays: the labels tell the days apart. */
  lemma {:induction false} CountDayLabels(es: seq<Event>, d: Weekday)
    ensures Tally.Count(DayLabels(es), DayLabel(d)) == DayCount(es, d)
  {
    if |es| > 0 {
      var p, e := es[..|es| - 1], es[|es| - 1];
      ColumnsSnoc(es);
      CountDayLabels(p, d);
      Tally.CountSnoc(DayLabels(p), DayLabel(e.day), DayLabel(d));
      Tally.CountSnoc(Days(p), e.day, d);
      DayLabelInjective(e.day, d);
    }
  }

  /**
   * The weekday table: exactly seven entries in the order Lundi … Dimanche; a
   * weekday with events carries their number, one without is missing; the
   * counts present add up to the number of events.
   */
  lemma DayTableCorrect(es: seq<Event>)
    ensures |DayTable(es)| == 7
    ensures forall d: Weekday :: DayTable(es)[d].0 == JoursOrder[d]
    ensures forall d: Weekday :: DayTable(es)[d].1 == if DayCount(es, d) > 0 then Some(DayCount(es, d)) else None
    ensures Tally.SumPresent(DayTable(es)) == |es|
  {
    var ls := DayLabels(es);
    JoursOrderDistinct();
    Tally.ReindexValueCounts(ls, JoursOrder);
    forall d: Weekday ensures DayTable(es)[d].1 == if DayCount(es, d) > 0 then Some(DayCount(es, d)) else None {
      CountDayLabels(es, d);
    }
    forall i | 0 <= i < |ls| ensures ls[i] in JoursOrder {
      assert ls[i] == JoursOrder[es[i].day];
    }
    Tally.SumPresentReindex(ls, JoursOrder);
  }

  /** Looking a label up in the pivot rows. */
  lemma {:induction false} LookupPivotOver(es: seq<Event>, cols: seq<Hour>, labels: seq<string>, l: string)
    ensures Tally.Lookup(PivotOver(es, cols, labels), l) ==
      if l in labels then Some(Tally.TableOf(HoursOn(es, l), cols)) else None
  {
    if |labels| > 0 {
      assert PivotOver(es, cols, labels)[1..] == PivotOver(es, cols, labels[1..]);
      assert labels == [labels[0]] + labels[1..];
      LookupPivotOver(es, cols, labels[1..], l);
    }
  }

  /** The pivot cell of (label of d, h) is the number of events on d in hour h. */
  lemma {:induction false} HoursOnCount(es: seq<Event>, d: Weekday, h: Hour)
    ensures Tally.Count(HoursOn(es, DayLabel(d)), h) == PairCount(es, d, h)
  {
    if |es| > 0 {
      var p, e := es[..|es| - 1], es[|es| - 1];
      HoursOnCount(p, d, h);
      DayLabelInjective(e.day, d);
      if e.day == d {
        assert HoursOn(es, DayLabel(d)) == HoursOn(p, DayLabel(d)) + [e.hour];
        Tally.CountSnoc(HoursOn(p, DayLabel(d)), e.hour, h);
      } else {
        assert HoursOn(es, DayLabel(d)) == HoursOn(p, DayLabel(d));
      }
    }
  }

  /** A weekday's pivot row holds one hour per event of that weekday. */
  lemma {:induction false} HoursOnLength(es: seq<Event>, d: Weekday)
    ensures |HoursOn(es, DayLabel(d))| == DayCount(es, d)
  {
    if |es| > 0 {
      var p, e := es[..|es| - 1], es[|es| - 1];
      ColumnsSnoc(es);
      HoursOnLength(p, d);
      DayLabelInjective(e.day, d);
      Tally.CountSnoc(Days(p), e.day, d);
    }
  }

  lemma {:induction false} FillSum(t: seq<(Hour, nat)>)
    ensures Tally.SumPresent(Fill(t)) == Tally.Total(t)
  {
    if |t| > 0 {
      var p := t[..|t| - 1];
      assert Fill(t)[..|p|] == Fill(p);
      FillSum(p);
    }
  }

  /** The heatmap row of weekday d, as the pivot and reindex leave it. */
  lemma HeatmapRow(es: seq<Event>, d: Weekday)
    ensures |HeatmapData(es).rows| == 7
    ensures HeatmapData(es).rows[d] ==
      (DayLabel(d),
       if DayCount(es, d) > 0 then Fill(Tally.TableOf(HoursOn(es, DayLabel(d)), PresentHours(es)))
       else Blank(PresentHours(es)))
  {
    var cols := PresentHours(es);
    var ls := DayLabels(es);
    LookupPivotOver(es, cols, Tally.Dedup(ls), DayLabel(d));
    CountDayLabels(es, d);
  }

  /**
   * The heatmap: columns are the hours present, ascending; rows follow
   * jours_order; a weekday with events has, in every column, the number of
   * its events in that hour (0 when there are none); a weekday without
   * events has every cell missing.
   */
  lemma HeatmapCorrect(es: seq<Event>)
    ensures HeatmapData(es).columns == PresentHours(es)
    ensures |HeatmapData(es).rows| == 7
    ensures forall d: Weekday :: HeatmapData(es).rows[d].0 == JoursOrder[d]
    ensures forall d: Weekday :: |HeatmapData(es).rows[d].1| == |HeatmapData(es).columns|
    ensures forall d: Weekday, c :: 0 <= c < |HeatmapData(es).columns| ==>
      HeatmapData(es).rows[d].1[c] ==
        (HeatmapData(es).columns[c],
         if DayCount(es, d) > 0 then Some(PairCount(es, d, HeatmapData(es).columns[c])) else None)
  {
    var cols := PresentHours(es);
    forall d: Weekday, c | 0 <= c < |cols|
      ensures |HeatmapData(es).rows[d].1| == |cols|
      ensures HeatmapData(es).rows[d].1[c] ==
        (cols[c], if DayCount(es, d) > 0 then Some(PairCount(es, d, cols[c])) else None)
    {
      HeatmapRow(es, d);
      HoursOnCount(es, d, cols[c]);
    }
    forall d: Weekday ensures |HeatmapData(es).rows[d].1| == |cols| {
      HeatmapRow(es, d);
    }
  }

  /** The cells of a weekday with events add up to that weekday's entry in the weekday table. */
  lemma HeatmapRowSums(es: seq<Event>, d: Weekday)
    requires DayCount(es, d) > 0
    ensures Tally.SumPresent(HeatmapData(es).rows[d].1) == DayCount(es, d)
    ensures DayTable(es)[d].1 == Some(Tally.SumPresent(HeatmapData(es).rows[d].1))
  {
    var cols := PresentHours(es);
    var hs := HoursOn(es, DayLabel(d));
    HeatmapRow(es, d);
    FillSum(Tally.TableOf(hs, cols));
    PresentHoursCorrect(es);
    Tally.CountsSumToLength(hs, cols);
    HoursOnLength(es, d);
    DayTableCorrect(es);
  }
}
