/**
 * Listening preferences (MP1.py lines 99, 119 and 122): the most listened
 * genre, the total minutes per platform, and the platform used most at the
 * weekend.
 */
module Preferences {
  import opened Wrappers
  import opened Events
  import Tally

  /** The genre column. */
  function Genres(es: seq<Event>): seq<string> {
    seq(|es|, i requires 0 <= i < |es| => es[i].genre)
  }

  /** The plateforme column. */
  function Platforms(es: seq<Event>): seq<string> {
    seq(|es|, i requires 0 <= i < |es| => es[i].platform)
  }

  /** Line 99: value_counts().idxmax() of the genres; missing when there is no event. */
  function TopGenre(es: seq<Event>): Option<string> {
    Tally.IdxMax(Tally.ValueCounts(Genres(es)))
  }

  // ---------------------------------------------------------------------------
  // Line 119: groupby('plateforme')['duree'].sum()
  // ---------------------------------------------------------------------------

  /** Minutes listened on platform p. */
  function Minutes(es: seq<Event>, p: string): int {
    if |es| == 0 then 0
    else Minutes(es[..|es| - 1], p) + (if es[|es| - 1].platform == p then es[|es| - 1].duration else 0)
  }

  /** Minutes listened on any of the platforms in ps. */
  function MinutesIn(es: seq<Event>, ps: seq<string>): int {
    if |es| == 0 then 0
    else MinutesIn(es[..|es| - 1], ps) + (if es[|es| - 1].platform in ps then es[|es| - 1].duration else 0)
  }

  /** Minutes listened in all. */
  function TotalMinutes(es: seq<Event>): int {
    if |es| == 0 then 0 else TotalMinutes(es[..|es| - 1]) + es[|es| - 1].duration
  }

  /** One (platform, minutes) entry per platform that occurs. */
  function PlatformTotals(es: seq<Event>): seq<(string, int)> {
    var ps := Tally.Dedup(Platforms(es));
    seq(|ps|, i requires 0 <= i < |ps| => (ps[i], Minutes(es, ps[i])))
  }

  /** Sum of the minutes of a table of totals. */
  function SumTotals(t: seq<(string, int)>): int {
    if |t| == 0 then 0 else SumTotals(t[..|t| - 1]) + t[|t| - 1].1
  }

  // ---------------------------------------------------------------------------
  // Line 122: platform value_counts().idxmax() among Samedi/Dimanche events
  // ---------------------------------------------------------------------------

  /** df[df['jour_semaine'].isin(['Samedi', 'Dimanche'])] */
  function WeekendEvents(es: seq<Event>): (ws: seq<Event>)
    ensures forall i :: 0 <= i < |ws| ==> ws[i] in es && (ws[i].day == 5 || ws[i].day == 6)
    ensures forall i :: 0 <= i < |es| && (es[i].day == 5 || es[i].day == 6) ==> es[i] in ws
  {
    if |es| == 0 then []
    else
      var p, e := es[..|es| - 1], es[|es| - 1];
      assert es == p + [e];
      WeekendLabelsAreSaturdayAndSunday(e.day);
      WeekendEvents(p) + (if DayLabel(e.day) in WeekendLabels then [e] else [])
  }

  function WeekendPlatform(es: seq<Event>): Option<string> {
    Tally.IdxMax(Tally.ValueCounts(Platforms(WeekendEvents(es))))
  }

  // ---------------------------------------------------------------------------
  // Lemmas
  // ---------------------------------------------------------------------------

  /**
   * The most listened genre: missing exactly when there are no events;
   * otherwise some event's genre, listened to at least as often as the genre
   * of any event.
   */
  lemma TopGenreCorrect(es: seq<Event>)
    ensures TopGenre(es).None? <==> |es| == 0
    ensures TopGenre(es).Some? ==>
      TopGenre(es).value in Genres(es) &&
      forall i :: 0 <= i < |es| ==>
        Tally.Count(Genres(es), es[i].genre) <= Tally.Count(Genres(es), TopGenre(es).value)
  {
    var gs := Genres(es);
    Tally.MostFrequent(gs);
    forall i | 0 <= i < |es| ensures es[i].genre in gs {
      assert gs[i] == es[i].genre;
    }
  }

  /**
   * The weekend selection keeps every Saturday or Sunday event as often as it
   * occurs, and no other event.
   */
  lemma {:induction false} WeekendEventsCount(es: seq<Event>, e: Event)
    ensures Tally.Count(WeekendEvents(es), e) == if e.day == 5 || e.day == 6 then Tally.Count(es, e) else 0
  {
    if |es| > 0 {
      var p, z := es[..|es| - 1], es[|es| - 1];
      WeekendEventsCount(p, e);
      WeekendLabelsAreSaturdayAndSunday(z.day);
      assert Tally.Count(es, e) == Tally.Count(p, e) + (if z == e then 1 else 0);
      if z.day == 5 || z.day == 6 {
        assert WeekendEvents(es) == WeekendEvents(p) + [z];
        Tally.CountSnoc(WeekendEvents(p), z, e);
      } else {
        assert WeekendEvents(es) == WeekendEvents(p) + [];
        assert WeekendEvents(p) + [] == WeekendEvents(p);
      }
    }
  }

  /**
   * The weekend platform: missing exactly when no event falls on a Saturday
   * or Sunday; otherwise the platform of such an event, and no platform
   * occurs more often among those events.
   */
  lemma WeekendPlatformCorrect(es: seq<Event>)
    ensures WeekendPlatform(es).None? <==> forall i :: 0 <= i < |es| ==> es[i].day < 5
    ensures WeekendPlatform(es).Some? ==>
      && (exists i :: 0 <= i < |es| && es[i].day >= 5 && es[i].platform == WeekendPlatform(es).value)
      && forall q :: Tally.Count(Platforms(WeekendEvents(es)), q) <=
                     Tally.Count(Platforms(WeekendEvents(es)), WeekendPlatform(es).value)
  {
    var ws := WeekendEvents(es);
    var ps := Platforms(ws);
    Tally.MostFrequent(ps);
    if WeekendPlatform(es).Some? {
      var p := WeekendPlatform(es).value;
      var k :| 0 <= k < |ps| && ps[k] == p;
      var i :| 0 <= i < |es| && es[i] == ws[k];
      assert es[i].day >= 5 && es[i].platform == p;
    }
  }

  lemma {:induction false} MinutesInAddKey(es: seq<Event>, ps: seq<string>, p: string)
    requires p !in ps
    ensures MinutesIn(es, ps + [p]) == MinutesIn(es, ps) + Minutes(es, p)
  {
    if |es| > 0 {
      MinutesInAddKey(es[..|es| - 1], ps, p);
    }
  }

  lemma {:induction false} MinutesInNoKeys(es: seq<Event>)
    ensures MinutesIn(es, []) == 0
  {
    if |es| > 0 {
      MinutesInNoKeys(es[..|es| - 1]);
    }
  }

  lemma {:induction false} MinutesInCovered(es: seq<Event>, ps: seq<string>)
    requires forall i :: 0 <= i < |es| ==> es[i].platform in ps
    ensures MinutesIn(es, ps) == TotalMinutes(es)
  {
    if |es| > 0 {
      MinutesInCovered(es[..|es| - 1], ps);
    }
  }

  /** The totals over distinct platforms add up to the minutes listened on those platforms. */
  lemma {:induction false} TotalsOver(es: seq<Event>, ps: seq<string>)
    requires Tally.Distinct(ps)
    ensures SumTotals(seq(|ps|, i requires 0 <= i < |ps| => (ps[i], Minutes(es, ps[i])))) == MinutesIn(es, ps)
  {
    if |ps| == 0 {
      MinutesInNoKeys(es);
    } else {
      var qs, q := ps[..|ps| - 1], ps[|ps| - 1];
      assert ps == qs + [q];
      var t := seq(|ps|, i requires 0 <= i < |ps| => (ps[i], Minutes(es, ps[i])));
      assert t[..|qs|] == seq(|qs|, i requires 0 <= i < |qs| => (qs[i], Minutes(es, qs[i])));
      TotalsOver(es, qs);
      MinutesInAddKey(es, qs, q);
    }
  }

  /**
   * The per-platform totals: one entry per platform that occurs, no platform
   * twice, each entry the minutes listened on it, and together all minutes
   * listened.
   */
  lemma PlatformTotalsCorrect(es: seq<Event>)
    ensures Tally.Distinct(Tally.Keys(PlatformTotals(es)))
    ensures forall i :: 0 <= i < |es| ==> es[i].platform in Tally.Keys(PlatformTotals(es))
    ensures forall i :: 0 <= i < |PlatformTotals(es)| ==>
      PlatformTotals(es)[i].0 in Platforms(es) && PlatformTotals(es)[i].1 == Minutes(es, PlatformTotals(es)[i].0)
    ensures SumTotals(PlatformTotals(es)) == TotalMinutes(es)
  {
    var ps := Tally.Dedup(Platforms(es));
    assert Tally.Keys(PlatformTotals(es)) == ps;
    forall i | 0 <= i < |es| ensures es[i].platform in ps {
      assert Platforms(es)[i] == es[i].platform;
    }
    TotalsOver(es, ps);
    MinutesInCovered(es, ps);
  }
}
