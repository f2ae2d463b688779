/**
 * Preparation of the listening log (MP1.py lines 34-45): the time column is
 * parsed and the derived columns are added row by row, then fully identical
 * rows are removed (the first occurrence stays), then every row with a
 * missing cell is dropped. What remains are the sessions the statistics
 * count.
 */
module Cleaning {
  import opened Wrappers
  import opened Events
  import Tally

  /** Why a run stops. */
  datatype Fault =
    | MissingColumn(name: string) // df[name] raises KeyError
    | DoubledColumn(name: string) // df[name] selects several columns
    | MalformedTimeAt(row: nat)   // pd.to_datetime raises on this row's time
    | NoGenre                     // idxmax of an empty genre table
    | NoWeekendEvent              // idxmax of an empty weekend platform table

  /**
   * The table after lines 34-40: every row converted, or the error of the
   * first row whose time does not parse.
   */
  function DeriveAll(raws: seq<RawRow>): (r: Result<seq<Row>, Fault>)
    ensures r.Ok? <==> forall i :: 0 <= i < |raws| ==> !MalformedTime(raws[i])
    ensures r.Ok? ==> |r.value| == |raws| && forall i :: 0 <= i < |raws| ==> Derive(raws[i]) == Some(r.value[i])
    ensures r.Err? ==>
      && r.error.MalformedTimeAt?
      && r.error.row < |raws| && MalformedTime(raws[r.error.row])
      && forall i :: 0 <= i < r.error.row ==> !MalformedTime(raws[i])
  {
    if |raws| == 0 then Ok([])
    else
      var p := raws[..|raws| - 1];
      var last := raws[|raws| - 1];
      match DeriveAll(p)
      case Err(f) => Err(f)
      case Ok(rows) =>
        match Derive(last)
        case None => Err(MalformedTimeAt(|raws| - 1))
        case Some(row) => Ok(rows + [row])
  }

  /** dropna: the complete rows, in order. */
  function DropNA(rows: seq<Row>): (r: seq<Row>)
    ensures |r| <= |rows|
  {
    if |rows| == 0 then []
    else
      var p := DropNA(rows[..|rows| - 1]);
      var last := rows[|rows| - 1];
      if Complete(last) then p + [last] else p
  }

  /** drop_duplicates().dropna() */
  function Cleaned(rows: seq<Row>): seq<Row> {
    DropNA(Tally.Dedup(rows))
  }

  /** The events that complete rows record, in order. */
  function EventsOf(rows: seq<Row>): (es: seq<Event>)
    requires forall i :: 0 <= i < |rows| ==> Complete(rows[i])
  {
    seq(|rows|, i requires 0 <= i < |rows| => ToEvent(rows[i]))
  }

  /** The whole preparation as one function of the loaded rows. */
  function Clean(raws: seq<RawRow>): Result<seq<Event>, Fault> {
    match DeriveAll(raws)
    case Err(f) => Err(f)
    case Ok(rows) =>
      DropNAMembers(Tally.Dedup(rows));
      Ok(EventsOf(Cleaned(rows)))
  }

  /** Total_sessions (line 139): the number of rows left after cleaning. */
  function Sessions(es: seq<Event>): nat {
    |es|
  }

  /** Lines 34-40, row by row: convert the time and add the derived columns. */
  method DeriveRows(raws: seq<RawRow>) returns (r: Result<seq<Row>, Fault>)
    ensures r == DeriveAll(raws)
  {
    var rows: seq<Row> := [];
    var i := 0;
    while i < |raws|
      invariant 0 <= i <= |raws|
      invariant DeriveAll(raws[..i]) == Ok(rows)
    {
      assert raws[..i + 1][..i] == raws[..i];
      var d := Derive(raws[i]);
      if d.None? {
        DeriveAllStopsAtError(raws, i + 1);
        return Err(MalformedTimeAt(i));
      }
      rows := rows + [d.value];
      i := i + 1;
    }
    assert raws[..|raws|] == raws;
    r := Ok(rows);
  }

  /** drop_duplicates, keeping a record of the rows already seen. */
  method DropDuplicates(rows: seq<Row>) returns (unique: seq<Row>)
    ensures unique == Tally.Dedup(rows)
  {
    var seen: set<Row> := {};
    unique := [];
    var i := 0;
    while i < |rows|
      invariant 0 <= i <= |rows|
      invariant unique == Tally.Dedup(rows[..i])
      invariant forall x :: x in seen <==> x in unique
    {
      assert rows[..i + 1] == rows[..i] + [rows[i]];
      Tally.DedupSnoc(rows[..i], rows[i]);
      if rows[i] !in seen {
        unique := unique + [rows[i]];
        seen := seen + {rows[i]};
      }
      i := i + 1;
    }
    assert rows[..|rows|] == rows;
  }

  /** dropna, one row at a time. */
  method DropIncomplete(rows: seq<Row>) returns (kept: seq<Row>)
    ensures kept == DropNA(rows)
  {
    kept := [];
    var i := 0;
    while i < |rows|
      invariant 0 <= i <= |rows|
      invariant kept == DropNA(rows[..i])
    {
      var row := rows[i];
      DropNAStep(rows, i);
      if Complete(row) {
        kept := kept + [row];
      }
      i := i + 1;
    }
    assert rows[..|rows|] == rows;
  }

  /** Lines 34-45 in sequence. */
  method Prepare(raws: seq<RawRow>) returns (r: Result<seq<Event>, Fault>)
    ensures r == Clean(raws)
  {
    var derived := DeriveRows(raws);
    if derived.Err? {
      return Err(derived.error);
    }
    var unique := DropDuplicates(derived.value);
    var kept := DropIncomplete(unique);
    DropNAMembers(unique);
    r := Ok(EventsOf(kept));
  }

  // ---------------------------------------------------------------------------
  // Lemmas
  // ---------------------------------------------------------------------------

  /** Once a prefix fails, the whole table fails with the same error. */
  lemma {:induction false} DeriveAllStopsAtError(raws: seq<RawRow>, n: nat)
    requires n <= |raws|
    requires DeriveAll(raws[..n]).Err?
    ensures DeriveAll(raws) == DeriveAll(raws[..n])
    decreases |raws| - n
  {
    if n < |raws| {
      var p := raws[..|raws| - 1];
      assert p[..n] == raws[..n];
      DeriveAllStopsAtError(p, n);
    } else {
      assert raws[..n] == raws;
    }
  }

  lemma DropNAStep(rows: seq<Row>, i: nat)
    requires i < |rows|
    ensures DropNA(rows[..i + 1]) == if Complete(rows[i]) then DropNA(rows[..i]) + [rows[i]] else DropNA(rows[..i])
  {
    assert rows[..i + 1] == rows[..i] + [rows[i]];
    DropNASnoc(rows[..i], rows[i]);
  }

  /** DropNA on a sequence extended by one row. */
  lemma DropNASnoc(p: seq<Row>, z: Row)
    ensures DropNA(p + [z]) == if Complete(z) then DropNA(p) + [z] else DropNA(p)
  {
    assert (p + [z])[..|p|] == p;
  }

  /** dropna keeps exactly the complete rows. */
  lemma {:induction false} DropNAMembers(rows: seq<Row>)
    ensures forall x :: x in DropNA(rows) <==> x in rows && Complete(x)
    ensures forall i :: 0 <= i < |DropNA(rows)| ==> Complete(DropNA(rows)[i])
  {
    if |rows| > 0 {
      var p, z := rows[..|rows| - 1], rows[|rows| - 1];
      assert rows == p + [z];
      DropNAMembers(p);
      DropNASnoc(p, z);
    }
  }

  /** Whether a row is complete and whether it is a repeat can be decided in either order. */
  lemma {:induction false} DropNACommutesWithDedup(rows: seq<Row>)
    ensures DropNA(Tally.Dedup(rows)) == Tally.Dedup(DropNA(rows))
  {
    if |rows| > 0 {
      var p, z := rows[..|rows| - 1], rows[|rows| - 1];
      assert rows == p + [z];
      DropNACommutesWithDedup(p);
      DropNAMembers(p);
      var dp, np := Tally.Dedup(p), DropNA(p);
      Tally.DedupSnoc(p, z);
      DropNASnoc(p, z);
      if z in p {
        assert DropNA(Tally.Dedup(rows)) == DropNA(dp);
        if Complete(z) {
          assert z in np;
          Tally.DedupSnoc(np, z);
        }
      } else {
        DropNASnoc(dp, z);
        if Complete(z) {
          assert z !in np;
          Tally.DedupSnoc(np, z);
        }
      }
    }
  }

  /** Rows that come in first-occurrence order stay in that order once incomplete ones are dropped. */
  lemma {:induction false} DropNAKeepsOrder(s: seq<Row>, rows: seq<Row>)
    requires forall i :: 0 <= i < |s| ==> s[i] in rows
    requires Tally.InFirstOccurrenceOrder(s, rows)
    ensures Tally.InFirstOccurrenceOrder(DropNA(s), rows)
  {
    if |s| > 0 {
      var p, z := s[..|s| - 1], s[|s| - 1];
      assert s == p + [z];
      Tally.OrderUnsnoc(p, z, rows);
      DropNAKeepsOrder(p, rows);
      DropNASnoc(p, z);
      if Complete(z) {
        var cp := DropNA(p);
        DropNAMembers(p);
        Tally.OrderSnoc(cp, z, rows);
      }
    }
  }

  /**
   * drop_duplicates().dropna(): no two remaining rows are equal, none has a
   * missing cell, every complete input row is still there, nothing else is,
   * the rows keep the order of their first occurrences, and there are no
   * more of them than input rows.
   */
  lemma CleanedCorrect(rows: seq<Row>)
    ensures Tally.Distinct(Cleaned(rows))
    ensures forall x :: x in Cleaned(rows) <==> x in rows && Complete(x)
    ensures Tally.InFirstOccurrenceOrder(Cleaned(rows), rows)
    ensures |Cleaned(rows)| <= |rows|
  {
    var d := Tally.Dedup(rows);
    DropNACommutesWithDedup(rows);
    Tally.DedupKeepsFirstOccurrenceOrder(rows);
    DropNAKeepsOrder(d, rows);
    DropNAMembers(d);
  }

  /**
   * The session count: a run that gets through preparation counts one
   * session per distinct complete row, never more sessions than rows loaded.
   */
  lemma SessionsCorrect(raws: seq<RawRow>)
    requires Clean(raws).Ok?
    ensures DeriveAll(raws).Ok?
    ensures Sessions(Clean(raws).value) == |Cleaned(DeriveAll(raws).value)|
    ensures Sessions(Clean(raws).value) <= |raws|
  {
    CleanedCorrect(DeriveAll(raws).value);
  }
}
