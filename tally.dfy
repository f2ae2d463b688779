/**
 * Generic tallies over sequences of labels, the pieces from which the
 * listening-log statistics are built:
 *  - Count: occurrences of one label;
 *  - Dedup: first occurrences in order (pandas' drop_duplicates, keep='first');
 *  - ValueCounts: one (label, count) entry per distinct label (value_counts);
 *  - Lookup / Reindex: realigning a table on a fixed label order, an absent
 *    label giving a missing entry (Series.reindex);
 *  - IdxMax: the label of a largest count (Series.idxmax), absent on an empty table.
 */
module Tally {
  import opened Wrappers

  /** No element occurs twice. */
  ghost predicate Distinct<T>(s: seq<T>) {
    forall i, j :: 0 <= i < j < |s| ==> s[i] != s[j]
  }

  /** The elements of c occur in s, and in the order of their first occurrences there. */
  ghost predicate InFirstOccurrenceOrder<T>(c: seq<T>, s: seq<T>) {
    forall i, j :: 0 <= i < j < |c| ==> c[i] in s && c[j] in s && FirstIndex(s, c[i]) < FirstIndex(s, c[j])
  }

  /** Number of occurrences of x in s. */
  function Count<T(==)>(s: seq<T>, x: T): (n: nat)
    ensures n <= |s|
    ensures n == 0 <==> x !in s
  {
    if |s| == 0 then 0
    else
      assert s == s[..|s| - 1] + [s[|s| - 1]];
      Count(s[..|s| - 1], x) + (if s[|s| - 1] == x then 1 else 0)
  }

  /** Number of elements of s that occur somewhere in keys. */
  function CountIn<T(==)>(s: seq<T>, keys: seq<T>): nat
  {
    if |s| == 0 then 0
    else CountIn(s[..|s| - 1], keys) + (if s[|s| - 1] in keys then 1 else 0)
  }

  /** Index of the first occurrence of x in s. */
  function FirstIndex<T(==)>(s: seq<T>, x: T): (i: nat)
    requires x in s
    ensures i < |s| && s[i] == x && x !in s[..i]
  {
    if s[0] == x then 0
    else
      assert x in s[1..];
      var j := FirstIndex(s[1..], x);
      assert s[..j + 1] == [s[0]] + s[1..][..j];
      1 + j
  }

  /**
   * The elements of s with every repeat of an earlier element removed, so
   * that each element survives at its first occurrence.
   */
  function Dedup<T(==, !new)>(s: seq<T>): (r: seq<T>)
    ensures |r| <= |s|
    ensures forall x :: x in r <==> x in s
    ensures Distinct(r)
  {
    if |s| == 0 then []
    else
      var p := Dedup(s[..|s| - 1]);
      var last := s[|s| - 1];
      assert s == s[..|s| - 1] + [last];
      if last in p then p else p + [last]
  }

  /** A table of counts: one count per listed key, in the order of keys. */
  function TableOf<T(==)>(s: seq<T>, keys: seq<T>): (t: seq<(T, nat)>)
  {
    seq(|keys|, i requires 0 <= i < |keys| => (keys[i], Count(s, keys[i])))
  }

  /** value_counts: one entry per distinct element, carrying its count. */
  function ValueCounts<T(==, !new)>(s: seq<T>): seq<(T, nat)>
  {
    TableOf(s, Dedup(s))
  }

  /** The keys of a table, in table order. */
  function Keys<K, V>(t: seq<(K, V)>): (ks: seq<K>)
  {
    seq(|t|, i requires 0 <= i < |t| => t[i].0)
  }

  /** Sum of the counts of a table. */
  function Total<K>(t: seq<(K, nat)>): nat
  {
    if |t| == 0 then 0 else Total(t[..|t| - 1]) + t[|t| - 1].1
  }

  /** Sum of the counts that are present in a reindexed table (NaN entries skipped). */
  function SumPresent<K>(t: seq<(K, Option<nat>)>): nat
  {
    if |t| == 0 then 0
    else SumPresent(t[..|t| - 1]) + (match t[|t| - 1].1 case Some(n) => n case None => 0)
  }

  /** The value of the first entry whose key is k, if any. */
  function Lookup<K(==), V>(t: seq<(K, V)>, k: K): (r: Option<V>)
    ensures r.Some? <==> k in Keys(t)
  {
    if |t| == 0 then None
    else
      assert Keys(t) == [t[0].0] + Keys(t[1..]);
      if t[0].0 == k then Some(t[0].1) else Lookup(t[1..], k)
  }

  /** Series.reindex: one entry per key of order, missing when the table lacks it. */
  function Reindex<K(==), V>(t: seq<(K, V)>, order: seq<K>): seq<(K, Option<V>)>
  {
    seq(|order|, i requires 0 <= i < |order| => (order[i], Lookup(t, order[i])))
  }

  /** Position of a largest count; the earliest one when several tie. */
  function ArgMaxIndex<K>(t: seq<(K, nat)>): (i: nat)
    requires |t| > 0
    ensures i < |t|
    ensures forall j :: 0 <= j < |t| ==> t[j].1 <= t[i].1
  {
    if |t| == 1 then 0
    else
      var i := ArgMaxIndex(t[..|t| - 1]);
      if t[|t| - 1].1 > t[i].1 then |t| - 1 else i
  }

  /** Series.idxmax: the key of a largest count; absent (pandas raises) on an empty table. */
  function IdxMax<K>(t: seq<(K, nat)>): (r: Option<K>)
    ensures r.None? <==> |t| == 0
    ensures r.Some? ==> exists i :: 0 <= i < |t| && t[i].0 == r.value && forall j :: 0 <= j < |t| ==> t[j].1 <= t[i].1
  {
    if |t| == 0 then None
    else
      var i := ArgMaxIndex(t);
      Some(t[i].0)
  }

  // ---------------------------------------------------------------------------
  // Lemmas
  // ---------------------------------------------------------------------------

  lemma CountSnoc<T>(p: seq<T>, y: T, x: T)
    ensures Count(p + [y], x) == Count(p, x) + (if y == x then 1 else 0)
  {
    assert (p + [y])[..|p|] == p;
  }

  /** An entry of a table of counts is a listed key with its count. */
  lemma InTableOf<T>(s: seq<T>, keys: seq<T>, e: (T, nat))
    ensures e in TableOf(s, keys) <==> e.0 in keys && e.1 == Count(s, e.0)
  {
    if e.0 in keys && e.1 == Count(s, e.0) {
      var i :| 0 <= i < |keys| && keys[i] == e.0;
      assert TableOf(s, keys)[i] == e;
    }
  }

  /** Dedup on a sequence extended by one element. */
  lemma DedupSnoc<T(!new)>(p: seq<T>, y: T)
    ensures Dedup(p + [y]) == if y in p then Dedup(p) else Dedup(p) + [y]
  {
    assert (p + [y])[..|p|] == p;
  }

  lemma FirstIndexUnique<T>(s: seq<T>, x: T, k: nat)
    requires k < |s| && s[k] == x && x !in s[..k]
    ensures FirstIndex(s, x) == k
  {
    var i := FirstIndex(s, x);
    assert forall j :: 0 <= j < k ==> s[..k][j] == s[j];
    assert forall j :: 0 <= j < i ==> s[..i][j] == s[j];
  }

  /** Appending an element leaves the first occurrences of earlier elements where they were. */
  lemma FirstIndexSnoc<T>(p: seq<T>, y: T, x: T)
    requires x in p
    ensures FirstIndex(p + [y], x) == FirstIndex(p, x)
  {
    var i := FirstIndex(p, x);
    assert (p + [y])[..i] == p[..i];
    FirstIndexUnique(p + [y], x, i);
  }

  /** A sequence in first-occurrence order, split before its last element. */
  lemma OrderUnsnoc<T>(c: seq<T>, z: T, s: seq<T>)
    requires InFirstOccurrenceOrder(c + [z], s)
    requires z in s
    ensures InFirstOccurrenceOrder(c, s)
    ensures forall x :: x in c ==> x in s && FirstIndex(s, x) < FirstIndex(s, z)
  {
    var c' := c + [z];
    forall i, j | 0 <= i < j < |c|
      ensures c[i] in s && c[j] in s && FirstIndex(s, c[i]) < FirstIndex(s, c[j])
    {
      assert c'[i] == c[i] && c'[j] == c[j];
    }
    forall x | x in c
      ensures x in s && FirstIndex(s, x) < FirstIndex(s, z)
    {
      var k :| 0 <= k < |c| && c[k] == x;
      assert c'[k] == x && c'[|c|] == z;
    }
  }

  /** Appending an element whose first occurrence comes after those of the others keeps the order. */
  lemma OrderSnoc<T>(c: seq<T>, z: T, s: seq<T>)
    requires InFirstOccurrenceOrder(c, s)
    requires z in s
    requires forall x :: x in c ==> x in s && FirstIndex(s, x) < FirstIndex(s, z)
    ensures InFirstOccurrenceOrder(c + [z], s)
  {
    var c' := c + [z];
    forall i, j | 0 <= i < j < |c'|
      ensures c'[i] in s && c'[j] in s && FirstIndex(s, c'[i]) < FirstIndex(s, c'[j])
    {
      assert c'[i] == c[i];
      if j < |c| {
        assert c'[j] == c[j];
      }
    }
  }

  /**
   * Dedup keeps first-occurrence order: an element that comes earlier in the
   * result first occurs earlier in the input.
   */
  lemma {:induction false} DedupKeepsFirstOccurrenceOrder<T(!new)>(s: seq<T>)
    ensures InFirstOccurrenceOrder(Dedup(s), s)
  {
    if |s| > 0 {
      var p, y := s[..|s| - 1], s[|s| - 1];
      assert s == p + [y];
      DedupKeepsFirstOccurrenceOrder(p);
      var dp := Dedup(p);
      forall x | x in dp ensures FirstIndex(s, x) == FirstIndex(p, x) {
        FirstIndexSnoc(p, y, x);
      }
      if y !in dp {
        assert y !in p;
        assert p == s[..|p|];
        FirstIndexUnique(s, y, |p|);
        assert Dedup(s) == dp + [y];
        forall i, j | 0 <= i < j < |Dedup(s)|
          ensures Dedup(s)[i] in s && Dedup(s)[j] in s && FirstIndex(s, Dedup(s)[i]) < FirstIndex(s, Dedup(s)[j])
        {
          if j == |dp| {
            assert Dedup(s)[i] == dp[i];
          } else {
            assert Dedup(s)[i] == dp[i] && Dedup(s)[j] == dp[j];
          }
        }
      }
    }
  }

  /** Adding a key that was not listed adds exactly that key's count. */
  lemma {:induction false} CountInAddKey<T>(s: seq<T>, keys: seq<T>, k: T)
    requires k !in keys
    ensures CountIn(s, keys + [k]) == CountIn(s, keys) + Count(s, k)
  {
    if |s| > 0 {
      CountInAddKey(s[..|s| - 1], keys, k);
    }
  }

  lemma {:induction false} CountInNoKeys<T>(s: seq<T>)
    ensures CountIn(s, []) == 0
  {
    if |s| > 0 {
      CountInNoKeys(s[..|s| - 1]);
    }
  }

  /** When every element is among the keys, each element is counted. */
  lemma {:induction false} CountInCovered<T>(s: seq<T>, keys: seq<T>)
    requires forall i :: 0 <= i < |s| ==> s[i] in keys
    ensures CountIn(s, keys) == |s|
  {
    if |s| > 0 {
      CountInCovered(s[..|s| - 1], keys);
    }
  }

  /** The counts of a table over distinct keys add up to the elements having one of those keys. */
  lemma {:induction false} TableTotal<T>(s: seq<T>, keys: seq<T>)
    requires Distinct(keys)
    ensures Total(TableOf(s, keys)) == CountIn(s, keys)
  {
    if |keys| == 0 {
      CountInNoKeys(s);
    } else {
      var ks, k := keys[..|keys| - 1], keys[|keys| - 1];
      assert keys == ks + [k];
      assert TableOf(s, keys)[..|ks|] == TableOf(s, ks);
      TableTotal(s, ks);
      CountInAddKey(s, ks, k);
    }
  }

  /** Counts over distinct keys that cover every element add up to the number of elements. */
  lemma CountsSumToLength<T>(s: seq<T>, keys: seq<T>)
    requires Distinct(keys)
    requires forall i :: 0 <= i < |s| ==> s[i] in keys
    ensures Total(TableOf(s, keys)) == |s|
  {
    TableTotal(s, keys);
    CountInCovered(s, keys);
  }

  /**
   * value_counts: its keys are exactly the distinct elements, each entry carries
   * that element's positive count, and the counts add up to the number of elements.
   */
  lemma ValueCountsCorrect<T(!new)>(s: seq<T>)
    ensures Distinct(Keys(ValueCounts(s)))
    ensures forall x :: x in Keys(ValueCounts(s)) <==> x in s
    ensures forall i :: 0 <= i < |ValueCounts(s)| ==> ValueCounts(s)[i].1 == Count(s, ValueCounts(s)[i].0) > 0
    ensures Total(ValueCounts(s)) == |s|
  {
    var d := Dedup(s);
    assert Keys(ValueCounts(s)) == d;
    CountsSumToLength(s, d);
  }

  /** Looking a key up in a table of counts gives its count when listed, and nothing otherwise. */
  lemma {:induction false} LookupTableOf<T>(s: seq<T>, keys: seq<T>, k: T)
    ensures Lookup(TableOf(s, keys), k) == if k in keys then Some(Count(s, k)) else None
  {
    if |keys| > 0 {
      assert TableOf(s, keys)[1..] == TableOf(s, keys[1..]);
      assert keys == [keys[0]] + keys[1..];
      LookupTableOf(s, keys[1..], k);
    }
  }

  /** Reindexing value_counts: a key that occurs gets its count, one that does not is missing. */
  lemma ReindexValueCounts<T(!new)>(s: seq<T>, order: seq<T>)
    ensures |Reindex(ValueCounts(s), order)| == |order|
    ensures forall i :: 0 <= i < |order| ==>
      Reindex(ValueCounts(s), order)[i] ==
        (order[i], if order[i] in s then Some(Count(s, order[i])) else None)
  {
    forall i | 0 <= i < |order| {
      LookupTableOf(s, Dedup(s), order[i]);
    }
  }

  /** The counts present in a reindexed value_counts add up to those of the table over the new order. */
  lemma {:induction false} SumPresentIsTotal<T(!new)>(s: seq<T>, order: seq<T>)
    ensures SumPresent(Reindex(ValueCounts(s), order)) == Total(TableOf(s, order))
  {
    if |order| > 0 {
      var o := order[..|order| - 1];
      var r := Reindex(ValueCounts(s), order);
      assert r[..|o|] == Reindex(ValueCounts(s), o);
      assert TableOf(s, order)[..|o|] == TableOf(s, o);
      SumPresentIsTotal(s, o);
      ReindexValueCounts(s, order);
    }
  }

  /**
   * Reindexing value_counts on a complete, repetition-free order loses no element:
   * the counts present add up to the number of elements.
   */
  lemma SumPresentReindex<T(!new)>(s: seq<T>, order: seq<T>)
    requires Distinct(order)
    requires forall i :: 0 <= i < |s| ==> s[i] in order
    ensures SumPresent(Reindex(ValueCounts(s), order)) == |s|
  {
    SumPresentIsTotal(s, order);
    CountsSumToLength(s, order);
  }

  /**
   * value_counts().idxmax(): fails exactly on an empty input; otherwise it picks
   * an element that occurs and that no other element outnumbers.
   */
  lemma MostFrequent<T(!new)>(s: seq<T>)
    ensures IdxMax(ValueCounts(s)).None? <==> |s| == 0
    ensures IdxMax(ValueCounts(s)).Some? ==>
      IdxMax(ValueCounts(s)).value in s &&
      forall x :: x in s ==> Count(s, x) <= Count(s, IdxMax(ValueCounts(s)).value)
  {
    var t := ValueCounts(s);
    ValueCountsCorrect(s);
    if |s| == 0 {
      assert |t| == 0;
    } else {
      assert s[0] in Dedup(s);
      var i := ArgMaxIndex(t);
      forall x | x in s ensures Count(s, x) <= Count(s, t[i].0) {
        var j :| 0 <= j < |Dedup(s)| && Dedup(s)[j] == x;
        assert t[j].1 <= t[i].1;
      }
    }
  }

  /** An element is counted at least twice exactly when it sits at two different positions. */
  lemma {:induction false} CountAtLeastTwo<T>(s: seq<T>, x: T)
    ensures Count(s, x) >= 2 <==> exists i, j :: 0 <= i < j < |s| && s[i] == x && s[j] == x
  {
    if |s| > 0 {
      var p, z := s[..|s| - 1], s[|s| - 1];
      CountAtLeastTwo(p, x);
      if Count(s, x) >= 2 {
        if Count(p, x) >= 2 {
          var i, j :| 0 <= i < j < |p| && p[i] == x && p[j] == x;
          assert s[i] == x && s[j] == x;
        } else {
          var k :| 0 <= k < |p| && p[k] == x;
          assert s[k] == x && s[|s| - 1] == x;
        }
      }
      if exists i, j :: 0 <= i < j < |s| && s[i] == x && s[j] == x {
        var i, j :| 0 <= i < j < |s| && s[i] == x && s[j] == x;
        assert p[i] == x;
        if j < |p| {
          assert p[j] == x;
        }
      }
    }
  }

  /** A repetition-free sequence has as many elements as its set. */
  lemma {:induction false} DistinctCard<T>(s: seq<T>)
    requires Distinct(s)
    ensures |set x | x in s| == |s|
  {
    if |s| > 0 {
      var p := s[..|s| - 1];
      DistinctCard(p);
      assert s == p + [s[|s| - 1]];
      assert (set x | x in s) == (set x | x in p) + {s[|s| - 1]};
    }
  }

  /** Two repetition-free sequences with the same elements have the same length. */
  lemma SameElementsSameLength<T>(a: seq<T>, b: seq<T>)
    requires Distinct(a) && Distinct(b)
    requires forall x :: x in a <==> x in b
    ensures |a| == |b|
  {
    assert (set x | x in a) == (set x | x in b);
    DistinctCard(a);
    DistinctCard(b);
  }
}
