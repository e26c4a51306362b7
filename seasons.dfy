/**
 * The summer and winter subsets of the average-temperature column that Searching_Agent.py
 * hands to the t-test. A parsed date is represented by its calendar month only, and a
 * blank date cell, which `pd.to_datetime` turns into NaT, by `None`.
 */
module Seasons {
  import opened Wrappers
  import opened Frame
  import Seqs

  type Month = m: int | 1 <= m <= 12 witness 1

  /** `month >= 6 and month <= 8`; the month of NaT is NaN, for which both are false. */
  predicate InSummer(d: Option<Month>) {
    d.Some? && d.value >= 6 && d.value <= 8
  }

  /** `month <= 2 or month == 12`; false for NaT as well. */
  predicate InWinter(d: Option<Month>) {
    d.Some? && (d.value <= 2 || d.value == 12)
  }

  /** `(df.index.month >= 6) & (df.index.month <= 8)` */
  function SummerMask(months: seq<Option<Month>>): (mask: seq<bool>)
    ensures |mask| == |months|
  {
    seq(|months|, i requires 0 <= i < |months| => InSummer(months[i]))
  }

  /** `(df.index.month <= 2) | (df.index.month == 12)` */
  function WinterMask(months: seq<Option<Month>>): (mask: seq<bool>)
    ensures |mask| == |months|
  {
    seq(|months|, i requires 0 <= i < |months| => InWinter(months[i]))
  }

  /** `df.loc[summer mask, 'tavg']` */
  function Summer(tavg: seq<Cell>, months: seq<Option<Month>>): (r: seq<Cell>)
    requires |tavg| == |months|
    ensures |r| <= |tavg|
    ensures (forall i :: 0 <= i < |months| ==> !InSummer(months[i])) ==> r == []
  {
    Seqs.SelectUniform(tavg, SummerMask(months));
    Seqs.Select(tavg, SummerMask(months))
  }

  /** `df.loc[winter mask, 'tavg']` */
  function Winter(tavg: seq<Cell>, months: seq<Option<Month>>): (r: seq<Cell>)
    requires |tavg| == |months|
    ensures |r| <= |tavg|
    ensures (forall i :: 0 <= i < |months| ==> !InWinter(months[i])) ==> r == []
  {
    Seqs.SelectUniform(tavg, WinterMask(months));
    Seqs.Select(tavg, WinterMask(months))
  }

  /** The summer subset holds exactly the temperatures of the rows dated June, July or
      August, in row order. */
  lemma SummerRows(tavg: seq<Cell>, months: seq<Option<Month>>)
    requires |tavg| == |months|
    ensures var rows := Seqs.TrueIndices(SummerMask(months));
            && |Summer(tavg, months)| == |rows|
            && (forall k :: 0 <= k < |rows| ==> rows[k] < |tavg| && Summer(tavg, months)[k] == tavg[rows[k]])
            && (forall k, l :: 0 <= k < l < |rows| ==> rows[k] < rows[l])
            && (forall i :: 0 <= i < |months| ==> (i in rows <==> months[i].Some? && months[i].value in {6, 7, 8}))
  {
    Seqs.SelectAtTrueIndices(tavg, SummerMask(months));
    var rows := Seqs.TrueIndices(SummerMask(months));
    forall i | 0 <= i < |months| && i in rows ensures months[i].Some? && months[i].value in {6, 7, 8} {
      var k :| 0 <= k < |rows| && rows[k] == i;
      assert SummerMask(months)[rows[k]];
    }
  }

  /** The winter subset holds exactly the temperatures of the rows dated December,
      January or February, in row order. */
  lemma WinterRows(tavg: seq<Cell>, months: seq<Option<Month>>)
    requires |tavg| == |months|
    ensures var rows := Seqs.TrueIndices(WinterMask(months));
            && |Winter(tavg, months)| == |rows|
            && (forall k :: 0 <= k < |rows| ==> rows[k] < |tavg| && Winter(tavg, months)[k] == tavg[rows[k]])
            && (forall k, l :: 0 <= k < l < |rows| ==> rows[k] < rows[l])
            && (forall i :: 0 <= i < |months| ==> (i in rows <==> months[i].Some? && months[i].value in {12, 1, 2}))
  {
    Seqs.SelectAtTrueIndices(tavg, WinterMask(months));
    var rows := Seqs.TrueIndices(WinterMask(months));
    forall i | 0 <= i < |months| && i in rows ensures months[i].Some? && months[i].value in {12, 1, 2} {
      var k :| 0 <= k < |rows| && rows[k] == i;
      assert WinterMask(months)[rows[k]];
    }
  }

  /** No row is in both subsets; rows of March to May and September to November, and
      rows whose date is NaT, are in neither. */
  lemma SeasonsDisjoint(months: seq<Option<Month>>)
    ensures forall i :: 0 <= i < |months| ==> !(SummerMask(months)[i] && WinterMask(months)[i])
    ensures forall i :: 0 <= i < |months| && (months[i].None? || months[i].value in {3, 4, 5, 9, 10, 11}) ==>
              !SummerMask(months)[i] && !WinterMask(months)[i]
  {
  }

  /** The two subsets together never hold more rows than the table, and they hold all of
      them exactly when every row is dated in summer or winter. */
  lemma {:induction false} SeasonSizes(tavg: seq<Cell>, months: seq<Option<Month>>)
    requires |tavg| == |months|
    ensures |Summer(tavg, months)| + |Winter(tavg, months)| <= |months|
    ensures |Summer(tavg, months)| + |Winter(tavg, months)| == |months|
            <==> forall i :: 0 <= i < |months| ==> months[i].Some? && months[i].value in {6, 7, 8, 12, 1, 2}
  {
    if months != [] {
      var n := |months| - 1;
      SeasonSizes(tavg[..n], months[..n]);
      assert SummerMask(months)[..n] == SummerMask(months[..n]);
      assert WinterMask(months)[..n] == WinterMask(months[..n]);
      assert forall i :: 0 <= i < n ==> months[..n][i] == months[i];
    }
  }
}
