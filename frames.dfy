/**
 * The one-row append helper: a frame is its sequence of index labels beside its rows,
 * and `pandas_append_series_to_end_of_frame` concatenates a one-row frame labelled `len(df)`.
 */
module Frames {

  datatype Frame<R> = Frame(index: seq<int>, rows: seq<R>)

  predicate WellFormed<R>(df: Frame<R>) {
    |df.index| == |df.rows|
  }

  /** The labels a fresh frame gets: 0, 1, ..., n - 1. */
  function RangeIndex(n: nat): (r: seq<int>)
    ensures |r| == n && forall i :: 0 <= i < n ==> r[i] == i
  {
    seq(n, i => i)
  }

  function AppendSeriesToEnd<R>(df: Frame<R>, se: R): (r: Frame<R>)
    requires WellFormed(df)
    ensures WellFormed(r) && |r.rows| == |df.rows| + 1
    ensures r.rows[..|df.rows|] == df.rows && r.index[..|df.rows|] == df.index
    ensures r.rows[|df.rows|] == se && r.index[|df.rows|] == |df.rows|
  {
    Frame(df.index + [|df.rows|], df.rows + [se])
  }

  /** Appending to a range-indexed frame keeps it range-indexed. */
  lemma AppendKeepsRangeIndex<R>(df: Frame<R>, se: R)
    requires WellFormed(df) && df.index == RangeIndex(|df.rows|)
    ensures AppendSeriesToEnd(df, se).index == RangeIndex(|df.rows| + 1)
  {
  }

  /** Appending the rows one by one, as the import code does, starting from an empty frame. */
  function AppendAll<R>(df: Frame<R>, rows: seq<R>): (r: Frame<R>)
    requires WellFormed(df)
    ensures WellFormed(r)
    decreases |rows|
  {
    if rows == [] then df else AppendAll(AppendSeriesToEnd(df, rows[0]), rows[1..])
  }

  /** Appending rows one at a time to an empty frame yields exactly those rows, labelled 0..k-1. */
  lemma {:induction false} AppendAllFromRange<R>(df: Frame<R>, rows: seq<R>)
    requires WellFormed(df) && df.index == RangeIndex(|df.rows|)
    ensures AppendAll(df, rows) == Frame(RangeIndex(|df.rows| + |rows|), df.rows + rows)
    decreases |rows|
  {
    if rows != [] {
      var next := AppendSeriesToEnd(df, rows[0]);
      AppendKeepsRangeIndex(df, rows[0]);
      AppendAllFromRange(next, rows[1..]);
      assert next.rows + rows[1..] == df.rows + rows;
    }
  }
}
