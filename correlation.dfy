/** The correlation view of `correlation.py`: the column guard, the nested
    pair loop that skips pairs with fewer than three complete rows and pairs
    on which `pearsonr` raises, and the two-key ranking. No surviving pair
    gives a bare None; the scatter plot names GameGenre as a hover column,
    so a table without it raises once the ranking is done. */
module Correlation {
  import opened Table
  import opened PairStats

  datatype Outcome =
    | MissingColumns               // the four-None tuple
    | NothingComputed              // the bare None of an empty result list
    | PlotRaised                   // the scatter plot's hover column GameGenre is absent
    | Ranking(table: seq<CorrRow>)

  /** What the view returns, as a function of the table and of `pearsonr`. */
  function CorrelationOf(f: Frame, pearson: seq<(real, real)> -> Pearson): (out: Outcome)
    ensures out == MissingColumns <==> !HasColumns(f, NumericColumns)
    ensures out == PlotRaised ==> GameGenre !in f.columns
    ensures out.Ranking? ==> GameGenre in f.columns && 0 < |out.table| <= |Candidates()|
  {
    if !HasColumns(f, NumericColumns) then MissingColumns
    else
      var results := Collect(f.rows, Candidates(), pearson);
      if results == [] then NothingComputed
      else if GameGenre !in f.columns then PlotRaised
      else Ranking(Rank(results))
  }

  method RenderCorrelation(f: Frame, pearson: seq<(real, real)> -> Pearson) returns (out: Outcome)
    ensures out == CorrelationOf(f, pearson)
  {
    if FirstMissing(f, NumericColumns).Some? {
      return MissingColumns;
    }
    var results := PairResults(f.rows, pearson);
    if |results| == 0 {
      return NothingComputed;
    }
    var table := Rank(results);
    if GameGenre !in f.columns {
      return PlotRaised;
    }
    out := Ranking(table);
  }

  /** The nested pair loop: every candidate pair in loop order, its row
      appended when it has enough observations and `pearsonr` returns. */
  method PairResults(rows: seq<Row>, pearson: seq<(real, real)> -> Pearson) returns (results: seq<CorrRow>)
    ensures results == Collect(rows, Candidates(), pearson)
  {
    results := [];
    for i := 0 to 4
      invariant results == Collect(rows, PairsBefore(i), pearson)
    {
      results := VisitFrom(rows, i, pearson, results);
    }
    LoopVisitsCandidates();
  }

  /** The inner loop for column i: the pairs (i, j) for j > i, in order. */
  method VisitFrom(rows: seq<Row>, i: nat, pearson: seq<(real, real)> -> Pearson, results: seq<CorrRow>)
    returns (out: seq<CorrRow>)
    requires i < 4 && results == Collect(rows, PairsBefore(i), pearson)
    ensures out == Collect(rows, PairsBefore(i + 1), pearson)
  {
    out := results;
    ghost var done := PairsBefore(i);
    InnerStart(i);
    for j := i + 1 to 4
      invariant done == PairsBefore(i) + InnerPairs(i, j)
      invariant out == Collect(rows, done, pearson)
    {
      var pair := (NumericColumns[i], NumericColumns[j]);
      out := VisitPair(rows, pair, pearson, done, out);
      InnerStep(i, j);
      done := done + [pair];
    }
    InnerEnd(i);
  }

  /** One pass of the inner loop body: too few observations or a raising
      `pearsonr` skip the pair (the `try`/`except` swallows the exception),
      coefficients append its row. */
  method VisitPair(rows: seq<Row>, pair: (Column, Column), pearson: seq<(real, real)> -> Pearson,
                   ghost done: seq<(Column, Column)>, results: seq<CorrRow>)
    returns (out: seq<CorrRow>)
    requires results == Collect(rows, done, pearson)
    ensures out == Collect(rows, done + [pair], pearson)
  {
    CollectStep(rows, done, pair, pearson);
    var series := PairSeries(rows, pair.0, pair.1);
    if |series| < 3 {
      return results;
    }
    match pearson(series)
    case Raises =>
      return results;
    case Coefficients(r, p) =>
      return results + [MakeRow(pair.0, pair.1, r, p)];
  }

  // ---------------------------------------------------------------------
  // Properties
  // ---------------------------------------------------------------------

  /** The four-None result comes exactly from a missing numeric column. */
  lemma MissingColumnsExactly(f: Frame, pearson: seq<(real, real)> -> Pearson)
    ensures CorrelationOf(f, pearson) == MissingColumns
      <==> exists c :: c in NumericColumns && c !in f.columns
  {
  }

  /** The table is ranked by p ascending then |r| descending, holds at most
      six rows, and is a permutation of the rows the loop appended. */
  lemma RankedTableIsPermutation(f: Frame, pearson: seq<(real, real)> -> Pearson)
    requires CorrelationOf(f, pearson).Ranking?
    ensures var t := CorrelationOf(f, pearson).table;
      && Ranked(t)
      && multiset(t) == multiset(Collect(f.rows, Candidates(), pearson))
      && 0 < |t| <= 6
  {
    var results := Collect(f.rows, Candidates(), pearson);
    RankSpec(results);
    assert |Rank(results)| == |results| by {
      assert |multiset(Rank(results))| == |multiset(results)|;
    }
  }

  /** A row is in the table exactly when some candidate pair yields it: at
      least three complete observations, `pearsonr` returned (r, p), and the
      row holds the rounded r and p and the flag p < 0.05. */
  lemma TableRowsExactly(f: Frame, pearson: seq<(real, real)> -> Pearson, x: CorrRow)
    requires CorrelationOf(f, pearson).Ranking?
    ensures x in CorrelationOf(f, pearson).table <==>
      exists k :: 0 <= k < |Candidates()| && PairYields(f.rows, Candidates()[k], pearson, x)
  {
    var results := Collect(f.rows, Candidates(), pearson);
    RankSpec(results);
    assert x in Rank(results) <==> x in multiset(results);
    CollectedRow(f.rows, Candidates(), pearson, x);
  }

  /** The bare None comes exactly when every candidate pair was skipped. */
  lemma NothingComputedExactly(f: Frame, pearson: seq<(real, real)> -> Pearson)
    requires HasColumns(f, NumericColumns)
    ensures CorrelationOf(f, pearson) == NothingComputed <==>
      forall k :: 0 <= k < |Candidates()| ==> PairRow(f.rows, Candidates()[k], pearson) == []
  {
    CollectEmpty(f.rows, Candidates(), pearson);
  }

  /** A pair with only two complete observations never reaches the table,
      whatever `pearsonr` would say about it. */
  lemma TwoObservationsExcluded(f: Frame, pearson: seq<(real, real)> -> Pearson, k: nat, x: CorrRow)
    requires CorrelationOf(f, pearson).Ranking?
    requires k < |Candidates()|
    requires |PairSeries(f.rows, Candidates()[k].0, Candidates()[k].1)| == 2
    requires x in CorrelationOf(f, pearson).table
    ensures (x.first, x.second) != Candidates()[k]
  {
    TableRowsExactly(f, pearson, x);
    var k' :| 0 <= k' < |Candidates()| && PairYields(f.rows, Candidates()[k'], pearson, x);
  }
}
