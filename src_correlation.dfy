/** The correlation view of `src/correlation.py`: the same guard, pair loop
    and ranking as `correlation.py`, but without the exception guard around
    `pearsonr`, with an empty table instead of a bare None when no pair
    survives, and with a `render` flag that only decides what is displayed. */
module SrcCorrelation {
  import opened Table
  import opened PairStats
  import Correlation

  datatype Outcome =
    | MissingColumns               // the four-None tuple
    | Raised                       // `pearsonr` raised; the exception leaves the function
    | PlotRaised                   // the scatter plot's hover column GameGenre is absent
    | Ranking(table: seq<CorrRow>) // possibly empty: `pd.DataFrame()`

  /** What the view puts on screen, in order. */
  datatype Panel = MissingColumnsWarning | Subheader | ResultsTable(rows: seq<CorrRow>)
                 | Heatmap | Scatter | Boxplot

  /** The returned values, as a function of the table and of `pearsonr`; the
      render flag does not appear. */
  function CorrelationOf(f: Frame, pearson: seq<(real, real)> -> Pearson): (out: Outcome)
    ensures out == MissingColumns <==> !HasColumns(f, NumericColumns)
    ensures out == Raised ==> exists k :: 0 <= k < |Candidates()| && Raising(f.rows, Candidates()[k], pearson)
    ensures out == PlotRaised ==> GameGenre !in f.columns
    ensures out.Ranking? ==> GameGenre in f.columns && |out.table| <= |Candidates()|
  {
    if !HasColumns(f, NumericColumns) then MissingColumns
    else if AnyRaises(f.rows, Candidates(), pearson) then Raised
    else
      var results := Collect(f.rows, Candidates(), pearson);
      var table := if results == [] then [] else Rank(results);
      if GameGenre !in f.columns then PlotRaised else Ranking(table)
  }

  /** The panels shown when rendering: a warning for missing columns, nothing
      once an exception has left the function (every figure is built before
      anything is drawn), otherwise the subheader, the table when non-empty,
      the heatmap, the scatter plot (Age is present past the guard) and the
      box plot (GameGenre is present, or the scatter plot would have raised). */
  function PanelsFor(out: Outcome): (shown: seq<Panel>)
    ensures shown == [] <==> out.Raised? || out.PlotRaised?
    ensures out.Ranking? ==> shown[0] == Subheader && (ResultsTable(out.table) in shown <==> out.table != [])
  {
    match out
    case MissingColumns => [MissingColumnsWarning]
    case Raised => []
    case PlotRaised => []
    case Ranking(t) => [Subheader] + (if t != [] then [ResultsTable(t)] else []) + [Heatmap, Scatter, Boxplot]
  }

  method RenderCorrelation(f: Frame, pearson: seq<(real, real)> -> Pearson, render: bool)
    returns (out: Outcome, shown: seq<Panel>)
    ensures out == CorrelationOf(f, pearson)
    ensures shown == if render then PanelsFor(out) else []
  {
    if FirstMissing(f, NumericColumns).Some? {
      out := MissingColumns;
      shown := if render then [MissingColumnsWarning] else [];
      return;
    }
    var results, raised := PairResults(f.rows, pearson);
    if raised {
      out, shown := Raised, [];
      return;
    }
    var table := if |results| > 0 then Rank(results) else [];
    if GameGenre !in f.columns {
      out, shown := PlotRaised, [];
      return;
    }
    out := Ranking(table);
    shown := [];
    if render {
      shown := ShowRanking(table);
    }
  }

  /** The drawing sequence past the guards: the subheader, the table when it
      has rows, then the three figures. */
  method ShowRanking(table: seq<CorrRow>) returns (shown: seq<Panel>)
    ensures shown == PanelsFor(Ranking(table))
  {
    shown := [Subheader];
    if |table| > 0 {
      shown := shown + [ResultsTable(table)];
    }
    shown := shown + [Heatmap, Scatter, Boxplot];
  }

  /** The pair loop without an exception guard: the first raising
      `pearsonr` call ends it. */
  method PairResults(rows: seq<Row>, pearson: seq<(real, real)> -> Pearson)
    returns (results: seq<CorrRow>, raised: bool)
    ensures raised == AnyRaises(rows, Candidates(), pearson)
    ensures !raised ==> results == Collect(rows, Candidates(), pearson)
  {
    results := [];
    for i := 0 to 4
      invariant results == Collect(rows, PairsBefore(i), pearson)
      invariant !AnyRaises(rows, PairsBefore(i), pearson)
    {
      results, raised := VisitFrom(rows, i, pearson, results);
      if raised {
        return;
      }
    }
    raised := false;
    LoopVisitsCandidates();
  }

  /** The inner loop for column i: the pairs (i, j) for j > i, in order. */
  method VisitFrom(rows: seq<Row>, i: nat, pearson: seq<(real, real)> -> Pearson, results: seq<CorrRow>)
    returns (out: seq<CorrRow>, raised: bool)
    requires i < 4
    requires results == Collect(rows, PairsBefore(i), pearson) && !AnyRaises(rows, PairsBefore(i), pearson)
    ensures raised ==> AnyRaises(rows, Candidates(), pearson)
    ensures !raised ==>
      out == Collect(rows, PairsBefore(i + 1), pearson) && !AnyRaises(rows, PairsBefore(i + 1), pearson)
  {
    out := results;
    ghost var done := PairsBefore(i);
    InnerStart(i);
    for j := i + 1 to 4
      invariant done == PairsBefore(i) + InnerPairs(i, j)
      invariant out == Collect(rows, done, pearson) && !AnyRaises(rows, done, pearson)
    {
      var pair := (NumericColumns[i], NumericColumns[j]);
      LoopPairIsCandidate(i, j);
      out, raised := VisitPair(rows, pair, pearson, done, out);
      if raised {
        return;
      }
      InnerStep(i, j);
      done := done + [pair];
    }
    InnerEnd(i);
    raised := false;
  }

  /** One pass of the inner loop body: skip the pair, raise, or append its row. */
  method VisitPair(rows: seq<Row>, pair: (Column, Column), pearson: seq<(real, real)> -> Pearson,
                   ghost done: seq<(Column, Column)>, results: seq<CorrRow>)
    returns (out: seq<CorrRow>, raised: bool)
    requires pair in Candidates()
    requires results == Collect(rows, done, pearson) && !AnyRaises(rows, done, pearson)
    ensures raised ==> AnyRaises(rows, Candidates(), pearson)
    ensures !raised ==>
      out == Collect(rows, done + [pair], pearson) && !AnyRaises(rows, done + [pair], pearson)
  {
    var series := PairSeries(rows, pair.0, pair.1);
    PairStep(rows, done, pair, pearson);
    if |series| < 3 {
      return results, false;
    }
    match pearson(series)
    case Raises =>
      CandidateRaises(rows, pair, pearson);
      return results, true;
    case Coefficients(r, p) =>
      return results + [MakeRow(pair.0, pair.1, r, p)], false;
  }

  /** Visiting one more pair: too few observations leave the rows and the
      raising status as they were, coefficients append one row, and a raise
      on that pair is a raise of the extended list. */
  lemma PairStep(rows: seq<Row>, done: seq<(Column, Column)>, pair: (Column, Column),
                 pearson: seq<(real, real)> -> Pearson)
    ensures var series := PairSeries(rows, pair.0, pair.1);
      && (|series| < MinObservations ==>
            Collect(rows, done + [pair], pearson) == Collect(rows, done, pearson)
            && (AnyRaises(rows, done + [pair], pearson) <==> AnyRaises(rows, done, pearson)))
      && (|series| >= MinObservations && pearson(series).Coefficients? ==>
            Collect(rows, done + [pair], pearson)
              == Collect(rows, done, pearson) + [MakeRow(pair.0, pair.1, pearson(series).r, pearson(series).p)]
            && (AnyRaises(rows, done + [pair], pearson) <==> AnyRaises(rows, done, pearson)))
  {
    CollectStep(rows, done, pair, pearson);
    var all := done + [pair];
    if AnyRaises(rows, all, pearson) && !Raising(rows, pair, pearson) {
      var k :| 0 <= k < |all| && Raising(rows, all[k], pearson);
      assert k < |done| && all[k] == done[k];
    }
    if AnyRaises(rows, done, pearson) {
      var k :| 0 <= k < |done| && Raising(rows, done[k], pearson);
      assert all[k] == done[k];
    }
  }

  /** A raising candidate makes the whole candidate list raise. */
  lemma CandidateRaises(rows: seq<Row>, pair: (Column, Column), pearson: seq<(real, real)> -> Pearson)
    requires pair in Candidates() && Raising(rows, pair, pearson)
    ensures AnyRaises(rows, Candidates(), pearson)
  {
    var k :| 0 <= k < |Candidates()| && Candidates()[k] == pair;
  }

  // ---------------------------------------------------------------------
  // Properties
  // ---------------------------------------------------------------------

  /** The outcomes are told apart exactly by the column guard, a raising
      `pearsonr` call on a candidate pair, and the scatter plot's GameGenre. */
  lemma OutcomeCases(f: Frame, pearson: seq<(real, real)> -> Pearson)
    ensures CorrelationOf(f, pearson) == MissingColumns
      <==> exists c :: c in NumericColumns && c !in f.columns
    ensures CorrelationOf(f, pearson) == Raised
      <==> HasColumns(f, NumericColumns)
           && exists k :: 0 <= k < 6 && |PairSeries(f.rows, Candidates()[k].0, Candidates()[k].1)| >= 3
                                     && pearson(PairSeries(f.rows, Candidates()[k].0, Candidates()[k].1)).Raises?
    ensures CorrelationOf(f, pearson) == PlotRaised
      <==> HasColumns(f, NumericColumns) && !AnyRaises(f.rows, Candidates(), pearson) && GameGenre !in f.columns
  {
  }

  /** When no pair survives, the result is an empty table, not a bare None;
      otherwise the table is ranked, a permutation of the collected rows, and
      holds at most six rows. */
  lemma TableOutcome(f: Frame, pearson: seq<(real, real)> -> Pearson)
    requires HasColumns(f, NumericColumns) && !AnyRaises(f.rows, Candidates(), pearson)
    requires GameGenre in f.columns
    ensures CorrelationOf(f, pearson).Ranking?
    ensures var t := CorrelationOf(f, pearson).table;
      && Ranked(t)
      && multiset(t) == multiset(Collect(f.rows, Candidates(), pearson))
      && |t| <= 6
      && (t == [] <==> forall k :: 0 <= k < |Candidates()| ==> PairRow(f.rows, Candidates()[k], pearson) == [])
  {
    var results := Collect(f.rows, Candidates(), pearson);
    RankSpec(results);
    CollectEmpty(f.rows, Candidates(), pearson);
    assert |Rank(results)| == |results| by {
      assert |multiset(Rank(results))| == |multiset(results)|;
    }
  }

  /** Where no `pearsonr` call raises and some pair survives, this view and
      the guarded one in `correlation.py` return the same ranked table. */
  lemma AgreesWithGuardedVariant(f: Frame, pearson: seq<(real, real)> -> Pearson)
    requires !AnyRaises(f.rows, Candidates(), pearson)
    requires Collect(f.rows, Candidates(), pearson) != []
    ensures CorrelationOf(f, pearson) == MissingColumns <==> Correlation.CorrelationOf(f, pearson) == Correlation.MissingColumns
    ensures CorrelationOf(f, pearson).Ranking? <==> Correlation.CorrelationOf(f, pearson).Ranking?
    ensures CorrelationOf(f, pearson).Ranking? ==>
      CorrelationOf(f, pearson).table == Correlation.CorrelationOf(f, pearson).table
  {
  }
}
