/** The overview view's metrics: the row count, two means and two
    percentages, each rounded to one decimal place. */
module Overview {
  import opened Table
  import opened Decimal

  /** The five metrics, in the order of the source's dictionary. A mean over
      no present values is NaN, written None. */
  datatype Metrics = Metrics(
    totalPlayers: nat,
    averageAge: Option<real>,
    payingPercent: Option<real>,
    averageSessions: Option<real>,
    highlyEngagedPercent: Option<real>)

  /** The columns the dictionary reads, in the order it reads them. */
  const Read: seq<Column> := [Age, InGamePurchases, SessionsPerWeek, EngagementLevel]

  function RoundedMean(column: seq<Option<real>>): Option<real>
  {
    match MeanSkipNa(column)
    case None => None
    case Some(m) => Some(Round(m, 1))
  }

  function RoundedPercent(column: seq<Option<real>>): Option<real>
  {
    match MeanSkipNa(column)
    case None => None
    case Some(m) => Some(Round(100.0 * m, 1))
  }

  /** `(EngagementLevel == "High").mean()`: a boolean column over every row,
      so its mean is NaN only for an empty table. */
  function HighShare(rows: seq<Row>): (h: Option<real>)
    ensures h.None? <==> |rows| == 0
    ensures h.Some? ==> 0.0 <= h.value <= 100.0
  {
    if |rows| == 0 then None
    else
      var c, n := Count(rows, HighlyEngaged) as real, |rows| as real;
      Share(c, n, n);
      RoundWithinWhole(100.0 * (c / n), 1, 0, 100);
      Some(Round(100.0 * (c / n), 1))
  }

  /** The columns the figures after the metrics name, in the order they are
      built; plotly raises on the first that is absent. */
  const Plotted: seq<Column> := [Location, Gender, PlayerLevel, GameGenre]

  /** The metrics dictionary; the first absent column it reads raises, and
      so does the first figure naming an absent column, so the metrics are
      returned only when every column is present. */
  function RenderOverview(f: Frame): (r: Result<Metrics>)
    ensures r.Ok? <==> HasColumns(f, Read) && HasColumns(f, Plotted)
    ensures !HasColumns(f, Read) ==>
      && r.Err? && r.failure.MissingColumn?
      && r.failure.column !in f.columns
      && (exists i :: 0 <= i < |Read| && Read[i] == r.failure.column &&
                     (forall j :: 0 <= j < i ==> Read[j] in f.columns))
    ensures HasColumns(f, Read) && !HasColumns(f, Plotted) ==>
      && r.Err? && r.failure.FigureRaised?
      && r.failure.column !in f.columns
      && (exists i :: 0 <= i < |Plotted| && Plotted[i] == r.failure.column &&
                     (forall j :: 0 <= j < i ==> Plotted[j] in f.columns))
    ensures r.Ok? ==> r.value.totalPlayers == |f.rows|
  {
    match FirstMissing(f, Read)
    case Some(c) => Err(MissingColumn(c))
    case None =>
      match FirstMissing(f, Plotted)
      case Some(c) => Err(FigureRaised(c))
      case None =>
        Ok(Metrics(
          |f.rows|,
          RoundedMean(Ages(f.rows)),
          RoundedPercent(Purchases(f.rows)),
          RoundedMean(Sessions(f.rows)),
          HighShare(f.rows)))
  }

  // ---------------------------------------------------------------------
  // Properties
  // ---------------------------------------------------------------------

  /** With no rows every mean and percentage is NaN and the count is 0. */
  lemma EmptyTableMetrics(f: Frame)
    requires HasColumns(f, Read) && HasColumns(f, Plotted) && |f.rows| == 0
    ensures RenderOverview(f) == Ok(Metrics(0, None, None, None, None))
  {
  }

  /** A mean exists exactly when some value is present, and then it lies
      between the smallest and largest whole-number bounds of the values. */
  lemma RoundedMeanWithinBounds(column: seq<Option<real>>, lo: int, hi: int)
    requires forall x :: Some(x) in column ==> lo as real <= x <= hi as real
    ensures RoundedMean(column).Some? <==> exists x :: Some(x) in column
    ensures RoundedMean(column).Some? ==>
      lo as real <= RoundedMean(column).value <= hi as real
  {
    var xs := Present(column);
    if |xs| > 0 {
      MeanBounds(xs, lo as real, hi as real);
      RoundWithinWhole(Mean(xs), 1, lo, hi);
    }
  }

  /** Average age lies within any whole-number age range that holds every
      present age. */
  lemma AverageAgeWithinRange(f: Frame, lo: int, hi: int)
    requires HasColumns(f, Read) && HasColumns(f, Plotted)
    requires forall i :: 0 <= i < |f.rows| && f.rows[i].age.Some? ==>
      lo as real <= f.rows[i].age.value <= hi as real
    ensures var m := RenderOverview(f).value.averageAge;
      m.Some? ==> lo as real <= m.value <= hi as real
  {
    var ages := Ages(f.rows);
    forall x | Some(x) in ages ensures lo as real <= x <= hi as real {
      var i :| 0 <= i < |ages| && ages[i] == Some(x);
    }
    RoundedMeanWithinBounds(ages, lo, hi);
  }

  /** With a complete 0/1 purchase flag, the paying percentage is 100 times
      paid / n, rounded, and lies in [0, 100]. */
  lemma PayingPercentOfFlags(f: Frame)
    requires HasColumns(f, Read) && HasColumns(f, Plotted) && |f.rows| > 0
    requires forall i :: 0 <= i < |f.rows| ==>
      f.rows[i].purchases == Some(0.0) || f.rows[i].purchases == Some(1.0)
    ensures var p := RenderOverview(f).value.payingPercent;
      && p.Some?
      && p.value == Round(100.0 * (SumSkipNa(Purchases(f.rows)) / |f.rows| as real), 1)
      && 0.0 <= p.value <= 100.0
  {
    PercentOfFlags(f.rows);
    assert RenderOverview(f).value.payingPercent == RoundedPercent(Purchases(f.rows));
  }

  lemma PercentOfFlags(rows: seq<Row>)
    requires |rows| > 0
    requires forall i :: 0 <= i < |rows| ==> rows[i].purchases == Some(0.0) || rows[i].purchases == Some(1.0)
    ensures var p := RoundedPercent(Purchases(rows));
      && p.Some?
      && p.value == Round(100.0 * (SumSkipNa(Purchases(rows)) / |rows| as real), 1)
      && 0.0 <= p.value <= 100.0
  {
    var xs := Present(Purchases(rows));
    FlagsInUnit(rows);
    MeanBounds(xs, 0.0, 1.0);
    RoundWithinWhole(100.0 * Mean(xs), 1, 0, 100);
  }

  /** A complete 0/1 purchase column keeps every row's flag, each in [0, 1]. */
  lemma FlagsInUnit(rows: seq<Row>)
    requires forall i :: 0 <= i < |rows| ==> rows[i].purchases == Some(0.0) || rows[i].purchases == Some(1.0)
    ensures |Present(Purchases(rows))| == |rows|
    ensures forall x :: x in Present(Purchases(rows)) ==> 0.0 <= x <= 1.0
  {
    var flags := Purchases(rows);
    AllPresent(flags);
    var xs := Present(flags);
    forall x | x in xs ensures 0.0 <= x <= 1.0 {
      var i :| 0 <= i < |flags| && flags[i] == Some(x);
    }
  }

  /** A column with no missing value keeps all its values. */
  lemma {:induction false} AllPresent(s: seq<Option<real>>)
    requires forall i :: 0 <= i < |s| ==> s[i].Some?
    ensures |Present(s)| == |s|
  {
    if s != [] {
      AllPresent(s[1..]);
    }
  }

  /** The high-engagement percentage is 100 times the share of "High" rows,
      rounded, and lies in [0, 100]. */
  lemma HighlyEngagedPercentBounded(f: Frame)
    requires HasColumns(f, Read) && HasColumns(f, Plotted) && |f.rows| > 0
    ensures var h := RenderOverview(f).value.highlyEngagedPercent;
      h.Some? && 0.0 <= h.value <= 100.0
  {
    var c := Count(f.rows, HighlyEngaged) as real;
    var n := |f.rows| as real;
    assert 0.0 <= c / n <= 1.0;
    RoundWithinWhole(100.0 * (c / n), 1, 0, 100);
  }
}
