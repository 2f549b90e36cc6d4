/** The retention and funnel view: threshold-based retention rates over
    SessionsPerWeek, and four funnel stages each counted over the whole table. */
module Retention {
  import opened Table

  /** The three retention buckets, each a SessionsPerWeek threshold. */
  datatype Day = Day1 | Day7 | Day30

  datatype RetentionRow = RetentionRow(day: Day, rate: real)

  datatype Stage = AllPlayers | ActivePlayers | HighlyEngagedPlayers | PayingPlayers

  datatype FunnelStage = FunnelStage(stage: Stage, value: real)

  datatype Report = Report(retention: seq<RetentionRow>, funnel: seq<FunnelStage>)

  /** The SessionsPerWeek threshold standing in for each bucket. */
  function Threshold(day: Day): real
  {
    match day
    case Day1 => 1.0
    case Day7 => 2.0
    case Day30 => 4.0
  }

  /** Number of players whose SessionsPerWeek reaches `t`; a missing value never does. */
  function Reaching(rows: seq<Row>, t: real): nat
  {
    Count(rows, r => SessionsAtLeast(r, t))
  }

  /** The retention table, rows Day1, Day7, Day30; absent when there are no players. */
  function RetentionTable(rows: seq<Row>): (t: Option<seq<RetentionRow>>)
    ensures t.None? <==> |rows| == 0
    ensures t.Some? ==>
      && |t.value| == 3
      && t.value[0].day == Day1 && t.value[1].day == Day7 && t.value[2].day == Day30
  {
    if |rows| == 0 then None
    else
      var n := |rows| as real;
      Some([RetentionRow(Day1, Reaching(rows, Threshold(Day1)) as real / n),
            RetentionRow(Day7, Reaching(rows, Threshold(Day7)) as real / n),
            RetentionRow(Day30, Reaching(rows, Threshold(Day30)) as real / n)])
  }

  /** The four funnel stages, in order; each counted over the whole table. */
  function Funnel(rows: seq<Row>): (stages: seq<FunnelStage>)
    ensures |stages| == 4
    ensures stages[0].stage == AllPlayers && stages[1].stage == ActivePlayers
    ensures stages[2].stage == HighlyEngagedPlayers && stages[3].stage == PayingPlayers
  {
    [FunnelStage(AllPlayers, |rows| as real),
     FunnelStage(ActivePlayers, Reaching(rows, 2.0) as real),
     FunnelStage(HighlyEngagedPlayers, Count(rows, HighlyEngaged) as real),
     FunnelStage(PayingPlayers, SumSkipNa(Purchases(rows)))]
  }

  /** The whole view. pandas raises on the first of SessionsPerWeek,
      EngagementLevel, InGamePurchases that is absent; with every column present
      but no rows the retention figure is never bound and the final return
      raises. */
  function RenderRetentionFunnel(f: Frame): (r: Result<Report>)
    ensures r.Ok? <==>
      HasColumns(f, [SessionsPerWeek, EngagementLevel, InGamePurchases]) && |f.rows| > 0
    ensures r.Err? && HasColumns(f, [SessionsPerWeek, EngagementLevel, InGamePurchases])
      ==> r.failure == UnboundResult
    ensures r.Ok? ==>
      && Some(r.value.retention) == RetentionTable(f.rows)
      && r.value.funnel == Funnel(f.rows)
  {
    match FirstMissing(f, [SessionsPerWeek, EngagementLevel, InGamePurchases])
    case Some(c) => Err(MissingColumn(c))
    case None =>
      match RetentionTable(f.rows)
      case None => Err(UnboundResult)
      case Some(t) => Ok(Report(t, Funnel(f.rows)))
  }

  // ---------------------------------------------------------------------
  // Properties
  // ---------------------------------------------------------------------

  /** Each rate is the share of players reaching its threshold, lies in
      [0, 1], and the nested thresholds make Day30 <= Day7 <= Day1. */
  lemma RetentionRatesBoundedAndNested(rows: seq<Row>)
    requires |rows| > 0
    ensures var t := RetentionTable(rows).value;
      && t[0].rate == Reaching(rows, 1.0) as real / |rows| as real
      && t[1].rate == Reaching(rows, 2.0) as real / |rows| as real
      && t[2].rate == Reaching(rows, 4.0) as real / |rows| as real
      && 0.0 <= t[2].rate <= t[1].rate <= t[0].rate <= 1.0
  {
    var n := |rows| as real;
    var c1, c7, c30 := Reaching(rows, 1.0) as real, Reaching(rows, 2.0) as real, Reaching(rows, 4.0) as real;
    ReachingMonotone(rows, 2.0, 4.0);
    ReachingMonotone(rows, 1.0, 2.0);
    Share(c30, c7, n);
    Share(c7, c1, n);
    Share(c1, n, n);
  }

  /** A higher threshold is reached by no more players. */
  lemma {:induction false} ReachingMonotone(rows: seq<Row>, s: real, t: real)
    requires s <= t
    ensures Reaching(rows, t) <= Reaching(rows, s) <= |rows|
  {
    if rows != [] {
      ReachingMonotone(rows[1..], s, t);
    }
  }

  /** The Active stage counts the same players as the Day7 numerator, and the
      All stage is the row count. */
  lemma FunnelSharesDay7Numerator(rows: seq<Row>)
    requires |rows| > 0
    ensures Funnel(rows)[0].value == |rows| as real
    ensures Funnel(rows)[1].value == RetentionTable(rows).value[1].rate * |rows| as real
  {
    var n := |rows| as real;
    ReachingMonotone(rows, 2.0, 2.0);
    Share(Reaching(rows, 2.0) as real, n, n);
  }

  /** Active and Highly Engaged never exceed All; with a 0/1 purchase flag,
      Paying lies between 0 and All as well. Stages are independent counts,
      so no order among Active, Highly Engaged and Paying is implied. */
  lemma FunnelStagesBoundedByAll(rows: seq<Row>)
    ensures var s := Funnel(rows);
      0.0 <= s[1].value <= s[0].value && 0.0 <= s[2].value <= s[0].value
    ensures (forall i :: 0 <= i < |rows| && rows[i].purchases.Some? ==>
               rows[i].purchases.value == 0.0 || rows[i].purchases.value == 1.0)
      ==> 0.0 <= Funnel(rows)[3].value <= Funnel(rows)[0].value
  {
    var flags := Purchases(rows);
    if forall i :: 0 <= i < |rows| && rows[i].purchases.Some? ==>
         rows[i].purchases.value == 0.0 || rows[i].purchases.value == 1.0
    {
      forall x | x in Present(flags) ensures x == 0.0 || x == 1.0 {
        var i :| 0 <= i < |flags| && flags[i] == Some(x);
      }
      FlagSumBounds(Present(flags));
    }
  }

  /** Witness that the stages need not shrink: two players, neither active nor
      highly engaged, who both paid give Paying = 2 > Active = 0. */
  lemma FunnelNotNarrowing()
    ensures var rows := [Row(None, None, Some(0.0), None, Some(1.0), Some("Low"), None),
                         Row(None, None, Some(1.0), None, Some(1.0), None, None)];
      Funnel(rows)[3].value == 2.0 && Funnel(rows)[1].value == 0.0
  {
    var rows := [Row(None, None, Some(0.0), None, Some(1.0), Some("Low"), None),
                 Row(None, None, Some(1.0), None, Some(1.0), None, None)];
    assert rows[1..][1..] == [];
    assert Purchases(rows) == [Some(1.0), Some(1.0)];
    assert Present(Purchases(rows)) == [1.0, 1.0] by {
      assert Purchases(rows)[1..][1..] == [];
    }
  }
}
