/** The simulated trend view: on a copy of the table, a JoinDate column is
    synthesised when absent, a Month key is derived from it, PlayerIDs 1..n
    are synthesised when absent, and the copy is grouped by month with the
    count of PlayerID, the sum of InGamePurchases and the mean of
    SessionsPerWeek. */
module Trend {
  import opened Table

  /** The group key `JoinDate.dt.to_period("M").astype(str)`: a year-month,
      or the string "NaT" for a missing date. */
  datatype MonthKey = YearMonth(year: int, month: int) | NaT

  /** The order `groupby` sorts the key strings in: "YYYY-MM" strings in
      calendar order, "NaT" after every digit-led key. */
  predicate Before(a: MonthKey, b: MonthKey)
  {
    match (a, b)
    case (YearMonth(y1, m1), YearMonth(y2, m2)) => y1 < y2 || (y1 == y2 && m1 < m2)
    case (YearMonth(_, _), NaT) => true
    case (NaT, _) => false
  }

  function KeyOf(d: Option<Date>): MonthKey
  {
    match d
    case None => NaT
    case Some(date) => YearMonth(date.year, date.month)
  }

  /** One row of the trend table, with the renamed columns. */
  datatype TrendRow = TrendRow(
    month: MonthKey,
    newPlayers: nat,               // "Number of new players": non-missing PlayerIDs
    paidPlayers: real,             // "Number of paid players": sum of InGamePurchases
    averageSessions: Option<real>) // "Average number of sessions": NaN when none present

  // ---------------------------------------------------------------------
  // The column additions, as functions of the old column
  // ---------------------------------------------------------------------

  /** `np.random.choice(...)` as given: row i gets the date `draw(i)`. */
  function WithJoinDates(rows: seq<Row>, draw: nat -> Date): (r: seq<Row>)
    ensures |r| == |rows|
    ensures forall i :: 0 <= i < |r| ==> r[i] == rows[i].(joinDate := Some(draw(i)))
  {
    seq(|rows|, i requires 0 <= i < |rows| => rows[i].(joinDate := Some(draw(i))))
  }

  /** `range(1, len(tmp) + 1)`: row i gets the ID i + 1. */
  function WithIds(rows: seq<Row>): (r: seq<Row>)
    ensures |r| == |rows|
    ensures forall i :: 0 <= i < |r| ==> r[i] == rows[i].(playerId := Some(i + 1))
  {
    seq(|rows|, i requires 0 <= i < |rows| => rows[i].(playerId := Some(i + 1)))
  }

  function MonthsOf(rows: seq<Row>): (ms: seq<MonthKey>)
    ensures |ms| == |rows|
    ensures forall i :: 0 <= i < |ms| ==> ms[i] == KeyOf(rows[i].joinDate)
  {
    seq(|rows|, i requires 0 <= i < |rows| => KeyOf(rows[i].joinDate))
  }

  /** The working copy `tmp`: its columns, its rows, and its Month column. */
  class TrendFrame {
    var columns: set<Column>
    var rows: seq<Row>
    var months: seq<MonthKey>

    /** `filtered_data.copy()`; the copy has no Month column yet. */
    constructor Copy(f: Frame)
      ensures columns == f.columns && rows == f.rows && months == []
    {
      columns := f.columns;
      rows := f.rows;
      months := [];
    }

    /** Adds a JoinDate column from `draw` when there is none. */
    method AddJoinDate(draw: nat -> Date)
      modifies this
      ensures columns == old(columns) + {JoinDate}
      ensures rows == if JoinDate in old(columns) then old(rows) else WithJoinDates(old(rows), draw)
      ensures months == old(months)
    {
      if JoinDate !in columns {
        rows := WithJoinDates(rows, draw);
        columns := columns + {JoinDate};
      }
    }

    /** `tmp["Month"] = ...`: one key per row, from its JoinDate. */
    method DeriveMonth()
      requires JoinDate in columns
      modifies this
      ensures columns == old(columns) + {Month}
      ensures rows == old(rows)
      ensures months == MonthsOf(rows)
    {
      months := MonthsOf(rows);
      columns := columns + {Month};
    }

    /** Adds PlayerIDs 1..n when there is no PlayerID column. */
    method AddPlayerId()
      modifies this
      ensures columns == old(columns) + {PlayerID}
      ensures rows == if PlayerID in old(columns) then old(rows) else WithIds(old(rows))
      ensures months == old(months)
    {
      if PlayerID !in columns {
        rows := WithIds(rows);
        columns := columns + {PlayerID};
      }
    }
  }

  // ---------------------------------------------------------------------
  // The group-by
  // ---------------------------------------------------------------------

  predicate Ascending(keys: seq<MonthKey>)
  {
    forall i, j :: 0 <= i < j < |keys| ==> Before(keys[i], keys[j])
  }

  /** `keys` with `k` added at its place, unless already there. */
  function InsertKey(k: MonthKey, keys: seq<MonthKey>): (r: seq<MonthKey>)
    ensures k in r
    ensures |r| <= |keys| + 1
  {
    if keys == [] then [k]
    else if k == keys[0] then keys
    else if Before(k, keys[0]) then [k] + keys
    else [keys[0]] + InsertKey(k, keys[1..])
  }

  /** The distinct keys in the order `groupby` emits the groups. */
  function GroupKeys(ms: seq<MonthKey>): (keys: seq<MonthKey>)
    ensures |keys| <= |ms|
    ensures keys == [] <==> ms == []
  {
    if ms == [] then [] else InsertKey(ms[0], GroupKeys(ms[1..]))
  }

  /** The rows whose key is `k`, in order. */
  function InMonth(rows: seq<Row>, ms: seq<MonthKey>, k: MonthKey): (g: seq<Row>)
    requires |ms| == |rows|
    ensures |g| <= |rows|
  {
    if rows == [] then []
    else (if ms[0] == k then [rows[0]] else []) + InMonth(rows[1..], ms[1..], k)
  }

  predicate HasPlayerId(r: Row)
  {
    r.playerId.Some?
  }

  /** The aggregates of one month. */
  function Aggregate(rows: seq<Row>, ms: seq<MonthKey>, k: MonthKey): (t: TrendRow)
    requires |ms| == |rows|
    ensures t.month == k
    ensures t.newPlayers <= |InMonth(rows, ms, k)|
  {
    var g := InMonth(rows, ms, k);
    TrendRow(k, Count(g, HasPlayerId), SumSkipNa(Purchases(g)), MeanSkipNa(Sessions(g)))
  }

  /** `groupby("Month").agg(...)`: one row per distinct key, in key order.
      An aggregated column that is absent raises. */
  function GroupByMonth(columns: set<Column>, rows: seq<Row>, ms: seq<MonthKey>): (r: Result<seq<TrendRow>>)
    requires |ms| == |rows|
    ensures r.Err? <==> InGamePurchases !in columns || SessionsPerWeek !in columns
    ensures r.Ok? ==> |r.value| == |GroupKeys(ms)|
  {
    if InGamePurchases !in columns then Err(MissingColumn(InGamePurchases))
    else if SessionsPerWeek !in columns then Err(MissingColumn(SessionsPerWeek))
    else
      var keys := GroupKeys(ms);
      Ok(seq(|keys|, i requires 0 <= i < |keys| => Aggregate(rows, ms, keys[i])))
  }

  /** The rows of the prepared copy. */
  function PreparedRows(f: Frame, draw: nat -> Date): seq<Row>
  {
    var dated := if JoinDate in f.columns then f.rows else WithJoinDates(f.rows, draw);
    if PlayerID in f.columns then dated else WithIds(dated)
  }

  /** The trend table the view plots, as a function of its input. */
  function TrendOf(f: Frame, draw: nat -> Date): (r: Result<seq<TrendRow>>)
    ensures r.Err? <==> InGamePurchases !in f.columns || SessionsPerWeek !in f.columns
    ensures r.Ok? ==> |r.value| <= |f.rows|
  {
    var rows := PreparedRows(f, draw);
    GroupByMonth(f.columns + {JoinDate, Month, PlayerID}, rows, MonthsOf(rows))
  }

  /** The view: copy, add the columns, group. The input is a value, so only
      the copy changes. */
  method RenderTrend(f: Frame, draw: nat -> Date) returns (r: Result<seq<TrendRow>>)
    ensures r == TrendOf(f, draw)
  {
    var tmp := new TrendFrame.Copy(f);
    tmp.AddJoinDate(draw);
    tmp.DeriveMonth();
    tmp.AddPlayerId();
    assert tmp.months == MonthsOf(tmp.rows) by {
      assert forall i :: 0 <= i < |tmp.rows| ==> tmp.rows[i].joinDate == PreparedRows(f, draw)[i].joinDate;
    }
    r := GroupByMonth(tmp.columns, tmp.rows, tmp.months);
  }

  // ---------------------------------------------------------------------
  // Properties
  // ---------------------------------------------------------------------

  /** `Before` is a strict total order on keys. */
  lemma BeforeIsStrictTotal(a: MonthKey, b: MonthKey, c: MonthKey)
    ensures !Before(a, a)
    ensures Before(a, b) ==> !Before(b, a)
    ensures Before(a, b) && Before(b, c) ==> Before(a, c)
    ensures a == b || Before(a, b) || Before(b, a)
  {
  }

  lemma {:induction false} InsertKeySpec(k: MonthKey, keys: seq<MonthKey>)
    requires Ascending(keys)
    ensures Ascending(InsertKey(k, keys))
    ensures forall x :: x in InsertKey(k, keys) <==> x == k || x in keys
  {
    if keys != [] && k != keys[0] && !Before(k, keys[0]) {
      InsertKeySpec(k, keys[1..]);
      var rest := InsertKey(k, keys[1..]);
      var out := [keys[0]] + rest;
      forall i, j | 0 <= i < j < |out| ensures Before(out[i], out[j]) {
        if i == 0 {
          assert out[j] in rest;
          if out[j] != k {
            var m :| 0 <= m < |keys[1..]| && keys[1..][m] == out[j];
            assert keys[m + 1] == out[j];
          }
        }
      }
    }
  }

  /** The groups come out in strictly ascending key order, one per distinct
      key present. */
  lemma {:induction false} GroupKeysSpec(ms: seq<MonthKey>)
    ensures Ascending(GroupKeys(ms))
    ensures forall k :: k in GroupKeys(ms) <==> k in ms
  {
    if ms != [] {
      GroupKeysSpec(ms[1..]);
      InsertKeySpec(ms[0], GroupKeys(ms[1..]));
      assert ms == [ms[0]] + ms[1..];
    }
  }

  /** The trend table: months strictly ascending, exactly the months of the
      prepared rows, and each row holding its month's aggregates. */
  lemma TrendTableShape(f: Frame, draw: nat -> Date)
    requires TrendOf(f, draw).Ok?
    ensures var t := TrendOf(f, draw).value;
      var rows := PreparedRows(f, draw);
      && (forall i, j :: 0 <= i < j < |t| ==> Before(t[i].month, t[j].month))
      && (forall k :: (exists i :: 0 <= i < |t| && t[i].month == k) <==> k in MonthsOf(rows))
      && (forall i :: 0 <= i < |t| ==> t[i] == Aggregate(rows, MonthsOf(rows), t[i].month))
  {
    var rows := PreparedRows(f, draw);
    var keys := GroupKeys(MonthsOf(rows));
    GroupKeysSpec(MonthsOf(rows));
    var t := TrendOf(f, draw).value;
    forall k | k in MonthsOf(rows) ensures exists i :: 0 <= i < |t| && t[i].month == k {
      var i :| 0 <= i < |keys| && keys[i] == k;
      assert t[i].month == k;
    }
  }

  /** The aggregation needs InGamePurchases and SessionsPerWeek and nothing
      else: the other columns are synthesised when absent. */
  lemma TrendFailsExactly(f: Frame, draw: nat -> Date)
    ensures TrendOf(f, draw).Err? <==> InGamePurchases !in f.columns || SessionsPerWeek !in f.columns
  {
  }

  /** Without a PlayerID column the IDs are 1..n in row order, and without a
      JoinDate column row i is dated `draw(i)`. */
  lemma SynthesisedColumns(f: Frame, draw: nat -> Date)
    ensures |PreparedRows(f, draw)| == |f.rows|
    ensures PlayerID !in f.columns ==>
      forall i :: 0 <= i < |f.rows| ==> PreparedRows(f, draw)[i].playerId == Some(i + 1)
    ensures JoinDate !in f.columns ==>
      forall i :: 0 <= i < |f.rows| ==> PreparedRows(f, draw)[i].joinDate == Some(draw(i))
    ensures JoinDate in f.columns ==>
      forall i :: 0 <= i < |f.rows| ==> PreparedRows(f, draw)[i].joinDate == f.rows[i].joinDate
  {
  }

  /** The number of rows in the groups of `keys`. */
  function GroupedSize(rows: seq<Row>, ms: seq<MonthKey>, keys: seq<MonthKey>): nat
    requires |ms| == |rows|
  {
    if keys == [] then 0 else |InMonth(rows, ms, keys[0])| + GroupedSize(rows, ms, keys[1..])
  }

  /** How many of `keys` equal `m`. */
  function Hits(keys: seq<MonthKey>, m: MonthKey): nat
  {
    if keys == [] then 0 else (if keys[0] == m then 1 else 0) + Hits(keys[1..], m)
  }

  lemma {:induction false} HitsOnce(keys: seq<MonthKey>, m: MonthKey)
    requires Ascending(keys) && m in keys
    ensures Hits(keys, m) == 1
  {
    if keys[0] == m {
      forall i | 0 <= i < |keys[1..]| ensures keys[1..][i] != m {
        assert Before(keys[0], keys[i + 1]);
      }
      NotInHitsZero(keys[1..], m);
    } else {
      HitsOnce(keys[1..], m);
    }
  }

  lemma {:induction false} NotInHitsZero(keys: seq<MonthKey>, m: MonthKey)
    requires m !in keys
    ensures Hits(keys, m) == 0
  {
    if keys != [] {
      NotInHitsZero(keys[1..], m);
    }
  }

  /** Dropping the first row removes it from exactly the groups whose key is
      its key. */
  lemma {:induction false} GroupedSizeStep(rows: seq<Row>, ms: seq<MonthKey>, keys: seq<MonthKey>)
    requires |ms| == |rows| > 0
    ensures GroupedSize(rows, ms, keys) == Hits(keys, ms[0]) + GroupedSize(rows[1..], ms[1..], keys)
  {
    if keys != [] {
      GroupedSizeStep(rows, ms, keys[1..]);
    }
  }

  /** Grouping by a list of distinct keys that covers every row's key loses
      and duplicates no row. */
  lemma {:induction false} GroupsCoverRows(rows: seq<Row>, ms: seq<MonthKey>, keys: seq<MonthKey>)
    requires |ms| == |rows|
    requires Ascending(keys) && forall m :: m in ms ==> m in keys
    ensures GroupedSize(rows, ms, keys) == |rows|
  {
    if rows == [] {
      EmptyGroups(keys);
    } else {
      GroupedSizeStep(rows, ms, keys);
      HitsOnce(keys, ms[0]);
      GroupsCoverRows(rows[1..], ms[1..], keys);
    }
  }

  lemma {:induction false} EmptyGroups(keys: seq<MonthKey>)
    ensures GroupedSize([], [], keys) == 0
  {
    if keys != [] {
      EmptyGroups(keys[1..]);
    }
  }

  /** The sum of a column of new-player counts. */
  function TotalNewPlayers(t: seq<TrendRow>): nat
  {
    if t == [] then 0 else t[0].newPlayers + TotalNewPlayers(t[1..])
  }

  /** With every PlayerID present, each month counts all its rows. */
  lemma {:induction false} CountAllPresent(g: seq<Row>)
    requires forall i :: 0 <= i < |g| ==> HasPlayerId(g[i])
    ensures Count(g, HasPlayerId) == |g|
  {
    if g != [] {
      CountAllPresent(g[1..]);
    }
  }

  lemma {:induction false} InMonthKeepsIds(rows: seq<Row>, ms: seq<MonthKey>, k: MonthKey)
    requires |ms| == |rows|
    requires forall i :: 0 <= i < |rows| ==> HasPlayerId(rows[i])
    ensures forall i :: 0 <= i < |InMonth(rows, ms, k)| ==> HasPlayerId(InMonth(rows, ms, k)[i])
  {
    if rows != [] {
      InMonthKeepsIds(rows[1..], ms[1..], k);
    }
  }

  lemma {:induction false} TotalOfAggregates(rows: seq<Row>, ms: seq<MonthKey>, keys: seq<MonthKey>)
    requires |ms| == |rows|
    requires forall i :: 0 <= i < |rows| ==> HasPlayerId(rows[i])
    ensures TotalNewPlayers(seq(|keys|, i requires 0 <= i < |keys| => Aggregate(rows, ms, keys[i])))
      == GroupedSize(rows, ms, keys)
  {
    var t := seq(|keys|, i requires 0 <= i < |keys| => Aggregate(rows, ms, keys[i]));
    if keys != [] {
      InMonthKeepsIds(rows, ms, keys[0]);
      CountAllPresent(InMonth(rows, ms, keys[0]));
      TotalOfAggregates(rows, ms, keys[1..]);
      assert t[1..] == seq(|keys[1..]|, i requires 0 <= i < |keys[1..]| => Aggregate(rows, ms, keys[1..][i]));
    }
  }

  /** With synthesised IDs, the monthly new-player counts add up to the
      number of players. */
  lemma NewPlayersSumToRowCount(f: Frame, draw: nat -> Date)
    requires PlayerID !in f.columns
    requires TrendOf(f, draw).Ok?
    ensures TotalNewPlayers(TrendOf(f, draw).value) == |f.rows|
  {
    var rows := PreparedRows(f, draw);
    var ms := MonthsOf(rows);
    SynthesisedColumns(f, draw);
    GroupKeysSpec(ms);
    TotalOfAggregates(rows, ms, GroupKeys(ms));
    GroupsCoverRows(rows, ms, GroupKeys(ms));
  }

  predicate In2024(d: Date)
  {
    d.year == 2024 && 1 <= d.month <= 12
  }

  /** A strictly ascending list of months of one year, all from `lo` on,
      holds at most 13 - lo of them. */
  lemma {:induction false} MonthsOfOneYear(keys: seq<MonthKey>, lo: int)
    requires Ascending(keys)
    requires forall i :: 0 <= i < |keys| ==> keys[i].YearMonth? && keys[i].year == 2024 && lo <= keys[i].month <= 12
    ensures |keys| <= if lo <= 13 then 13 - lo else 0
  {
    if keys != [] {
      forall i | 0 <= i < |keys[1..]| ensures keys[0].month + 1 <= keys[1..][i].month {
        assert Before(keys[0], keys[i + 1]);
      }
      MonthsOfOneYear(keys[1..], keys[0].month + 1);
    }
  }

  /** When the dates are synthesised from the 2024 calendar, every month key
      lies in 2024 and the trend has at most twelve rows. */
  lemma SynthesisedYearHasTwelveMonths(f: Frame, draw: nat -> Date)
    requires JoinDate !in f.columns
    requires forall i: nat :: In2024(draw(i))
    requires TrendOf(f, draw).Ok?
    ensures var t := TrendOf(f, draw).value;
      && |t| <= 12
      && forall i :: 0 <= i < |t| ==> t[i].month.YearMonth? && t[i].month.year == 2024
  {
    var rows := PreparedRows(f, draw);
    var ms := MonthsOf(rows);
    SynthesisedColumns(f, draw);
    GroupKeysSpec(ms);
    var keys := GroupKeys(ms);
    forall i | 0 <= i < |keys|
      ensures keys[i].YearMonth? && keys[i].year == 2024 && 1 <= keys[i].month <= 12
    {
      assert keys[i] in ms;
      var j :| 0 <= j < |ms| && ms[j] == keys[i];
      assert In2024(draw(j));
    }
    MonthsOfOneYear(keys, 1);
  }

  /** A month's averages exist exactly when one of its rows has a session
      count, and its new players never exceed its rows. */
  lemma MonthAggregates(rows: seq<Row>, ms: seq<MonthKey>, k: MonthKey)
    requires |ms| == |rows|
    ensures var a := Aggregate(rows, ms, k);
      var g := InMonth(rows, ms, k);
      && a.newPlayers <= |g|
      && (a.averageSessions.Some? <==> exists i :: 0 <= i < |g| && g[i].sessions.Some?)
  {
    var g := InMonth(rows, ms, k);
    var s := Sessions(g);
    if exists i :: 0 <= i < |g| && g[i].sessions.Some? {
      var i :| 0 <= i < |g| && g[i].sessions.Some?;
      assert Some(g[i].sessions.value) == s[i];
    }
    if exists x :: Some(x) in s {
      var x :| Some(x) in s;
      var i :| 0 <= i < |s| && s[i] == Some(x);
    }
  }
}
