/** What both correlation views share: the fixed numeric columns, the six
    candidate pairs in loop order, the per-pair `dropna`, the result row with
    its significance flag, and the two-key ranking (p ascending, then |r|
    descending). scipy's `pearsonr` is an opaque parameter. */
module PairStats {
  import opened Table
  import opened Decimal

  /** The numeric columns, in the order the pair loops walk them. */
  const NumericColumns: seq<Column> := [Age, SessionsPerWeek, PlayerLevel, InGamePurchases]

  /** Fewer complete observations than this and a pair is skipped. */
  const MinObservations: nat := 3

  /** A pair is flagged significant when its p-value is below this. */
  const Alpha: real := 0.05

  /** What `pearsonr` yields for a series of value pairs: (r, p), or an exception. */
  datatype Pearson = Coefficients(r: real, p: real) | Raises

  /** One row of the significance table; r is rounded to 3 places and p to 4,
      while the flag compares the unrounded p. */
  datatype CorrRow = CorrRow(first: Column, second: Column, r: real, p: real, significant: bool)

  /** The value of a numeric column in a row. */
  function ValueOf(r: Row, c: Column): Option<real>
  {
    match c
    case Age => r.age
    case SessionsPerWeek => r.sessions
    case PlayerLevel => r.level
    case InGamePurchases => r.purchases
    case _ => None
  }

  predicate BothPresent(r: Row, c1: Column, c2: Column)
  {
    ValueOf(r, c1).Some? && ValueOf(r, c2).Some?
  }

  /** The values of row i for the pair, when both are present. */
  function PairAt(rows: seq<Row>, i: nat, c1: Column, c2: Column): (real, real)
    requires i < |rows| && BothPresent(rows[i], c1, c2)
  {
    (ValueOf(rows[i], c1).value, ValueOf(rows[i], c2).value)
  }

  /** The value pair one row contributes: none unless both values are present. */
  function PairOf(r: Row, c1: Column, c2: Column): (s: seq<(real, real)>)
    ensures |s| <= 1
  {
    if BothPresent(r, c1, c2) then [(ValueOf(r, c1).value, ValueOf(r, c2).value)] else []
  }

  /** `rows[[c1, c2]].dropna()`: the value pairs of the rows where both are
      present, in order. */
  function PairSeries(rows: seq<Row>, c1: Column, c2: Column): (s: seq<(real, real)>)
    ensures |s| <= |rows|
  {
    ConcatLength(rows, r => PairOf(r, c1, c2));
    Concat(rows, r => PairOf(r, c1, c2))
  }

  /** The per-pair `dropna` keeps exactly the value pairs of the rows where
      both values are present. */
  lemma PairSeriesExactly(rows: seq<Row>, c1: Column, c2: Column, v: (real, real))
    ensures v in PairSeries(rows, c1, c2) <==>
      exists i :: 0 <= i < |rows| && BothPresent(rows[i], c1, c2) && PairAt(rows, i, c1, c2) == v
  {
    ConcatMember(rows, r => PairOf(r, c1, c2), v);
  }

  /** One value pair per row where both values are present. */
  lemma {:induction false} PairSeriesLength(rows: seq<Row>, c1: Column, c2: Column)
    ensures |PairSeries(rows, c1, c2)| == Count(rows, r => BothPresent(r, c1, c2))
  {
    if rows != [] {
      var n := |rows| - 1;
      PairSeriesLength(rows[..n], c1, c2);
      assert rows == rows[..n] + [rows[n]];
      CountAppend(rows[..n], [rows[n]], r => BothPresent(r, c1, c2));
    }
  }

  /** The per-pair `dropna` keeps the original row order: the series of a
      concatenation is the concatenation of the series. */
  lemma PairSeriesInOrder(a: seq<Row>, b: seq<Row>, c1: Column, c2: Column)
    ensures PairSeries(a + b, c1, c2) == PairSeries(a, c1, c2) + PairSeries(b, c1, c2)
  {
    ConcatAppend(a, b, r => PairOf(r, c1, c2));
  }

  function MakeRow(c1: Column, c2: Column, r: real, p: real): (row: CorrRow)
    ensures row.first == c1 && row.second == c2
    ensures row.significant <==> p < 0.05
    ensures -0.0005 <= row.r - r <= 0.0005 && -0.00005 <= row.p - p <= 0.00005
  {
    CorrRow(c1, c2, Round(r, 3), Round(p, 4), p < Alpha)
  }

  // ---------------------------------------------------------------------
  // The candidate pairs, in the order of `for i` / `for j in range(i + 1, 4)`
  // ---------------------------------------------------------------------

  /** The pairs (i, j) for i < j < k, in loop order: the inner loop up to k. */
  function InnerPairs(i: nat, k: nat): seq<(Column, Column)>
    requires i < 4 && k <= 4
  {
    if k <= i + 1 then [] else InnerPairs(i, k - 1) + [(NumericColumns[i], NumericColumns[k - 1])]
  }

  /** All pairs whose first index is below i, in loop order. */
  function PairsBefore(i: nat): seq<(Column, Column)>
    requires i <= 4
  {
    if i == 0 then [] else PairsBefore(i - 1) + InnerPairs(i - 1, 4)
  }

  /** The inner loop for i starts from the pairs before i. */
  lemma InnerStart(i: nat)
    requires i < 4
    ensures PairsBefore(i) + InnerPairs(i, i + 1) == PairsBefore(i)
  {
    assert InnerPairs(i, i + 1) == [];
  }

  /** One pass of the inner loop appends the pair (i, j). */
  lemma InnerStep(i: nat, j: nat)
    requires i < j < 4
    ensures PairsBefore(i) + InnerPairs(i, j + 1)
      == PairsBefore(i) + InnerPairs(i, j) + [(NumericColumns[i], NumericColumns[j])]
  {
    assert InnerPairs(i, j + 1) == InnerPairs(i, j) + [(NumericColumns[i], NumericColumns[j])];
  }

  /** A finished inner loop for i leaves the pairs before i + 1. */
  lemma InnerEnd(i: nat)
    requires i < 4
    ensures PairsBefore(i) + InnerPairs(i, 4) == PairsBefore(i + 1)
  {
  }

  /** The six unordered pairs of the numeric columns. */
  function Candidates(): seq<(Column, Column)>
  {
    [(Age, SessionsPerWeek), (Age, PlayerLevel), (Age, InGamePurchases),
     (SessionsPerWeek, PlayerLevel), (SessionsPerWeek, InGamePurchases),
     (PlayerLevel, InGamePurchases)]
  }

  /** The nested loops visit exactly the six candidate pairs, in this order. */
  lemma LoopVisitsCandidates()
    ensures PairsBefore(4) == Candidates()
  {
    FirstInnerLoop();
    SecondInnerLoop();
    assert InnerPairs(2, 4) == [(PlayerLevel, InGamePurchases)] by {
      assert InnerPairs(2, 3) == [];
    }
    assert InnerPairs(3, 4) == [];
    assert PairsBefore(1) == InnerPairs(0, 4);
  }

  lemma FirstInnerLoop()
    ensures InnerPairs(0, 4) == [(Age, SessionsPerWeek), (Age, PlayerLevel), (Age, InGamePurchases)]
  {
    assert InnerPairs(0, 1) == [];
    assert InnerPairs(0, 2) == [(Age, SessionsPerWeek)];
    assert InnerPairs(0, 3) == [(Age, SessionsPerWeek), (Age, PlayerLevel)];
  }

  lemma SecondInnerLoop()
    ensures InnerPairs(1, 4) == [(SessionsPerWeek, PlayerLevel), (SessionsPerWeek, InGamePurchases)]
  {
    assert InnerPairs(1, 2) == [];
    assert InnerPairs(1, 3) == [(SessionsPerWeek, PlayerLevel)];
  }

  /** The pair at loop position (i, j) is a candidate. */
  lemma LoopPairIsCandidate(i: nat, j: nat)
    requires i < j < 4
    ensures (NumericColumns[i], NumericColumns[j]) in Candidates()
  {
  }

  // ---------------------------------------------------------------------
  // The rows the pair loop appends
  // ---------------------------------------------------------------------

  /** The row one pair contributes: none when it has fewer than three
      complete observations or when `pearsonr` raises on it. */
  function PairRow(rows: seq<Row>, pair: (Column, Column), pearson: seq<(real, real)> -> Pearson)
    : (out: seq<CorrRow>)
    ensures |out| <= 1
    ensures out != [] ==>
      && |PairSeries(rows, pair.0, pair.1)| >= MinObservations
      && out[0].first == pair.0 && out[0].second == pair.1
  {
    var series := PairSeries(rows, pair.0, pair.1);
    if |series| < MinObservations then []
    else match pearson(series)
      case Raises => []
      case Coefficients(r, p) => [MakeRow(pair.0, pair.1, r, p)]
  }

  /** The lists `f` gives for the elements of `xs`, joined in order. */
  function Concat<T, U>(xs: seq<T>, f: T -> seq<U>): seq<U>
  {
    if xs == [] then [] else Concat(xs[..|xs| - 1], f) + f(xs[|xs| - 1])
  }

  /** The rows appended for `pairs`, in loop order. */
  function Collect(rows: seq<Row>, pairs: seq<(Column, Column)>, pearson: seq<(real, real)> -> Pearson)
    : (c: seq<CorrRow>)
    ensures |c| <= |pairs|
  {
    ConcatLength(pairs, pair => PairRow(rows, pair, pearson));
    Concat(pairs, pair => PairRow(rows, pair, pearson))
  }

  /** A pair on which `pearsonr` is called and raises. */
  predicate Raising(rows: seq<Row>, pair: (Column, Column), pearson: seq<(real, real)> -> Pearson)
  {
    var series := PairSeries(rows, pair.0, pair.1);
    |series| >= MinObservations && pearson(series).Raises?
  }

  predicate AnyRaises(rows: seq<Row>, pairs: seq<(Column, Column)>, pearson: seq<(real, real)> -> Pearson)
  {
    exists k :: 0 <= k < |pairs| && Raising(rows, pairs[k], pearson)
  }

  /** `x` is the row the pair yields: the pair has at least three complete
      observations, `pearsonr` returns (r, p) on them, and `x` carries the
      pair, the rounded statistics and the flag p < 0.05. */
  predicate PairYields(rows: seq<Row>, pair: (Column, Column), pearson: seq<(real, real)> -> Pearson, x: CorrRow)
  {
    var series := PairSeries(rows, pair.0, pair.1);
    && |series| >= MinObservations
    && pearson(series).Coefficients?
    && x == MakeRow(pair.0, pair.1, pearson(series).r, pearson(series).p)
  }

  lemma PairRowSpec(rows: seq<Row>, pair: (Column, Column), pearson: seq<(real, real)> -> Pearson, x: CorrRow)
    ensures x in PairRow(rows, pair, pearson) <==> PairYields(rows, pair, pearson, x)
  {
  }

  lemma ConcatStep<T, U>(xs: seq<T>, x: T, f: T -> seq<U>)
    ensures Concat(xs + [x], f) == Concat(xs, f) + f(x)
  {
    assert (xs + [x])[..|xs|] == xs;
  }

  lemma {:induction false} ConcatAppend<T, U>(xs: seq<T>, ys: seq<T>, f: T -> seq<U>)
    ensures Concat(xs + ys, f) == Concat(xs, f) + Concat(ys, f)
  {
    if ys == [] {
      assert xs + ys == xs;
    } else {
      var n := |ys| - 1;
      assert (xs + ys)[..|xs + ys| - 1] == xs + ys[..n];
      ConcatAppend(xs, ys[..n], f);
    }
  }

  lemma {:induction false} ConcatLength<T, U>(xs: seq<T>, f: T -> seq<U>)
    requires forall k :: 0 <= k < |xs| ==> |f(xs[k])| <= 1
    ensures |Concat(xs, f)| <= |xs|
  {
    if xs != [] {
      var n := |xs| - 1;
      assert forall k :: 0 <= k < n ==> xs[..n][k] == xs[k];
      ConcatLength(xs[..n], f);
    }
  }

  lemma {:induction false} ConcatMember<T, U>(xs: seq<T>, f: T -> seq<U>, y: U)
    ensures y in Concat(xs, f) <==> exists k :: 0 <= k < |xs| && y in f(xs[k])
  {
    if xs != [] {
      var n := |xs| - 1;
      var init := xs[..n];
      ConcatMember(init, f, y);
      assert Concat(xs, f) == Concat(init, f) + f(xs[n]);
      if y in Concat(init, f) {
        var k :| 0 <= k < n && y in f(init[k]);
        assert init[k] == xs[k];
      }
      if k :| 0 <= k < n && y in f(xs[k]) {
        assert init[k] == xs[k];
      }
    }
  }

  lemma {:induction false} ConcatEmpty<T, U>(xs: seq<T>, f: T -> seq<U>)
    ensures Concat(xs, f) == [] <==> forall k :: 0 <= k < |xs| ==> f(xs[k]) == []
  {
    if xs != [] {
      var n := |xs| - 1;
      var init := xs[..n];
      ConcatEmpty(init, f);
      var before, last := Concat(init, f), f(xs[n]);
      assert Concat(xs, f) == before + last;
      if before + last == [] {
        assert before == [] && last == [];
        forall k | 0 <= k < |xs|
          ensures f(xs[k]) == []
        {
          if k < n {
            assert init[k] == xs[k];
          }
        }
      } else if before != [] {
        var k :| 0 <= k < n && f(init[k]) != [];
        assert init[k] == xs[k];
      }
    }
  }

  /** Visiting one more pair appends that pair's row, if any. */
  lemma CollectStep(rows: seq<Row>, done: seq<(Column, Column)>, pair: (Column, Column),
                    pearson: seq<(real, real)> -> Pearson)
    ensures Collect(rows, done + [pair], pearson) == Collect(rows, done, pearson) + PairRow(rows, pair, pearson)
  {
    ConcatStep(done, pair, p => PairRow(rows, p, pearson));
  }

  lemma CollectAppend(rows: seq<Row>, a: seq<(Column, Column)>, b: seq<(Column, Column)>,
                      pearson: seq<(real, real)> -> Pearson)
    ensures Collect(rows, a + b, pearson) == Collect(rows, a, pearson) + Collect(rows, b, pearson)
  {
    ConcatAppend(a, b, p => PairRow(rows, p, pearson));
  }


  /** A row is collected exactly when some visited pair yields it. */
  lemma CollectedRow(rows: seq<Row>, pairs: seq<(Column, Column)>,
                     pearson: seq<(real, real)> -> Pearson, x: CorrRow)
    ensures x in Collect(rows, pairs, pearson) <==>
      exists k :: 0 <= k < |pairs| && PairYields(rows, pairs[k], pearson, x)
  {
    var f := p => PairRow(rows, p, pearson);
    ConcatMember(pairs, f, x);
    if x in Collect(rows, pairs, pearson) {
      var k :| 0 <= k < |pairs| && x in f(pairs[k]);
      PairRowSpec(rows, pairs[k], pearson, x);
    }
    if k :| 0 <= k < |pairs| && PairYields(rows, pairs[k], pearson, x) {
      PairRowSpec(rows, pairs[k], pearson, x);
      assert x in f(pairs[k]);
    }
  }

  /** Nothing is collected exactly when every visited pair is skipped. */
  lemma CollectEmpty(rows: seq<Row>, pairs: seq<(Column, Column)>, pearson: seq<(real, real)> -> Pearson)
    ensures Collect(rows, pairs, pearson) == [] <==>
      forall k :: 0 <= k < |pairs| ==> PairRow(rows, pairs[k], pearson) == []
  {
    ConcatEmpty(pairs, p => PairRow(rows, p, pearson));
  }

  // ---------------------------------------------------------------------
  // Ranking: `sort_values(by=[p, r], ascending=[True, False], key=abs on r)`
  // ---------------------------------------------------------------------

  function Abs(x: real): real
  {
    if x < 0.0 then -x else x
  }

  /** `a` belongs strictly before `b`: smaller p, or equal p and larger |r|. */
  predicate Precedes(a: CorrRow, b: CorrRow)
  {
    a.p < b.p || (a.p == b.p && Abs(a.r) > Abs(b.r))
  }

  /** `a` may stand before `b` in the ranking. */
  predicate RanksNoLater(a: CorrRow, b: CorrRow)
  {
    a.p < b.p || (a.p == b.p && Abs(a.r) >= Abs(b.r))
  }

  predicate Ranked(s: seq<CorrRow>)
  {
    forall i, j :: 0 <= i < j < |s| ==> RanksNoLater(s[i], s[j])
  }

  /** Places `x` after every row that does not rank strictly after it. */
  function Insert(x: CorrRow, s: seq<CorrRow>): (r: seq<CorrRow>)
    ensures multiset(r) == multiset(s) + multiset{x}
    ensures |r| == |s| + 1
  {
    if s == [] then [x]
    else if Precedes(x, s[0]) then [x] + s
    else
      assert s == [s[0]] + s[1..];
      [s[0]] + Insert(x, s[1..])
  }

  /** An insertion sort on the two keys: each row is inserted after every
      row that does not rank strictly after it. */
  function Rank(s: seq<CorrRow>): (r: seq<CorrRow>)
    ensures |r| == |s|
    ensures multiset(r) == multiset(s)
  {
    if s == [] then []
    else
      assert s == s[..|s| - 1] + [s[|s| - 1]];
      Insert(s[|s| - 1], Rank(s[..|s| - 1]))
  }

  lemma {:induction false} InsertRanked(x: CorrRow, s: seq<CorrRow>)
    requires Ranked(s)
    ensures Ranked(Insert(x, s))
  {
    if s != [] && !Precedes(x, s[0]) {
      InsertRanked(x, s[1..]);
      var t := Insert(x, s[1..]);
      forall y | y in t ensures RanksNoLater(s[0], y) {
        assert y in multiset(t);
        assert y == x || y in multiset(s[1..]);
        if y != x {
          var k :| 0 <= k < |s[1..]| && s[1..][k] == y;
          assert s[k + 1] == y;
        }
      }
      forall i, j | 0 <= i < j < |[s[0]] + t| ensures RanksNoLater(([s[0]] + t)[i], ([s[0]] + t)[j]) {
        if i == 0 {
          assert ([s[0]] + t)[j] == t[j - 1];
          assert t[j - 1] in t;
        }
      }
    }
  }

  /** The ranked table is ordered by the two keys and is a permutation of its input. */
  lemma {:induction false} RankSpec(s: seq<CorrRow>)
    ensures Ranked(Rank(s))
    ensures multiset(Rank(s)) == multiset(s)
  {
    if s != [] {
      var n := |s| - 1;
      RankSpec(s[..n]);
      InsertRanked(s[n], Rank(s[..n]));
      assert s == s[..n] + [s[n]];
    }
  }

  /** The tie-break: with equal p, the larger |r| ranks first; with smaller p,
      a pair ranks first whatever its r. */
  lemma RankingKeys(a: CorrRow, b: CorrRow, s: seq<CorrRow>)
    requires Ranked(s) && a in s && b in s
    requires a.p < b.p || (a.p == b.p && Abs(a.r) > Abs(b.r))
    ensures exists i, j :: 0 <= i < j < |s| && s[i] == a && s[j] == b
  {
    var i :| 0 <= i < |s| && s[i] == a;
    var j :| 0 <= j < |s| && s[j] == b;
    assert !RanksNoLater(b, a);
    assert i < j;
  }
}
