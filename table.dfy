/** The player table that every analytics view receives, and the pandas
    column operations they use: counting, filtering (`dropna`), sums and
    means that skip missing values. */
module Table {

  datatype Option<+T> = None | Some(value: T)

  /** Why a view produced no result: the source raises (pandas on a missing
      column, plotly on a figure naming a missing column, a name that was
      never bound). */
  datatype Failure =
    | MissingColumn(column: Column)
    | FigureRaised(column: Column)
    | UnboundResult

  datatype Result<+T> = Ok(value: T) | Err(failure: Failure)

  /** Column names of the player dataset read by the analytics views.
      `Month` is the key column the trend view derives on its copy. */
  datatype Column =
    | PlayerID | Age | Gender | Location | GameGenre | SessionsPerWeek
    | PlayerLevel | InGamePurchases | EngagementLevel | JoinDate | Month

  datatype Date = Date(year: int, month: int, day: int)

  /** One player record. `None` is a missing value (NaN for numbers, NaT
      for dates). A field of a column the frame does not have is never read. */
  datatype Row = Row(
    playerId: Option<int>,
    age: Option<real>,
    sessions: Option<real>,
    level: Option<real>,
    purchases: Option<real>,
    engagement: Option<string>,
    joinDate: Option<Date>)

  /** A data frame: the set of column names it carries and its rows in order. */
  datatype Frame = Frame(columns: set<Column>, rows: seq<Row>)

  /** The three model features (Age, SessionsPerWeek, PlayerLevel) of a complete row. */
  datatype Features = Features(age: real, sessions: real, level: real)

  predicate HasColumns(f: Frame, needed: seq<Column>)
  {
    forall c :: c in needed ==> c in f.columns
  }

  /** The first of `needed` that the frame lacks: the column pandas raises on. */
  function FirstMissing(f: Frame, needed: seq<Column>): (m: Option<Column>)
    ensures m.None? <==> HasColumns(f, needed)
    ensures m.Some? ==> m.value in needed && m.value !in f.columns
    ensures m.Some? ==> exists i :: 0 <= i < |needed| && needed[i] == m.value &&
                                   (forall j :: 0 <= j < i ==> needed[j] in f.columns)
  {
    if needed == [] then None
    else if needed[0] !in f.columns then Some(needed[0])
    else FirstMissing(f, needed[1..])
  }

  /** Number of elements satisfying `p` (a boolean Series' `.sum()`). */
  function Count<T>(s: seq<T>, p: T -> bool): (n: nat)
    ensures n <= |s|
  {
    if s == [] then 0 else (if p(s[0]) then 1 else 0) + Count(s[1..], p)
  }

  /** The elements satisfying `p`, in their original order. */
  function Filter<T>(s: seq<T>, p: T -> bool): (r: seq<T>)
    ensures |r| == Count(s, p)
    ensures forall x :: x in r ==> x in s && p(x)
  {
    if s == [] then []
    else (if p(s[0]) then [s[0]] else []) + Filter(s[1..], p)
  }

  function Sum(s: seq<real>): real
  {
    if s == [] then 0.0 else s[0] + Sum(s[1..])
  }

  function Mean(s: seq<real>): real
    requires |s| > 0
  {
    Sum(s) / |s| as real
  }

  /** The present values of a column, in order. */
  function Present(s: seq<Option<real>>): (r: seq<real>)
    ensures |r| <= |s|
    ensures forall x :: x in r ==> Some(x) in s
  {
    if s == [] then []
    else (if s[0].Some? then [s[0].value] else []) + Present(s[1..])
  }

  /** `Series.sum()`: missing values are skipped; an all-missing column sums to 0. */
  function SumSkipNa(s: seq<Option<real>>): real
  {
    Sum(Present(s))
  }

  /** `Series.mean()`: missing values are skipped; with none present the result is NaN (None). */
  function MeanSkipNa(s: seq<Option<real>>): (m: Option<real>)
    ensures m.Some? <==> exists x :: Some(x) in s
  {
    var xs := Present(s);
    if |xs| == 0 then
      assert forall x :: Some(x) !in s by { PresentComplete(s); }
      None
    else
      assert Some(xs[0]) in s;
      Some(Mean(xs))
  }

  function Ages(rows: seq<Row>): seq<Option<real>>
  {
    seq(|rows|, i requires 0 <= i < |rows| => rows[i].age)
  }

  function Sessions(rows: seq<Row>): seq<Option<real>>
  {
    seq(|rows|, i requires 0 <= i < |rows| => rows[i].sessions)
  }

  function Levels(rows: seq<Row>): seq<Option<real>>
  {
    seq(|rows|, i requires 0 <= i < |rows| => rows[i].level)
  }

  function Purchases(rows: seq<Row>): seq<Option<real>>
  {
    seq(|rows|, i requires 0 <= i < |rows| => rows[i].purchases)
  }

  /** `rows['SessionsPerWeek'] >= t`: a missing value compares as false. */
  predicate SessionsAtLeast(r: Row, t: real)
  {
    r.sessions.Some? && r.sessions.value >= t
  }

  /** `rows['EngagementLevel'] == "High"`: a missing value compares as false. */
  predicate HighlyEngaged(r: Row)
  {
    r.engagement == Some("High")
  }

  /** True when Age, SessionsPerWeek and PlayerLevel are all present. */
  predicate HasFeatures(r: Row)
  {
    r.age.Some? && r.sessions.Some? && r.level.Some?
  }

  function FeaturesOf(r: Row): Features
    requires HasFeatures(r)
  {
    Features(r.age.value, r.sessions.value, r.level.value)
  }

  // ---------------------------------------------------------------------
  // Facts about counting and filtering
  // ---------------------------------------------------------------------

  lemma {:induction false} PresentComplete(s: seq<Option<real>>)
    ensures forall x :: Some(x) in s ==> x in Present(s)
  {
    if s != [] {
      PresentComplete(s[1..]);
      assert forall x :: Some(x) in s ==> s[0] == Some(x) || Some(x) in s[1..];
    }
  }

  /** A weaker predicate never counts fewer elements. */
  lemma {:induction false} CountMonotone<T>(s: seq<T>, p: T -> bool, q: T -> bool)
    requires forall x :: x in s && p(x) ==> q(x)
    ensures Count(s, p) <= Count(s, q)
  {
    if s != [] {
      assert forall x :: x in s[1..] ==> x in s;
      CountMonotone(s[1..], p, q);
    }
  }

  lemma {:induction false} CountAppend<T>(a: seq<T>, b: seq<T>, p: T -> bool)
    ensures Count(a + b, p) == Count(a, p) + Count(b, p)
  {
    if a == [] {
      assert a + b == b;
    } else {
      assert (a + b)[1..] == a[1..] + b;
      CountAppend(a[1..], b, p);
    }
  }

  /** Filtering distributes over concatenation: it keeps the original order. */
  lemma {:induction false} FilterAppend<T>(a: seq<T>, b: seq<T>, p: T -> bool)
    ensures Filter(a + b, p) == Filter(a, p) + Filter(b, p)
  {
    if a == [] {
      assert a + b == b;
    } else {
      assert (a + b)[1..] == a[1..] + b;
      FilterAppend(a[1..], b, p);
    }
  }

  /** Every element of `s` satisfying `p` survives the filter. */
  lemma {:induction false} FilterKeeps<T>(s: seq<T>, p: T -> bool, x: T)
    requires x in s && p(x)
    ensures x in Filter(s, p)
  {
    if s[0] != x {
      FilterKeeps(s[1..], p, x);
    }
  }

  /** The sum of values that each lie in [lo, hi] lies in [n lo, n hi]. */
  lemma {:induction false} SumBounds(s: seq<real>, lo: real, hi: real)
    requires forall x :: x in s ==> lo <= x <= hi
    ensures |s| as real * lo <= Sum(s) <= |s| as real * hi
  {
    if s != [] {
      var rest := s[1..];
      assert forall x :: x in rest ==> x in s;
      SumBounds(rest, lo, hi);
      assert s[0] in s;
      assert Sum(s) == s[0] + Sum(rest);
      assert |s| as real == |rest| as real + 1.0;
      AddBounded(|rest| as real, s[0], Sum(rest), lo, hi);
    }
  }

  /** One more value in [lo, hi] on top of a sum of m such values. */
  lemma AddBounded(m: real, x: real, rest: real, lo: real, hi: real)
    requires lo <= x <= hi && m * lo <= rest <= m * hi
    ensures (m + 1.0) * lo <= x + rest <= (m + 1.0) * hi
  {
    assert (m + 1.0) * lo == m * lo + lo;
    assert (m + 1.0) * hi == m * hi + hi;
  }

  /** The mean of values in [lo, hi] lies in [lo, hi]. */
  lemma MeanBounds(s: seq<real>, lo: real, hi: real)
    requires |s| > 0
    requires forall x :: x in s ==> lo <= x <= hi
    ensures lo <= Mean(s) <= hi
  {
    SumBounds(s, lo, hi);
    var n := |s| as real;
    assert n * lo <= Sum(s) <= n * hi;
    assert lo == (n * lo) / n && hi == (n * hi) / n;
  }

  /** A sum of 0/1 flags is at most the number of flags, and not negative. */
  lemma {:induction false} FlagSumBounds(s: seq<real>)
    requires forall x :: x in s ==> x == 0.0 || x == 1.0
    ensures 0.0 <= Sum(s) <= |s| as real
  {
    SumBounds(s, 0.0, 1.0);
  }

  /** Dividing a <= b <= n by n keeps their order, stays in [0, 1], and undoes by multiplying. */
  lemma Share(a: real, b: real, n: real)
    requires 0.0 <= a <= b <= n && n > 0.0
    ensures 0.0 <= a / n <= b / n <= 1.0
    ensures (a / n) * n == a
  {
  }
}
