/** The spending-prediction view: the column guard, `dropna` over the four
    modelling columns, the "more than 50 rows" guard, the 70/30 train/test
    split, and the evaluation of the classifier's test predictions by
    accuracy and by the confusion matrix with fixed labels [0, 1].
    Splitting and fitting are sklearn's: they enter as one opaque result. */
module Prediction {
  import opened Table

  const Needed: seq<Column> := [Age, SessionsPerWeek, PlayerLevel, InGamePurchases]

  /** Training needs strictly more complete rows than this. */
  const MinRows: nat := 50

  /** One complete row: the three features and the purchase label. */
  datatype Sample = Sample(features: Features, purchased: real)

  /** What `train_test_split` followed by `LogisticRegression.fit` yields on
      the complete rows: either an exception (for instance a purchase label
      with a single member under stratification, or a training set with a
      single class), or the test mask and the fitted classifier's `predict`. */
  datatype Learned = Raises | Fitted(inTest: seq<bool>, predict: Features -> real)

  datatype Outcome =
    | MissingColumns                                    // (None, None) after the first warning
    | TooFewRows                                        // (None, None) after the second warning
    | Raised                                            // sklearn raised
    | Evaluated(accuracy: real, matrix: seq<seq<nat>>)  // accuracy and the 2x2 confusion matrix

  // ---------------------------------------------------------------------
  // Complete rows
  // ---------------------------------------------------------------------

  predicate Complete(r: Row)
  {
    HasFeatures(r) && r.purchases.Some?
  }

  function ToSample(r: Row): Sample
    requires Complete(r)
  {
    Sample(FeaturesOf(r), r.purchases.value)
  }

  /** `filtered_data[needed].dropna()`: the complete rows, in order. */
  function ModelData(rows: seq<Row>): (d: seq<Sample>)
    ensures |d| == Count(rows, Complete)
  {
    var kept := Filter(rows, Complete);
    seq(|kept|, i requires 0 <= i < |kept| => assert kept[i] in kept; ToSample(kept[i]))
  }

  // ---------------------------------------------------------------------
  // The split
  // ---------------------------------------------------------------------

  /** `test_size=0.3`: sklearn takes the ceiling of 0.3 n. */
  function TestSize(n: nat): nat
  {
    (3 * n + 9) / 10
  }

  predicate IsTest(b: bool)
  {
    b
  }

  /** A mask the splitter may return for `n` rows: one flag per row and
      exactly `TestSize(n)` rows on the test side. */
  predicate SplitMask(mask: seq<bool>, n: nat)
  {
    |mask| == n && Count(mask, IsTest) == TestSize(n)
  }

  /** The samples on one side of the mask, in order. */
  function Side(data: seq<Sample>, mask: seq<bool>, test: bool): (s: seq<Sample>)
    requires |mask| == |data|
    ensures |s| <= |data|
  {
    if data == [] then []
    else (if mask[0] == test then [data[0]] else []) + Side(data[1..], mask[1..], test)
  }

  // ---------------------------------------------------------------------
  // Evaluation
  // ---------------------------------------------------------------------

  /** (actual, predicted) for each test sample, in order. */
  function Labelled(test: seq<Sample>, predict: Features -> real): (pairs: seq<(real, real)>)
    ensures |pairs| == |test|
  {
    seq(|test|, i requires 0 <= i < |test| => (test[i].purchased, predict(test[i].features)))
  }

  predicate Agrees(pair: (real, real))
  {
    pair.0 == pair.1
  }

  /** `accuracy_score`: the share of test samples predicted correctly. */
  function Accuracy(pairs: seq<(real, real)>): (acc: real)
    requires |pairs| > 0
    ensures 0.0 <= acc <= 1.0
  {
    var c, n := Count(pairs, Agrees) as real, |pairs| as real;
    Share(c, n, n);
    c / n
  }

  /** Number of test samples with actual label `a` and predicted label `p`. */
  function Cell(pairs: seq<(real, real)>, a: real, p: real): nat
  {
    if pairs == [] then 0
    else (if pairs[0] == (a, p) then 1 else 0) + Cell(pairs[1..], a, p)
  }

  /** `confusion_matrix(y_test, y_pred, labels=[0, 1])`: rows are the actual
      labels 0 and 1, columns the predicted ones, whatever labels occur. */
  function Confusion(pairs: seq<(real, real)>): (m: seq<seq<nat>>)
    ensures |m| == 2 && |m[0]| == 2 && |m[1]| == 2
    ensures m[0][0] + m[0][1] + m[1][0] + m[1][1] <= |pairs|
    ensures m[0][0] + m[1][1] <= Count(pairs, Agrees)
  {
    CellsBounded(pairs);
    [[Cell(pairs, 0.0, 0.0), Cell(pairs, 0.0, 1.0)],
     [Cell(pairs, 1.0, 0.0), Cell(pairs, 1.0, 1.0)]]
  }

  /** An actual label among the fixed labels [0, 1]. */
  predicate KnownActual(pair: (real, real))
  {
    pair.0 == 0.0 || pair.0 == 1.0
  }

  /** (actual, predicted) for the test side of a fitted split. */
  function TestPairs(d: seq<Sample>, l: Learned): (pairs: seq<(real, real)>)
    requires l.Fitted? && |l.inTest| == |d|
    ensures |pairs| == |Side(d, l.inTest, true)|
  {
    Labelled(Side(d, l.inTest, true), l.predict)
  }

  /** The whole view. `confusion_matrix` with `labels=[0, 1]` raises when
      none of the actual test labels is 0 or 1. */
  function RenderPrediction(f: Frame, learner: seq<Sample> -> Learned): (out: Outcome)
    requires var d := ModelData(f.rows);
      HasColumns(f, Needed) && |d| > MinRows && learner(d).Fitted? ==> SplitMask(learner(d).inTest, |d|)
    ensures out == MissingColumns <==> !HasColumns(f, Needed)
    ensures out == TooFewRows <==> HasColumns(f, Needed) && Count(f.rows, Complete) <= MinRows
    ensures out == Raised <==>
      var d := ModelData(f.rows);
      HasColumns(f, Needed) && |d| > MinRows &&
      (learner(d).Raises? || Count(TestPairs(d, learner(d)), KnownActual) == 0)
    ensures out.Evaluated? ==> 0.0 <= out.accuracy <= 1.0
  {
    if !HasColumns(f, Needed) then MissingColumns
    else
      var d := ModelData(f.rows);
      if |d| <= MinRows then TooFewRows
      else match learner(d)
        case Raises => Raised
        case Fitted(mask, predict) =>
          TestSideNonEmpty(|d|);
          SplitPartition(d, mask);
          var pairs := TestPairs(d, learner(d));
          if Count(pairs, KnownActual) == 0 then Raised
          else Evaluated(Accuracy(pairs), Confusion(pairs))
  }

  // ---------------------------------------------------------------------
  // Properties
  // ---------------------------------------------------------------------

  /** `TestSize` is the ceiling of 0.3 n: the least k with 10 k >= 3 n. */
  lemma TestSizeIsCeiling(n: nat)
    ensures 10 * TestSize(n) >= 3 * n
    ensures TestSize(n) == 0 || 10 * (TestSize(n) - 1) < 3 * n
  {
  }

  /** Past the guard both sides of the split are non-empty. */
  lemma TestSideNonEmpty(n: nat)
    requires n > MinRows
    ensures 0 < TestSize(n) < n
  {
  }

  /** The two sides partition the complete rows: together they hold every
      sample exactly as often as the data does, and the test side has as
      many samples as the mask marks. */
  lemma {:induction false} SplitPartition(data: seq<Sample>, mask: seq<bool>)
    requires |mask| == |data|
    ensures multiset(Side(data, mask, false)) + multiset(Side(data, mask, true)) == multiset(data)
    ensures |Side(data, mask, true)| == Count(mask, IsTest)
    ensures |Side(data, mask, false)| + |Side(data, mask, true)| == |data|
  {
    if data != [] {
      SplitPartition(data[1..], mask[1..]);
      assert data == [data[0]] + data[1..];
    }
  }

  /** A sample is on the test side exactly when some position holding it is
      marked for testing; the same for the training side. */
  lemma {:induction false} SideMembers(data: seq<Sample>, mask: seq<bool>, test: bool, s: Sample)
    requires |mask| == |data|
    ensures s in Side(data, mask, test) <==> exists i :: 0 <= i < |data| && data[i] == s && mask[i] == test
  {
    if data != [] {
      SideMembers(data[1..], mask[1..], test, s);
      if s in Side(data[1..], mask[1..], test) {
        var i :| 0 <= i < |data[1..]| && data[1..][i] == s && mask[1..][i] == test;
        assert data[i + 1] == s && mask[i + 1] == test;
      }
      if exists i :: 0 <= i < |data| && data[i] == s && mask[i] == test {
        var i :| 0 <= i < |data| && data[i] == s && mask[i] == test;
        if i > 0 {
          assert data[1..][i - 1] == s && mask[1..][i - 1] == test;
        }
      }
    }
  }

  /** `dropna` keeps exactly the complete rows: a sample is in the model data
      exactly when it is the sample of some complete row. */
  lemma ModelDataExactly(rows: seq<Row>, s: Sample)
    ensures s in ModelData(rows) <==> exists i :: 0 <= i < |rows| && Complete(rows[i]) && ToSample(rows[i]) == s
  {
    var kept := Filter(rows, Complete);
    var d := ModelData(rows);
    if s in d {
      var j :| 0 <= j < |d| && d[j] == s;
      assert kept[j] in kept;
      var i :| 0 <= i < |rows| && rows[i] == kept[j];
    }
    if exists i :: 0 <= i < |rows| && Complete(rows[i]) && ToSample(rows[i]) == s {
      var i :| 0 <= i < |rows| && Complete(rows[i]) && ToSample(rows[i]) == s;
      FilterKeeps(rows, Complete, rows[i]);
      var j :| 0 <= j < |kept| && kept[j] == rows[i];
      assert d[j] == s;
    }
  }

  /** A row with a missing modelling value changes nothing: it is dropped
      before the size guard is applied. */
  lemma IncompleteRowIgnored(rows: seq<Row>, r: Row)
    requires !Complete(r)
    ensures ModelData(rows + [r]) == ModelData(rows)
  {
    FilterAppend(rows, [r], Complete);
    assert Filter([r], Complete) == [];
  }

  /** The guard's boundary: 50 complete rows are too few, 51 are enough. */
  lemma GuardBoundary(f: Frame, learner: seq<Sample> -> Learned)
    requires HasColumns(f, Needed)
    requires var d := ModelData(f.rows);
      |d| > MinRows && learner(d).Fitted? ==> SplitMask(learner(d).inTest, |d|)
    ensures Count(f.rows, Complete) == 50 ==> RenderPrediction(f, learner) == TooFewRows
    ensures Count(f.rows, Complete) == 51 ==> RenderPrediction(f, learner) != TooFewRows
  {
  }

  /** With actual and predicted labels in {0, 1}, the four cells count every
      test sample once, and the diagonal counts the correct predictions. */
  lemma {:induction false} CellsCoverFlags(pairs: seq<(real, real)>)
    requires forall k :: 0 <= k < |pairs| ==>
      (pairs[k].0 == 0.0 || pairs[k].0 == 1.0) && (pairs[k].1 == 0.0 || pairs[k].1 == 1.0)
    ensures Cell(pairs, 0.0, 0.0) + Cell(pairs, 0.0, 1.0) + Cell(pairs, 1.0, 0.0) + Cell(pairs, 1.0, 1.0) == |pairs|
    ensures Cell(pairs, 0.0, 0.0) + Cell(pairs, 1.0, 1.0) == Count(pairs, Agrees)
  {
    if pairs != [] {
      CellsCoverFlags(pairs[1..]);
    }
  }

  /** Whatever the labels, the cells never count more samples than there
      are, nor more correct predictions than `accuracy_score` does. */
  lemma {:induction false} CellsBounded(pairs: seq<(real, real)>)
    ensures Cell(pairs, 0.0, 0.0) + Cell(pairs, 0.0, 1.0) + Cell(pairs, 1.0, 0.0) + Cell(pairs, 1.0, 1.0) <= |pairs|
    ensures Cell(pairs, 0.0, 0.0) + Cell(pairs, 1.0, 1.0) <= Count(pairs, Agrees)
  {
    if pairs != [] {
      CellsBounded(pairs[1..]);
    }
  }

  /** A class absent from the actual labels has an all-zero row. */
  lemma {:induction false} AbsentClassRowZero(pairs: seq<(real, real)>, a: real)
    requires forall k :: 0 <= k < |pairs| ==> pairs[k].0 != a
    ensures Cell(pairs, a, 0.0) == 0 && Cell(pairs, a, 1.0) == 0
  {
    if pairs != [] {
      AbsentClassRowZero(pairs[1..], a);
    }
  }

  /** Accuracy is at least the diagonal of the confusion matrix over the test
      size, and equal to it when every label is 0 or 1. */
  lemma AccuracyFromDiagonal(pairs: seq<(real, real)>)
    requires |pairs| > 0
    ensures var m := Confusion(pairs);
      (m[0][0] + m[1][1]) as real / |pairs| as real <= Accuracy(pairs)
    ensures (forall k :: 0 <= k < |pairs| ==>
               (pairs[k].0 == 0.0 || pairs[k].0 == 1.0) && (pairs[k].1 == 0.0 || pairs[k].1 == 1.0))
      ==> Accuracy(pairs) == (Confusion(pairs)[0][0] + Confusion(pairs)[1][1]) as real / |pairs| as real
  {
    CellsBounded(pairs);
    var n := |pairs| as real;
    var diag := (Cell(pairs, 0.0, 0.0) + Cell(pairs, 1.0, 1.0)) as real;
    var c := Count(pairs, Agrees) as real;
    Share(diag, c, n);
    if forall k :: 0 <= k < |pairs| ==>
         (pairs[k].0 == 0.0 || pairs[k].0 == 1.0) && (pairs[k].1 == 0.0 || pairs[k].1 == 1.0)
    {
      CellsCoverFlags(pairs);
    }
  }

  /** The evaluation reads the classifier's predictions on the test side
      only, and that side holds `TestSize` samples. */
  lemma EvaluationOfTestSide(f: Frame, learner: seq<Sample> -> Learned)
    requires var d := ModelData(f.rows);
      HasColumns(f, Needed) && |d| > MinRows && learner(d).Fitted? ==> SplitMask(learner(d).inTest, |d|)
    requires RenderPrediction(f, learner).Evaluated?
    ensures var d := ModelData(f.rows);
      var l := learner(d);
      var pairs := Labelled(Side(d, l.inTest, true), l.predict);
      && |pairs| == TestSize(|d|) > 0
      && Count(pairs, KnownActual) > 0
      && RenderPrediction(f, learner) == Evaluated(Accuracy(pairs), Confusion(pairs))
  {
    var d := ModelData(f.rows);
    SplitPartition(d, learner(d).inTest);
    TestSideNonEmpty(|d|);
  }
  /** With purchase labels in {0, 1}, as the data holds them, the confusion
      matrix never raises: a fitted classifier is always evaluated. */
  lemma BinaryLabelsAreEvaluated(f: Frame, learner: seq<Sample> -> Learned)
    requires var d := ModelData(f.rows);
      HasColumns(f, Needed) && |d| > MinRows && learner(d).Fitted? ==> SplitMask(learner(d).inTest, |d|)
    requires HasColumns(f, Needed) && Count(f.rows, Complete) > MinRows
    requires learner(ModelData(f.rows)).Fitted?
    requires forall i :: 0 <= i < |f.rows| && f.rows[i].purchases.Some? ==>
      f.rows[i].purchases.value == 0.0 || f.rows[i].purchases.value == 1.0
    ensures RenderPrediction(f, learner).Evaluated?
  {
    var d := ModelData(f.rows);
    var l := learner(d);
    SplitPartition(d, l.inTest);
    TestSideNonEmpty(|d|);
    var side := Side(d, l.inTest, true);
    var pairs := TestPairs(d, l);
    var s := side[0];
    assert s in side;
    SideMembers(d, l.inTest, true, s);
    var k :| 0 <= k < |d| && d[k] == s && l.inTest[k];
    assert s in d;
    ModelDataExactly(f.rows, s);
    var i :| 0 <= i < |f.rows| && Complete(f.rows[i]) && ToSample(f.rows[i]) == s;
    assert KnownActual(pairs[0]);
    assert Count(pairs, KnownActual) > 0;
  }
}
