/** The cluster view: the column guard, `dropna` over the three features,
    the "more than 10 rows" guard, the attachment of the k-means labels to a
    copy of the complete rows, and the per-cluster feature means rounded to
    two places. Scaling and k-means fitting enter as an opaque labelling. */
module Clustering {
  import opened Table
  import opened Decimal

  const Needed: seq<Column> := [Age, SessionsPerWeek, PlayerLevel]

  /** Clustering needs strictly more complete rows than this. */
  const MinRows: nat := 10

  /** `n_clusters=3`: the labels k-means can give. */
  const Clusters: nat := 3
  type ClusterId = k: int | 0 <= k < Clusters

  /** A complete row of the copy, with the `Cluster` column added. */
  datatype Assigned = Assigned(features: Features, cluster: ClusterId)

  /** One row of the grouped means: the cluster and its rounded feature means. */
  datatype SummaryRow = SummaryRow(cluster: ClusterId, age: real, sessions: real, level: real)

  datatype Outcome =
    | MissingColumns                 // the first warning, bare return
    | TooFewRows                     // the second warning, bare return
    | Clustered(assignments: seq<Assigned>, summary: seq<SummaryRow>)

  /** `filtered_data[needed].dropna()`: the complete rows' features, in order. */
  function ClusterData(rows: seq<Row>): (d: seq<Features>)
    ensures |d| == Count(rows, HasFeatures)
  {
    var kept := Filter(rows, HasFeatures);
    seq(|kept|, i requires 0 <= i < |kept| => assert kept[i] in kept; FeaturesOf(kept[i]))
  }

  /** `data_show["Cluster"] = labels` on a copy: row i gets label i. */
  function Attach(d: seq<Features>, labels: seq<ClusterId>): (a: seq<Assigned>)
    requires |labels| == |d|
    ensures |a| == |d|
    ensures forall i :: 0 <= i < |a| ==> a[i].features == d[i] && a[i].cluster == labels[i]
  {
    seq(|d|, i requires 0 <= i < |d| => Assigned(d[i], labels[i]))
  }

  /** The features of the rows labelled `k`, in order. */
  function Group(a: seq<Assigned>, k: ClusterId): (g: seq<Features>)
    ensures |g| <= |a|
  {
    if a == [] then []
    else (if a[0].cluster == k then [a[0].features] else []) + Group(a[1..], k)
  }

  function AgesOf(g: seq<Features>): seq<real>
  {
    seq(|g|, i requires 0 <= i < |g| => g[i].age)
  }

  function SessionsOf(g: seq<Features>): seq<real>
  {
    seq(|g|, i requires 0 <= i < |g| => g[i].sessions)
  }

  function LevelsOf(g: seq<Features>): seq<real>
  {
    seq(|g|, i requires 0 <= i < |g| => g[i].level)
  }

  /** The means of one non-empty group, rounded to two places. */
  function GroupRow(a: seq<Assigned>, k: ClusterId): (r: SummaryRow)
    requires |Group(a, k)| > 0
    ensures r.cluster == k
  {
    var g := Group(a, k);
    SummaryRow(k, Round(Mean(AgesOf(g)), 2), Round(Mean(SessionsOf(g)), 2), Round(Mean(LevelsOf(g)), 2))
  }

  /** Which labels occur: `occupied[k]` holds when group k is non-empty. */
  function Occupied(a: seq<Assigned>): (occupied: seq<bool>)
    ensures |occupied| == Clusters
    ensures forall k: ClusterId :: occupied[k] <==> |Group(a, k)| > 0
  {
    seq(Clusters, k requires 0 <= k < Clusters => |Group(a, k)| > 0)
  }

  /** The labels `groupby` finds from `from` on: those that occur, in
      ascending order. */
  function LabelsFrom(occupied: seq<bool>, from: nat): (ls: seq<ClusterId>)
    requires |occupied| == Clusters && from <= Clusters
    decreases Clusters - from
    ensures forall i :: 0 <= i < |ls| ==> occupied[ls[i]]
  {
    if from == Clusters then []
    else (if occupied[from] then [from as ClusterId] else []) + LabelsFrom(occupied, from + 1)
  }

  /** `groupby("Cluster").mean().round(2)`: one row per label that occurs,
      in ascending label order. */
  function Summary(a: seq<Assigned>): (s: seq<SummaryRow>)
    ensures forall i :: 0 <= i < |s| ==> |Group(a, s[i].cluster)| > 0 && s[i] == GroupRow(a, s[i].cluster)
  {
    var ls := LabelsFrom(Occupied(a), 0);
    seq(|ls|, i requires 0 <= i < |ls| => GroupRow(a, ls[i]))
  }

  /** The whole view; `kmeans` gives the labels `fit_predict` returns on the
      (standardised) complete rows, one per row. */
  function RenderClustering(f: Frame, kmeans: seq<Features> -> seq<ClusterId>): (out: Outcome)
    requires var d := ClusterData(f.rows);
      HasColumns(f, Needed) && |d| > MinRows ==> |kmeans(d)| == |d|
    ensures out == MissingColumns <==> !HasColumns(f, Needed)
    ensures out == TooFewRows <==> HasColumns(f, Needed) && Count(f.rows, HasFeatures) <= MinRows
    ensures out.Clustered? ==>
      && |out.assignments| == Count(f.rows, HasFeatures) > MinRows
      && forall i :: 0 <= i < |out.assignments| ==> out.assignments[i].features == ClusterData(f.rows)[i]
    ensures out.Clustered? ==>
      && (forall i :: 0 <= i < |out.assignments| ==> out.assignments[i].cluster == kmeans(ClusterData(f.rows))[i])
      && out.summary == Summary(out.assignments)
  {
    if !HasColumns(f, Needed) then MissingColumns
    else
      var d := ClusterData(f.rows);
      if |d| <= MinRows then TooFewRows
      else
        var a := Attach(d, kmeans(d));
        Clustered(a, Summary(a))
  }

  // ---------------------------------------------------------------------
  // Properties
  // ---------------------------------------------------------------------

  /** `dropna` keeps exactly the complete rows: a feature triple is in the
      data exactly when some complete row carries it. */
  lemma ClusterDataExactly(rows: seq<Row>, x: Features)
    ensures x in ClusterData(rows) <==> exists i :: 0 <= i < |rows| && HasFeatures(rows[i]) && FeaturesOf(rows[i]) == x
  {
    var kept := Filter(rows, HasFeatures);
    var d := ClusterData(rows);
    if x in d {
      var j :| 0 <= j < |d| && d[j] == x;
      assert kept[j] in kept;
      var i :| 0 <= i < |rows| && rows[i] == kept[j];
    }
    if exists i :: 0 <= i < |rows| && HasFeatures(rows[i]) && FeaturesOf(rows[i]) == x {
      var i :| 0 <= i < |rows| && HasFeatures(rows[i]) && FeaturesOf(rows[i]) == x;
      FilterKeeps(rows, HasFeatures, rows[i]);
      var j :| 0 <= j < |kept| && kept[j] == rows[i];
      assert d[j] == x;
    }
  }

  /** `dropna` keeps the original order: the data of a concatenation is the
      concatenation of the data. */
  lemma ClusterDataInOrder(a: seq<Row>, b: seq<Row>)
    ensures ClusterData(a + b) == ClusterData(a) + ClusterData(b)
  {
    FilterAppend(a, b, HasFeatures);
  }

  /** The guard's boundary: 10 complete rows are too few, 11 are enough. */
  lemma GuardBoundary(f: Frame, kmeans: seq<Features> -> seq<ClusterId>)
    requires HasColumns(f, Needed)
    requires var d := ClusterData(f.rows); |d| > MinRows ==> |kmeans(d)| == |d|
    ensures Count(f.rows, HasFeatures) == 10 ==> RenderClustering(f, kmeans) == TooFewRows
    ensures Count(f.rows, HasFeatures) == 11 ==> RenderClustering(f, kmeans).Clustered?
  {
  }

  /** Every row falls in exactly one group: the group sizes add up to the
      number of rows. */
  lemma {:induction false} GroupsPartition(a: seq<Assigned>)
    ensures |Group(a, 0)| + |Group(a, 1)| + |Group(a, 2)| == |a|
  {
    if a != [] {
      GroupsPartition(a[1..]);
    }
  }

  /** A group holds the features of exactly the rows with that label. */
  lemma {:induction false} GroupMembers(a: seq<Assigned>, k: ClusterId, x: Features)
    ensures x in Group(a, k) <==> Assigned(x, k) in a
  {
    if a != [] {
      GroupMembers(a[1..], k, x);
      assert a == [a[0]] + a[1..];
    }
  }

  /** The labels from `from` on are each at least `from`. */
  lemma {:induction false} LabelsAtLeast(occupied: seq<bool>, from: nat)
    requires |occupied| == Clusters && from <= Clusters
    decreases Clusters - from
    ensures forall i :: 0 <= i < |LabelsFrom(occupied, from)| ==> from <= LabelsFrom(occupied, from)[i]
  {
    if from < Clusters {
      LabelsAtLeast(occupied, from + 1);
      var rest := LabelsFrom(occupied, from + 1);
      assert forall i :: 0 <= i < |rest| ==> from + 1 <= rest[i];
      if !occupied[from] {
        assert LabelsFrom(occupied, from) == rest;
      }
    }
  }

  /** The labels from `from` on are strictly ascending. */
  lemma {:induction false} LabelsAscending(occupied: seq<bool>, from: nat)
    requires |occupied| == Clusters && from <= Clusters
    decreases Clusters - from
    ensures forall i, j :: 0 <= i < j < |LabelsFrom(occupied, from)| ==>
      LabelsFrom(occupied, from)[i] < LabelsFrom(occupied, from)[j]
  {
    if from < Clusters {
      LabelsAscending(occupied, from + 1);
      LabelsAtLeast(occupied, from + 1);
      var rest := LabelsFrom(occupied, from + 1);
      var ls := LabelsFrom(occupied, from);
      if occupied[from] {
        assert ls == [from as ClusterId] + rest;
        forall i, j | 0 <= i < j < |ls|
          ensures ls[i] < ls[j]
        {
          assert ls[j] == rest[j - 1];
          if i > 0 {
            assert ls[i] == rest[i - 1];
          }
        }
      } else {
        assert ls == rest;
      }
    }
  }

  /** Every label from `from` on that occurs is found. */
  lemma {:induction false} LabelsComplete(occupied: seq<bool>, from: nat, k: ClusterId)
    requires |occupied| == Clusters && from <= k && occupied[k]
    decreases Clusters - from
    ensures k in LabelsFrom(occupied, from)
  {
    var head: seq<ClusterId> := if occupied[from] then [from as ClusterId] else [];
    assert LabelsFrom(occupied, from) == head + LabelsFrom(occupied, from + 1);
    if k == from {
      assert k in head;
    } else {
      LabelsComplete(occupied, from + 1, k);
    }
  }

  /** The summary has one row per label that occurs, in ascending label
      order, and each row holds that label's feature means rounded to two
      places. */
  lemma SummaryExactly(a: seq<Assigned>)
    ensures var s := Summary(a);
      && (forall i, j :: 0 <= i < j < |s| ==> s[i].cluster < s[j].cluster)
      && (forall k: ClusterId :: (exists i :: 0 <= i < |s| && s[i].cluster == k) <==> |Group(a, k)| > 0)
      && (forall i :: 0 <= i < |s| ==> |Group(a, s[i].cluster)| > 0 && s[i] == GroupRow(a, s[i].cluster))
  {
    SummaryFollowsLabels(a);
    SummaryAscending(a);
    SummaryCoversGroups(a);
  }

  lemma SummaryAscending(a: seq<Assigned>)
    ensures forall i, j :: 0 <= i < j < |Summary(a)| ==> Summary(a)[i].cluster < Summary(a)[j].cluster
  {
    var ls := LabelsFrom(Occupied(a), 0);
    SummaryFollowsLabels(a);
    LabelsAscending(Occupied(a), 0);
    forall i, j | 0 <= i < j < |Summary(a)|
      ensures Summary(a)[i].cluster < Summary(a)[j].cluster
    {
      assert Summary(a)[i].cluster == ls[i] && Summary(a)[j].cluster == ls[j];
    }
  }

  lemma SummaryCoversGroups(a: seq<Assigned>)
    ensures forall k: ClusterId ::
      (exists i :: 0 <= i < |Summary(a)| && Summary(a)[i].cluster == k) <==> |Group(a, k)| > 0
  {
    var occupied := Occupied(a);
    var ls := LabelsFrom(occupied, 0);
    SummaryFollowsLabels(a);
    forall k: ClusterId
      ensures (exists i :: 0 <= i < |Summary(a)| && Summary(a)[i].cluster == k) <==> |Group(a, k)| > 0
    {
      if |Group(a, k)| > 0 {
        LabelsComplete(occupied, 0, k);
        var i :| 0 <= i < |ls| && ls[i] == k;
        assert Summary(a)[i].cluster == k;
      }
    }
  }

  /** Row i of the summary is the row of the i-th label found. */
  lemma SummaryFollowsLabels(a: seq<Assigned>)
    ensures var ls := LabelsFrom(Occupied(a), 0);
      && |Summary(a)| == |ls|
      && forall i :: 0 <= i < |ls| ==>
           |Group(a, ls[i])| > 0 && Summary(a)[i] == GroupRow(a, ls[i]) && Summary(a)[i].cluster == ls[i]
  {
  }

  /** Each rounded mean stays within any whole-number range that holds the
      group's values. */
  lemma GroupMeanWithin(values: seq<real>, lo: int, hi: int)
    requires |values| > 0
    requires forall i :: 0 <= i < |values| ==> lo as real <= values[i] <= hi as real
    ensures lo as real <= Round(Mean(values), 2) <= hi as real
  {
    MeanBounds(values, lo as real, hi as real);
    RoundWithinWhole(Mean(values), 2, lo, hi);
  }

  /** The summary ages stay within any whole-number age range of the data. */
  lemma SummaryAgesWithin(a: seq<Assigned>, lo: int, hi: int)
    requires forall i :: 0 <= i < |a| ==> lo as real <= a[i].features.age <= hi as real
    ensures forall i :: 0 <= i < |Summary(a)| ==> lo as real <= Summary(a)[i].age <= hi as real
  {
    var s := Summary(a);
    SummaryExactly(a);
    forall i | 0 <= i < |s| ensures lo as real <= s[i].age <= hi as real {
      var k := s[i].cluster;
      var g := Group(a, k);
      forall j | 0 <= j < |g| ensures lo as real <= AgesOf(g)[j] <= hi as real {
        assert g[j] in g;
        GroupMembers(a, k, g[j]);
      }
      GroupMeanWithin(AgesOf(g), lo, hi);
    }
  }
}
