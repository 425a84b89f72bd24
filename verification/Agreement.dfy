// Agreement between the sources that observed one subject (src/evidence/evidence.cpp).
module Agreeing {
  import opened Base
  import opened Model
  import opened Sorting
  import opened Clustering

  datatype Agreement = UnknownAgreement | SingleSource | Unanimous | Minority | Conflicting | IncomparableValues

  // ---- Sources ----

  ghost function Sources(points: seq<Point>): set<Name> { set p | p in points :: p.source }

  ghost predicate Speaks(source: Name, cluster: Cluster) {
    exists m :: 0 <= m < |cluster| && cluster[m].source == source
  }

  // The sources whose lowest value lies in cluster i: the ones counted there.
  ghost predicate CountedIn(clusters: Clusters, i: nat, source: Name)
    requires i < |clusters|
  {
    Speaks(source, clusters[i]) && forall j :: 0 <= j < i ==> !Speaks(source, clusters[j])
  }

  // Every source is counted in exactly the cluster the map gives it.
  ghost predicate Homes(first: map<Name, nat>, clusters: Clusters) {
    && (forall s :: s in first ==> first[s] < |clusters| && CountedIn(clusters, first[s], s))
    && (forall i, m :: 0 <= i < |clusters| && 0 <= m < |clusters[i]| ==> clusters[i][m].source in first)
  }

  ghost function Counted(first: map<Name, nat>, i: nat): set<Name> { set s | s in first && first[s] == i }

  // The sources counted in cluster i.
  ghost function CountedThere(clusters: Clusters, i: nat, points: seq<Point>): set<Name>
    requires i < |clusters|
  {
    set s | s in Sources(points) && CountedIn(clusters, i, s)
  }

  // What the counting loop leaves.
  ghost predicate AreCounts(counts: seq<nat>, clusters: Clusters, points: seq<Point>) {
    && |counts| == |clusters|
    && forall i :: 0 <= i < |clusters| ==> counts[i] == |CountedThere(clusters, i, points)|
  }

  ghost function SpokenBefore(clusters: Clusters, n: nat, points: seq<Point>): set<Name>
    requires n <= |clusters|
  {
    set s | s in Sources(points) && exists i :: 0 <= i < n && Speaks(s, clusters[i])
  }

  function Tally(counts: seq<nat>): nat { if counts == [] then 0 else Tally(counts[..|counts| - 1]) + counts[|counts| - 1] }

  lemma SpokenStep(clusters: Clusters, n: nat, points: seq<Point>)
    requires n < |clusters|
    ensures |SpokenBefore(clusters, n + 1, points)| == |SpokenBefore(clusters, n, points)| + |CountedThere(clusters, n, points)|
  {
    var before, here := SpokenBefore(clusters, n, points), CountedThere(clusters, n, points);
    assert before !! here;
    forall s | s in SpokenBefore(clusters, n + 1, points) ensures s in before + here {
      assert s !in before ==> CountedIn(clusters, n, s);
    }
    assert SpokenBefore(clusters, n + 1, points) == before + here;
  }

  lemma {:induction false} CountsTotal(counts: seq<nat>, clusters: Clusters, points: seq<Point>, n: nat)
    requires AreCounts(counts, clusters, points) && n <= |clusters|
    ensures Tally(counts[..n]) == |SpokenBefore(clusters, n, points)|
  {
    if n == 0 {
      assert SpokenBefore(clusters, 0, points) == {};
    } else {
      CountsTotal(counts, clusters, points, n - 1);
      SpokenStep(clusters, n - 1, points);
      assert counts[..n][..n - 1] == counts[..n - 1];
    }
  }

  // Every source is counted once: the counts of the clusters add up to the number of distinct sources.
  lemma CountsAddUp(counts: seq<nat>, points: seq<Point>, fits: Fit)
    requires Windowed(fits) && Ascending(points) && AreCounts(counts, Greedy([], points, fits), points)
    ensures Tally(counts) == |Sources(points)|
  {
    var clusters := Greedy([], points, fits);
    GreedyRuns([], points, fits);
    assert Concat([]) + points == points;
    CountsTotal(counts, clusters, points, |clusters|);
    assert counts[..|clusters|] == counts;
    forall s | s in Sources(points) ensures s in SpokenBefore(clusters, |clusters|, points) {
      var p :| p in points && p.source == s;
      var i := ConcatFrom(clusters, p);
      var m :| 0 <= m < |clusters[i]| && clusters[i][m] == p;
      assert Speaks(s, clusters[i]);
    }
    assert SpokenBefore(clusters, |clusters|, points) == Sources(points);
  }

  // So at most one cluster counts a strict majority of them.
  lemma OneMajority(clusters: Clusters, points: seq<Point>, i: nat, j: nat)
    requires i < |clusters| && j < |clusters| && HasMajority(clusters, i, points) && HasMajority(clusters, j, points)
    ensures i == j
  {
    var a, b := CountedThere(clusters, i, points), CountedThere(clusters, j, points);
    if i != j {
      forall s | s in a ensures s !in b {
        assert Speaks(s, clusters[i]);
      }
      SubsetSize(a + b, Sources(points));
    }
  }

  ghost predicate HasMajority(clusters: Clusters, i: nat, points: seq<Point>)
    requires i < |clusters|
  {
    |CountedThere(clusters, i, points)| * 2 > |Sources(points)|
  }

  lemma MembersOf(first: map<Name, nat>, clusters: Clusters, points: seq<Point>)
    requires Homes(first, clusters) && Concat(clusters) == points
    ensures first.Keys == Sources(points)
  {
    forall s | s in first ensures s in Sources(points) {
      var m :| 0 <= m < |clusters[first[s]]| && clusters[first[s]][m].source == s;
      ConcatMembers(clusters, first[s]);
    }
    forall p | p in points ensures p.source in first {
      var i := ConcatFrom(clusters, p);
      var m :| 0 <= m < |clusters[i]| && clusters[i][m] == p;
    }
  }

  // ---- The assessment ----

  // Read off the first record alone, as the code does.
  predicate Comparable(records: seq<Evidence>)
    requires records != []
  {
    && (forall i :: 0 <= i < |records| ==> records[i].unit_ == records[0].unit_)
    && !(records[0].semantics == CumulativeCounter && |records| > 1)
  }

  ghost function AgreementOf(records: seq<Evidence>, fits: Fit): Agreement {
    if records == [] then UnknownAgreement
    else if !Comparable(records) then IncomparableValues
    else SettledBy(Ordered(records), fits)
  }

  ghost function SettledBy(points: seq<Point>, fits: Fit): Agreement {
    if |Sources(points)| <= 1 then SingleSource
    else if forall i :: 1 <= i < |points| ==> fits(points[i].value, points[0].value) then Unanimous
    else
      var clusters := Greedy([], points, fits);
      if exists i :: 0 <= i < |clusters| && HasMajority(clusters, i, points) then Minority
      else Conflicting
  }

  // ---- The order of the records ----

  predicate Mixed(records: seq<Evidence>) {
    exists i, j :: 0 <= i < |records| && 0 <= j < |records| && records[i].unit_ != records[j].unit_
  }

  predicate IsCumulative(r: Evidence) { r.semantics == CumulativeCounter }

  // Either nothing is cumulative or everything is, unless it does not matter.
  predicate OrderSettled(records: seq<Evidence>) {
    || |records| <= 1
    || Mixed(records)
    || forall i :: 0 <= i < |records| ==> IsCumulative(records[i]) == IsCumulative(records[0])
  }

  lemma ComparableForgetsOrder(a: seq<Evidence>, b: seq<Evidence>)
    requires multiset(a) == multiset(b) && a != [] && b != []
    requires OrderSettled(a) && Comparable(a)
    ensures Comparable(b)
  {
    assert |a| == |multiset(a)| == |multiset(b)| == |b|;
    forall i | 0 <= i < |b| ensures b[i] in a {
      assert b[i] in multiset(b);
    }
  }

  lemma SettledForgetsOrder(a: seq<Evidence>, b: seq<Evidence>)
    requires multiset(a) == multiset(b) && OrderSettled(a)
    ensures OrderSettled(b)
  {
    assert |a| == |multiset(a)| == |multiset(b)| == |b|;
    forall i | 0 <= i < |b| ensures b[i] in a {
      assert b[i] in multiset(b);
    }
    if Mixed(a) {
      var i, j :| 0 <= i < |a| && 0 <= j < |a| && a[i].unit_ != a[j].unit_;
      assert a[i] in multiset(a) && a[j] in multiset(a);
      assert a[i] in b && a[j] in b;
    }
  }

  lemma OrderForgotten(a: seq<Evidence>, b: seq<Evidence>, fits: Fit)
    requires multiset(a) == multiset(b) && OrderSettled(a)
    ensures AgreementOf(a, fits) == AgreementOf(b, fits)
  {
    assert |a| == |multiset(a)| == |multiset(b)| == |b|;
    SettledForgetsOrder(a, b);
    MapPermutes(PointOf, a, b);
    PointOrder();
    SortForgetsOrder(PointsOf(a), PointsOf(b), PointLeq);
    if a != [] {
      if Comparable(a) {
        ComparableForgetsOrder(a, b);
      } else if Comparable(b) {
        ComparableForgetsOrder(b, a);
      }
    }
  }

  lemma SwapPermutes(a: seq<Evidence>, i: nat)
    requires 0 < i < |a|
    ensures multiset(a[0 := a[i]][i := a[0]]) == multiset(a)
  {
  }

  lemma IncomparableExactly(a: seq<Evidence>, fits: Fit)
    requires a != []
    ensures AgreementOf(a, fits) == IncomparableValues <==> !Comparable(a)
  {
  }

  // The first record alone says whether counters are cumulative: swap it with one that says otherwise
  // and the answer changes.
  lemma OrderRemembered(a: seq<Evidence>, fits: Fit) returns (b: seq<Evidence>)
    requires !OrderSettled(a)
    ensures multiset(a) == multiset(b) && AgreementOf(a, fits) != AgreementOf(b, fits)
  {
    var i :| 0 <= i < |a| && IsCumulative(a[i]) != IsCumulative(a[0]);
    b := a[0 := a[i]][i := a[0]];
    SwapPermutes(a, i);
    forall j | 0 <= j < |a| ensures b[j].unit_ == b[0].unit_ && a[j].unit_ == a[0].unit_ {
    }
    IncomparableExactly(a, fits);
    IncomparableExactly(b, fits);
    assert Comparable(a) == !IsCumulative(a[0]);
    assert Comparable(b) == !IsCumulative(b[0]);
  }

  // The order of the records is irrelevant exactly when they are all cumulative or all not, or cannot
  // be compared anyway.
  lemma OrderIrrelevantExactly(a: seq<Evidence>, tolerance: real)
    ensures (forall b: seq<Evidence> :: multiset(b) == multiset(a)
               ==> AgreementOf(b, Within(tolerance)) == AgreementOf(a, Within(tolerance)))
       <==> OrderSettled(a)
  {
    if OrderSettled(a) {
      forall b: seq<Evidence> | multiset(b) == multiset(a)
        ensures AgreementOf(b, Within(tolerance)) == AgreementOf(a, Within(tolerance))
      {
        OrderForgotten(a, b, Within(tolerance));
      }
    } else {
      var b := OrderRemembered(a, Within(tolerance));
    }
  }

  // The number of positions held is the least number of groups, each within tolerance of its smallest
  // value, that the records can be split into.
  lemma FewestPositions(records: seq<Evidence>, groups: Clusters, tolerance: real)
    ensures Covers(groups, Ordered(records), Within(tolerance))
      ==> |Greedy([], Ordered(records), Within(tolerance))| <= |groups|
    ensures 0.0 <= tolerance
      ==> Covers(Greedy([], Ordered(records), Within(tolerance)), Ordered(records), Within(tolerance))
  {
    OrderedContents(records);
    WithinIsWindowed(tolerance);
    if Covers(groups, Ordered(records), Within(tolerance)) {
      GreedyIsMinimal(Ordered(records), groups, Within(tolerance));
    }
    if 0.0 <= tolerance {
      forall x ensures Within(tolerance)(x, x) {
        Times(0.0, Scale(x), tolerance);
      }
      GreedyCovers(Ordered(records), Within(tolerance));
    }
  }

  // ---- The loops ----

  lemma PlaceHomes(first: map<Name, nat>, clusters: Clusters, i: nat, p: Point)
    requires Homes(first, clusters) && |clusters| - 1 <= i <= |clusters|
    ensures Homes(if p.source in first then first else first[p.source := i], Place(clusters, i, p))
  {
    var placed := Place(clusters, i, p);
    assert placed[i][|placed[i]| - 1] == p;
    forall j | 0 <= j < |clusters| ensures |clusters[j]| <= |placed[j]| && placed[j][..|clusters[j]|] == clusters[j] {
    }
    forall s | s in first ensures CountedIn(placed, first[s], s) {
      var m :| 0 <= m < |clusters[first[s]]| && clusters[first[s]][m].source == s;
      assert placed[first[s]][m].source == s;
    }
    if p.source !in first {
      assert CountedIn(placed, i, p.source);
    }
  }

  method FindCluster(clusters: Clusters, value: real, fits: Fit) returns (index: nat)
    ensures index == FirstFit(clusters, value, fits)
  {
    index := 0;
    while index < |clusters| && !fits(value, Head(clusters[index]))
      invariant index <= |clusters|
      invariant forall j :: 0 <= j < index ==> !fits(value, Head(clusters[j]))
    {
      index := index + 1;
    }
  }

  ghost predicate Clustered(clusters: Clusters, first: map<Name, nat>, points: seq<Point>, k: nat, fits: Fit)
    requires k <= |points|
  {
    && Tidy(clusters, fits)
    && (k < |points| ==> Below(clusters, points[k].value))
    && Homes(first, clusters)
    && Greedy(clusters, points[k..], fits) == Greedy([], points, fits)
  }

  lemma ClusterStep(clusters: Clusters, first: map<Name, nat>, points: seq<Point>, k: nat, fits: Fit)
    requires Windowed(fits) && Ascending(points) && k < |points|
    requires Clustered(clusters, first, points, k, fits)
    ensures var i := FirstFit(clusters, points[k].value, fits);
      Clustered(Place(clusters, i, points[k]), if points[k].source in first then first else first[points[k].source := i],
                points, k + 1, fits)
  {
    var i := FirstFit(clusters, points[k].value, fits);
    FirstFitIsLast(clusters, points[k].value, fits);
    PlaceTidy(clusters, points[k], fits);
    PlaceHomes(first, clusters, i, points[k]);
    assert points[k..][1..] == points[k + 1..];
  }

  method Cluster(points: seq<Point>, fits: Fit) returns (clusters: Clusters, first: map<Name, nat>)
    requires Windowed(fits) && Ascending(points)
    ensures clusters == Greedy([], points, fits)
    ensures Homes(first, clusters)
  {
    clusters, first := [], map[];
    var k := 0;
    assert points[0..] == points;
    while k < |points|
      invariant k <= |points|
      invariant Clustered(clusters, first, points, k, fits)
    {
      var p := points[k];
      var index := FindCluster(clusters, p.value, fits);
      ClusterStep(clusters, first, points, k, fits);
      clusters := Place(clusters, index, p);
      if p.source !in first {
        first := first[p.source := index];
      }
      k := k + 1;
    }
  }

  ghost predicate CountsOf(counts: seq<nat>, first: map<Name, nat>, done: set<Name>) {
    forall i :: 0 <= i < |counts| ==> counts[i] == |Counted(first, i) * done|
  }

  lemma CountOne(counts: seq<nat>, first: map<Name, nat>, done: set<Name>, s: Name)
    requires CountsOf(counts, first, done) && s in first && s !in done
    ensures CountsOf(if first[s] < |counts| then counts[first[s] := counts[first[s]] + 1] else counts, first, done + {s})
  {
    forall i | 0 <= i < |counts|
      ensures |Counted(first, i) * (done + {s})| == counts[i] + if first[s] == i then 1 else 0
    {
      if first[s] == i {
        assert Counted(first, i) * (done + {s}) == Counted(first, i) * done + {s};
      } else {
        assert Counted(first, i) * (done + {s}) == Counted(first, i) * done;
      }
    }
  }

  lemma NoneCounted(counts: seq<nat>, first: map<Name, nat>)
    requires forall i :: 0 <= i < |counts| ==> counts[i] == 0
    ensures CountsOf(counts, first, {})
  {
    forall i | 0 <= i < |counts| ensures Counted(first, i) * {} == {} {
    }
  }

  lemma AllCounted(counts: seq<nat>, first: map<Name, nat>)
    requires CountsOf(counts, first, first.Keys)
    ensures forall i :: 0 <= i < |counts| ==> counts[i] == |Counted(first, i)|
  {
    forall i | 0 <= i < |counts| ensures Counted(first, i) * first.Keys == Counted(first, i) {
    }
  }

  method CountSources(first: map<Name, nat>, n: nat) returns (counts: seq<nat>)
    ensures |counts| == n
    ensures forall i :: 0 <= i < n ==> counts[i] == |Counted(first, i)|
  {
    counts := seq(n, _ => 0);
    var todo := first.Keys;
    ghost var done: set<Name> := {};
    NoneCounted(counts, first);
    while todo != {}
      invariant |counts| == n
      invariant todo + done == first.Keys && todo !! done
      invariant CountsOf(counts, first, done)
      decreases |todo|
    {
      var s :| s in todo;
      CountOne(counts, first, done, s);
      if first[s] < n {
        counts := counts[first[s] := counts[first[s]] + 1];
      }
      done := done + {s};
      todo := todo - {s};
    }
    AllCounted(counts, first);
  }

  ghost predicate IsFirstLargest(counts: seq<nat>, m: nat) {
    && m < |counts|
    && (forall i :: 0 <= i < |counts| ==> counts[i] <= counts[m])
    && (forall i :: 0 <= i < m ==> counts[i] < counts[m])
  }

  method FirstLargest(counts: seq<nat>) returns (m: nat)
    requires counts != []
    ensures IsFirstLargest(counts, m)
  {
    m := 0;
    for i := 1 to |counts|
      invariant m < i
      invariant forall j :: 0 <= j < i ==> counts[j] <= counts[m]
      invariant forall j :: 0 <= j < m ==> counts[j] < counts[m]
    {
      if counts[i] > counts[m] {
        m := i;
      }
    }
  }

  function Sum(c: seq<Point>): real { if c == [] then 0.0 else Sum(c[..|c| - 1]) + c[|c| - 1].value }

  function MeanOf(c: Cluster): real { Sum(c) / (|c| as real) }

  method Mean(c: Cluster) returns (mean: real)
    ensures mean == MeanOf(c)
  {
    var total := 0.0;
    for i := 0 to |c|
      invariant total == Sum(c[..i])
    {
      assert c[..i + 1][..i] == c[..i];
      total := total + c[i].value;
    }
    assert c[..|c|] == c;
    mean := total / (|c| as real);
  }

  method DistinctSources(points: seq<Point>) returns (n: nat)
    ensures n == |Sources(points)|
  {
    var seen: set<Name> := {};
    for i := 0 to |points|
      invariant seen == Sources(points[..i])
    {
      assert points[..i + 1] == points[..i] + [points[i]];
      assert Sources(points[..i + 1]) == Sources(points[..i]) + {points[i].source};
      seen := seen + {points[i].source};
    }
    assert points[..|points|] == points;
    n := |seen|;
  }

  // ---- assess_agreement ----

  datatype Assessment = Assessment(
    agreement: Agreement,
    considered: nat,
    distinct: nat,
    least: real,
    greatest: real,
    spread: real,
    citations: seq<nat>,
    representative: real)

  function IdOf(p: Point): nat { p.id }

  // At most max ids, those of the smallest values, in ascending order.
  function Citations(points: seq<Point>, max: nat): seq<nat> {
    SortBy(Map(IdOf, points[..Min(|points|, max)]), NatLeq)
  }

  lemma CountedMatches(first: map<Name, nat>, clusters: Clusters, points: seq<Point>, i: nat)
    requires Homes(first, clusters) && Concat(clusters) == points && i < |clusters|
    ensures Counted(first, i) == CountedThere(clusters, i, points)
  {
    MembersOf(first, clusters, points);
  }

  lemma CountsMatch(first: map<Name, nat>, clusters: Clusters, points: seq<Point>, counts: seq<nat>)
    requires Homes(first, clusters) && Concat(clusters) == points && |counts| == |clusters|
    requires forall i :: 0 <= i < |counts| ==> counts[i] == |Counted(first, i)|
    ensures AreCounts(counts, clusters, points)
  {
    forall i | 0 <= i < |clusters| ensures counts[i] == |CountedThere(clusters, i, points)| {
      CountedMatches(first, clusters, points, i);
    }
  }

  lemma LargestDecides(clusters: Clusters, points: seq<Point>, counts: seq<nat>, m: nat)
    requires AreCounts(counts, clusters, points) && IsFirstLargest(counts, m)
    ensures counts[m] * 2 > |Sources(points)|
      <==> exists i :: 0 <= i < |clusters| && HasMajority(clusters, i, points)
  {
    forall i | 0 <= i < |clusters|
      ensures HasMajority(clusters, i, points) <==> counts[i] * 2 > |Sources(points)|
    {
    }
  }

  // Which cluster the representative value is the mean of: the first of those counting most sources.
  ghost predicate Represents(clusters: Clusters, points: seq<Point>, value: real) {
    exists counts: seq<nat>, m: nat ::
      AreCounts(counts, clusters, points) && IsFirstLargest(counts, m) && value == MeanOf(clusters[m])
  }

  // The mean of the cluster that most sources support, whichever that is.
  ghost predicate RepresentsMajority(clusters: Clusters, points: seq<Point>, value: real) {
    forall i :: 0 <= i < |clusters| && HasMajority(clusters, i, points) ==> value == MeanOf(clusters[i])
  }

  // A strict majority is the first of the largest, so the mean that is reported is that of the majority.
  lemma MajorityRepresented(clusters: Clusters, points: seq<Point>, counts: seq<nat>, m: nat, value: real)
    requires AreCounts(counts, clusters, points) && IsFirstLargest(counts, m) && value == MeanOf(clusters[m])
    ensures Represents(clusters, points, value) && RepresentsMajority(clusters, points, value)
  {
    forall i | 0 <= i < |clusters| && HasMajority(clusters, i, points) ensures i == m {
      assert counts[i] <= counts[m];
      OneMajority(clusters, points, i, m);
    }
  }

  lemma PositionsDecided(clusters: Clusters, points: seq<Point>, counts: seq<nat>, m: nat, fits: Fit)
    requires Windowed(fits) && Ascending(points) && points != []
    requires clusters == Greedy([], points, fits)
    requires AreCounts(counts, clusters, points) && IsFirstLargest(counts, m)
    requires |Sources(points)| > 1
    ensures SettledBy(points, fits)
      == if |clusters| == 1 then Unanimous else if counts[m] * 2 > |Sources(points)| then Minority else Conflicting
  {
    OneClusterExactly(points, fits);
    LargestDecides(clusters, points, counts, m);
  }

  method Positions(points: seq<Point>, distinct: nat, fits: Fit) returns (agreement: Agreement, representative: real)
    requires Windowed(fits) && Ascending(points) && points != []
    requires distinct == |Sources(points)| && distinct > 1
    ensures agreement == SettledBy(points, fits)
    ensures Represents(Greedy([], points, fits), points, representative)
    ensures RepresentsMajority(Greedy([], points, fits), points, representative)
  {
    var clusters, first := Cluster(points, fits);
    FirstHead(points, fits);
    var counts := CountSources(first, |clusters|);
    CountsMatch(first, clusters, points, counts);
    var m := FirstLargest(counts);
    representative := Mean(clusters[m]);
    PositionsDecided(clusters, points, counts, m, fits);
    MajorityRepresented(clusters, points, counts, m, representative);
    agreement := if |clusters| == 1 then Unanimous else if counts[m] * 2 > distinct then Minority else Conflicting;
  }

  method IsComparable(records: seq<Evidence>) returns (comparable: bool)
    requires records != []
    ensures comparable == Comparable(records)
  {
    comparable := true;
    for i := 0 to |records|
      invariant comparable == forall j :: 0 <= j < i ==> records[j].unit_ == records[0].unit_
    {
      if records[i].unit_ != records[0].unit_ {
        comparable := false;
      }
    }
    if records[0].semantics == CumulativeCounter && |records| > 1 {
      comparable := false;
    }
  }

  function Spread(least: real, greatest: real): real { (greatest - least) / Scale(least) }

  method Settle(records: seq<Evidence>, ordered: seq<Point>, distinct: nat, tolerance: real)
    returns (agreement: Agreement, representative: real)
    requires records != [] && ordered == Ordered(records) && distinct == |Sources(ordered)|
    ensures agreement == AgreementOf(records, Within(tolerance))
    ensures agreement == SingleSource ==> representative == ordered[0].value
    ensures agreement in {Unanimous, Minority, Conflicting}
      ==> Represents(Greedy([], ordered, Within(tolerance)), ordered, representative)
    ensures agreement == Minority ==> RepresentsMajority(Greedy([], ordered, Within(tolerance)), ordered, representative)
  {
    OrderedContents(records);
    var comparable := IsComparable(records);
    if !comparable {
      return IncomparableValues, 0.0;
    }
    if distinct <= 1 {
      return SingleSource, ordered[0].value;
    }
    WithinIsWindowed(tolerance);
    agreement, representative := Positions(ordered, distinct, Within(tolerance));
  }

  method AssessAgreement(records: seq<Evidence>, tolerance: real, maxCitations: nat) returns (a: Assessment)
    ensures a.agreement == AgreementOf(records, Within(tolerance))
    ensures a.considered == |records| && a.distinct == |Sources(Ordered(records))|
    ensures forall r :: r in records ==> a.least <= r.scalar <= a.greatest
    ensures records != [] ==> (exists r :: r in records && r.scalar == a.least)
    ensures records != [] ==> (exists r :: r in records && r.scalar == a.greatest)
    ensures records != [] ==> a.spread == Spread(a.least, a.greatest)
    ensures a.citations == Citations(Ordered(records), maxCitations)
    ensures a.agreement == SingleSource ==> a.representative == a.least
    ensures a.agreement in {Unanimous, Minority, Conflicting}
      ==> Represents(Greedy([], Ordered(records), Within(tolerance)), Ordered(records), a.representative)
    ensures a.agreement == Minority
      ==> RepresentsMajority(Greedy([], Ordered(records), Within(tolerance)), Ordered(records), a.representative)
  {
    if records == [] {
      OrderedContents(records);
      return Assessment(UnknownAgreement, 0, 0, 0.0, 0.0, 0.0, [], 0.0);
    }
    var ordered := SortBy(Map(PointOf, records), PointLeq);
    Extremes(records);
    var distinct := DistinctSources(ordered);
    var least, greatest := ordered[0].value, ordered[|ordered| - 1].value;
    var agreement, representative := Settle(records, ordered, distinct, tolerance);
    var spread, citations := Spread(least, greatest), Citations(ordered, maxCitations);
    a := Assessment(agreement, |records|, distinct, least, greatest, spread, citations, representative);
  }

  lemma SameMembers(records: seq<Evidence>, p: Point)
    ensures p in Ordered(records) <==> exists r :: r in records && PointOf(r) == p
  {
    OrderedContents(records);
    var points, ordered := PointsOf(records), Ordered(records);
    assert p in ordered <==> p in multiset(ordered);
    assert p in points <==> p in multiset(points);
    if r :| r in records && PointOf(r) == p {
      var i :| 0 <= i < |records| && records[i] == r;
      assert points[i] == p;
    }
    if p in points {
      var i :| 0 <= i < |points| && points[i] == p;
      assert records[i] in records;
    }
  }

  lemma Extremes(records: seq<Evidence>)
    requires records != []
    ensures |Ordered(records)| == |records|
    ensures forall r :: r in records ==> Ordered(records)[0].value <= r.scalar <= Ordered(records)[|records| - 1].value
    ensures (exists r :: r in records && r.scalar == Ordered(records)[0].value)
    ensures (exists r :: r in records && r.scalar == Ordered(records)[|records| - 1].value)
  {
    OrderedContents(records);
    forall r | r in records ensures PointOf(r) in Ordered(records) {
      SameMembers(records, PointOf(r));
    }
    SameMembers(records, Ordered(records)[0]);
    SameMembers(records, Ordered(records)[|records| - 1]);
  }

  // ---- The answer, from the records ----

  // The size of a value, never below a millionth of a millionth.
  function Size(x: real): (size: real)
    ensures size > 0.0
  {
    if x >= 0.000000000001 then x else if x <= -0.000000000001 then -x else 0.000000000001
  }

  // No further apart than the tolerance, measured against the reference's size.
  predicate Close(value: real, reference: real, tolerance: real) {
    -tolerance <= (value - reference) / Size(reference) <= tolerance
  }

  predicate TwoUnits(records: seq<Evidence>) { exists a, b :: a in records && b in records && a.unit_ != b.unit_ }

  predicate OneSource(records: seq<Evidence>) { forall a, b :: a in records && b in records ==> a.source == b.source }

  predicate IsLeast(m: Evidence, records: seq<Evidence>) { m in records && forall r :: r in records ==> m.scalar <= r.scalar }

  predicate AllClose(records: seq<Evidence>, m: Evidence, tolerance: real) { forall r :: r in records ==> Close(r.scalar, m.scalar, tolerance) }

  // Cannot be compared: two units, or several records of which the first is a cumulative counter.
  predicate Incomparable(records: seq<Evidence>)
    requires records != []
  {
    TwoUnits(records) || (|records| >= 2 && records[0].semantics == CumulativeCounter)
  }

  lemma ComparableExactly(records: seq<Evidence>)
    requires records != []
    ensures Comparable(records) <==> !Incomparable(records)
  {
    if TwoUnits(records) {
      var a, b :| a in records && b in records && a.unit_ != b.unit_;
      assert !(a.unit_ == records[0].unit_ && b.unit_ == records[0].unit_);
    }
    if i :| 0 <= i < |records| && records[i].unit_ != records[0].unit_ {
      assert records[i] in records && records[0] in records;
    }
  }

  lemma SourcesSpeak(records: seq<Evidence>, s: Name)
    ensures s in Sources(Ordered(records)) <==> exists r :: r in records && r.source == s
  {
    if s in Sources(Ordered(records)) {
      var p :| p in Ordered(records) && p.source == s;
      SameMembers(records, p);
    }
    if r :| r in records && r.source == s {
      SameMembers(records, PointOf(r));
    }
  }

  lemma OneSourceExactly(records: seq<Evidence>)
    ensures |Sources(Ordered(records))| <= 1 <==> OneSource(records)
  {
    var sources := Sources(Ordered(records));
    forall s ensures s in sources <==> exists r :: r in records && r.source == s {
      SourcesSpeak(records, s);
    }
    if !OneSource(records) {
      var a, b :| a in records && b in records && a.source != b.source;
      SubsetSize({a.source, b.source}, sources);
    } else if records != [] {
      assert sources == {records[0].source};
    } else {
      assert sources == {};
    }
  }

  lemma CloseExactly(value: real, reference: real, tolerance: real)
    ensures Close(value, reference, tolerance) <==> Fits(value, reference, tolerance)
  {
    FitsExactly(value, reference, tolerance);
  }

  lemma UnanimousExactly(records: seq<Evidence>, m: Evidence, tolerance: real)
    requires IsLeast(m, records) && !OneSource(records)
    ensures SettledBy(Ordered(records), Within(tolerance)) == Unanimous <==> AllClose(records, m, tolerance)
  {
    var points := Ordered(records);
    OneSourceExactly(records);
    Extremes(records);
    assert points[0].value == m.scalar;
    forall v ensures Close(v, m.scalar, tolerance) <==> Within(tolerance)(v, points[0].value) {
      CloseExactly(v, m.scalar, tolerance);
    }
    if AllClose(records, m, tolerance) {
      forall i | 1 <= i < |points| ensures Within(tolerance)(points[i].value, points[0].value) {
        SameMembers(records, points[i]);
      }
    }
    if forall i :: 1 <= i < |points| ==> Within(tolerance)(points[i].value, points[0].value) {
      OthersFit(points, m.scalar, tolerance);
      forall r | r in records ensures Close(r.scalar, m.scalar, tolerance) {
        SameMembers(records, PointOf(r));
      }
    }
  }

  // Nothing fits a negative tolerance, and with any other a value fits itself.
  lemma OthersFit(points: seq<Point>, least: real, tolerance: real)
    requires |points| >= 2 && points[0].value == least
    requires forall i :: 1 <= i < |points| ==> Within(tolerance)(points[i].value, least)
    ensures forall p :: p in points ==> Fits(p.value, least, tolerance)
  {
    assert Within(tolerance)(points[1].value, least);
    if tolerance < 0.0 {
      Strictly(tolerance, 0.0, Scale(least));
    } else {
      Times(0.0, tolerance, Scale(least));
    }
  }

  // The verdict from the units, the sources and the values of the records: which of the five it is, and that
  // agreement means being close to the least value.
  lemma AgreementExactly(records: seq<Evidence>, m: Evidence, tolerance: real)
    requires records != [] ==> IsLeast(m, records)
    ensures AgreementOf(records, Within(tolerance))
      == if records == [] then UnknownAgreement
         else if Incomparable(records) then IncomparableValues
         else if OneSource(records) then SingleSource
         else if AllClose(records, m, tolerance) then Unanimous
         else if MajoritySpeaks(Greedy([], Ordered(records), Within(tolerance)), Ordered(records)) then Minority
         else Conflicting
  {
    if records != [] {
      ComparableExactly(records);
      OneSourceExactly(records);
      if !OneSource(records) {
        UnanimousExactly(records, m, tolerance);
        MajorityExactly(Greedy([], Ordered(records), Within(tolerance)), Ordered(records));
      }
    }
  }

  lemma MajorityExactly(clusters: Clusters, points: seq<Point>)
    ensures MajoritySpeaks(clusters, points) <==> exists i :: 0 <= i < |clusters| && HasMajority(clusters, i, points)
  {
    forall i | 0 <= i < |clusters|
      ensures HasMajority(clusters, i, points) <==> |CountedThere(clusters, i, points)| > |Sources(points)| - |CountedThere(clusters, i, points)|
    {
    }
  }

  // More than half of the sources are first heard in one cluster.
  ghost predicate MajoritySpeaks(clusters: Clusters, points: seq<Point>) {
    exists i :: 0 <= i < |clusters| && |CountedThere(clusters, i, points)| > |Sources(points)| - |CountedThere(clusters, i, points)|
  }

  lemma SpreadExactly(least: real, greatest: real)
    ensures Spread(least, greatest) * Size(least) == greatest - least
  {
  }
}
