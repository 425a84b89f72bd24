// Greedy first-fit clustering of sorted values (src/evidence/evidence.cpp): it splits the values into
// contiguous runs, and into as few groups as any grouping can.
module Clustering {
  import opened Base
  import opened Model
  import opened Sorting

  // ---- The order in which records are clustered ----

  // What clustering reads of a record.
  datatype Point = Point(value: real, source: Name, id: nat)

  function PointOf(r: Evidence): Point { Point(r.scalar, r.source, r.id) }

  function PointsOf(records: seq<Evidence>): seq<Point> { Map(PointOf, records) }

  predicate PointLeq(a: Point, b: Point) {
    a.value < b.value
    || (a.value == b.value && (if a.source != b.source then BytesLeq(a.source, b.source) else a.id <= b.id))
  }

  lemma PointTransitive(a: Point, b: Point, c: Point)
    requires PointLeq(a, b) && PointLeq(b, c)
    ensures PointLeq(a, c)
  {
    BytesTotal(a.source, b.source);
    BytesTotal(b.source, c.source);
    if a.value == b.value == c.value {
      if a.source != b.source && b.source != c.source {
        BytesTransitive(a.source, b.source, c.source);
      }
    }
  }

  lemma PointOrder()
    ensures TotalOrder(PointLeq)
  {
    forall a, b ensures (PointLeq(a, b) || PointLeq(b, a)) && (PointLeq(a, b) && PointLeq(b, a) ==> a == b) {
      BytesTotal(a.source, b.source);
    }
    forall a, b, c | PointLeq(a, b) && PointLeq(b, c) ensures PointLeq(a, c) {
      PointTransitive(a, b, c);
    }
  }

  function Ordered(records: seq<Evidence>): seq<Point> { SortBy(PointsOf(records), PointLeq) }

  ghost predicate Ascending(s: seq<Point>) {
    forall i, j :: 0 <= i < j < |s| ==> s[i].value <= s[j].value
  }

  lemma OrderedContents(records: seq<Evidence>)
    ensures |Ordered(records)| == |records|
    ensures Ascending(Ordered(records))
    ensures multiset(Ordered(records)) == multiset(PointsOf(records))
  {
    PointOrder();
    SortPermutes(PointsOf(records), PointLeq);
    SortSorts(PointsOf(records), PointLeq);
  }

  // ---- Tolerance ----

  const EPSILON: real := 0.000000000001

  function Abs(x: real): real { if x < 0.0 then -x else x }

  function Scale(x: real): real { if Abs(x) < EPSILON then EPSILON else Abs(x) }

  predicate Fits(value: real, reference: real, tolerance: real) {
    Abs(value - reference) <= tolerance * Scale(reference)
  }

  // A value fits a reference when it lies no further from it than the tolerance times the reference's size,
  // and sizes below a millionth of a millionth count as that.
  lemma FitsExactly(value: real, reference: real, tolerance: real)
    ensures reference >= 0.000000000001 ==> (Fits(value, reference, tolerance) <==> -tolerance <= (value - reference) / reference <= tolerance)
    ensures reference <= -0.000000000001 ==> (Fits(value, reference, tolerance) <==> -tolerance <= (value - reference) / -reference <= tolerance)
    ensures -0.000000000001 < reference < 0.000000000001 ==>
      (Fits(value, reference, tolerance) <==> -tolerance <= (value - reference) / 0.000000000001 <= tolerance)
  {
    var size := if reference >= EPSILON then reference else if reference <= -EPSILON then -reference else EPSILON;
    Ratio(value - reference, size, tolerance);
  }

  lemma Ratio(x: real, size: real, tolerance: real)
    requires size > 0.0
    ensures Abs(x) <= size * tolerance <==> -tolerance <= x / size <= tolerance
  {
    var q := x / size;
    Undone(x, size);
    Negated(size, tolerance);
    if -tolerance <= q <= tolerance {
      Times(q, tolerance, size);
      Times(-tolerance, q, size);
    } else if q > tolerance {
      Strictly(tolerance, q, size);
    } else {
      Strictly(q, -tolerance, size);
    }
  }

  lemma Undone(x: real, size: real)
    requires size > 0.0
    ensures size * (x / size) == x
  {
  }

  lemma Strictly(a: real, b: real, t: real)
    requires a < b && 0.0 < t
    ensures t * a < t * b
  {
  }

  // Which values fit which reference; clustering asks nothing else of the tolerance.
  type Fit = (real, real) -> bool

  function Within(tolerance: real): Fit { (value, reference) => Fits(value, reference, tolerance) }

  // All that the proofs need: fitting from above is a window, and the window of a reference between two
  // others never reaches beyond both of theirs.
  ghost predicate Windowed(fits: Fit) {
    && (forall r, w, v :: r <= w <= v && fits(v, r) ==> fits(w, r))
    && (forall a, b, c, v :: a <= b <= c <= v && fits(v, b) ==> fits(v, a) || fits(v, c))
  }

  lemma Times(a: real, b: real, t: real)
    requires a <= b && 0.0 <= t
    ensures t * a <= t * b
  {
  }

  function Reach(x: real, tolerance: real): real { x + tolerance * Scale(x) }

  // A distance below b's reach: with b below zero the reach is (t - 1) * -b.
  lemma ReachLeft(x: real, t: real)
    requires x <= -EPSILON
    ensures Reach(x, t) == x - t * x
  {
  }

  lemma ReachShrinks(a: real, b: real, t: real)
    requires a <= b <= -EPSILON && 1.0 <= t
    ensures Reach(b, t) <= Reach(a, t)
  {
    ReachLeft(a, t);
    ReachLeft(b, t);
    Times(a, b, t - 1.0);
    Distribute(t, a);
    Distribute(t, b);
  }

  // The reach is convex in the reference.
  lemma ReachBetween(a: real, b: real, c: real, t: real)
    requires a <= b <= c && 0.0 <= t
    ensures Reach(b, t) <= Reach(a, t) || Reach(b, t) <= Reach(c, t)
  {
    if b >= -EPSILON {
      Times(Scale(b), Scale(c), t);
    } else if t <= 1.0 {
      ReachGrows(b, c, t);
    } else {
      ReachShrinks(a, b, t);
    }
  }

  lemma Distribute(t: real, x: real)
    ensures (t - 1.0) * x == t * x - x
    ensures (1.0 - t) * x == x - t * x
  {
  }

  lemma ReachGrows(b: real, c: real, t: real)
    requires b < -EPSILON && b <= c && 0.0 <= t <= 1.0
    ensures Reach(b, t) <= Reach(c, t)
  {
    ReachLeft(b, t);
    Distribute(t, b);
    if c <= -EPSILON {
      ReachLeft(c, t);
      Times(b, c, 1.0 - t);
      Distribute(t, c);
    } else {
      var least := t * EPSILON;
      Times(b, -EPSILON, 1.0 - t);
      Distribute(t, -EPSILON);
      Negated(t, EPSILON);
      assert Reach(b, t) <= least - EPSILON;
      Times(EPSILON, Scale(c), t);
      assert least - EPSILON <= Reach(c, t);
    }
  }

  lemma Negated(t: real, x: real)
    ensures t * -x == -(t * x)
  {
  }

  lemma FitsIsReach(value: real, reference: real, tolerance: real)
    requires reference <= value
    ensures Fits(value, reference, tolerance) <==> value <= Reach(reference, tolerance)
  {
  }

  lemma TolerancePositive(value: real, reference: real, tolerance: real)
    requires Fits(value, reference, tolerance)
    ensures tolerance >= 0.0
  {
    if tolerance < 0.0 {
      Times(tolerance, 0.0, Scale(reference));
      SignOf(tolerance, Scale(reference));
    }
  }

  lemma SignOf(t: real, x: real)
    requires t < 0.0 && x > 0.0
    ensures t * x < 0.0
  {
  }

  // Every tolerance gives windows, so the results below hold for each of them.
  lemma WithinIsWindowed(tolerance: real)
    ensures Windowed(Within(tolerance))
  {
    var fits := Within(tolerance);
    forall r, w, v | r <= w <= v && fits(v, r) ensures fits(w, r) {
      FitsIsReach(v, r, tolerance);
      FitsIsReach(w, r, tolerance);
    }
    forall a, b, c, v | a <= b <= c <= v && fits(v, b) ensures fits(v, a) || fits(v, c) {
      TolerancePositive(v, b, tolerance);
      ReachBetween(a, b, c, tolerance);
      FitsIsReach(v, a, tolerance);
      FitsIsReach(v, b, tolerance);
      FitsIsReach(v, c, tolerance);
    }
  }

  // ---- Greedy clustering ----

  type Cluster = s: seq<Point> | |s| > 0 witness [Point(0.0, [], 0)]

  type Clusters = seq<Cluster>

  function Head(c: Cluster): real { c[0].value }

  function FirstFit(clusters: Clusters, value: real, fits: Fit): (i: nat)
    ensures i <= |clusters|
    ensures i < |clusters| ==> fits(value, Head(clusters[i]))
    ensures forall j :: 0 <= j < i ==> !fits(value, Head(clusters[j]))
  {
    if clusters == [] then 0
    else if fits(value, Head(clusters[0])) then 0
    else 1 + FirstFit(clusters[1..], value, fits)
  }

  function Place(clusters: Clusters, i: nat, p: Point): Clusters
    requires i <= |clusters|
  {
    if i == |clusters| then clusters + [[p]] else clusters[i := clusters[i] + [p]]
  }

  function Greedy(clusters: Clusters, rest: seq<Point>, fits: Fit): Clusters
    decreases |rest|
  {
    if rest == [] then clusters
    else Greedy(Place(clusters, FirstFit(clusters, rest[0].value, fits), rest[0]), rest[1..], fits)
  }

  function Concat(clusters: Clusters): seq<Point> {
    if clusters == [] then [] else clusters[0] + Concat(clusters[1..])
  }

  // What clustering keeps while it reads an ascending sequence: every later member fits its cluster's
  // first, firsts ascend, and no cluster's first fits an earlier cluster.
  ghost predicate Tidy(clusters: Clusters, fits: Fit) {
    && (forall i :: 0 <= i < |clusters| ==> IsRun(clusters[i], fits))
    && (forall i, j :: 0 <= i < j < |clusters| ==> Apart(clusters[i], clusters[j], fits))
  }

  ghost predicate IsRun(c: Cluster, fits: Fit) {
    forall m :: 1 <= m < |c| ==> Head(c) <= c[m].value && fits(c[m].value, Head(c))
  }

  ghost predicate Apart(c: Cluster, d: Cluster, fits: Fit) {
    Head(c) <= Head(d) && !fits(Head(d), Head(c))
  }

  ghost predicate Below(clusters: Clusters, value: real) {
    forall i :: 0 <= i < |clusters| ==> Head(clusters[i]) <= value
  }

  // On ascending values, first fit never reaches back: the value joins the last cluster or opens one.
  lemma FirstFitIsLast(clusters: Clusters, value: real, fits: Fit)
    requires Windowed(fits) && Tidy(clusters, fits) && Below(clusters, value)
    ensures FirstFit(clusters, value, fits) >= |clusters| - 1
  {
    forall j | 0 <= j < |clusters| - 1 ensures !fits(value, Head(clusters[j])) {
      assert Apart(clusters[j], clusters[|clusters| - 1], fits);
    }
  }

  lemma PlaceTidy(clusters: Clusters, p: Point, fits: Fit)
    requires Tidy(clusters, fits) && Below(clusters, p.value)
    ensures Tidy(Place(clusters, FirstFit(clusters, p.value, fits), p), fits)
    ensures Below(Place(clusters, FirstFit(clusters, p.value, fits), p), p.value)
  {
    var i := FirstFit(clusters, p.value, fits);
    var placed := Place(clusters, i, p);
    if i < |clusters| {
      assert Head(placed[i]) == Head(clusters[i]);
      assert IsRun(clusters[i], fits);
      assert IsRun(placed[i], fits);
    }
    forall a, b | 0 <= a < b < |placed| ensures Apart(placed[a], placed[b], fits) {
      if b < |clusters| {
        assert Apart(clusters[a], clusters[b], fits);
      }
    }
  }

  lemma {:induction false} ConcatPlace(clusters: Clusters, i: nat, p: Point)
    requires |clusters| - 1 <= i <= |clusters|
    ensures Concat(Place(clusters, i, p)) == Concat(clusters) + [p]
    decreases |clusters|
  {
    if clusters == [] {
      assert Place(clusters, i, p)[1..] == [];
    } else if |clusters| == 1 && i == 0 {
      assert clusters[1..] == [] && Place(clusters, i, p)[1..] == [];
    } else {
      ConcatPlace(clusters[1..], i - 1, p);
      assert Place(clusters, i, p)[1..] == Place(clusters[1..], i - 1, p);
      assert clusters[0] + (Concat(clusters[1..]) + [p]) == (clusters[0] + Concat(clusters[1..])) + [p];
    }
  }

  lemma GreedyStep(clusters: Clusters, rest: seq<Point>, fits: Fit) returns (placed: Clusters)
    requires Windowed(fits) && Tidy(clusters, fits)
    requires rest != [] && Ascending(rest) && Below(clusters, rest[0].value)
    ensures placed == Place(clusters, FirstFit(clusters, rest[0].value, fits), rest[0])
    ensures Tidy(placed, fits) && Ascending(rest[1..]) && (rest[1..] != [] ==> Below(placed, rest[1..][0].value))
    ensures Concat(placed) + rest[1..] == Concat(clusters) + rest
  {
    var i := FirstFit(clusters, rest[0].value, fits);
    placed := Place(clusters, i, rest[0]);
    FirstFitIsLast(clusters, rest[0].value, fits);
    PlaceTidy(clusters, rest[0], fits);
    ConcatPlace(clusters, i, rest[0]);
    assert Concat(clusters) + rest == (Concat(clusters) + [rest[0]]) + rest[1..];
  }

  // Clusters are contiguous runs of the ascending sequence: laid end to end they are that sequence.
  lemma {:induction false} GreedyRuns(clusters: Clusters, rest: seq<Point>, fits: Fit)
    requires Windowed(fits) && Tidy(clusters, fits) && Ascending(rest) && (rest != [] ==> Below(clusters, rest[0].value))
    ensures Tidy(Greedy(clusters, rest, fits), fits)
    ensures Concat(Greedy(clusters, rest, fits)) == Concat(clusters) + rest
    decreases |rest|
  {
    if rest == [] {
      assert Concat(clusters) + rest == Concat(clusters);
    } else {
      var placed := GreedyStep(clusters, rest, fits);
      GreedyRuns(placed, rest[1..], fits);
    }
  }

  lemma {:induction false} ConcatMembers(clusters: Clusters, i: nat)
    requires i < |clusters|
    ensures forall p :: p in clusters[i] ==> p in Concat(clusters)
  {
    if i > 0 {
      ConcatMembers(clusters[1..], i - 1);
    }
  }

  lemma {:induction false} ConcatFrom(clusters: Clusters, p: Point) returns (i: nat)
    requires p in Concat(clusters)
    ensures i < |clusters| && p in clusters[i]
  {
    if p in clusters[0] {
      i := 0;
    } else {
      i := ConcatFrom(clusters[1..], p);
      i := i + 1;
    }
  }

  // ---- Optimality ----

  // A grouping of the points in which every group lies within tolerance of its smallest value.
  ghost predicate Covers(groups: Clusters, points: seq<Point>, fits: Fit) {
    && (forall p :: p in points ==> exists g :: 0 <= g < |groups| && p in groups[g])
    && (forall g, p :: 0 <= g < |groups| && p in groups[g] ==> p in points)
    && (forall g :: 0 <= g < |groups| ==> WithinLeast(groups[g], fits))
  }

  ghost predicate WithinLeast(group: Cluster, fits: Fit) {
    exists l :: l in group && forall p :: p in group ==> l.value <= p.value && fits(p.value, l.value)
  }

  // Two cluster firsts never share a group of such a grouping.
  lemma HeadsApart(clusters: Clusters, group: Cluster, i: nat, j: nat, fits: Fit)
    requires Windowed(fits) && Tidy(clusters, fits) && i < j < |clusters|
    requires WithinLeast(group, fits)
    requires forall p :: p in group ==> Head(clusters[0]) <= p.value
    ensures !(clusters[i][0] in group && clusters[j][0] in group)
  {
    var l :| l in group && forall p :: p in group ==> l.value <= p.value && fits(p.value, l.value);
    assert Apart(clusters[i], clusters[j], fits);
    assert Apart(clusters[0], clusters[j], fits);
    assert clusters[i][0] in group ==> !fits(Head(clusters[j]), l.value);
  }

  // An injection from n positions into m positions needs n <= m.
  lemma {:induction false} Pigeonhole(f: seq<nat>, m: nat)
    requires forall i :: 0 <= i < |f| ==> f[i] < m
    requires forall i, j :: 0 <= i < j < |f| ==> f[i] != f[j]
    ensures |f| <= m
    decreases m
  {
    if f == [] {
    } else if m - 1 in f {
      var k :| 0 <= k < |f| && f[k] == m - 1;
      Pigeonhole(f[..k] + f[k + 1..], m - 1);
    } else {
      assert f[0] < m;
      Pigeonhole(f, m - 1);
    }
  }

  // The least value of the sequence is the first cluster's first.
  lemma FirstHead(points: seq<Point>, fits: Fit)
    requires Windowed(fits) && Ascending(points) && points != []
    ensures var c := Greedy([], points, fits);
      c != [] && c[0][0] == points[0] && Tidy(c, fits) && Concat(c) == points
  {
    GreedyRuns([], points, fits);
    assert Concat([]) + points == points;
  }

  lemma HomesApart(points: seq<Point>, groups: Clusters, clusters: Clusters, g: nat, i: nat, j: nat, fits: Fit)
    requires Windowed(fits) && Tidy(clusters, fits) && i < j < |clusters| && g < |groups|
    requires Covers(groups, points, fits)
    requires forall p :: p in points ==> Head(clusters[0]) <= p.value
    ensures !(clusters[i][0] in groups[g] && clusters[j][0] in groups[g])
  {
    HeadsApart(clusters, groups[g], i, j, fits);
  }

  lemma LeastFirst(points: seq<Point>)
    requires Ascending(points) && points != []
    ensures forall p :: p in points ==> points[0].value <= p.value
  {
  }

  // No grouping within tolerance of smallest values has fewer groups than greedy clustering.
  lemma GreedyIsMinimal(points: seq<Point>, groups: Clusters, fits: Fit)
    requires Windowed(fits) && Ascending(points) && Covers(groups, points, fits)
    ensures |Greedy([], points, fits)| <= |groups|
  {
    if points != [] {
      FirstHead(points, fits);
      LeastFirst(points);
      var clusters := Greedy([], points, fits);
      var homes := HomesOf(groups, clusters, points, fits);
      forall i, j | 0 <= i < j < |homes| ensures homes[i] != homes[j] {
        HomesApart(points, groups, clusters, homes[i], i, j, fits);
      }
      Pigeonhole(homes, |groups|);
    }
  }

  lemma HomesOf(groups: Clusters, clusters: Clusters, points: seq<Point>, fits: Fit) returns (homes: seq<nat>)
    requires Covers(groups, points, fits) && Concat(clusters) == points
    ensures |homes| == |clusters|
    ensures forall i :: 0 <= i < |clusters| ==> homes[i] < |groups| && clusters[i][0] in groups[homes[i]]
  {
    homes := [];
    for n := 0 to |clusters|
      invariant |homes| == n
      invariant forall i :: 0 <= i < n ==> homes[i] < |groups| && clusters[i][0] in groups[homes[i]]
    {
      ConcatMembers(clusters, n);
      assert clusters[n][0] in points;
      var g :| 0 <= g < |groups| && clusters[n][0] in groups[g];
      homes := homes + [g];
    }
  }

  lemma RunWithinLeast(c: Cluster, fits: Fit)
    requires IsRun(c, fits) && fits(Head(c), Head(c))
    ensures WithinLeast(c, fits)
  {
    var l := c[0];
    assert l in c;
    forall p | p in c ensures l.value <= p.value && fits(p.value, l.value) {
      var m :| 0 <= m < |c| && c[m] == p;
    }
  }

  // Greedy clustering is itself such a grouping.
  lemma GreedyCovers(points: seq<Point>, fits: Fit)
    requires Windowed(fits) && Ascending(points) && (forall x :: fits(x, x))
    ensures Covers(Greedy([], points, fits), points, fits)
  {
    if points != [] {
      FirstHead(points, fits);
      var clusters := Greedy([], points, fits);
      forall p | p in points ensures exists g :: 0 <= g < |clusters| && p in clusters[g] {
        var g := ConcatFrom(clusters, p);
      }
      forall g, p | 0 <= g < |clusters| && p in clusters[g] ensures p in points {
        ConcatMembers(clusters, g);
      }
      forall g | 0 <= g < |clusters| ensures WithinLeast(clusters[g], fits) {
        RunWithinLeast(clusters[g], fits);
      }
    }
  }

  // One cluster means that every value fits the least.
  lemma OneClusterExactly(points: seq<Point>, fits: Fit)
    requires Windowed(fits) && Ascending(points) && points != []
    ensures |Greedy([], points, fits)| == 1
      <==> forall i :: 1 <= i < |points| ==> fits(points[i].value, points[0].value)
  {
    FirstHead(points, fits);
    var clusters := Greedy([], points, fits);
    if |clusters| == 1 {
      assert clusters[1..] == [];
      assert clusters[0] == points;
      assert IsRun(clusters[0], fits);
    } else {
      assert Apart(clusters[0], clusters[1], fits);
      assert Concat(clusters) == clusters[0] + (clusters[1] + Concat(clusters[1..][1..]));
      assert points[|clusters[0]|] == clusters[1][0];
    }
  }
}
