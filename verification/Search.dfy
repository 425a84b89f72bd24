// The depth-bounded search from a symptom to its causes (src/localization/localize.cpp): it walks edges
// backwards and finds every subject within the depth, each once, at its true distance.
module Searching {
  import opened Base
  import opened Model
  import opened Sorting
  import opened CausalGraphs
  import opened VisitOrders

  // ---- Distance against the edges ----

  ghost function Causes(e: Edges, at: set<Name>): set<Name> { set k | k in e && k.to in at :: k.from }

  // The names within reverse distance d of s.
  ghost function Ball(e: Edges, s: Name, d: nat): set<Name> {
    if d == 0 then {s} else Ball(e, s, d - 1) + Causes(e, Ball(e, s, d - 1))
  }

  ghost predicate AtDistance(e: Edges, s: Name, n: Name, d: nat) {
    n in Ball(e, s, d) && (d > 0 ==> n !in Ball(e, s, d - 1))
  }

  // A causal path that ends in s.
  ghost predicate IsPath(e: Edges, p: seq<Name>, s: Name) {
    p != [] && p[|p| - 1] == s && forall i :: 0 <= i < |p| - 1 ==> Linked(e, p[i], p[i + 1])
  }

  lemma {:induction false} PathInBall(e: Edges, p: seq<Name>, s: Name, d: nat)
    requires IsPath(e, p, s) && |p| <= d + 1
    ensures p[0] in Ball(e, s, d)
    decreases d
  {
    if |p| == 1 {
      BallGrows(e, s, 0, d);
    } else {
      assert Linked(e, p[0], p[1]);
      assert forall i :: 0 <= i < |p| - 2 ==> Linked(e, p[1..][i], p[1..][i + 1]);
      PathInBall(e, p[1..], s, d - 1);
    }
  }

  lemma {:induction false} BallHasPath(e: Edges, s: Name, n: Name, d: nat) returns (p: seq<Name>)
    requires n in Ball(e, s, d)
    ensures IsPath(e, p, s) && p[0] == n && |p| <= d + 1
    decreases d
  {
    if d == 0 {
      p := [n];
    } else if n in Ball(e, s, d - 1) {
      p := BallHasPath(e, s, n, d - 1);
    } else {
      var k :| k in e && k.to in Ball(e, s, d - 1) && k.from == n;
      var rest := BallHasPath(e, s, k.to, d - 1);
      p := [n] + rest;
      assert forall i :: 0 < i < |p| - 1 ==> Linked(e, rest[i - 1], rest[i]);
    }
  }

  // The balls are exactly the names from which a causal path of at most d edges leads to s.
  lemma BallIsPaths(e: Edges, s: Name, n: Name, d: nat)
    ensures n in Ball(e, s, d) <==> exists p :: IsPath(e, p, s) && p[0] == n && |p| <= d + 1
  {
    if n in Ball(e, s, d) {
      var p := BallHasPath(e, s, n, d);
    }
    if p :| IsPath(e, p, s) && p[0] == n && |p| <= d + 1 {
      PathInBall(e, p, s, d);
    }
  }

  lemma {:induction false} BallGrows(e: Edges, s: Name, a: nat, b: nat)
    requires a <= b
    ensures Ball(e, s, a) <= Ball(e, s, b)
  {
    if a < b {
      BallGrows(e, s, a, b - 1);
    }
  }

  lemma DistanceUnique(e: Edges, s: Name, n: Name, d: nat, b: nat)
    requires AtDistance(e, s, n, d)
    ensures n in Ball(e, s, b) <==> d <= b
  {
    if d <= b {
      BallGrows(e, s, d, b);
    } else {
      BallGrows(e, s, b, d - 1);
    }
  }

  // ---- What the search keeps ----

  type Depths = map<Name, nat>

  // The balls around s, kept apart from how they grow.
  type Within = nat -> set<Name>

  ghost predicate Nested(within: Within) {
    forall a: nat, b: nat, n :: a <= b && n in within(a) ==> n in within(b)
  }

  // The causes of a ball lie in the next one ...
  ghost predicate Spreads(e: Edges, within: Within) {
    forall d: nat, k :: k in e && k.to in within(d) ==> k.from in within(d + 1)
  }

  // ... and there is nothing else in it.
  ghost predicate OnlySpreads(e: Edges, within: Within, s: Name) {
    && within(0) == {s}
    && forall d: nat {:trigger Causes(e, within(d))} :: within(d + 1) <= within(d) + Causes(e, within(d))
  }

  ghost function BallsOf(e: Edges, s: Name): Within { (d: nat) => Ball(e, s, d) }

  lemma BallFacts(e: Edges, s: Name)
    ensures Nested(BallsOf(e, s)) && Spreads(e, BallsOf(e, s)) && OnlySpreads(e, BallsOf(e, s), s)
  {
    forall a: nat, b: nat, n | a <= b && n in Ball(e, s, a) ensures n in Ball(e, s, b) {
      BallGrows(e, s, a, b);
    }
  }

  ghost predicate At(within: Within, n: Name, d: nat) { n in within(d) && (d > 0 ==> n !in within(d - 1)) }

  // Every name found has its true distance.
  ghost predicate Found(within: Within, s: Name, max: nat, depth: Depths) {
    s in depth && depth[s] == 0 && forall n :: n in depth ==> depth[n] <= max && At(within, n, depth[n])
  }

  // The causes of everything done above the bound have been found.
  ghost predicate Closed(e: Edges, max: nat, depth: Depths, done: set<Name>) {
    forall k :: k in e && k.to in done && k.to in depth && depth[k.to] < max ==> k.from in depth
  }

  // Everything found is done or waits in the queue, once.
  ghost predicate Divided(found: set<Name>, done: set<Name>, queue: seq<Name>) {
    && done + Names(queue) == found && done !! Names(queue)
    && (forall i, j :: 0 <= i < j < |queue| ==> queue[i] != queue[j])
  }

  // Depths never descend along the queue, which spans two of them from `level` on; nothing done is deeper.
  ghost predicate Layered(depth: Depths, done: set<Name>, queue: seq<Name>, level: nat) {
    && (forall i :: 0 <= i < |queue| ==> queue[i] in depth && level <= depth[queue[i]] <= level + 1)
    && (forall i, j :: 0 <= i < j < |queue| ==> depth[queue[i]] <= depth[queue[j]])
    && (forall n :: n in done && n in depth ==> depth[n] <= level)
  }

  ghost predicate Explored(e: Edges, within: Within, s: Name, max: nat, depth: Depths, done: set<Name>, queue: seq<Name>, level: nat) {
    Found(within, s, max, depth) && Closed(e, max, depth, done) && Divided(depth.Keys, done, queue)
    && Layered(depth, done, queue, level)
  }

  lemma CauseFound(e: Edges, within: Within, s: Name, max: nat, depth: Depths, done: set<Name>, d: nat, k: EdgeKey)
    requires Nested(within)
    requires Found(within, s, max, depth) && Closed(e, max, depth, done) && 0 < d <= max
    requires forall n :: n in depth && depth[n] < d ==> n in done
    requires within(d - 1) <= depth.Keys && k in e && k.to in within(d - 1)
    ensures k.from in depth
  {
    assert At(within, k.to, depth[k.to]);
  }

  // When everything nearer than d is done, everything within d has been found.
  lemma {:induction false} FoundWithin(e: Edges, within: Within, s: Name, max: nat, depth: Depths, done: set<Name>, d: nat)
    requires Nested(within) && OnlySpreads(e, within, s)
    requires Found(within, s, max, depth) && Closed(e, max, depth, done) && d <= max
    requires forall n :: n in depth && depth[n] < d ==> n in done
    ensures within(d) <= depth.Keys
    decreases d
  {
    if d > 0 {
      FoundWithin(e, within, s, max, depth, done, d - 1);
      forall k | k in e && k.to in within(d - 1) ensures k.from in depth {
        CauseFound(e, within, s, max, depth, done, d, k);
      }
      assert Causes(e, within(d - 1)) <= depth.Keys;
    }
  }

  // ---- Expanding one name ----

  // The state while the causes of `current` are visited: those of the edges seen so far have been found.
  ghost predicate Expanding(e: Edges, within: Within, s: Name, max: nat, depth: Depths, done: set<Name>, current: Name,
                            queue: seq<Name>, seen: seq<EdgeKey>)
  {
    && Found(within, s, max, depth) && Closed(e, max, depth, done)
    && current in depth && current !in done && depth[current] < max
    && within(depth[current]) <= depth.Keys
    && Divided(depth.Keys, done + {current}, queue)
    && Layered(depth, done + {current}, queue, depth[current])
    && (forall k :: k in seen ==> k.from in depth)
  }

  lemma PopDivided(found: set<Name>, done: set<Name>, queue: seq<Name>)
    requires Divided(found, done, queue) && queue != []
    ensures Divided(found, done + {queue[0]}, queue[1..]) && queue[0] in found && queue[0] !in done
  {
    assert queue[0] in Names(queue);
    assert Names(queue) == {queue[0]} + Names(queue[1..]);
  }

  lemma PopLayered(depth: Depths, done: set<Name>, queue: seq<Name>, level: nat)
    requires Layered(depth, done, queue, level) && queue != []
    ensures Layered(depth, done + {queue[0]}, queue[1..], depth[queue[0]])
  {
  }

  lemma StartExpanding(e: Edges, within: Within, s: Name, max: nat, depth: Depths, done: set<Name>, queue: seq<Name>, level: nat)
    requires Nested(within) && OnlySpreads(e, within, s)
    requires Explored(e, within, s, max, depth, done, queue, level) && queue != [] && depth[queue[0]] < max
    ensures Expanding(e, within, s, max, depth, done, queue[0], queue[1..], [])
  {
    PopDivided(depth.Keys, done, queue);
    PopLayered(depth, done, queue, level);
    Nearer(depth, done, queue, level);
    FoundWithin(e, within, s, max, depth, done, depth[queue[0]]);
  }

  // Everything nearer than the head of the queue is done.
  lemma Nearer(depth: Depths, done: set<Name>, queue: seq<Name>, level: nat)
    requires Divided(depth.Keys, done, queue) && Layered(depth, done, queue, level) && queue != []
    ensures forall n :: n in depth && depth[n] < depth[queue[0]] ==> n in done
  {
  }

  lemma ExpandKnown(e: Edges, within: Within, s: Name, max: nat, depth: Depths, done: set<Name>, current: Name, queue: seq<Name>,
                    seen: seq<EdgeKey>, k: EdgeKey)
    requires Expanding(e, within, s, max, depth, done, current, queue, seen) && k.from in depth
    ensures Expanding(e, within, s, max, depth, done, current, queue, seen + [k])
  {
  }

  lemma PushDivided(found: set<Name>, done: set<Name>, queue: seq<Name>, n: Name)
    requires Divided(found, done, queue) && n !in found
    ensures Divided(found + {n}, done, queue + [n])
  {
    assert Names(queue + [n]) == Names(queue) + {n};
    assert forall i :: 0 <= i < |queue| ==> queue[i] in Names(queue);
  }

  lemma PushLayered(depth: Depths, done: set<Name>, queue: seq<Name>, level: nat, n: Name)
    requires Layered(depth, done, queue, level) && n !in depth && n !in done
    ensures Layered(depth[n := level + 1], done, queue + [n], level)
  {
  }

  // A new cause of a name at depth d is at depth d + 1.
  lemma FoundNew(e: Edges, within: Within, s: Name, max: nat, depth: Depths, k: EdgeKey)
    requires Spreads(e, within)
    requires Found(within, s, max, depth) && k in e && k.to in depth && depth[k.to] < max
    requires within(depth[k.to]) <= depth.Keys && k.from !in depth
    ensures Found(within, s, max, depth[k.from := depth[k.to] + 1])
  {
  }

  lemma ClosedNew(e: Edges, max: nat, depth: Depths, done: set<Name>, current: Name, queue: seq<Name>, n: Name, d: nat)
    requires Closed(e, max, depth, done) && Divided(depth.Keys, done + {current}, queue) && n !in depth
    ensures Closed(e, max, depth[n := d], done)
  {
    assert n !in done;
  }

  lemma ExpandNew(e: Edges, within: Within, s: Name, max: nat, depth: Depths, done: set<Name>, current: Name, queue: seq<Name>,
                  seen: seq<EdgeKey>, k: EdgeKey) returns (deeper: Depths)
    requires Spreads(e, within)
    requires Expanding(e, within, s, max, depth, done, current, queue, seen)
    requires k in e && k.to == current && k.from !in depth
    ensures deeper == depth[k.from := depth[current] + 1]
    ensures Expanding(e, within, s, max, deeper, done, current, queue + [k.from], seen + [k])
  {
    deeper := depth[k.from := depth[current] + 1];
    NewShape(e, within, s, max, depth, deeper, done, current, queue, seen, k);
    FoundNew(e, within, s, max, depth, k);
    ClosedNew(e, max, depth, done, current, queue, k.from, depth[current] + 1);
    Assemble(e, within, s, max, depth, deeper, done, current, queue, seen, k);
  }

  lemma NewShape(e: Edges, within: Within, s: Name, max: nat, depth: Depths, deeper: Depths, done: set<Name>, current: Name, queue: seq<Name>,
                 seen: seq<EdgeKey>, k: EdgeKey)
    requires Expanding(e, within, s, max, depth, done, current, queue, seen) && k.from !in depth
    requires deeper == depth[k.from := depth[current] + 1]
    ensures Divided(depth.Keys + {k.from}, done + {current}, queue + [k.from])
    ensures Layered(deeper, done + {current}, queue + [k.from], depth[current])
  {
    PushDivided(depth.Keys, done + {current}, queue, k.from);
    PushLayered(depth, done + {current}, queue, depth[current], k.from);
  }

  lemma Assemble(e: Edges, within: Within, s: Name, max: nat, depth: Depths, deeper: Depths, done: set<Name>, current: Name, queue: seq<Name>,
                 seen: seq<EdgeKey>, k: EdgeKey)
    requires Expanding(e, within, s, max, depth, done, current, queue, seen)
    requires deeper == depth[k.from := depth[current] + 1] && k.from !in depth
    requires Found(within, s, max, deeper) && Closed(e, max, deeper, done)
    requires Divided(depth.Keys + {k.from}, done + {current}, queue + [k.from])
    requires Layered(deeper, done + {current}, queue + [k.from], depth[current])
    ensures Expanding(e, within, s, max, deeper, done, current, queue + [k.from], seen + [k])
  {
    assert deeper.Keys == depth.Keys + {k.from};
    assert deeper[current] == depth[current];
  }

  lemma FinishExpanding(e: Edges, within: Within, s: Name, max: nat, depth: Depths, done: set<Name>, current: Name, queue: seq<Name>,
                        seen: seq<EdgeKey>)
    requires Expanding(e, within, s, max, depth, done, current, queue, seen)
    requires forall k :: k in e && k.to == current ==> k in seen
    ensures Explored(e, within, s, max, depth, done + {current}, queue, depth[current])
  {
  }

  lemma SkipDeepest(e: Edges, within: Within, s: Name, max: nat, depth: Depths, done: set<Name>, queue: seq<Name>, level: nat)
    requires Explored(e, within, s, max, depth, done, queue, level) && queue != [] && depth[queue[0]] >= max
    ensures Explored(e, within, s, max, depth, done + {queue[0]}, queue[1..], depth[queue[0]])
  {
    PopDivided(depth.Keys, done, queue);
    PopLayered(depth, done, queue, level);
  }

  // With nothing left to expand, exactly the names within the bound have been found.
  lemma AllFound(e: Edges, within: Within, s: Name, max: nat, depth: Depths, done: set<Name>, level: nat)
    requires Nested(within) && OnlySpreads(e, within, s)
    requires Explored(e, within, s, max, depth, done, [], level)
    ensures done == depth.Keys == within(max)
  {
    assert Names([]) == {};
    FoundWithin(e, within, s, max, depth, done, max);
    forall n | n in depth ensures n in within(max) {
      assert At(within, n, depth[n]);
    }
  }

  // ---- The search ----

  datatype Visit = Visit(node: Subject, depth: nat)

  // Edges examined: those into names nearer than the bound.
  ghost function Examined(e: Edges, depth: Depths, done: set<Name>, max: nat): Edges {
    set k | k in e && k.to in done && k.to in depth && depth[k.to] < max
  }

  // Whether a name at the bound has causes.
  ghost predicate Stopped(e: Edges, depth: Depths, done: set<Name>, max: nat) {
    exists k :: k in e && k.to in done && k.to in depth && depth[k.to] >= max
  }

  ghost predicate Queued(names: Naming, depth: Depths, queue: seq<Visit>, waiting: seq<Name>) {
    |queue| == |waiting|
    && forall i :: 0 <= i < |queue| ==>
         names(queue[i].node) == waiting[i] && waiting[i] in depth && depth[waiting[i]] == queue[i].depth
  }

  // Each subject reached is recorded with its depth and a stored edge towards the symptom.
  ghost predicate Recorded(names: Naming, edges: map<EdgeKey, CausalEdge>, s: Name, depth: Depths, reached: map<Name, Step>) {
    && reached.Keys == depth.Keys - {s}
    && forall n :: n in reached ==> RecordedStep(names, edges, depth, n, reached[n])
  }

  ghost predicate IsStored(names: Naming, edges: map<EdgeKey, CausalEdge>, edge: CausalEdge) {
    KeyOf(names, edge) in edges && edges[KeyOf(names, edge)] == edge
  }

  ghost predicate RecordedStep(names: Naming, edges: map<EdgeKey, CausalEdge>, depth: Depths, n: Name, step: Step)
    requires n in depth
  {
    && names(step.node) == n && step.depth == depth[n] && IsStored(names, edges, step.via)
    && names(step.via.from) == n && names(step.via.to) in depth && depth[names(step.via.to)] + 1 == depth[n]
  }

  // Each subject reached is recorded by the edge along which a breadth-first search in key order first meets it.
  ghost predicate FirstMet(names: Naming, edges: map<EdgeKey, CausalEdge>, s: Name, reached: map<Name, Step>, all: set<Name>) {
    exists order :: IsVisitOrder(edges.Keys, s, all, order) && Met(names, edges, order, reached)
  }

  // What a finished search says, in terms of distance and of the order of visits alone.
  ghost predicate IsSearch(names: Naming, edges: map<EdgeKey, CausalEdge>, s: Name, max: nat,
                           reached: map<Name, Step>, paths: nat, limited: bool)
  {
    && reached.Keys == Ball(edges.Keys, s, max) - {s}
    && (forall n :: n in reached ==> IsReached(names, edges, s, max, n, reached[n]))
    && FirstMet(names, edges, s, reached, Ball(edges.Keys, s, max))
    && paths == |set k | k in edges.Keys && max > 0 && k.to in Ball(edges.Keys, s, max - 1)|
    && (limited <==> exists k :: k in edges.Keys && AtDistance(edges.Keys, s, k.to, max))
  }

  ghost predicate IsReached(names: Naming, edges: map<EdgeKey, CausalEdge>, s: Name, max: nat, n: Name, step: Step) {
    && names(step.node) == n && 1 <= step.depth <= max && AtDistance(edges.Keys, s, n, step.depth)
    && IsStored(names, edges, step.via) && names(step.via.from) == n
    && AtDistance(edges.Keys, s, names(step.via.to), step.depth - 1)
  }

  lemma {:induction false} ListingSize(keys: seq<EdgeKey>, wanted: set<EdgeKey>)
    requires Ascends(keys, KeyLeq) && forall k :: k in keys <==> k in wanted
    ensures |keys| == |wanted|
  {
    if keys == [] {
      assert wanted == {};
    } else {
      var n := |keys| - 1;
      forall k ensures k in keys[..n] <==> k in wanted - {keys[n]} {
        assert keys == keys[..n] + [keys[n]];
      }
      ListingSize(keys[..n], wanted - {keys[n]});
    }
  }

  lemma ReachedNew(names: Naming, edges: map<EdgeKey, CausalEdge>, s: Name, depth: Depths, reached: map<Name, Step>,
                   edge: CausalEdge)
    requires Recorded(names, edges, s, depth, reached) && IsStored(names, edges, edge) && s in depth
    requires names(edge.to) in depth && names(edge.from) !in depth
    ensures var d := depth[names(edge.to)] + 1;
      Recorded(names, edges, s, depth[names(edge.from) := d], reached[names(edge.from) := Step(edge.from, d, edge)])
  {
  }

  lemma QueuedNew(names: Naming, depth: Depths, queue: seq<Visit>, waiting: seq<Name>, node: Subject, d: nat)
    requires Queued(names, depth, queue, waiting) && names(node) !in depth
    ensures Queued(names, depth[names(node) := d], queue + [Visit(node, d)], waiting + [names(node)])
  {
  }

  // The invariants of the search as predicates on what moves: depths, queue names and edges seen while one
  // name is expanded; depths, queue names, records and queue throughout.
  type Moving = (Depths, seq<Name>, seq<EdgeKey>) -> bool

  type Noting = (Depths, seq<Name>, map<Name, Step>, seq<Visit>) -> bool

  // The names found, those in the queue, edges seen and records, and the order in which they came.
  type Ranking = (set<Name>, seq<Name>, seq<EdgeKey>, map<Name, Step>) -> bool

  ghost function MovingOf(e: Edges, s: Name, max: nat, done: set<Name>, current: Name): Moving {
    (depth, waiting, seen) => Expanding(e, BallsOf(e, s), s, max, depth, done, current, waiting, seen)
  }

  ghost function NotingOf(names: Naming, edges: map<EdgeKey, CausalEdge>, s: Name): Noting {
    (depth, waiting, reached, queue) =>
      s in depth && Queued(names, depth, queue, waiting) && Recorded(names, edges, s, depth, reached)
  }

  ghost function RankingOf(names: Naming, edges: map<EdgeKey, CausalEdge>, s: Name, past: seq<Name>): Ranking {
    (found, waiting, seen, reached) =>
      InRank(names, edges, s, found, past, waiting, reached) && Listing(edges.Keys, past, waiting, seen)
  }

  ghost predicate InRank(names: Naming, edges: map<EdgeKey, CausalEdge>, s: Name, found: set<Name>, past: seq<Name>, waiting: seq<Name>,
                         reached: map<Name, Step>)
  {
    Names(past + waiting) == found && Ordered(edges.Keys, s, past, waiting) && Met(names, edges, past + waiting, reached)
  }

  lemma MoveKnown(e: Edges, s: Name, max: nat, depth: Depths, done: set<Name>, current: Name,
                  waiting: seq<Name>, seen: seq<EdgeKey>, k: EdgeKey)
    requires MovingOf(e, s, max, done, current)(depth, waiting, seen) && k.from in depth
    ensures MovingOf(e, s, max, done, current)(depth, waiting, seen + [k])
  {
    ExpandKnown(e, BallsOf(e, s), s, max, depth, done, current, waiting, seen, k);
  }

  lemma MoveNew(e: Edges, s: Name, max: nat, depth: Depths, d: nat, done: set<Name>, current: Name,
                waiting: seq<Name>, seen: seq<EdgeKey>, k: EdgeKey)
    requires MovingOf(e, s, max, done, current)(depth, waiting, seen)
    requires k in e && k.to == current && k.from !in depth && current in depth && d == depth[current] + 1
    ensures MovingOf(e, s, max, done, current)(depth[k.from := d], waiting + [k.from], seen + [k])
  {
    BallFacts(e, s);
    var same := ExpandNew(e, BallsOf(e, s), s, max, depth, done, current, waiting, seen, k);
  }

  lemma NoteNew(names: Naming, edges: map<EdgeKey, CausalEdge>, s: Name, depth: Depths, reached: map<Name, Step>,
                queue: seq<Visit>, waiting: seq<Name>, d: nat, edge: CausalEdge)
    requires NotingOf(names, edges, s)(depth, waiting, reached, queue)
    requires IsStored(names, edges, edge) && names(edge.to) in depth && names(edge.from) !in depth
    requires d == depth[names(edge.to)] + 1
    ensures NotingOf(names, edges, s)(depth[names(edge.from) := d], waiting + [names(edge.from)],
                                      reached[names(edge.from) := Step(edge.from, d, edge)], queue + [Visit(edge.from, d)])
  {
    ReachedNew(names, edges, s, depth, reached, edge);
    QueuedNew(names, depth, queue, waiting, edge.from, d);
  }

  // What the loop over the edges into one name needs of the invariants.
  ghost predicate MovesOn(moving: Moving, e: Edges, at: Name, d: nat) {
    && (forall depth, waiting, seen, k: EdgeKey {:trigger moving(depth, waiting, seen + [k])} ::
          moving(depth, waiting, seen) && k.from in depth ==> moving(depth, waiting, seen + [k]))
    && (forall depth, waiting, seen, k: EdgeKey {:trigger moving(depth[k.from := d + 1], waiting + [k.from], seen + [k])} ::
          moving(depth, waiting, seen) && k in e && k.to == at && k.from !in depth && at in depth && depth[at] == d
          ==> moving(depth[k.from := d + 1], waiting + [k.from], seen + [k]))
  }

  ghost predicate NotesOn(noting: Noting, names: Naming, edges: map<EdgeKey, CausalEdge>, at: Name, d: nat) {
    forall depth, waiting, reached, queue, edge: CausalEdge
      {:trigger noting(depth[names(edge.from) := d + 1], waiting + [names(edge.from)],
                       reached[names(edge.from) := Step(edge.from, d + 1, edge)], queue + [Visit(edge.from, d + 1)])} ::
      noting(depth, waiting, reached, queue) && IsStored(names, edges, edge) && names(edge.to) == at
      && at in depth && depth[at] == d && names(edge.from) !in depth
      ==> noting(depth[names(edge.from) := d + 1], waiting + [names(edge.from)],
                 reached[names(edge.from) := Step(edge.from, d + 1, edge)], queue + [Visit(edge.from, d + 1)])
  }

  ghost predicate RanksOn(ranking: Ranking, names: Naming, edges: map<EdgeKey, CausalEdge>, at: Name, d: nat) {
    && (forall found, waiting, seen, reached, k: EdgeKey {:trigger ranking(found, waiting, seen + [k], reached)} ::
          ranking(found, waiting, seen, reached) && k.from in found ==> ranking(found, waiting, seen + [k], reached))
    && (forall found, waiting, seen, reached, k: EdgeKey
          {:trigger ranking(found + {k.from}, waiting + [k.from], seen + [k], reached[k.from := Step(edges[k].from, d + 1, edges[k])])} ::
          ranking(found, waiting, seen, reached) && k.from !in found && IsNext(edges.Keys, at, seen, k) && KeyOf(names, edges[k]) == k
          ==> ranking(found + {k.from}, waiting + [k.from], seen + [k], reached[k.from := Step(edges[k].from, d + 1, edges[k])]))
  }

  lemma MovingMovesOn(e: Edges, s: Name, max: nat, done: set<Name>, at: Name, d: nat)
    ensures MovesOn(MovingOf(e, s, max, done, at), e, at, d)
  {
    var moving := MovingOf(e, s, max, done, at);
    forall depth, waiting, seen, k: EdgeKey | moving(depth, waiting, seen) && k.from in depth
      ensures moving(depth, waiting, seen + [k])
    {
      MoveKnown(e, s, max, depth, done, at, waiting, seen, k);
    }
    forall depth, waiting, seen, k: EdgeKey |
      moving(depth, waiting, seen) && k in e && k.to == at && k.from !in depth && at in depth && depth[at] == d
      ensures moving(depth[k.from := d + 1], waiting + [k.from], seen + [k])
    {
      MoveNew(e, s, max, depth, d + 1, done, at, waiting, seen, k);
    }
  }

  lemma NotingNotesOn(names: Naming, edges: map<EdgeKey, CausalEdge>, s: Name, at: Name, d: nat)
    ensures NotesOn(NotingOf(names, edges, s), names, edges, at, d)
  {
    var noting := NotingOf(names, edges, s);
    forall depth, waiting, reached, queue, edge: CausalEdge
      {:trigger noting(depth[names(edge.from) := d + 1], waiting + [names(edge.from)],
                       reached[names(edge.from) := Step(edge.from, d + 1, edge)], queue + [Visit(edge.from, d + 1)])} |
      noting(depth, waiting, reached, queue) && IsStored(names, edges, edge) && names(edge.to) == at
      && at in depth && depth[at] == d && names(edge.from) !in depth
      ensures noting(depth[names(edge.from) := d + 1], waiting + [names(edge.from)],
                     reached[names(edge.from) := Step(edge.from, d + 1, edge)], queue + [Visit(edge.from, d + 1)])
    {
      NoteNew(names, edges, s, depth, reached, queue, waiting, d + 1, edge);
    }
  }

  lemma RankKnown(names: Naming, edges: map<EdgeKey, CausalEdge>, s: Name, past: seq<Name>, found: set<Name>, waiting: seq<Name>,
                  seen: seq<EdgeKey>, reached: map<Name, Step>, k: EdgeKey)
    requires RankingOf(names, edges, s, past)(found, waiting, seen, reached) && k.from in found
    ensures RankingOf(names, edges, s, past)(found, waiting, seen + [k], reached)
  {
    assert k.from in Names(past + waiting);
    ListKnown(edges.Keys, past, waiting, seen, k);
  }

  lemma NamesMore(past: seq<Name>, waiting: seq<Name>, n: Name)
    ensures Names(past + (waiting + [n])) == Names(past + waiting) + {n}
  {
    Regroup(past, waiting, [n]);
  }

  lemma RankNew(names: Naming, edges: map<EdgeKey, CausalEdge>, s: Name, past: seq<Name>, found: set<Name>, waiting: seq<Name>,
                seen: seq<EdgeKey>, reached: map<Name, Step>, k: EdgeKey, d: nat)
    requires RankingOf(names, edges, s, past)(found, waiting, seen, reached) && k.from !in found
    requires IsNext(edges.Keys, past[|past| - 1], seen, k) && KeyOf(names, edges[k]) == k
    ensures RankingOf(names, edges, s, past)(found + {k.from}, waiting + [k.from], seen + [k],
                                             reached[k.from := Step(edges[k].from, d, edges[k])])
  {
    assert k.from !in Names(past + waiting);
    NamesMore(past, waiting, k.from);
    OrderedNew(edges.Keys, s, past, waiting, seen, k);
    MetNew(names, edges, past, waiting, reached, seen, k, d);
    ListNew(edges.Keys, past, waiting, seen, k);
  }

  lemma RankingRanksOn(names: Naming, edges: map<EdgeKey, CausalEdge>, s: Name, past: seq<Name>, at: Name, d: nat)
    requires past != [] && past[|past| - 1] == at
    ensures RanksOn(RankingOf(names, edges, s, past), names, edges, at, d)
  {
    var ranking := RankingOf(names, edges, s, past);
    forall found, waiting, seen, reached, k: EdgeKey | ranking(found, waiting, seen, reached) && k.from in found
      ensures ranking(found, waiting, seen + [k], reached)
    {
      RankKnown(names, edges, s, past, found, waiting, seen, reached, k);
    }
    forall found, waiting, seen, reached, k: EdgeKey |
      ranking(found, waiting, seen, reached) && k.from !in found && IsNext(edges.Keys, at, seen, k) && KeyOf(names, edges[k]) == k
      ensures ranking(found + {k.from}, waiting + [k.from], seen + [k], reached[k.from := Step(edges[k].from, d + 1, edges[k])])
    {
      RankNew(names, edges, s, past, found, waiting, seen, reached, k, d + 1);
    }
  }

  // The three together, as the loop over the edges into one name keeps them.
  type Going = (Depths, seq<Name>, seq<EdgeKey>, map<Name, Step>, seq<Visit>) -> bool

  ghost function Together(moving: Moving, noting: Noting, ranking: Ranking): Going {
    (depth, waiting, seen, reached, queue) =>
      moving(depth, waiting, seen) && noting(depth, waiting, reached, queue) && ranking(depth.Keys, waiting, seen, reached)
  }

  ghost predicate GoesOn(going: Going, names: Naming, edges: map<EdgeKey, CausalEdge>, at: Name, d: nat) {
    && (forall depth, waiting, seen, reached, queue, k: EdgeKey {:trigger going(depth, waiting, seen + [k], reached, queue)} ::
          going(depth, waiting, seen, reached, queue) && k.from in depth ==> going(depth, waiting, seen + [k], reached, queue))
    && (forall depth, waiting, seen, reached, queue, k: EdgeKey
          {:trigger going(depth[k.from := d + 1], waiting + [k.from], seen + [k],
                          reached[k.from := Step(edges[k].from, d + 1, edges[k])], queue + [Visit(edges[k].from, d + 1)])} ::
          going(depth, waiting, seen, reached, queue) && IsNext(edges.Keys, at, seen, k) && KeyOf(names, edges[k]) == k
          && k.from !in depth && at in depth && depth[at] == d
          ==> going(depth[k.from := d + 1], waiting + [k.from], seen + [k],
                    reached[k.from := Step(edges[k].from, d + 1, edges[k])], queue + [Visit(edges[k].from, d + 1)]))
  }

  lemma GoingNew(moving: Moving, noting: Noting, ranking: Ranking, names: Naming, edges: map<EdgeKey, CausalEdge>, at: Name, d: nat,
                 depth: Depths, waiting: seq<Name>, seen: seq<EdgeKey>, reached: map<Name, Step>, queue: seq<Visit>, k: EdgeKey)
    requires MovesOn(moving, edges.Keys, at, d) && NotesOn(noting, names, edges, at, d) && RanksOn(ranking, names, edges, at, d)
    requires moving(depth, waiting, seen) && noting(depth, waiting, reached, queue) && ranking(depth.Keys, waiting, seen, reached)
    requires IsNext(edges.Keys, at, seen, k) && KeyOf(names, edges[k]) == k && k.from !in depth && at in depth && depth[at] == d
    ensures moving(depth[k.from := d + 1], waiting + [k.from], seen + [k])
    ensures noting(depth[k.from := d + 1], waiting + [k.from], reached[k.from := Step(edges[k].from, d + 1, edges[k])],
                   queue + [Visit(edges[k].from, d + 1)])
    ensures ranking(depth[k.from := d + 1].Keys, waiting + [k.from], seen + [k], reached[k.from := Step(edges[k].from, d + 1, edges[k])])
  {
    var edge := edges[k];
    assert noting(depth[names(edge.from) := d + 1], waiting + [names(edge.from)],
                  reached[names(edge.from) := Step(edge.from, d + 1, edge)], queue + [Visit(edge.from, d + 1)]);
    assert ranking(depth.Keys + {k.from}, waiting + [k.from], seen + [k], reached[k.from := Step(edges[k].from, d + 1, edges[k])]);
    assert depth[k.from := d + 1].Keys == depth.Keys + {k.from};
  }

  lemma TogetherGoesOn(moving: Moving, noting: Noting, ranking: Ranking, names: Naming, edges: map<EdgeKey, CausalEdge>, at: Name, d: nat)
    requires MovesOn(moving, edges.Keys, at, d) && NotesOn(noting, names, edges, at, d) && RanksOn(ranking, names, edges, at, d)
    ensures GoesOn(Together(moving, noting, ranking), names, edges, at, d)
  {
    var going := Together(moving, noting, ranking);
    forall depth, waiting, seen, reached, queue, k: EdgeKey | going(depth, waiting, seen, reached, queue) && k.from in depth
      ensures going(depth, waiting, seen + [k], reached, queue)
    {
      assert moving(depth, waiting, seen + [k]) && ranking(depth.Keys, waiting, seen + [k], reached);
    }
    forall depth, waiting, seen, reached, queue, k: EdgeKey
      {:trigger going(depth[k.from := d + 1], waiting + [k.from], seen + [k],
                      reached[k.from := Step(edges[k].from, d + 1, edges[k])], queue + [Visit(edges[k].from, d + 1)])} |
      going(depth, waiting, seen, reached, queue) && IsNext(edges.Keys, at, seen, k) && KeyOf(names, edges[k]) == k
      && k.from !in depth && at in depth && depth[at] == d
      ensures going(depth[k.from := d + 1], waiting + [k.from], seen + [k],
                    reached[k.from := Step(edges[k].from, d + 1, edges[k])], queue + [Visit(edges[k].from, d + 1)])
    {
      GoingNew(moving, noting, ranking, names, edges, at, d, depth, waiting, seen, reached, queue, k);
    }
  }

  ghost function GoingOf(names: Naming, edges: map<EdgeKey, CausalEdge>, s: Name, max: nat, done: set<Name>, past: seq<Name>, at: Name): Going {
    Together(MovingOf(edges.Keys, s, max, done, at), NotingOf(names, edges, s), RankingOf(names, edges, s, past + [at]))
  }

  lemma GoingGoesOn(names: Naming, edges: map<EdgeKey, CausalEdge>, s: Name, max: nat, done: set<Name>, past: seq<Name>, at: Name, d: nat)
    ensures GoesOn(GoingOf(names, edges, s, max, done, past, at), names, edges, at, d)
  {
    MovingMovesOn(edges.Keys, s, max, done, at, d);
    NotingNotesOn(names, edges, s, at, d);
    RankingRanksOn(names, edges, s, past + [at], at, d);
    TogetherGoesOn(MovingOf(edges.Keys, s, max, done, at), NotingOf(names, edges, s), RankingOf(names, edges, s, past + [at]),
                   names, edges, at, d);
  }

  lemma NextGoes(going: Going, names: Naming, edges: map<EdgeKey, CausalEdge>, at: Name, d: nat,
                 depth: Depths, waiting: seq<Name>, seen: seq<EdgeKey>, reached: map<Name, Step>, queue: seq<Visit>,
                 k: EdgeKey, edge: CausalEdge)
    requires GoesOn(going, names, edges, at, d) && going(depth, waiting, seen, reached, queue)
    requires IsNext(edges.Keys, at, seen, k) && edge == edges[k] && KeyOf(names, edge) == k
    requires names(edge.from) !in depth && at in depth && depth[at] == d
    ensures var key := names(edge.from);
      going(depth[key := d + 1], waiting + [key], seen + [k], reached[key := Step(edge.from, d + 1, edge)],
            queue + [Visit(edge.from, d + 1)])
  {
    assert going(depth[k.from := d + 1], waiting + [k.from], seen + [k],
                 reached[k.from := Step(edges[k].from, d + 1, edges[k])], queue + [Visit(edges[k].from, d + 1)]);
  }

  // The edges into one name, as listed.
  ghost predicate AreInto(names: Naming, edges: map<EdgeKey, CausalEdge>, found: seq<CausalEdge>, keys: seq<EdgeKey>, at: Name) {
    |found| == |keys|
    && forall i :: 0 <= i < |keys| ==>
         IsNext(edges.Keys, at, keys[..i], keys[i]) && found[i] == edges[keys[i]] && KeyOf(names, found[i]) == keys[i]
  }

  // The loop over the edges into one name.
  method Expand(names: Naming, ghost edges: map<EdgeKey, CausalEdge>, found: seq<CausalEdge>, ghost keys: seq<EdgeKey>,
                current: Visit, before: map<Name, Step>, seen: set<Name>, rest: seq<Visit>,
                ghost going: Going, ghost depths: Depths, ghost waits: seq<Name>)
    returns (reached: map<Name, Step>, visited: set<Name>, queue: seq<Visit>, ghost depth: Depths, ghost waiting: seq<Name>)
    requires AreInto(names, edges, found, keys, names(current.node))
    requires seen == depths.Keys && names(current.node) in depths && depths[names(current.node)] == current.depth
    requires GoesOn(going, names, edges, names(current.node), current.depth) && going(depths, waits, [], before, rest)
    ensures visited == depth.Keys
    ensures going(depth, waiting, keys, reached, queue)
    ensures forall n :: n in depths ==> n in depth && depth[n] == depths[n]
  {
    reached, visited, queue, depth, waiting := before, seen, rest, depths, waits;
    ghost var at := names(current.node);
    for i := 0 to |found|
      invariant visited == depth.Keys
      invariant going(depth, waiting, keys[..i], reached, queue)
      invariant forall n :: n in depths ==> n in depth && depth[n] == depths[n]
    {
      var edge := found[i];
      var key := names(edge.from);
      OneMore(keys, i);
      if key in visited {
        assert going(depth, waiting, keys[..i] + [keys[i]], reached, queue);
      } else {
        NextGoes(going, names, edges, at, current.depth, depth, waiting, keys[..i], reached, queue, keys[i], edge);
        visited := visited + {key};
        reached := reached[key := Step(edge.from, current.depth + 1, edge)];
        queue := queue + [Visit(edge.from, current.depth + 1)];
        depth, waiting := depth[key := current.depth + 1], waiting + [key];
      }
    }
    assert keys[..|keys|] == keys;
  }

  // ---- The whole search ----

  // What holds whenever the queue is consulted; `level` is the depth of the last name done.
  ghost predicate InProgress(names: Naming, edges: map<EdgeKey, CausalEdge>, s: Name, max: nat,
                             depth: Depths, done: set<Name>, past: seq<Name>, waiting: seq<Name>, level: nat,
                             reached: map<Name, Step>, queue: seq<Visit>, paths: nat, limited: bool)
  {
    && Explored(edges.Keys, BallsOf(edges.Keys, s), s, max, depth, done, waiting, level)
    && NotingOf(names, edges, s)(depth, waiting, reached, queue)
    && Names(past) == done && InRank(names, edges, s, depth.Keys, past, waiting, reached)
    && paths == |Examined(edges.Keys, depth, done, max)|
    && (limited <==> Stopped(edges.Keys, depth, done, max))
  }

  lemma BeginExplored(e: Edges, s: Name, max: nat)
    ensures Explored(e, BallsOf(e, s), s, max, map[s := 0], {}, [s], 0)
    ensures Examined(e, map[s := 0], {}, max) == {}
  {
    assert Names([s]) == {s};
  }

  lemma BeginNoted(names: Naming, edges: map<EdgeKey, CausalEdge>, s: Name, node: Subject)
    requires s == names(node)
    ensures NotingOf(names, edges, s)(map[s := 0], [s], map[], [Visit(node, 0)])
  {
    var depth: Depths, reached: map<Name, Step> := map[s := 0], map[];
    assert reached.Keys == depth.Keys - {s};
    assert Recorded(names, edges, s, depth, reached);
    assert Queued(names, depth, [Visit(node, 0)], [s]);
  }

  lemma BeginRanked(names: Naming, edges: map<EdgeKey, CausalEdge>, s: Name)
    ensures Names([]) == {} && InRank(names, edges, s, map[s := 0].Keys, [], [s], map[])
  {
    assert [] + [s] == [s] && Names([s]) == {s} && map[s := 0].Keys == {s};
  }

  lemma Begin(names: Naming, edges: map<EdgeKey, CausalEdge>, s: Name, max: nat, node: Subject)
    requires s == names(node)
    ensures InProgress(names, edges, s, max, map[s := 0], {}, [], [s], 0, map[], [Visit(node, 0)], 0, false)
  {
    BeginExplored(edges.Keys, s, max);
    BeginRanked(names, edges, s);
    BeginNoted(names, edges, s, node);
  }

  // The head of the queue lies at the bound: it only says whether there was more to see.
  lemma StopHere(names: Naming, edges: map<EdgeKey, CausalEdge>, s: Name, max: nat,
                 depth: Depths, done: set<Name>, past: seq<Name>, waiting: seq<Name>, level: nat,
                 reached: map<Name, Step>, queue: seq<Visit>, paths: nat, limited: bool, into: set<EdgeKey>)
    requires InProgress(names, edges, s, max, depth, done, past, waiting, level, reached, queue, paths, limited)
    requires queue != [] && queue[0].depth >= max
    requires forall k :: k in into <==> k in edges && k.to == waiting[0]
    ensures InProgress(names, edges, s, max, depth, done + {waiting[0]}, past + [waiting[0]], waiting[1..], depth[waiting[0]],
                       reached, queue[1..], paths, limited || into != {})
  {
    SkipDeepest(edges.Keys, BallsOf(edges.Keys, s), s, max, depth, done, waiting, level);
    StoppedMore(edges.Keys, depth, done, max, waiting[0], into);
    QueuedRest(names, depth, queue, waiting);
    OrderedPop(edges.Keys, s, past, waiting);
    Popped(past, waiting);
  }

  lemma QueuedRest(names: Naming, depth: Depths, queue: seq<Visit>, waiting: seq<Name>)
    requires Queued(names, depth, queue, waiting) && queue != []
    ensures Queued(names, depth, queue[1..], waiting[1..])
  {
  }

  lemma StoppedMore(e: Edges, depth: Depths, done: set<Name>, max: nat, at: Name, into: set<EdgeKey>)
    requires at in depth && depth[at] >= max && forall k :: k in into <==> k in e && k.to == at
    ensures Stopped(e, depth, done + {at}, max) <==> Stopped(e, depth, done, max) || into != {}
    ensures Examined(e, depth, done + {at}, max) == Examined(e, depth, done, max)
  {
    if into != {} {
      var k :| k in into;
    }
  }

  lemma Enter(names: Naming, edges: map<EdgeKey, CausalEdge>, s: Name, max: nat,
              depth: Depths, done: set<Name>, past: seq<Name>, waiting: seq<Name>, level: nat,
              reached: map<Name, Step>, queue: seq<Visit>, paths: nat, limited: bool)
    requires InProgress(names, edges, s, max, depth, done, past, waiting, level, reached, queue, paths, limited)
    requires queue != [] && queue[0].depth < max
    ensures MovingOf(edges.Keys, s, max, done, waiting[0])(depth, waiting[1..], [])
    ensures NotingOf(names, edges, s)(depth, waiting[1..], reached, queue[1..])
    ensures RankingOf(names, edges, s, past + [waiting[0]])(depth.Keys, waiting[1..], [], reached)
  {
    BallFacts(edges.Keys, s);
    StartExpanding(edges.Keys, BallsOf(edges.Keys, s), s, max, depth, done, waiting, level);
    QueuedRest(names, depth, queue, waiting);
    EnterRank(names, edges, s, max, depth, done, past, waiting, level, reached);
  }

  lemma EnterRank(names: Naming, edges: map<EdgeKey, CausalEdge>, s: Name, max: nat, depth: Depths, done: set<Name>,
                  past: seq<Name>, waiting: seq<Name>, level: nat, reached: map<Name, Step>)
    requires InRank(names, edges, s, depth.Keys, past, waiting, reached) && Names(past) == done
    requires Closed(edges.Keys, max, depth, done) && Layered(depth, done, waiting, level)
    requires waiting != [] && depth[waiting[0]] < max
    ensures RankingOf(names, edges, s, past + [waiting[0]])(depth.Keys, waiting[1..], [], reached)
  {
    forall k | k in edges.Keys && k.to in past ensures k.from in past + waiting {
      assert k.to in Names(past) && k.to in Names(past + waiting);
      assert k.from in Names(past + waiting);
    }
    OrderedPop(edges.Keys, s, past, waiting);
    ListBegin(edges.Keys, s, past, waiting);
    Popped(past, waiting);
  }

  lemma ExaminedMore(e: Edges, depth: Depths, deeper: Depths, done: set<Name>, max: nat, at: Name, into: set<EdgeKey>)
    requires at in depth && depth[at] < max && at !in done && done <= depth.Keys
    requires forall n :: n in depth ==> n in deeper && deeper[n] == depth[n]
    requires forall k :: k in into <==> k in e && k.to == at
    ensures |Examined(e, deeper, done + {at}, max)| == |Examined(e, depth, done, max)| + |into|
    ensures Stopped(e, deeper, done + {at}, max) <==> Stopped(e, depth, done, max)
  {
    assert Examined(e, deeper, done + {at}, max) == Examined(e, depth, done, max) + into;
    assert Examined(e, depth, done, max) !! into;
  }

  lemma Leave(names: Naming, edges: map<EdgeKey, CausalEdge>, s: Name, max: nat,
              depth: Depths, deeper: Depths, done: set<Name>, past: seq<Name>, at: Name, waiting: seq<Name>, seen: seq<EdgeKey>,
              reached: map<Name, Step>, queue: seq<Visit>, paths: nat, limited: bool, into: set<EdgeKey>)
    requires MovingOf(edges.Keys, s, max, done, at)(deeper, waiting, seen)
    requires NotingOf(names, edges, s)(deeper, waiting, reached, queue)
    requires RankingOf(names, edges, s, past + [at])(deeper.Keys, waiting, seen, reached) && Names(past) == done
    requires at in depth && depth[at] < max && at !in done && done <= depth.Keys
    requires forall n :: n in depth ==> n in deeper && deeper[n] == depth[n]
    requires paths == |Examined(edges.Keys, depth, done, max)| && (limited <==> Stopped(edges.Keys, depth, done, max))
    requires forall k :: k in into <==> k in edges && k.to == at
    requires forall k :: k in into ==> k in seen
    ensures InProgress(names, edges, s, max, deeper, done + {at}, past + [at], waiting, depth[at], reached, queue, paths + |into|, limited)
  {
    FinishExpanding(edges.Keys, BallsOf(edges.Keys, s), s, max, deeper, done, at, waiting, seen);
    ExaminedMore(edges.Keys, depth, deeper, done, max, at, into);
  }

  // Below the bound and at it, the depths found are the distances.
  lemma NearBall(within: Within, depth: Depths, max: nat, n: Name)
    requires Nested(within) && depth.Keys == within(max) && forall n :: n in depth ==> At(within, n, depth[n])
    ensures max > 0 ==> (n in within(max - 1) <==> n in depth && depth[n] < max)
    ensures At(within, n, max) <==> n in depth && depth[n] >= max
  {
    if max > 0 {
      assert n in within(max - 1) ==> n in within(max);
    }
    if n in depth {
      assert At(within, n, depth[n]);
      assert depth[n] < max ==> n in within(max - 1);
    }
  }

  lemma NearSet(e: Edges, within: Within, s: Name, max: nat, depth: Depths)
    requires Nested(within) && Found(within, s, max, depth) && depth.Keys == within(max)
    ensures forall k :: k in Examined(e, depth, depth.Keys, max) <==> k in e && max > 0 && k.to in within(max - 1)
    ensures Stopped(e, depth, depth.Keys, max) <==> exists k :: k in e && At(within, k.to, max)
  {
    forall k | k in e
      ensures max > 0 ==> (k.to in within(max - 1) <==> k.to in depth && depth[k.to] < max)
      ensures At(within, k.to, max) <==> k.to in depth && depth[k.to] >= max
    {
      NearBall(within, depth, max, k.to);
    }
  }

  lemma NearSearch(e: Edges, s: Name, max: nat, depth: Depths)
    requires Found(BallsOf(e, s), s, max, depth) && depth.Keys == BallsOf(e, s)(max)
    ensures Examined(e, depth, depth.Keys, max) == set k | k in e && max > 0 && k.to in Ball(e, s, max - 1)
    ensures Stopped(e, depth, depth.Keys, max) <==> exists k :: k in e && AtDistance(e, s, k.to, max)
  {
    BallFacts(e, s);
    NearSet(e, BallsOf(e, s), s, max, depth);
    forall k | k in e ensures AtDistance(e, s, k.to, max) <==> At(BallsOf(e, s), k.to, max) {
    }
  }

  lemma ReachedTruly(names: Naming, edges: map<EdgeKey, CausalEdge>, s: Name, max: nat, depth: Depths, n: Name, step: Step)
    requires s in depth && n in depth && n != s && RecordedStep(names, edges, depth, n, step)
    requires forall m :: m in depth ==> AtDistance(edges.Keys, s, m, depth[m]) && depth[m] <= max
    ensures IsReached(names, edges, s, max, n, step)
  {
  }

  lemma Finish(names: Naming, edges: map<EdgeKey, CausalEdge>, s: Name, max: nat, depth: Depths, done: set<Name>, past: seq<Name>, level: nat,
               reached: map<Name, Step>, paths: nat, limited: bool)
    requires InProgress(names, edges, s, max, depth, done, past, [], level, reached, [], paths, limited)
    ensures IsSearch(names, edges, s, max, reached, paths, limited)
  {
    FinishFound(edges.Keys, s, max, depth, done, level);
    NearSearch(edges.Keys, s, max, depth);
    assert past + [] == past;
    assert IsVisitOrder(edges.Keys, s, depth.Keys, past);
    assert Recorded(names, edges, s, depth, reached);
    forall n | n in reached ensures IsReached(names, edges, s, max, n, reached[n]) {
      ReachedTruly(names, edges, s, max, depth, n, reached[n]);
    }
  }

  lemma FinishFound(e: Edges, s: Name, max: nat, depth: Depths, done: set<Name>, level: nat)
    requires Explored(e, BallsOf(e, s), s, max, depth, done, [], level)
    ensures done == depth.Keys == Ball(e, s, max)
    ensures forall n :: n in depth ==> AtDistance(e, s, n, depth[n]) && depth[n] <= max
  {
    BallFacts(e, s);
    AllFound(e, BallsOf(e, s), s, max, depth, done, level);
    TrueDistances(e, s, max, depth);
  }

  lemma TrueDistances(e: Edges, s: Name, max: nat, depth: Depths)
    requires Found(BallsOf(e, s), s, max, depth)
    ensures forall n :: n in depth ==> AtDistance(e, s, n, depth[n]) && depth[n] <= max
  {
    forall n | n in depth ensures AtDistance(e, s, n, depth[n]) {
      assert At(BallsOf(e, s), n, depth[n]);
    }
  }

  lemma DoneInside(e: Edges, s: Name, max: nat, depth: Depths, done: set<Name>, waiting: seq<Name>, level: nat)
    requires Explored(e, BallsOf(e, s), s, max, depth, done, waiting, level)
    ensures done <= Ball(e, s, max) && Names(waiting) <= Ball(e, s, max) && done !! Names(waiting)
  {
    TrueDistances(e, s, max, depth);
    forall n | n in depth ensures n in Ball(e, s, max) {
      DistanceUnique(e, s, n, depth[n], max);
    }
  }

  lemma Shrinks(all: set<Name>, done: set<Name>, at: Name)
    requires at in all && at !in done
    ensures |all - (done + {at})| < |all - done|
  {
    assert all - done == (all - (done + {at})) + {at};
  }

  lemma HeadFacts(names: Naming, edges: map<EdgeKey, CausalEdge>, s: Name, max: nat,
                  depth: Depths, done: set<Name>, past: seq<Name>, waiting: seq<Name>, level: nat,
                  reached: map<Name, Step>, queue: seq<Visit>, paths: nat, limited: bool)
    requires InProgress(names, edges, s, max, depth, done, past, waiting, level, reached, queue, paths, limited)
    requires queue != []
    ensures waiting != [] && waiting[0] == names(queue[0].node)
    ensures waiting[0] in depth && depth[waiting[0]] == queue[0].depth
    ensures waiting[0] !in done && done <= depth.Keys
    ensures |Ball(edges.Keys, s, max) - (done + {waiting[0]})| < |Ball(edges.Keys, s, max) - done|
  {
    DoneInside(edges.Keys, s, max, depth, done, waiting, level);
    assert waiting[0] in Names(waiting);
    Shrinks(Ball(edges.Keys, s, max), done, waiting[0]);
  }

  lemma ListedInto(names: Naming, nodes: map<Name, Subject>, edges: map<EdgeKey, CausalEdge>,
                   found: seq<CausalEdge>, keys: seq<EdgeKey>, into: set<EdgeKey>, at: Name)
    requires Keyed(names, nodes, edges) && Lists(found, keys, edges, into)
    requires forall k :: k in into <==> k in edges && k.to == at
    ensures AreInto(names, edges, found, keys, at) && |found| == |into|
    ensures forall k :: k in into ==> k in keys
  {
    ListingSize(keys, into);
    forall i | 0 <= i < |keys| ensures IsNext(edges.Keys, at, keys[..i], keys[i]) && KeyOf(names, found[i]) == keys[i] {
      NextListed(edges.Keys, at, keys, i);
    }
  }

  // The head of the queue is expanded along the edges into it.
  method Widen(names: Naming, ghost edges: map<EdgeKey, CausalEdge>, found: seq<CausalEdge>, ghost keys: seq<EdgeKey>,
               ghost max: nat, visited0: set<Name>, reached0: map<Name, Step>, queue0: seq<Visit>,
               paths0: nat, ghost limited0: bool, ghost s: Name, ghost depth0: Depths, ghost done0: set<Name>,
               ghost past0: seq<Name>, ghost waiting0: seq<Name>, ghost level0: nat, ghost into: set<EdgeKey>)
    returns (visited: set<Name>, reached: map<Name, Step>, queue: seq<Visit>, paths: nat,
             ghost depth: Depths, ghost waiting: seq<Name>)
    requires queue0 != [] && waiting0 != [] && visited0 == depth0.Keys && queue0[0].depth < max
    requires waiting0[0] == names(queue0[0].node) && waiting0[0] in depth0 && depth0[waiting0[0]] == queue0[0].depth
    requires waiting0[0] !in done0 && done0 <= depth0.Keys
    requires InProgress(names, edges, s, max, depth0, done0, past0, waiting0, level0, reached0, queue0, paths0, limited0)
    requires AreInto(names, edges, found, keys, waiting0[0]) && |found| == |into|
    requires forall k :: k in into <==> k in edges && k.to == waiting0[0]
    requires forall k :: k in into ==> k in keys
    ensures visited == depth.Keys
    ensures InProgress(names, edges, s, max, depth, done0 + {waiting0[0]}, past0 + [waiting0[0]], waiting, depth0[waiting0[0]], reached, queue, paths, limited0)
  {
    ghost var at := waiting0[0];
    ghost var going := GoingOf(names, edges, s, max, done0, past0, at);
    Enter(names, edges, s, max, depth0, done0, past0, waiting0, level0, reached0, queue0, paths0, limited0);
    GoingGoesOn(names, edges, s, max, done0, past0, at, queue0[0].depth);
    reached, visited, queue, depth, waiting :=
      Expand(names, edges, found, keys, queue0[0], reached0, visited0, queue0[1..], going, depth0, waiting0[1..]);
    paths := paths0 + |found|;
    Leave(names, edges, s, max, depth0, depth, done0, past0, at, waiting, keys, reached, queue, paths0, limited0, into);
  }

  // One round of the search: the head of the queue is expanded, or only inspected when at the bound.
  method Turn(names: Naming, ghost edges: map<EdgeKey, CausalEdge>, found: seq<CausalEdge>, ghost keys: seq<EdgeKey>,
              max: nat, visited0: set<Name>, reached0: map<Name, Step>, queue0: seq<Visit>, paths0: nat, limited0: bool,
              ghost s: Name, ghost depth0: Depths, ghost done0: set<Name>, ghost past0: seq<Name>, ghost waiting0: seq<Name>, ghost level0: nat,
              ghost into: set<EdgeKey>)
    returns (visited: set<Name>, reached: map<Name, Step>, queue: seq<Visit>, paths: nat, limited: bool,
             ghost depth: Depths, ghost waiting: seq<Name>, ghost level: nat)
    requires queue0 != [] && waiting0 != [] && visited0 == depth0.Keys
    requires waiting0[0] == names(queue0[0].node) && waiting0[0] in depth0 && depth0[waiting0[0]] == queue0[0].depth
    requires waiting0[0] !in done0 && done0 <= depth0.Keys
    requires InProgress(names, edges, s, max, depth0, done0, past0, waiting0, level0, reached0, queue0, paths0, limited0)
    requires AreInto(names, edges, found, keys, waiting0[0]) && |found| == |into|
    requires forall k :: k in into <==> k in edges && k.to == waiting0[0]
    requires forall k :: k in into ==> k in keys
    ensures visited == depth.Keys
    ensures InProgress(names, edges, s, max, depth, done0 + {waiting0[0]}, past0 + [waiting0[0]], waiting, level, reached, queue, paths, limited)
  {
    level := depth0[waiting0[0]];
    if queue0[0].depth >= max {
      visited, reached, queue, paths, depth, waiting := visited0, reached0, queue0[1..], paths0, depth0, waiting0[1..];
      limited := limited0 || found != [];
      StopHere(names, edges, s, max, depth0, done0, past0, waiting0, level0, reached0, queue0, paths0, limited0, into);
      assert into != {} <==> |into| != 0;
    } else {
      limited := limited0;
      visited, reached, queue, paths, depth, waiting :=
        Widen(names, edges, found, keys, max, visited0, reached0, queue0, paths0, limited0, s, depth0, done0, past0, waiting0, level0, into);
    }
  }

  // The search of the causal graph: everything reached within the bound, the edges examined, and whether
  // the bound cut the search short.
  method Search(graph: CausalGraph, symptom: Subject, maxDepth: nat)
    returns (reached: map<Name, Step>, paths: nat, limited: bool)
    requires graph.Valid()
    ensures IsSearch(graph.naming, graph.edges, graph.naming(symptom), maxDepth, reached, paths, limited)
  {
    var visited := {graph.naming(symptom)};
    var queue := [Visit(symptom, 0)];
    reached, paths, limited := map[], 0, false;
    ghost var s := graph.naming(symptom);
    ghost var depth: Depths, done: set<Name>, past, waiting, level: nat := map[s := 0], {}, [], [s], 0;
    Begin(graph.naming, graph.edges, s, maxDepth, symptom);
    while queue != []
      invariant visited == depth.Keys
      invariant InProgress(graph.naming, graph.edges, s, maxDepth, depth, done, past, waiting, level, reached, queue, paths, limited)
      decreases |Ball(graph.edges.Keys, s, maxDepth) - done|
    {
      ghost var at := waiting[0];
      HeadFacts(graph.naming, graph.edges, s, maxDepth, depth, done, past, waiting, level, reached, queue, paths, limited);
      var found, keys := graph.InEdges(queue[0].node);
      ListedInto(graph.naming, graph.nodes, graph.edges, found, keys, graph.Into(at), at);
      visited, reached, queue, paths, limited, depth, waiting, level :=
        Turn(graph.naming, graph.edges, found, keys, maxDepth, visited, reached, queue, paths, limited,
             s, depth, done, past, waiting, level, graph.Into(at));
      done, past := done + {at}, past + [at];
    }
    Finish(graph.naming, graph.edges, s, maxDepth, depth, done, past, level, reached, paths, limited);
  }

  lemma ReachedUnique(names: Naming, edges: map<EdgeKey, CausalEdge>, s: Name, max: nat, order: seq<Name>,
                      a: map<Name, Step>, b: map<Name, Step>, n: Name)
    requires n in a && n in b && IsReached(names, edges, s, max, n, a[n]) && IsReached(names, edges, s, max, n, b[n])
    requires Met(names, edges, order, a) && Met(names, edges, order, b)
    ensures a[n] == b[n]
  {
    FirstEdgeUnique(names, edges, order, n, a[n].via, b[n].via);
    DistanceUnique(edges.Keys, s, n, a[n].depth, b[n].depth);
    DistanceUnique(edges.Keys, s, n, b[n].depth, a[n].depth);
  }

  lemma SameOrder(names: Naming, edges: map<EdgeKey, CausalEdge>, s: Name, all: set<Name>, a: map<Name, Step>, b: map<Name, Step>)
    returns (order: seq<Name>)
    requires FirstMet(names, edges, s, a, all) && FirstMet(names, edges, s, b, all)
    ensures Met(names, edges, order, a) && Met(names, edges, order, b)
  {
    order :| IsVisitOrder(edges.Keys, s, all, order) && Met(names, edges, order, a);
    var other :| IsVisitOrder(edges.Keys, s, all, other) && Met(names, edges, other, b);
    VisitOrderUnique(edges.Keys, s, all, order, other);
  }

  // The edges, the symptom and the bound decide everything the search finds and records.
  lemma SearchUnique(names: Naming, edges: map<EdgeKey, CausalEdge>, s: Name, max: nat,
                     a: map<Name, Step>, b: map<Name, Step>, paths: nat, others: nat, limited: bool, cut: bool)
    requires IsSearch(names, edges, s, max, a, paths, limited) && IsSearch(names, edges, s, max, b, others, cut)
    ensures a == b && paths == others && limited == cut
  {
    var order := SameOrder(names, edges, s, Ball(edges.Keys, s, max), a, b);
    assert a.Keys == b.Keys;
    forall n | n in a.Keys ensures a[n] == b[n] {
      ReachedUnique(names, edges, s, max, order, a, b, n);
    }
  }
}
