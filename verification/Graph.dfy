// The evidence-backed causal graph (src/localization/graph.cpp): edges in key order, with an adjacency
// index in each direction that always agrees with them.
module CausalGraphs {
  import opened Base
  import opened Model
  import opened Sorting

  datatype EdgeKind =
    | TopologyAdjacency | Containment | PathMembership | QueueOnLink | BufferOnPort
    | FlowOnPath | DemandUpstream | SharedContention | LatencyPropagation | BufferPressure
  {
    function Rank(): nat {
      match this
      case TopologyAdjacency => 0
      case Containment => 1
      case PathMembership => 2
      case QueueOnLink => 3
      case BufferOnPort => 4
      case FlowOnPath => 5
      case DemandUpstream => 6
      case SharedContention => 7
      case LatencyPropagation => 8
      case BufferPressure => 9
    }

    predicate Observational() { this in {DemandUpstream, SharedContention, LatencyPropagation, BufferPressure} }
  }

  datatype CausalEdge = CausalEdge(from: Subject, to: Subject, kind: EdgeKind, ruleId: Bytes, citations: seq<nat>,
                                   strength: nat, observational: bool, generation: GenerationVector)

  datatype EdgeKey = EdgeKey(from: Name, to: Name, kind: EdgeKind, rule: Name)

  // How a subject is named in the graph; the graph is built with Model.Key.
  type Naming = Subject -> Name

  // ---- The order of the edges ----

  predicate KeyLeq(a: EdgeKey, b: EdgeKey) {
    if a.from != b.from then BytesLeq(a.from, b.from)
    else if a.to != b.to then BytesLeq(a.to, b.to)
    else if a.kind != b.kind then a.kind.Rank() < b.kind.Rank()
    else BytesLeq(a.rule, b.rule)
  }

  lemma RankInjective(a: EdgeKind, b: EdgeKind)
    ensures a.Rank() == b.Rank() ==> a == b
  {
  }

  lemma KeyTotal(a: EdgeKey, b: EdgeKey)
    ensures KeyLeq(a, b) || KeyLeq(b, a)
    ensures KeyLeq(a, b) && KeyLeq(b, a) ==> a == b
  {
    BytesTotal(a.from, b.from);
    BytesTotal(a.to, b.to);
    BytesTotal(a.rule, b.rule);
    RankInjective(a.kind, b.kind);
  }

  lemma KeyTransitive(a: EdgeKey, b: EdgeKey, c: EdgeKey)
    requires KeyLeq(a, b) && KeyLeq(b, c)
    ensures KeyLeq(a, c)
  {
    if a.from != b.from || b.from != c.from {
      BytesTotal(a.from, b.from);
      BytesTotal(b.from, c.from);
      BytesTransitive(a.from, b.from, c.from);
    } else if a.to != b.to || b.to != c.to {
      BytesTotal(a.to, b.to);
      BytesTotal(b.to, c.to);
      BytesTransitive(a.to, b.to, c.to);
    } else if a.kind == b.kind == c.kind {
      BytesTransitive(a.rule, b.rule, c.rule);
    }
  }

  lemma KeyOrder()
    ensures TotalOrder(KeyLeq)
  {
    forall a, b ensures (KeyLeq(a, b) || KeyLeq(b, a)) && (KeyLeq(a, b) && KeyLeq(b, a) ==> a == b) {
      KeyTotal(a, b);
    }
    forall a, b, c | KeyLeq(a, b) && KeyLeq(b, c) ensures KeyLeq(a, c) {
      KeyTransitive(a, b, c);
    }
  }

  // ---- Adjacency ----

  type Adjacency = map<Name, seq<Name>>

  // The adjacency map holds exactly the pairs of a relation, each list ascending.
  ghost predicate Mirrors(adjacency: Adjacency, pairs: set<(Name, Name)>) {
    && (forall a :: a in adjacency ==> Ascends(adjacency[a], BytesLeq))
    && (forall a, b :: (a in adjacency && b in adjacency[a]) <==> (a, b) in pairs)
  }

  method Adjoin(adjacency: Adjacency, a: Name, b: Name, ghost pairs: set<(Name, Name)>) returns (linked: Adjacency)
    requires Mirrors(adjacency, pairs)
    ensures Mirrors(linked, pairs + {(a, b)})
  {
    var list := if a in adjacency then adjacency[a] else [];
    if b !in list {
      BytesOrder();
      SortAscends(list + [b], BytesLeq);
      list := SortBy(list + [b], BytesLeq);
    }
    linked := adjacency[a := list];
  }

  ghost function Forward(keys: set<EdgeKey>): set<(Name, Name)> { set k | k in keys :: (k.from, k.to) }

  ghost function Backward(keys: set<EdgeKey>): set<(Name, Name)> { set k | k in keys :: (k.to, k.from) }

  lemma PairsAdd(keys: set<EdgeKey>, key: EdgeKey)
    ensures Forward(keys + {key}) == Forward(keys) + {(key.from, key.to)}
    ensures Backward(keys + {key}) == Backward(keys) + {(key.to, key.from)}
  {
  }

  // ---- Citations ----

  function Cited(citations: seq<nat>, max: nat): seq<nat> {
    Prefix(Unique(SortBy(citations, NatLeq)), max)
  }

  // Citations are kept ascending and distinct, and nothing is lost below the bound.
  lemma CitedExactly(citations: seq<nat>, max: nat)
    ensures Ascends(Cited(citations, max), NatLeq) && |Cited(citations, max)| <= max
    ensures forall x :: x in Cited(citations, max) ==> x in citations
    ensures |Cited(citations, max)| < max ==> forall x :: x in citations ==> x in Cited(citations, max)
    ensures citations != [] && max > 0 ==> Cited(citations, max) != []
  {
    SortMembers(citations, NatLeq);
    UniqueAscends(SortBy(citations, NatLeq), NatLeq);
  }

  // ---- Stretches of the key order ----

  lemma BelowStretch(lower: EdgeKey, k: EdgeKey)
    requires lower == EdgeKey(k.from, [], TopologyAdjacency, []) && k.to != []
    ensures KeyLeq(lower, k) && !(KeyLeq(k, lower) && k != lower)
  {
    KeyTotal(lower, k);
  }

  lemma BeyondStretch(from: Name, order: seq<EdgeKey>, lo: nat, hi: nat, j: nat)
    requires Ascends(order, KeyLeq) && lo <= hi <= j < |order|
    requires forall i :: lo <= i < |order| ==> KeyLeq(EdgeKey(from, [], TopologyAdjacency, []), order[i])
    requires order[hi].from != from
    ensures order[j].from != from
  {
    if hi < j {
      BytesTotal(from, order[hi].from);
      BytesTotal(order[hi].from, order[j].from);
      assert KeyLeq(order[hi], order[j]);
    }
  }

  // The keys of edges into one node, in the order given.
  function Pick(keys: seq<EdgeKey>, to: Name): seq<EdgeKey> {
    if keys == [] then []
    else if keys[|keys| - 1].to == to then Pick(keys[..|keys| - 1], to) + [keys[|keys| - 1]]
    else Pick(keys[..|keys| - 1], to)
  }

  lemma {:induction false} PickExactly(keys: seq<EdgeKey>, to: Name)
    requires Ascends(keys, KeyLeq)
    ensures Ascends(Pick(keys, to), KeyLeq)
    ensures forall k :: k in Pick(keys, to) <==> k in keys && k.to == to
  {
    if keys != [] {
      var n := |keys| - 1;
      PickExactly(keys[..n], to);
      assert keys == keys[..n] + [keys[n]];
      if keys[n].to == to {
        AscendsAppend(Pick(keys[..n], to), keys[n], KeyLeq);
      }
    }
  }

  lemma PickNext(keys: seq<EdgeKey>, lo: nat, i: nat, to: Name)
    requires lo <= i < |keys|
    ensures Pick(keys[lo..i + 1], to) == Pick(keys[lo..i], to) + if keys[i].to == to then [keys[i]] else []
  {
    assert keys[lo..i + 1][..i - lo] == keys[lo..i];
  }

  // A later stretch goes after edges out of lower nodes.
  lemma AscendsAcross(a: seq<EdgeKey>, b: seq<EdgeKey>, from: Name)
    requires Ascends(a, KeyLeq) && Ascends(b, KeyLeq)
    requires forall k :: k in a ==> BytesLeq(k.from, from) && k.from != from
    requires forall k :: k in b ==> k.from == from
    ensures Ascends(a + b, KeyLeq)
  {
  }

  // The edges stored under a list of keys.
  ghost predicate Under(found: seq<CausalEdge>, keys: seq<EdgeKey>, edges: map<EdgeKey, CausalEdge>) {
    |found| == |keys| && forall i :: 0 <= i < |keys| ==> keys[i] in edges && found[i] == edges[keys[i]]
  }

  lemma UnderConcat(a: seq<CausalEdge>, ka: seq<EdgeKey>, b: seq<CausalEdge>, kb: seq<EdgeKey>, edges: map<EdgeKey, CausalEdge>)
    requires Under(a, ka, edges) && Under(b, kb, edges)
    ensures Under(a + b, ka + kb, edges)
  {
  }

  lemma UnderNext(found: seq<CausalEdge>, order: seq<EdgeKey>, lo: nat, i: nat, edges: map<EdgeKey, CausalEdge>)
    requires lo <= i < |order| && order[i] in edges && Under(found, order[lo..i], edges)
    ensures Under(found + [edges[order[i]]], order[lo..i + 1], edges)
  {
    assert order[lo..i + 1] == order[lo..i] + [order[i]];
    UnderConcat(found, order[lo..i], [edges[order[i]]], [order[i]], edges);
  }

  lemma PickUnder(found: seq<CausalEdge>, order: seq<EdgeKey>, lo: nat, i: nat, to: Name, edges: map<EdgeKey, CausalEdge>)
    requires lo <= i < |order| && order[i] in edges && Under(found, Pick(order[lo..i], to), edges)
    ensures Under(if order[i].to == to then found + [edges[order[i]]] else found, Pick(order[lo..i + 1], to), edges)
  {
    PickNext(order, lo, i, to);
    if order[i].to == to {
      UnderConcat(found, Pick(order[lo..i], to), [edges[order[i]]], [order[i]], edges);
    } else {
      assert Pick(order[lo..i], to) + [] == Pick(order[lo..i], to);
    }
  }

  lemma Selected(order: seq<EdgeKey>, lo: nat, hi: nat, from: Name, to: Name)
    requires Ascends(order, KeyLeq) && IsStretch(order, from, lo, hi)
    ensures Ascends(Pick(order[lo..hi], to), KeyLeq)
    ensures forall k :: k in Pick(order[lo..hi], to) <==> k in order && k.from == from && k.to == to
  {
    StretchMembers(order, from, lo, hi);
    PickExactly(order[lo..hi], to);
  }

  // One more source's edges into a node.
  lemma Gathered(keys: seq<EdgeKey>, more: seq<EdgeKey>, into: set<EdgeKey>, sources: seq<Name>, n: nat)
    requires n < |sources| && Ascends(sources, BytesLeq)
    requires Ascends(keys, KeyLeq) && Ascends(more, KeyLeq)
    requires forall k :: k in keys <==> k in into && k.from in sources[..n]
    requires forall k :: k in more <==> k in into && k.from == sources[n]
    ensures Ascends(keys + more, KeyLeq)
    ensures forall k :: k in keys + more <==> k in into && k.from in sources[..n + 1]
  {
    assert sources[..n + 1] == sources[..n] + [sources[n]];
    forall k | k in keys ensures BytesLeq(k.from, sources[n]) && k.from != sources[n] {
      var j :| 0 <= j < n && sources[j] == k.from;
    }
    AscendsAcross(keys, more, sources[n]);
  }

  // The listing of a set of stored edges: each once, in key order.
  ghost predicate Lists(found: seq<CausalEdge>, keys: seq<EdgeKey>, edges: map<EdgeKey, CausalEdge>, wanted: set<EdgeKey>) {
    Ascends(keys, KeyLeq) && (forall k :: k in keys <==> k in wanted) && Under(found, keys, edges)
  }

  // The order lists exactly the stored keys.
  ghost predicate IsOrder(order: seq<EdgeKey>, keys: set<EdgeKey>) {
    Ascends(order, KeyLeq) && forall k :: k in order <==> k in keys
  }

  lemma OrderAdd(order: seq<EdgeKey>, keys: set<EdgeKey>, key: EdgeKey)
    requires IsOrder(order, keys) && key !in keys
    ensures IsOrder(Insert(key, order, KeyLeq), keys + {key})
  {
    KeyOrder();
    InsertAscends(key, order, KeyLeq);
  }

  // Where the edges out of one node lie in the order.
  ghost predicate IsStretch(order: seq<EdgeKey>, from: Name, lo: nat, hi: nat) {
    lo <= hi <= |order| && forall j :: 0 <= j < |order| ==> (order[j].from == from <==> lo <= j < hi)
  }

  lemma StretchMembers(order: seq<EdgeKey>, from: Name, lo: nat, hi: nat)
    requires IsStretch(order, from, lo, hi) && Ascends(order, KeyLeq)
    ensures Ascends(order[lo..hi], KeyLeq)
    ensures forall k :: k in order[lo..hi] <==> k in order && k.from == from
  {
    forall k | k in order && k.from == from ensures k in order[lo..hi] {
      var j :| 0 <= j < |order| && order[j] == k;
      assert order[lo..hi][j - lo] == k;
    }
  }

  lemma StretchFound(order: seq<EdgeKey>, from: Name, lo: nat, hi: nat)
    requires Ascends(order, KeyLeq) && lo <= hi <= |order|
    requires forall k :: k in order ==> k.to != []
    requires forall j :: 0 <= j < lo ==> var lower := EdgeKey(from, [], TopologyAdjacency, []); KeyLeq(order[j], lower) && order[j] != lower
    requires forall j :: lo <= j < |order| ==> KeyLeq(EdgeKey(from, [], TopologyAdjacency, []), order[j])
    requires forall j :: lo <= j < hi ==> order[j].from == from
    requires hi < |order| ==> order[hi].from != from
    ensures IsStretch(order, from, lo, hi)
  {
    forall j | 0 <= j < |order| ensures order[j].from == from <==> lo <= j < hi {
      if j < lo && order[j].from == from {
        BelowStretch(EdgeKey(from, [], TopologyAdjacency, []), order[j]);
      }
      if hi <= j {
        BeyondStretch(from, order, lo, hi, j);
      }
    }
  }

  // The first key not below another, as the ordered map finds it.
  method LowerBound(order: seq<EdgeKey>, lower: EdgeKey) returns (i: nat)
    requires Ascends(order, KeyLeq)
    ensures i <= |order|
    ensures forall j :: 0 <= j < i ==> KeyLeq(order[j], lower) && order[j] != lower
    ensures forall j :: i <= j < |order| ==> KeyLeq(lower, order[j])
  {
    i := 0;
    while i < |order| && KeyLeq(order[i], lower) && order[i] != lower
      invariant i <= |order|
      invariant forall j :: 0 <= j < i ==> KeyLeq(order[j], lower) && order[j] != lower
    {
      i := i + 1;
    }
    LeastAbove(order, lower, i);
  }

  lemma LeastAbove(order: seq<EdgeKey>, lower: EdgeKey, i: nat)
    requires Ascends(order, KeyLeq) && i <= |order|
    requires i < |order| ==> !(KeyLeq(order[i], lower) && order[i] != lower)
    ensures forall j :: i <= j < |order| ==> KeyLeq(lower, order[j])
  {
    forall j | i <= j < |order| ensures KeyLeq(lower, order[j]) {
      KeyTotal(lower, order[i]);
      if i < j {
        KeyTransitive(lower, order[i], order[j]);
      }
    }
  }

  // The edges out of one node are one stretch of the order.
  method Stretch(order: seq<EdgeKey>, from: Name) returns (lo: nat, hi: nat)
    requires Ascends(order, KeyLeq) && forall k :: k in order ==> k.to != []
    ensures IsStretch(order, from, lo, hi)
  {
    lo := LowerBound(order, EdgeKey(from, [], TopologyAdjacency, []));
    hi := lo;
    while hi < |order| && order[hi].from == from
      invariant lo <= hi <= |order|
      invariant forall j :: lo <= j < hi ==> order[j].from == from
    {
      hi := hi + 1;
    }
    StretchFound(order, from, lo, hi);
  }

  method Along(order: seq<EdgeKey>, edges: map<EdgeKey, CausalEdge>, lo: nat, hi: nat) returns (found: seq<CausalEdge>)
    requires lo <= hi <= |order| && forall k :: k in order ==> k in edges
    ensures Under(found, order[lo..hi], edges)
  {
    found := [];
    for i := lo to hi
      invariant Under(found, order[lo..i], edges)
    {
      UnderNext(found, order, lo, i, edges);
      found := found + [edges[order[i]]];
    }
  }

  method AlongInto(order: seq<EdgeKey>, edges: map<EdgeKey, CausalEdge>, lo: nat, hi: nat, to: Name)
    returns (found: seq<CausalEdge>)
    requires lo <= hi <= |order| && forall k :: k in order ==> k in edges
    ensures Under(found, Pick(order[lo..hi], to), edges)
  {
    found := [];
    for i := lo to hi
      invariant Under(found, Pick(order[lo..i], to), edges)
    {
      PickUnder(found, order, lo, i, to, edges);
      if order[i].to == to {
        found := found + [edges[order[i]]];
      }
    }
  }

  function KeyOf(names: Naming, edge: CausalEdge): EdgeKey {
    EdgeKey(names(edge.from), names(edge.to), edge.kind, Unchecked(edge.ruleId))
  }

  // Every edge is stored under its own key, between known nodes, and says itself whether its kind is observational.
  ghost predicate Keyed(names: Naming, nodes: map<Name, Subject>, edges: map<EdgeKey, CausalEdge>) {
    forall k :: k in edges ==> KeyOf(names, edges[k]) == k && k.from in nodes && k.to in nodes && Flagged(edges[k])
  }

  ghost predicate Flagged(edge: CausalEdge) { edge.observational == edge.kind.Observational() }

  lemma KeyedAdd(names: Naming, nodes: map<Name, Subject>, edges: map<EdgeKey, CausalEdge>, edge: CausalEdge)
    requires Keyed(names, nodes, edges) && names(edge.from) in nodes && names(edge.to) in nodes && Flagged(edge)
    ensures Keyed(names, nodes, edges[KeyOf(names, edge) := edge])
  {
  }

  // ---- The graph ----

  class CausalGraph {
    const naming: Naming

    var nodes: map<Name, Subject>
    var edges: map<EdgeKey, CausalEdge>
    var order: seq<EdgeKey>
    var outAdjacency: Adjacency
    var inAdjacency: Adjacency

    ghost predicate NodesNamed()
      reads `nodes
    {
      forall k :: k in nodes ==> k != [] && naming(nodes[k]) == k && nodes[k].Valid()
    }

    ghost predicate EdgesKeyed()
      reads `nodes, `edges
    {
      Keyed(naming, nodes, edges)
    }

    // The edges listed as the ordered map holds them, and both indexes true to them.
    ghost predicate Indexed()
      reads `edges, `order, `outAdjacency, `inAdjacency
    {
      && IsOrder(order, edges.Keys)
      && Mirrors(outAdjacency, Forward(edges.Keys))
      && Mirrors(inAdjacency, Backward(edges.Keys))
    }

    ghost predicate Valid()
      reads this
    {
      NodesNamed() && EdgesKeyed() && Indexed()
    }

    constructor (names: Naming)
      ensures Valid() && nodes == map[] && edges == map[] && naming == names
    {
      naming := names;
      nodes, edges, order, outAdjacency, inAdjacency := map[], map[], [], map[], map[];
    }

    static function NodeRefusal(names: Naming, known: map<Name, Subject>, subject: Subject, limits: Limits): Option<ErrorCode> {
      if !subject.Valid() then Some(InvalidArgument)
      else if names(subject) == [] then Some(InvalidArgument)
      else if names(subject) in known then None
      else if |known| >= limits.maxGraphNodes then Some(LimitExceeded)
      else None
    }

    static function NodesWith(names: Naming, known: map<Name, Subject>, subject: Subject, limits: Limits): map<Name, Subject> {
      if NodeRefusal(names, known, subject, limits) == None && names(subject) !in known then known[names(subject) := subject]
      else known
    }

    method AddNode(subject: Subject, limits: Limits) returns (refused: Option<ErrorCode>)
      requires Valid()
      modifies `nodes
      ensures Valid()
      ensures refused == NodeRefusal(naming, old(nodes), subject, limits)
      ensures nodes == NodesWith(naming, old(nodes), subject, limits)
    {
      if !subject.Valid() {
        return Some(InvalidArgument);
      }
      var key := naming(subject);
      if key == [] {
        return Some(InvalidArgument);
      }
      if key in nodes {
        return None;
      }
      if |nodes| >= limits.maxGraphNodes {
        return Some(LimitExceeded);
      }
      nodes := nodes[key := subject];
      return None;
    }

    // What is wrong with an edge whatever the graph holds.
    static function EdgeRefusal(names: Naming, edge: CausalEdge): Option<ErrorCode> {
      if edge.citations == [] then Some(PreconditionFailed)
      else if !edge.from.Valid() || !edge.to.Valid() then Some(InvalidArgument)
      else if edge.ruleId == [] then Some(InvalidArgument)
      else if names(edge.from) == [] || names(edge.to) == [] || Unchecked(edge.ruleId) == [] then Some(InvalidArgument)
      else None
    }

    function Stored(edge: CausalEdge, limits: Limits): CausalEdge {
      edge.(observational := edge.kind.Observational(), citations := Cited(edge.citations, limits.maxCitations))
    }

    // Stores an edge under a key that is free, in the map, its order and both indexes.
    method Emplace(key: EdgeKey, stored: CausalEdge)
      requires Valid() && key !in edges && KeyOf(naming, stored) == key && Flagged(stored)
      requires key.from in nodes && key.to in nodes
      modifies `edges, `order, `outAdjacency, `inAdjacency
      ensures Valid() && edges == old(edges)[key := stored]
    {
      OrderAdd(order, edges.Keys, key);
      KeyedAdd(naming, nodes, edges, stored);
      PairsAdd(edges.Keys, key);
      var outgoing := Adjoin(outAdjacency, key.from, key.to, Forward(edges.Keys));
      var incoming := Adjoin(inAdjacency, key.to, key.from, Backward(edges.Keys));
      assert edges[key := stored].Keys == edges.Keys + {key};
      outAdjacency, inAdjacency := outgoing, incoming;
      order := Insert(key, order, KeyLeq);
      edges := edges[key := stored];
    }

    // An edge without evidence is refused, and so is any that does not fit; the endpoints of an edge that
    // only the edge limit refuses stay in the graph.
    method AddEdge(edge: CausalEdge, limits: Limits) returns (refused: Option<ErrorCode>)
      requires Valid()
      modifies `nodes, `edges, `order, `outAdjacency, `inAdjacency
      ensures Valid()
      ensures EdgeRefusal(naming, edge) != None ==> refused == EdgeRefusal(naming, edge) && nodes == old(nodes)
      ensures EdgeRefusal(naming, edge) == None ==>
        var source := NodesWith(naming, old(nodes), edge.from, limits);
        var both := NodesWith(naming, source, edge.to, limits);
        if NodeRefusal(naming, old(nodes), edge.from, limits) != None then
          refused == NodeRefusal(naming, old(nodes), edge.from, limits) && nodes == old(nodes)
        else if NodeRefusal(naming, source, edge.to, limits) != None then
          refused == NodeRefusal(naming, source, edge.to, limits) && nodes == source
        else
          nodes == both
          && refused == if KeyOf(naming, edge) !in old(edges) && |old(edges)| >= limits.maxGraphEdges then Some(LimitExceeded) else None
      ensures edges == if refused == None && KeyOf(naming, edge) !in old(edges) then old(edges)[KeyOf(naming, edge) := Stored(edge, limits)]
                       else old(edges)
    {
      refused := EdgeRefusal(naming, edge);
      if refused != None {
        return;
      }
      refused := AddNode(edge.from, limits);
      if refused != None {
        return;
      }
      refused := AddNode(edge.to, limits);
      if refused != None {
        return;
      }
      var key := KeyOf(naming, edge);
      if key in edges {
        return None;
      }
      if |edges| >= limits.maxGraphEdges {
        return Some(LimitExceeded);
      }
      Emplace(key, Stored(edge, limits));
      return None;
    }

    ghost function From(k: Name): set<EdgeKey>
      reads `edges
    {
      set e | e in edges && e.from == k
    }

    ghost function Into(k: Name): set<EdgeKey>
      reads `edges
    {
      set e | e in edges && e.to == k
    }

    // Every edge out of a subject, once, in key order.
    method OutEdges(subject: Subject) returns (found: seq<CausalEdge>, ghost keys: seq<EdgeKey>)
      requires Valid()
      ensures Lists(found, keys, edges, From(naming(subject)))
    {
      var lo, hi := Stretch(order, naming(subject));
      StretchMembers(order, naming(subject), lo, hi);
      found := Along(order, edges, lo, hi);
      keys := order[lo..hi];
    }

    // The edges between two nodes, in key order.
    method Between(from: Name, to: Name) returns (found: seq<CausalEdge>, ghost keys: seq<EdgeKey>)
      requires Valid()
      ensures Lists(found, keys, edges, From(from) * Into(to))
    {
      var lo, hi := Stretch(order, from);
      Selected(order, lo, hi, from, to);
      found := AlongInto(order, edges, lo, hi, to);
      keys := Pick(order[lo..hi], to);
    }

    lemma Indexes(to: Name)
      requires Valid()
      ensures to !in inAdjacency ==> Into(to) == {}
      ensures to in inAdjacency ==> forall k :: k in Into(to) ==> k.from in inAdjacency[to]
    {
      forall k | k in Into(to) ensures to in inAdjacency && k.from in inAdjacency[to] {
        assert (to, k.from) in Backward(edges.Keys);
      }
    }

    // Every edge into a subject, once, in key order.
    method InEdges(subject: Subject) returns (found: seq<CausalEdge>, ghost keys: seq<EdgeKey>)
      requires Valid()
      ensures Lists(found, keys, edges, Into(naming(subject)))
    {
      found, keys := [], [];
      var to := naming(subject);
      Indexes(to);
      if to !in inAdjacency {
        return;
      }
      var sources := inAdjacency[to];
      for n := 0 to |sources|
        invariant Ascends(keys, KeyLeq) && Under(found, keys, edges)
        invariant forall k :: k in keys <==> k in Into(to) && k.from in sources[..n]
      {
        var more, moreKeys := Between(sources[n], to);
        Gathered(keys, moreKeys, Into(to), sources, n);
        UnderConcat(found, keys, more, moreKeys, edges);
        found, keys := found + more, keys + moreKeys;
      }
      assert sources[..|sources|] == sources;
    }
  }
}
