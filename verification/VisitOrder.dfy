// The order in which a breadth-first search against the edges meets names, and the edge by which it first meets each
// (src/localization/localize.cpp:105-139, src/localization/graph.cpp:150-166).
module VisitOrders {
  import opened Base
  import opened Model
  import opened Sorting
  import opened CausalGraphs

  type Edges = set<EdgeKey>

  ghost predicate Linked(e: Edges, from: Name, to: Name) { exists k :: k in e && k.from == from && k.to == to }

  ghost function Names(f: seq<Name>): set<Name> { set n | n in f }

  ghost predicate NoRepeats(f: seq<Name>) { forall i, j :: 0 <= i < j < |f| ==> f[i] != f[j] }

  // How a subject was reached: its depth and the edge that led there from the symptom's side.
  datatype Step = Step(node: Subject, depth: nat, via: CausalEdge)

  // ---- Who is met when ----

  // The place of the first name in the order that n causes.
  ghost function FirstLinked(e: Edges, order: seq<Name>, n: Name): (i: nat)
    ensures i <= |order|
    ensures forall j :: 0 <= j < i ==> !Linked(e, n, order[j])
    ensures i < |order| ==> Linked(e, n, order[i])
  {
    if order == [] || Linked(e, n, order[0]) then 0 else 1 + FirstLinked(e, order[1..], n)
  }

  lemma FirstIs(e: Edges, order: seq<Name>, n: Name, i: nat)
    requires i < |order| && Linked(e, n, order[i]) && forall j :: 0 <= j < i ==> !Linked(e, n, order[j])
    ensures FirstLinked(e, order, n) == i
  {
  }

  // Names met later do not change who came first.
  lemma FirstStays(e: Edges, order: seq<Name>, more: seq<Name>, n: Name)
    requires FirstLinked(e, order, n) < |order|
    ensures FirstLinked(e, order + more, n) == FirstLinked(e, order, n)
  {
    FirstIs(e, order + more, n, FirstLinked(e, order, n));
  }

  // Causes of an earlier name come first, and the causes of one name by their own names.
  ghost predicate Before(e: Edges, order: seq<Name>, a: Name, b: Name) {
    var i, j := FirstLinked(e, order, a), FirstLinked(e, order, b);
    i < j || (i == j && BytesLeq(a, b) && a != b)
  }

  ghost predicate InTurn(e: Edges, order: seq<Name>) {
    forall i, j :: 0 < i < j < |order| ==> Before(e, order, order[i], order[j])
  }

  // Everyone but the start causes one of the first `past` names, and one met before.
  ghost predicate FromPast(e: Edges, order: seq<Name>, past: nat) {
    forall j :: 0 < j < |order| ==> FirstLinked(e, order, order[j]) < j && FirstLinked(e, order, order[j]) < past
  }

  // The breadth-first order of a set of names.
  ghost predicate IsVisitOrder(e: Edges, s: Name, all: set<Name>, order: seq<Name>) {
    order != [] && order[0] == s && NoRepeats(order) && Names(order) == all && InTurn(e, order) && FromPast(e, order, |order|)
  }

  // ---- There is one such order ----

  lemma SameFirst(e: Edges, a: seq<Name>, b: seq<Name>, m: nat, n: Name)
    requires m <= |a| && m <= |b| && a[..m] == b[..m] && FirstLinked(e, a, n) < m
    ensures FirstLinked(e, b, n) == FirstLinked(e, a, n)
  {
    var i := FirstLinked(e, a, n);
    assert forall j :: 0 <= j <= i ==> b[j] == b[..m][j] == a[..m][j] == a[j];
    FirstIs(e, b, n, i);
  }

  lemma FoundLater(a: seq<Name>, b: seq<Name>, m: nat) returns (k: nat)
    requires NoRepeats(a) && Names(a) == Names(b) && m < |a| && m < |b| && a[..m] == b[..m] && a[m] != b[m]
    ensures m < k < |b| && b[k] == a[m]
  {
    assert a[m] in Names(a);
    k :| 0 <= k < |b| && b[k] == a[m];
    NotBefore(a, b, m, k);
  }

  lemma NotBefore(a: seq<Name>, b: seq<Name>, m: nat, k: nat)
    requires NoRepeats(a) && m < |a| && m < |b| && k < |b| && a[..m] == b[..m] && b[k] == a[m]
    ensures m <= k
  {
    assert forall j :: 0 <= j < m ==> b[j] == b[..m][j] == a[..m][j] == a[j];
  }

  lemma SameNext(e: Edges, s: Name, all: set<Name>, a: seq<Name>, b: seq<Name>, m: nat)
    requires IsVisitOrder(e, s, all, a) && IsVisitOrder(e, s, all, b)
    requires 0 < m < |a| && m < |b| && a[..m] == b[..m]
    ensures a[m] == b[m]
  {
    if a[m] != b[m] {
      var k := FoundLater(a, b, m);
      var l := FoundLater(b, a, m);
      assert Before(e, a, a[m], a[l]) && Before(e, b, b[m], b[k]);
      SameFirst(e, a, b, m, a[m]);
      SameFirst(e, b, a, m, b[m]);
      BytesTotal(a[m], b[m]);
    }
  }

  lemma {:induction false} SamePrefix(e: Edges, s: Name, all: set<Name>, a: seq<Name>, b: seq<Name>, m: nat)
    requires IsVisitOrder(e, s, all, a) && IsVisitOrder(e, s, all, b) && m <= |a| && m <= |b|
    ensures a[..m] == b[..m]
  {
    if m > 0 {
      SamePrefix(e, s, all, a, b, m - 1);
      if m > 1 {
        SameNext(e, s, all, a, b, m - 1);
      }
      OneMore(a, m - 1);
      OneMore(b, m - 1);
    }
  }

  lemma {:induction false} NamesSize(f: seq<Name>)
    requires NoRepeats(f)
    ensures |Names(f)| == |f|
  {
    if f == [] {
      assert Names(f) == {};
    } else {
      NamesSize(f[1..]);
      assert Names(f) == {f[0]} + Names(f[1..]);
    }
  }

  lemma VisitOrderUnique(e: Edges, s: Name, all: set<Name>, a: seq<Name>, b: seq<Name>)
    requires IsVisitOrder(e, s, all, a) && IsVisitOrder(e, s, all, b)
    ensures a == b
  {
    NamesSize(a);
    NamesSize(b);
    SamePrefix(e, s, all, a, b, |a|);
  }

  // ---- By which edge ----

  // The edge that is recorded leads from n to the first name met that n causes, and no edge between the two has a lower
  // key.
  ghost predicate IsFirstEdge(names: Naming, edges: map<EdgeKey, CausalEdge>, order: seq<Name>, n: Name, via: CausalEdge) {
    var i, k := FirstLinked(edges.Keys, order, n), KeyOf(names, via);
    && i < |order| && k in edges && edges[k] == via && k.from == n && k.to == order[i]
    && forall l :: l in edges && l.from == n && l.to == order[i] ==> KeyLeq(k, l)
  }

  lemma FirstEdgeStays(names: Naming, edges: map<EdgeKey, CausalEdge>, order: seq<Name>, more: seq<Name>, n: Name, via: CausalEdge)
    requires IsFirstEdge(names, edges, order, n, via)
    ensures IsFirstEdge(names, edges, order + more, n, via)
  {
    FirstStays(edges.Keys, order, more, n);
  }

  lemma FirstEdgeUnique(names: Naming, edges: map<EdgeKey, CausalEdge>, order: seq<Name>, n: Name, a: CausalEdge, b: CausalEdge)
    requires IsFirstEdge(names, edges, order, n, a) && IsFirstEdge(names, edges, order, n, b)
    ensures a == b
  {
    KeyTotal(KeyOf(names, a), KeyOf(names, b));
  }

  // ---- What the search keeps of them ----

  // The names in `past` have been taken from the queue, those in `waiting` are in it.
  ghost predicate Ordered(e: Edges, s: Name, past: seq<Name>, waiting: seq<Name>) {
    var order := past + waiting;
    order != [] && order[0] == s && NoRepeats(order) && InTurn(e, order) && FromPast(e, order, |past|)
  }

  // Each subject is recorded with the edge by which it was first met.
  ghost predicate Met(names: Naming, edges: map<EdgeKey, CausalEdge>, order: seq<Name>, reached: map<Name, Step>) {
    forall n :: n in reached ==> IsFirstEdge(names, edges, order, n, reached[n].via) && reached[n].node == reached[n].via.from
  }

  // While the causes of the last name in `past` are listed, the edges into it have been seen this far.
  ghost predicate Listing(e: Edges, past: seq<Name>, waiting: seq<Name>, seen: seq<EdgeKey>) {
    var order, c := past + waiting, |past| - 1;
    && past != []
    && (forall k :: k in seen ==> k.from in order)
    && (forall k :: k in e && k.to in past[..c] ==> k.from in order)
    && (forall n :: n in waiting && FirstLinked(e, order, n) == c ==> exists k :: k in seen && k.from == n)
  }

  // The edge that comes next in key order among those into one name.
  ghost predicate IsNext(e: Edges, at: Name, seen: seq<EdgeKey>, k: EdgeKey) {
    && k in e && k.to == at
    && (forall l :: l in seen ==> KeyLeq(l, k))
    && (forall l :: l in e && l.to == at && l !in seen ==> KeyLeq(k, l))
  }

  lemma NextListed(e: Edges, at: Name, keys: seq<EdgeKey>, i: nat)
    requires Ascends(keys, KeyLeq) && i < |keys| && forall k :: k in keys <==> k in e && k.to == at
    ensures IsNext(e, at, keys[..i], keys[i])
  {
    assert keys[i] in keys && forall j :: 0 <= j < i ==> keys[j] == keys[..i][j];
    forall l | l in e && l.to == at && l !in keys[..i] ensures KeyLeq(keys[i], l) {
      var j :| 0 <= j < |keys| && keys[j] == l;
      KeyTotal(l, l);
    }
  }

  lemma ListKnown(e: Edges, past: seq<Name>, waiting: seq<Name>, seen: seq<EdgeKey>, k: EdgeKey)
    requires Listing(e, past, waiting, seen) && k.from in past + waiting
    ensures Listing(e, past, waiting, seen + [k])
  {
    forall n | n in waiting && FirstLinked(e, past + waiting, n) == |past| - 1 ensures exists l :: l in seen + [k] && l.from == n {
      var l :| l in seen && l.from == n;
      assert l in seen + [k];
    }
  }

  // A new name is met through the last name of the past.
  lemma NewFirst(e: Edges, past: seq<Name>, waiting: seq<Name>, seen: seq<EdgeKey>, k: EdgeKey)
    requires Listing(e, past, waiting, seen) && k in e && k.to == past[|past| - 1] && k.from !in past + waiting
    ensures FirstLinked(e, past + (waiting + [k.from]), k.from) == |past| - 1
  {
    var order, n, c := past + (waiting + [k.from]), k.from, |past| - 1;
    forall j | 0 <= j < c ensures !Linked(e, n, order[j]) {
      assert order[j] in past[..c];
    }
    FirstIs(e, order, n, c);
  }

  lemma OldFirst(e: Edges, past: seq<Name>, waiting: seq<Name>, n: Name, j: nat)
    requires FromPast(e, past + waiting, |past|) && 0 < j < |past + waiting|
    ensures var order := past + waiting;
      FirstLinked(e, past + (waiting + [n]), order[j]) == FirstLinked(e, order, order[j]) < |past|
  {
    Regroup(past, waiting, [n]);
    FirstStays(e, past + waiting, [n], (past + waiting)[j]);
  }

  lemma SeenFrom(e: Edges, past: seq<Name>, waiting: seq<Name>, seen: seq<EdgeKey>, k: EdgeKey, x: Name)
    requires Listing(e, past, waiting, seen) && FromPast(e, past + waiting, |past|) && x in waiting
    requires FirstLinked(e, past + (waiting + [k.from]), x) == |past| - 1
    ensures exists l :: l in seen + [k] && l.from == x
  {
    var i :| 0 <= i < |waiting| && waiting[i] == x;
    assert (past + waiting)[|past| + i] == x;
    OldFirst(e, past, waiting, k.from, |past| + i);
    var l :| l in seen && l.from == x;
    assert l in seen + [k];
  }

  lemma ListNew(e: Edges, past: seq<Name>, waiting: seq<Name>, seen: seq<EdgeKey>, k: EdgeKey)
    requires Listing(e, past, waiting, seen) && FromPast(e, past + waiting, |past|)
    ensures Listing(e, past, waiting + [k.from], seen + [k])
  {
    var more := past + (waiting + [k.from]);
    assert forall n :: n in past + waiting ==> n in more;
    assert more[|past + waiting|] == k.from;
    forall x | x in waiting + [k.from] && FirstLinked(e, more, x) == |past| - 1 ensures exists l :: l in seen + [k] && l.from == x {
      if x in waiting {
        SeenFrom(e, past, waiting, seen, k, x);
      } else {
        assert k in seen + [k] && k.from == x;
      }
    }
  }

  // The new name comes after everyone met before.
  lemma NewIsLast(e: Edges, past: seq<Name>, waiting: seq<Name>, seen: seq<EdgeKey>, k: EdgeKey, j: nat)
    requires Listing(e, past, waiting, seen) && IsNext(e, past[|past| - 1], seen, k)
    requires k.from !in past + waiting && FromPast(e, past + waiting, |past|) && 0 < j < |past + waiting|
    ensures Before(e, past + (waiting + [k.from]), (past + waiting)[j], k.from)
  {
    var order, c := past + waiting, |past| - 1;
    NewFirst(e, past, waiting, seen, k);
    OldFirst(e, past, waiting, k.from, j);
    if FirstLinked(e, order, order[j]) == c {
      assert order[j] == waiting[j - |past|];
      var l :| l in seen && l.from == order[j];
      assert KeyLeq(l, k);
      assert order[j] in order;
    }
  }

  lemma PastNew(e: Edges, past: seq<Name>, waiting: seq<Name>, seen: seq<EdgeKey>, k: EdgeKey)
    requires Listing(e, past, waiting, seen) && IsNext(e, past[|past| - 1], seen, k)
    requires k.from !in past + waiting && FromPast(e, past + waiting, |past|)
    ensures FromPast(e, past + (waiting + [k.from]), |past|)
  {
    var order := past + waiting;
    var more := past + (waiting + [k.from]);
    Regroup(past, waiting, [k.from]);
    NewFirst(e, past, waiting, seen, k);
    forall j | 0 < j < |more| ensures FirstLinked(e, more, more[j]) < j && FirstLinked(e, more, more[j]) < |past| {
      if j < |order| {
        OldFirst(e, past, waiting, k.from, j);
      }
    }
  }

  lemma TurnNew(e: Edges, past: seq<Name>, waiting: seq<Name>, seen: seq<EdgeKey>, k: EdgeKey)
    requires Listing(e, past, waiting, seen) && IsNext(e, past[|past| - 1], seen, k)
    requires k.from !in past + waiting && FromPast(e, past + waiting, |past|) && InTurn(e, past + waiting)
    ensures InTurn(e, past + (waiting + [k.from]))
  {
    var order := past + waiting;
    var more := past + (waiting + [k.from]);
    Regroup(past, waiting, [k.from]);
    forall a, b | 0 < a < b < |more| ensures Before(e, more, more[a], more[b]) {
      if b < |order| {
        OldFirst(e, past, waiting, k.from, a);
        OldFirst(e, past, waiting, k.from, b);
        assert Before(e, order, order[a], order[b]);
      } else {
        NewIsLast(e, past, waiting, seen, k, a);
      }
    }
  }

  lemma OrderedNew(e: Edges, s: Name, past: seq<Name>, waiting: seq<Name>, seen: seq<EdgeKey>, k: EdgeKey)
    requires Ordered(e, s, past, waiting) && Listing(e, past, waiting, seen) && IsNext(e, past[|past| - 1], seen, k)
    requires k.from !in past + waiting
    ensures Ordered(e, s, past, waiting + [k.from])
  {
    PastNew(e, past, waiting, seen, k);
    TurnNew(e, past, waiting, seen, k);
    Regroup(past, waiting, [k.from]);
  }

  // No edge between the new name and the one it is met through has a lower key.
  lemma EdgeNew(names: Naming, edges: map<EdgeKey, CausalEdge>, past: seq<Name>, waiting: seq<Name>, seen: seq<EdgeKey>, k: EdgeKey)
    requires Listing(edges.Keys, past, waiting, seen) && IsNext(edges.Keys, past[|past| - 1], seen, k)
    requires k.from !in past + waiting && KeyOf(names, edges[k]) == k
    ensures IsFirstEdge(names, edges, past + (waiting + [k.from]), k.from, edges[k])
  {
    NewFirst(edges.Keys, past, waiting, seen, k);
  }

  lemma MetNew(names: Naming, edges: map<EdgeKey, CausalEdge>, past: seq<Name>, waiting: seq<Name>, reached: map<Name, Step>,
               seen: seq<EdgeKey>, k: EdgeKey, d: nat)
    requires Met(names, edges, past + waiting, reached)
    requires Listing(edges.Keys, past, waiting, seen) && IsNext(edges.Keys, past[|past| - 1], seen, k)
    requires k.from !in past + waiting && KeyOf(names, edges[k]) == k
    ensures Met(names, edges, past + (waiting + [k.from]), reached[k.from := Step(edges[k].from, d, edges[k])])
  {
    Regroup(past, waiting, [k.from]);
    EdgeNew(names, edges, past, waiting, seen, k);
    forall n | n in reached ensures IsFirstEdge(names, edges, past + (waiting + [k.from]), n, reached[n].via) {
      FirstEdgeStays(names, edges, past + waiting, [k.from], n, reached[n].via);
    }
  }

  // The head of the queue joins the past.
  lemma Popped(past: seq<Name>, waiting: seq<Name>)
    requires waiting != []
    ensures past + [waiting[0]] + waiting[1..] == past + waiting
  {
  }

  lemma OrderedPop(e: Edges, s: Name, past: seq<Name>, waiting: seq<Name>)
    requires Ordered(e, s, past, waiting) && waiting != []
    ensures Ordered(e, s, past + [waiting[0]], waiting[1..])
  {
    Popped(past, waiting);
  }

  lemma ListBegin(e: Edges, s: Name, past: seq<Name>, waiting: seq<Name>)
    requires Ordered(e, s, past, waiting) && waiting != []
    requires forall k :: k in e && k.to in past ==> k.from in past + waiting
    ensures Listing(e, past + [waiting[0]], waiting[1..], [])
  {
    Popped(past, waiting);
    var order := past + waiting;
    assert (past + [waiting[0]])[..|past|] == past;
    forall n | n in waiting[1..] ensures FirstLinked(e, order, n) != |past| {
      var l :| 0 <= l < |waiting[1..]| && waiting[1..][l] == n;
      assert order[|past| + 1 + l] == n;
    }
  }
}
