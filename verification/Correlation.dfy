// Correlation of episodes into groups (src/correlation/group.cpp): in order of first sight, each episode
// joins the earliest-opened group that accepts it, or opens one.
module Correlating {
  import opened Base
  import opened Model
  import opened Sorting
  import opened Assessing
  import opened Episodes

  datatype CorrelationPolicy = CorrelationPolicy(maxGap: int, requireSameMechanism: bool, requireSameGeneration: bool,
                                                 mergeAcrossTenants: bool, mergeAcrossScopeKinds: bool,
                                                 maxGroupMembers: nat, maxGroups: nat)

  datatype MergeCode =
    | MergedSameScope | MergedAdjacentInterval | GenerationDiffers | MechanismDiffers | WindowSeparated
    | ScopeKindDiffers | TenantBoundary | GroupFull | PolicyVersionDiffers

  predicate IsMerge(code: MergeCode) { code == MergedSameScope || code == MergedAdjacentInterval }

  datatype Decision = Decision(member: nat, reference: nat, code: MergeCode)

  // ---- Order ----

  predicate SeenLeq(a: Episode, b: Episode) { a.firstSeen < b.firstSeen || (a.firstSeen == b.firstSeen && a.id <= b.id) }

  ghost predicate DistinctIds(s: seq<Episode>) { forall a, b :: a in s && b in s && a.id == b.id ==> a == b }

  lemma SeenOrder(s: seq<Episode>)
    ensures TotalPreorder(SeenLeq)
    ensures DistinctIds(s) ==> Decides(SeenLeq, s)
  {
  }

  // ---- Does a group accept an episode? ----

  predicate IntervalsWithin(a: Episode, b: Episode, maxGap: int) {
    if a.firstSeen <= b.lastSeen && b.firstSeen <= a.lastSeen then true
    else
      var gapStart := if a.firstSeen > b.lastSeen then a.firstSeen else b.firstSeen;
      var gapEnd := if a.firstSeen > b.lastSeen then b.lastSeen else a.lastSeen;
      gapStart - gapEnd <= maxGap
  }

  predicate SeenAt(e: Episode, t: int) { e.firstSeen <= t <= e.lastSeen }

  predicate Near(s: int, t: int, gap: int) { s == t || -gap <= s - t <= gap }

  // Two episodes are within the gap exactly when they were seen at moments that are: at a common one, or at
  // two no further apart. Where the clock ran back within an episode, the end of one interval counts
  // against the start of the other, whichever comes first in the code.
  lemma GapIsDistance(a: Episode, b: Episode, gap: int)
    ensures a.firstSeen <= a.lastSeen && b.firstSeen <= b.lastSeen ==>
      (IntervalsWithin(a, b, gap) <==> exists s, t :: SeenAt(a, s) && SeenAt(b, t) && Near(s, t, gap))
    ensures a.firstSeen > b.lastSeen ==> (IntervalsWithin(a, b, gap) <==> Near(a.firstSeen, b.lastSeen, gap))
    ensures a.firstSeen <= b.lastSeen && b.firstSeen > a.lastSeen ==> (IntervalsWithin(a, b, gap) <==> Near(b.firstSeen, a.lastSeen, gap))
  {
    if a.firstSeen <= a.lastSeen && b.firstSeen <= b.lastSeen && IntervalsWithin(a, b, gap) {
      var s := if a.firstSeen > b.lastSeen then a.firstSeen else Min(a.lastSeen, Max(a.firstSeen, b.firstSeen));
      var t := if a.firstSeen > b.lastSeen then b.lastSeen else Max(b.firstSeen, s);
      assert SeenAt(a, s) && SeenAt(b, t) && Near(s, t, gap);
    }
  }

  function CodeFor(e: Episode, reference: Episode, count: nat, policy: CorrelationPolicy, cap: nat): MergeCode {
    if policy.requireSameGeneration && e.key.generation != reference.key.generation then GenerationDiffers
    else if policy.requireSameMechanism && e.key.mechanism != reference.key.mechanism then MechanismDiffers
    else if e.key.policyVersion != reference.key.policyVersion then PolicyVersionDiffers
    else if !policy.mergeAcrossScopeKinds && e.key.scope.kind != reference.key.scope.kind then ScopeKindDiffers
    else if !policy.mergeAcrossTenants && e.key.tenant != [] && reference.key.tenant != [] && e.key.tenant != reference.key.tenant
      then TenantBoundary
    else if count >= cap then GroupFull
    else if !IntervalsWithin(e, reference, policy.maxGap) then WindowSeparated
    else if e.key.scope == reference.key.scope then MergedSameScope
    else MergedAdjacentInterval
  }

  // What every member shares with its group's reference.
  predicate Matches(e: Episode, reference: Episode, policy: CorrelationPolicy) {
    && (policy.requireSameGeneration ==> e.key.generation == reference.key.generation)
    && (policy.requireSameMechanism ==> e.key.mechanism == reference.key.mechanism)
    && e.key.policyVersion == reference.key.policyVersion
    && (!policy.mergeAcrossScopeKinds ==> e.key.scope.kind == reference.key.scope.kind)
    && (!policy.mergeAcrossTenants ==> e.key.tenant == [] || reference.key.tenant == [] || e.key.tenant == reference.key.tenant)
    && IntervalsWithin(e, reference, policy.maxGap)
  }

  // Acceptance is exactly a match with room to spare.
  lemma AcceptsExactly(e: Episode, reference: Episode, count: nat, policy: CorrelationPolicy, cap: nat)
    ensures IsMerge(CodeFor(e, reference, count, policy, cap)) <==> Matches(e, reference, policy) && count < cap
  {
  }

  // What an episode and a group's reference have to agree on, in the order in which it is asked, and how a
  // refusal is called.
  function Agreements(e: Episode, reference: Episode, count: nat, policy: CorrelationPolicy, cap: nat): seq<bool> {
    [!policy.requireSameGeneration || e.key.generation == reference.key.generation,
     !policy.requireSameMechanism || e.key.mechanism == reference.key.mechanism,
     e.key.policyVersion == reference.key.policyVersion,
     policy.mergeAcrossScopeKinds || e.key.scope.kind == reference.key.scope.kind]
    + [policy.mergeAcrossTenants || [] in [e.key.tenant, reference.key.tenant] || e.key.tenant == reference.key.tenant,
       count < cap,
       IntervalsWithin(e, reference, policy.maxGap)]
  }

  const REFUSALS: seq<MergeCode> := [GenerationDiffers, MechanismDiffers, PolicyVersionDiffers, ScopeKindDiffers]
                                    + [TenantBoundary, GroupFull, WindowSeparated]

  // A refusal is named after the first of these that fails, and a merge after the scopes.
  lemma CodeNamed(e: Episode, reference: Episode, count: nat, policy: CorrelationPolicy, cap: nat, k: nat)
    requires k <= 7 && forall i :: 0 <= i < k ==> Agreements(e, reference, count, policy, cap)[i]
    requires k < 7 ==> !Agreements(e, reference, count, policy, cap)[k]
    ensures CodeFor(e, reference, count, policy, cap)
      == if k < 7 then REFUSALS[k] else if e.key.scope == reference.key.scope then MergedSameScope else MergedAdjacentInterval
  {
    var asked := Agreements(e, reference, count, policy, cap);
    assert k > 0 ==> asked[0];
    assert k > 1 ==> asked[1];
    assert k > 2 ==> asked[2];
    assert k > 3 ==> asked[3];
    assert k > 4 ==> asked[4];
    assert k > 5 ==> asked[5];
    assert k > 6 ==> asked[6];
  }

  // ---- Groups as they grow ----

  datatype Group = Group(episodes: seq<Episode>, windowStart: int, windowEnd: int, decisions: seq<Decision>,
                         sizeCapped: bool, ambiguous: bool)
  {
    predicate Nonempty() { episodes != [] }
  }

  type Open = g: Group | g.Nonempty() witness Group([ANYONE], 0, 0, [], false, false)

  const ANYONE: Episode := Episode(0, EpisodeKey(Subject(NoKind, []), [], PacketDrop, GenerationVector(0, 0, 0), []), EpisodeState.Open, 0,
                                   NoSeverity, NoSeverity, 0, 0, 0, 0, 0, 0, [], [], [], [], 0, 0, false)

  function Verdict(g: Open, e: Episode, policy: CorrelationPolicy, cap: nat): MergeCode {
    CodeFor(e, g.episodes[0], |g.episodes|, policy, cap)
  }

  // The group after one comparison: the decision is recorded, and an accepted episode joins.
  function Compare(g: Open, e: Episode, policy: CorrelationPolicy, cap: nat): Open {
    var code := Verdict(g, e, policy, cap);
    var noted := g.(decisions := g.decisions + [Decision(e.id, g.episodes[0].id, code)], sizeCapped := g.sizeCapped || code == GroupFull);
    if !IsMerge(code) then noted.(ambiguous := g.ambiguous || code == WindowSeparated || code == GroupFull)
    else noted.(episodes := g.episodes + [e],
                windowStart := if e.firstSeen < g.windowStart || g.windowStart == 0 then e.firstSeen else g.windowStart,
                windowEnd := if e.lastSeen > g.windowEnd then e.lastSeen else g.windowEnd)
  }

  function Opened(e: Episode): Open { Group([e], e.firstSeen, e.lastSeen, [Decision(e.id, e.id, MergedSameScope)], false, false) }

  // The first group that accepts the episode, if any does.
  function FirstAccepting(groups: seq<Open>, e: Episode, policy: CorrelationPolicy, cap: nat): (i: nat)
    ensures i <= |groups|
    ensures forall j :: 0 <= j < i ==> !IsMerge(Verdict(groups[j], e, policy, cap))
    ensures i < |groups| ==> IsMerge(Verdict(groups[i], e, policy, cap))
  {
    if groups == [] || IsMerge(Verdict(groups[0], e, policy, cap)) then 0 else 1 + FirstAccepting(groups[1..], e, policy, cap)
  }

  // Groups up to and including position n - 1 have been compared with the episode.
  function Compared(groups: seq<Open>, n: nat, e: Episode, policy: CorrelationPolicy, cap: nat): (r: seq<Open>)
    requires n <= |groups|
    ensures |r| == |groups|
    ensures forall j :: 0 <= j < |groups| ==> r[j] == if j < n then Compare(groups[j], e, policy, cap) else groups[j]
  {
    seq(|groups|, j requires 0 <= j < |groups| => if j < n then Compare(groups[j], e, policy, cap) else groups[j])
  }

  // Groups so far, and the episodes that found no place.
  datatype Grouping = Grouping(groups: seq<Open>, left: seq<Episode>)

  function Place(s: Grouping, e: Episode, policy: CorrelationPolicy, cap: nat, maxGroups: nat): Grouping {
    var i := FirstAccepting(s.groups, e, policy, cap);
    if i < |s.groups| then s.(groups := Compared(s.groups, i + 1, e, policy, cap))
    else if |s.groups| >= maxGroups then Grouping(Compared(s.groups, i, e, policy, cap), s.left + [e])
    else s.(groups := Compared(s.groups, i, e, policy, cap) + [Opened(e)])
  }

  function PlaceAll(ordered: seq<Episode>, policy: CorrelationPolicy, cap: nat, maxGroups: nat): Grouping {
    if ordered == [] then Grouping([], [])
    else Place(PlaceAll(ordered[..|ordered| - 1], policy, cap, maxGroups), ordered[|ordered| - 1], policy, cap, maxGroups)
  }

  // ---- What grouping keeps ----

  function Members(groups: seq<Open>): seq<Episode> {
    if groups == [] then [] else Members(groups[..|groups| - 1]) + groups[|groups| - 1].episodes
  }

  // Every episode taken so far, grouped or left out.
  ghost function Held(s: Grouping): multiset<Episode> { multiset(Members(s.groups)) + multiset(s.left) }

  ghost predicate IsGroup(g: Open, policy: CorrelationPolicy, cap: nat) {
    && |g.episodes| <= Max(cap, 1)
    && (forall i :: 1 <= i < |g.episodes| ==> Matches(g.episodes[i], g.episodes[0], policy))
    && (forall i, j :: 0 <= i < j < |g.episodes| ==> SeenLeq(g.episodes[i], g.episodes[j]))
    && HasWindow(g)
  }

  // The first time of sight that is not zero, which the code reads as unset.
  function FirstNonzero(s: seq<Episode>): int {
    if s == [] then 0
    else if FirstNonzero(s[..|s| - 1]) != 0 then FirstNonzero(s[..|s| - 1])
    else s[|s| - 1].firstSeen
  }

  ghost predicate HasWindow(g: Open) {
    g.windowStart == FirstNonzero(g.episodes) && EndsAt(g.episodes, g.windowEnd)
  }

  lemma {:induction false} FirstNonzeroLeast(s: seq<Episode>, e: Episode)
    requires forall i :: 0 <= i < |s| ==> SeenLeq(s[i], e)
    ensures FirstNonzero(s) != 0 ==> FirstNonzero(s) <= e.firstSeen
  {
    if s != [] {
      FirstNonzeroLeast(s[..|s| - 1], e);
    }
  }

  lemma {:induction false} FirstNonzeroHead(s: seq<Episode>)
    requires s != [] && s[0].firstSeen != 0
    ensures FirstNonzero(s) == s[0].firstSeen
  {
    if |s| > 1 {
      FirstNonzeroHead(s[..|s| - 1]);
    } else {
      assert s[..|s| - 1] == [];
    }
  }

  lemma {:induction false} AllZero(s: seq<Episode>)
    ensures FirstNonzero(s) == 0 <==> forall i :: 0 <= i < |s| ==> s[i].firstSeen == 0
  {
    if s != [] {
      AllZero(s[..|s| - 1]);
    }
  }

  // A group's window starts at its earliest member exactly when that member was not first seen at time
  // zero, or all of them were: a zero start counts as unset.
  lemma WindowStartsExactly(g: Open)
    requires HasWindow(g) && IsSorted(g.episodes, SeenLeq)
    ensures g.windowStart == g.episodes[0].firstSeen
      <==> g.episodes[0].firstSeen != 0 || forall i :: 0 <= i < |g.episodes| ==> g.episodes[i].firstSeen == 0
  {
    AllZero(g.episodes);
    if g.episodes[0].firstSeen != 0 {
      FirstNonzeroHead(g.episodes);
    }
  }

  // Two alike and overlapping episodes, the first of them seen at time zero, are grouped, and the group's window
  // starts at the second.
  lemma ZeroStartMisread(a: Episode, b: Episode, policy: CorrelationPolicy, cap: nat, maxGroups: nat)
    requires a.firstSeen == 0 < b.firstSeen <= a.lastSeen && 0 <= b.lastSeen && a.key == b.key
    requires 2 <= cap && 1 <= maxGroups
    ensures var s := PlaceAll([a, b], policy, cap, maxGroups);
      && |s.groups| == 1 && s.left == [] && s.groups[0].episodes == [a, b]
      && s.groups[0].windowStart == b.firstSeen != a.firstSeen
  {
    assert [a, b][..1] == [a] && [a][..0] == [];
    assert PlaceAll([], policy, cap, maxGroups) == Grouping([], []);
    var one := PlaceAll([a], policy, cap, maxGroups);
    assert one == Grouping([Opened(a)], []) by {
      assert Compared([], 0, a, policy, cap) == [];
    }
    assert IsMerge(Verdict(Opened(a), b, policy, cap));
    assert FirstAccepting(one.groups, b, policy, cap) == 0;
    assert PlaceAll([a, b], policy, cap, maxGroups) == Place(one, b, policy, cap, maxGroups);
  }

  // Every group is within its cap, alike and in order; there are not too many; nothing is lost or
  // duplicated; and something is left out only when no more groups may be opened.
  ghost predicate Grouped(s: Grouping, ordered: seq<Episode>, policy: CorrelationPolicy, cap: nat, maxGroups: nat) {
    && |s.groups| <= maxGroups
    && (forall i :: 0 <= i < |s.groups| ==> IsGroup(s.groups[i], policy, cap))
    && Held(s) == multiset(ordered)
    && (s.left != [] ==> |s.groups| == maxGroups)
  }

  lemma MembersLast(groups: seq<Open>, g: Open)
    ensures Members(groups + [g]) == Members(groups) + g.episodes
  {
    assert (groups + [g])[..|groups|] == groups;
  }

  lemma {:induction false} MembersUpdate(groups: seq<Open>, i: nat, g: Open, e: Episode)
    requires i < |groups| && g.episodes == groups[i].episodes + [e]
    ensures multiset(Members(groups[i := g])) == multiset(Members(groups)) + multiset{e}
    decreases |groups|
  {
    var front, last := groups[..|groups| - 1], groups[|groups| - 1];
    assert groups == front + [last];
    MembersLast(front, last);
    if i == |front| {
      assert groups[i := g] == front + [g];
      MembersLast(front, g);
      MultisetJoin(Members(front), last.episodes, [e]);
    } else {
      assert groups[i := g] == front[i := g] + [last];
      MembersUpdate(front, i, g, e);
      MembersLast(front[i := g], last);
    }
  }

  lemma MultisetJoin(a: seq<Episode>, b: seq<Episode>, c: seq<Episode>)
    ensures multiset(a + (b + c)) == multiset(a + b) + multiset(c)
  {
    assert a + (b + c) == (a + b) + c;
  }

  lemma {:induction false} MembersSame(a: seq<Open>, b: seq<Open>)
    requires |a| == |b| && forall j :: 0 <= j < |a| ==> a[j].episodes == b[j].episodes
    ensures Members(a) == Members(b)
  {
    if a != [] {
      MembersSame(a[..|a| - 1], b[..|b| - 1]);
    }
  }

  lemma ComparedMembers(groups: seq<Open>, e: Episode, policy: CorrelationPolicy, cap: nat)
    ensures var i := FirstAccepting(groups, e, policy, cap);
      if i < |groups| then multiset(Members(Compared(groups, i + 1, e, policy, cap))) == multiset(Members(groups)) + multiset{e}
      else Members(Compared(groups, i, e, policy, cap)) == Members(groups)
  {
    var i := FirstAccepting(groups, e, policy, cap);
    if i < |groups| {
      var joined := Compare(groups[i], e, policy, cap);
      MembersUpdate(groups, i, joined, e);
      MembersSame(Compared(groups, i + 1, e, policy, cap), groups[i := joined]);
    } else {
      MembersSame(Compared(groups, i, e, policy, cap), groups);
    }
  }

  lemma NextStart(s: seq<Episode>, e: Episode)
    requires forall i :: 0 <= i < |s| ==> SeenLeq(s[i], e)
    ensures FirstNonzero(s + [e])
      == if e.firstSeen < FirstNonzero(s) || FirstNonzero(s) == 0 then e.firstSeen else FirstNonzero(s)
  {
    FirstNonzeroLeast(s, e);
    assert (s + [e])[..|s|] == s;
  }

  ghost predicate EndsAt(s: seq<Episode>, end: int) {
    && (forall m :: 0 <= m < |s| ==> s[m].lastSeen <= end)
    && (exists m :: 0 <= m < |s| && s[m].lastSeen == end)
  }

  lemma NextEnd(s: seq<Episode>, e: Episode, end: int)
    requires EndsAt(s, end)
    ensures EndsAt(s + [e], if e.lastSeen > end then e.lastSeen else end)
  {
    var m :| 0 <= m < |s| && s[m].lastSeen == end;
    assert (s + [e])[m].lastSeen == end && (s + [e])[|s|] == e;
  }

  lemma CompareWindow(g: Open, e: Episode, policy: CorrelationPolicy, cap: nat)
    requires HasWindow(g) && forall i :: 0 <= i < |g.episodes| ==> SeenLeq(g.episodes[i], e)
    ensures HasWindow(Compare(g, e, policy, cap))
  {
    NextStart(g.episodes, e);
    NextEnd(g.episodes, e, g.windowEnd);
  }

  lemma CompareKeeps(g: Open, e: Episode, policy: CorrelationPolicy, cap: nat)
    requires IsGroup(g, policy, cap) && forall i :: 0 <= i < |g.episodes| ==> SeenLeq(g.episodes[i], e)
    ensures IsGroup(Compare(g, e, policy, cap), policy, cap)
  {
    AcceptsExactly(e, g.episodes[0], |g.episodes|, policy, cap);
    CompareWindow(g, e, policy, cap);
  }

  lemma {:induction false} MemberOf(groups: seq<Open>, i: nat, m: nat)
    requires i < |groups| && m < |groups[i].episodes|
    ensures groups[i].episodes[m] in Members(groups)
    decreases |groups|
  {
    if i < |groups| - 1 {
      assert groups[..|groups| - 1][i] == groups[i];
      MemberOf(groups[..|groups| - 1], i, m);
    }
  }

  lemma GroupsKeep(s: Grouping, ordered: seq<Episode>, e: Episode, policy: CorrelationPolicy, cap: nat, maxGroups: nat, i: nat)
    requires Grouped(s, ordered, policy, cap, maxGroups) && i < |s.groups|
    requires forall x :: x in ordered ==> SeenLeq(x, e)
    ensures IsGroup(Compare(s.groups[i], e, policy, cap), policy, cap)
  {
    forall m | 0 <= m < |s.groups[i].episodes| ensures SeenLeq(s.groups[i].episodes[m], e) {
      MemberOf(s.groups, i, m);
      InOrdered(s, ordered, s.groups[i].episodes[m]);
    }
    CompareKeeps(s.groups[i], e, policy, cap);
  }

  lemma PlacedAre(s: Grouping, e: Episode, policy: CorrelationPolicy, cap: nat, maxGroups: nat)
    requires forall i :: 0 <= i < |s.groups| ==> IsGroup(s.groups[i], policy, cap) && IsGroup(Compare(s.groups[i], e, policy, cap), policy, cap)
    ensures var t := Place(s, e, policy, cap, maxGroups);
      forall i :: 0 <= i < |t.groups| ==> IsGroup(t.groups[i], policy, cap)
  {
    OpenedIsGroup(e, policy, cap);
    var t := Place(s, e, policy, cap, maxGroups);
    forall i | 0 <= i < |t.groups| ensures IsGroup(t.groups[i], policy, cap) {
      if i < |s.groups| {
        assert t.groups[i] == s.groups[i] || t.groups[i] == Compare(s.groups[i], e, policy, cap);
      } else {
        assert t.groups[i] == Opened(e);
      }
    }
  }

  // An episode seen no earlier than everything grouped so far.
  lemma PlaceKeeps(s: Grouping, ordered: seq<Episode>, e: Episode, policy: CorrelationPolicy, cap: nat, maxGroups: nat)
    requires Grouped(s, ordered, policy, cap, maxGroups)
    requires forall x :: x in ordered ==> SeenLeq(x, e)
    ensures Grouped(Place(s, e, policy, cap, maxGroups), ordered + [e], policy, cap, maxGroups)
  {
    forall i | 0 <= i < |s.groups|
      ensures IsGroup(s.groups[i], policy, cap) && IsGroup(Compare(s.groups[i], e, policy, cap), policy, cap)
    {
      GroupsKeep(s, ordered, e, policy, cap, maxGroups, i);
    }
    PlacedAre(s, e, policy, cap, maxGroups);
    PlaceCounts(s, ordered, e, policy, cap, maxGroups);
  }

  lemma OpenedIsGroup(e: Episode, policy: CorrelationPolicy, cap: nat)
    ensures IsGroup(Opened(e), policy, cap)
  {
    assert [e][..0] == [];
    assert Opened(e).episodes[0].lastSeen == Opened(e).windowEnd;
  }

  lemma InOrdered(s: Grouping, ordered: seq<Episode>, x: Episode)
    requires Held(s) == multiset(ordered) && x in Members(s.groups)
    ensures x in ordered
  {
    assert x in multiset(Members(s.groups));
    assert x in multiset(ordered);
  }

  lemma OpenedMembers(groups: seq<Open>, e: Episode)
    ensures multiset(Members(groups + [Opened(e)])) == multiset(Members(groups)) + multiset{e}
  {
    MembersLast(groups, Opened(e));
  }

  lemma HeldMore(s: Grouping, t: Grouping, e: Episode)
    requires t.left == s.left && multiset(Members(t.groups)) == multiset(Members(s.groups)) + multiset{e}
    ensures Held(t) == Held(s) + multiset{e}
  {
  }

  lemma PlaceJoins(s: Grouping, e: Episode, policy: CorrelationPolicy, cap: nat, maxGroups: nat)
    requires FirstAccepting(s.groups, e, policy, cap) < |s.groups|
    ensures Held(Place(s, e, policy, cap, maxGroups)) == Held(s) + multiset{e}
  {
    var groups := Placed(s, e, policy, cap, maxGroups);
    HeldMore(s, s.(groups := groups), e);
  }

  lemma Placed(s: Grouping, e: Episode, policy: CorrelationPolicy, cap: nat, maxGroups: nat) returns (groups: seq<Open>)
    requires FirstAccepting(s.groups, e, policy, cap) < |s.groups|
    ensures Place(s, e, policy, cap, maxGroups) == s.(groups := groups)
    ensures multiset(Members(groups)) == multiset(Members(s.groups)) + multiset{e}
  {
    groups := Place(s, e, policy, cap, maxGroups).groups;
    ComparedMembers(s.groups, e, policy, cap);
  }

  lemma PlaceOpens(s: Grouping, e: Episode, policy: CorrelationPolicy, cap: nat, maxGroups: nat)
    requires FirstAccepting(s.groups, e, policy, cap) == |s.groups| < maxGroups
    ensures Held(Place(s, e, policy, cap, maxGroups)) == Held(s) + multiset{e}
  {
    ComparedMembers(s.groups, e, policy, cap);
    OpenedMembers(Compared(s.groups, |s.groups|, e, policy, cap), e);
  }

  lemma PlaceLeaves(s: Grouping, e: Episode, policy: CorrelationPolicy, cap: nat, maxGroups: nat)
    requires FirstAccepting(s.groups, e, policy, cap) == |s.groups| >= maxGroups
    ensures Held(Place(s, e, policy, cap, maxGroups)) == Held(s) + multiset{e}
  {
    ComparedMembers(s.groups, e, policy, cap);
  }

  // Nothing is lost or duplicated by placing an episode.
  lemma PlaceGains(s: Grouping, e: Episode, policy: CorrelationPolicy, cap: nat, maxGroups: nat)
    ensures Held(Place(s, e, policy, cap, maxGroups)) == Held(s) + multiset{e}
  {
    if FirstAccepting(s.groups, e, policy, cap) < |s.groups| {
      PlaceJoins(s, e, policy, cap, maxGroups);
    } else if |s.groups| < maxGroups {
      PlaceOpens(s, e, policy, cap, maxGroups);
    } else {
      PlaceLeaves(s, e, policy, cap, maxGroups);
    }
  }

  lemma PlaceCounts(s: Grouping, ordered: seq<Episode>, e: Episode, policy: CorrelationPolicy, cap: nat, maxGroups: nat)
    requires Held(s) == multiset(ordered)
    ensures Held(Place(s, e, policy, cap, maxGroups)) == multiset(ordered + [e])
  {
    PlaceGains(s, e, policy, cap, maxGroups);
  }

  lemma SortedPrefix(before: seq<Episode>, last: Episode)
    requires IsSorted(before + [last], SeenLeq)
    ensures IsSorted(before, SeenLeq)
    ensures forall x :: x in before ==> SeenLeq(x, last)
  {
    var all := before + [last];
    forall x | x in before ensures SeenLeq(x, last) {
      var i :| 0 <= i < |before| && before[i] == x;
      assert SeenLeq(all[i], all[|before|]);
    }
    forall i, j | 0 <= i < j < |before| ensures SeenLeq(before[i], before[j]) {
      assert SeenLeq(all[i], all[j]);
    }
  }

  lemma {:induction false} PlaceAllKeeps(ordered: seq<Episode>, policy: CorrelationPolicy, cap: nat, maxGroups: nat)
    requires IsSorted(ordered, SeenLeq)
    ensures Grouped(PlaceAll(ordered, policy, cap, maxGroups), ordered, policy, cap, maxGroups)
  {
    if ordered == [] {
      assert Members([]) == [];
    } else {
      var before, last := ordered[..|ordered| - 1], ordered[|ordered| - 1];
      assert ordered == before + [last];
      SortedPrefix(before, last);
      PlaceAllKeeps(before, policy, cap, maxGroups);
      PlaceKeeps(PlaceAll(before, policy, cap, maxGroups), before, last, policy, cap, maxGroups);
    }
  }

  // An episode goes to the earliest-opened group that accepts it, and to no other; later groups do not
  // even see it.
  lemma JoinsEarliest(s: Grouping, e: Episode, policy: CorrelationPolicy, cap: nat, maxGroups: nat, i: nat)
    requires i < |s.groups| && IsMerge(Verdict(s.groups[i], e, policy, cap))
    requires forall j :: 0 <= j < i ==> !IsMerge(Verdict(s.groups[j], e, policy, cap))
    ensures var t := Place(s, e, policy, cap, maxGroups);
      && |t.groups| == |s.groups| && t.left == s.left
      && t.groups[i].episodes == s.groups[i].episodes + [e]
      && (forall j :: 0 <= j < |s.groups| && j != i ==> t.groups[j].episodes == s.groups[j].episodes)
      && (forall j :: i < j < |s.groups| ==> t.groups[j] == s.groups[j])
  {
    assert FirstAccepting(s.groups, e, policy, cap) == i;
  }

  // ---- The report ----

  datatype CorrelationGroup = CorrelationGroup(
    id: nat, members: seq<nat>, windowStart: int, windowEnd: int, mechanism: Mechanism, generation: GenerationVector,
    peakSeverity: Severity, decisions: seq<Decision>, sources: seq<Name>, sizeCapped: bool, ambiguous: bool)

  function IdOf(e: Episode): nat { e.id }

  function MemberIds(g: Open): seq<nat> { Unique(SortBy(Map(IdOf, g.episodes), NatLeq)) }

  predicate DecisionLeq(a: Decision, b: Decision) { a.member < b.member || (a.member == b.member && a.reference <= b.reference) }

  predicate ReportLeq(a: CorrelationGroup, b: CorrelationGroup) {
    a.windowStart < b.windowStart || (a.windowStart == b.windowStart && a.id <= b.id)
  }

  function PeakOf(s: seq<Episode>): Severity {
    if s == [] then NoSeverity
    else
      var before := PeakOf(s[..|s| - 1]);
      if s[|s| - 1].peakSeverity.Rank() > before.Rank() then s[|s| - 1].peakSeverity else before
  }

  function AllSources(s: seq<Episode>): seq<Name> {
    if s == [] then [] else AllSources(s[..|s| - 1]) + s[|s| - 1].sources
  }

  // The sources of all episodes, each once, in the order of their names.
  function SourcesOf(s: seq<Episode>): seq<Name> { Unique(SortBy(AllSources(s), BytesLeq)) }

  lemma {:induction false} AllSourcesMembers(s: seq<Episode>, n: Name)
    ensures n in AllSources(s) <==> exists e :: e in s && n in e.sources
  {
    if s != [] {
      AllSourcesMembers(s[..|s| - 1], n);
      assert s == s[..|s| - 1] + [s[|s| - 1]];
    }
  }

  lemma SourcesExactly(s: seq<Episode>)
    ensures Ascends(SourcesOf(s), BytesLeq)
    ensures forall n :: n in SourcesOf(s) <==> exists e :: e in s && n in e.sources
  {
    BytesOrder();
    SortMembers(AllSources(s), BytesLeq);
    UniqueAscends(SortBy(AllSources(s), BytesLeq), BytesLeq);
    forall n ensures n in SourcesOf(s) <==> exists e :: e in s && n in e.sources {
      AllSourcesMembers(s, n);
    }
  }

  function Finished(g: Open, identify: seq<nat> -> nat): CorrelationGroup {
    CorrelationGroup(identify(MemberIds(g)), MemberIds(g), g.windowStart, g.windowEnd, g.episodes[0].key.mechanism,
                     g.episodes[0].key.generation, PeakOf(g.episodes), SortBy(g.decisions, DecisionLeq), SourcesOf(g.episodes),
                     g.sizeCapped, g.ambiguous)
  }

  function FinishWith(identify: seq<nat> -> nat): Open -> CorrelationGroup { (g: Open) => Finished(g, identify) }

  function MemberCap(policy: CorrelationPolicy, limits: Limits): nat { Min(policy.maxGroupMembers, limits.maxGroupMembers) }

  function GroupCap(policy: CorrelationPolicy, limits: Limits): nat { Min(policy.maxGroups, limits.maxGroups) }

  function GroupingOf(episodes: seq<Episode>, policy: CorrelationPolicy, limits: Limits): Grouping {
    PlaceAll(SortBy(episodes, SeenLeq), policy, MemberCap(policy, limits), GroupCap(policy, limits))
  }

  function Correlated(episodes: seq<Episode>, policy: CorrelationPolicy, limits: Limits, identify: seq<nat> -> nat): seq<CorrelationGroup> {
    SortBy(Map(FinishWith(identify), GroupingOf(episodes, policy, limits).groups), ReportLeq)
  }

  // With distinct identities, the order of the input is irrelevant.
  lemma CorrelationForgetsOrder(a: seq<Episode>, b: seq<Episode>, policy: CorrelationPolicy, limits: Limits, identify: seq<nat> -> nat)
    requires multiset(a) == multiset(b) && DistinctIds(a)
    ensures Correlated(a, policy, limits, identify) == Correlated(b, policy, limits, identify)
  {
    SeenOrder(a);
    SortForgetsOrder(a, b, SeenLeq);
  }

  // Every episode is in one group, once, or left out; groups keep their caps and their members match; and
  // an episode is left out only when no more groups may be opened.
  lemma CorrelationSound(episodes: seq<Episode>, policy: CorrelationPolicy, limits: Limits)
    ensures var s := GroupingOf(episodes, policy, limits);
      && Held(s) == multiset(episodes)
      && |s.groups| <= GroupCap(policy, limits) && (s.left != [] ==> |s.groups| == GroupCap(policy, limits))
      && forall i :: 0 <= i < |s.groups| ==> IsGroup(s.groups[i], policy, MemberCap(policy, limits))
  {
    SeenOrder(episodes);
    SortSorts(episodes, SeenLeq);
    SortPermutes(episodes, SeenLeq);
    PlaceAllKeeps(SortBy(episodes, SeenLeq), policy, MemberCap(policy, limits), GroupCap(policy, limits));
  }

  // ---- correlate ----

  // The token is polled before each episode and before each comparison.
  function Comparisons(groups: seq<Open>, e: Episode, policy: CorrelationPolicy, cap: nat): nat {
    Min(FirstAccepting(groups, e, policy, cap) + 1, |groups|)
  }

  function Polls(ordered: seq<Episode>, policy: CorrelationPolicy, cap: nat, maxGroups: nat): nat {
    if ordered == [] then 0
    else
      var before := ordered[..|ordered| - 1];
      Polls(before, policy, cap, maxGroups) + 1
      + Comparisons(PlaceAll(before, policy, cap, maxGroups).groups, ordered[|ordered| - 1], policy, cap)
  }

  lemma {:induction false} PollsGrow(ordered: seq<Episode>, k: nat, policy: CorrelationPolicy, cap: nat, maxGroups: nat)
    requires k <= |ordered|
    ensures Polls(ordered[..k], policy, cap, maxGroups) <= Polls(ordered, policy, cap, maxGroups)
  {
    if k < |ordered| {
      PollsGrow(ordered[..|ordered| - 1], k, policy, cap, maxGroups);
      assert ordered[..|ordered| - 1][..k] == ordered[..k];
    } else {
      assert ordered[..k] == ordered;
    }
  }

  predicate OutOfPatience(patience: Option<nat>, polls: nat) { patience.Some? && patience.value < polls }

  // One episode against the groups, first to last. `patience` is how many polls of the cancellation token
  // go by before it says stop; None for a token that never does.
  method PlaceOne(groups0: seq<Open>, e: Episode, policy: CorrelationPolicy, cap: nat, maxGroups: nat,
                  patience: Option<nat>, polls0: nat, ghost left: seq<Episode>)
    returns (groups: seq<Open>, cancelled: bool, polls: nat)
    requires !OutOfPatience(patience, polls0)
    ensures cancelled <==> OutOfPatience(patience, polls0 + Comparisons(groups0, e, policy, cap))
    ensures !cancelled ==> polls == polls0 + Comparisons(groups0, e, policy, cap)
    ensures !cancelled ==> groups == Place(Grouping(groups0, left), e, policy, cap, maxGroups).groups
  {
    groups, polls := groups0, polls0;
    var i := 0;
    while i < |groups|
      invariant i <= |groups| == |groups0| && polls == polls0 + i && !OutOfPatience(patience, polls)
      invariant groups == Compared(groups0, i, e, policy, cap)
      invariant forall j :: 0 <= j < i ==> !IsMerge(Verdict(groups0[j], e, policy, cap))
    {
      if patience.Some? && polls >= patience.value {
        return groups, true, polls;
      }
      polls := polls + 1;
      var code := Verdict(groups[i], e, policy, cap);
      groups := groups[i := Compare(groups[i], e, policy, cap)];
      assert groups == Compared(groups0, i + 1, e, policy, cap);
      if IsMerge(code) {
        assert FirstAccepting(groups0, e, policy, cap) == i;
        return groups, false, polls;
      }
      i := i + 1;
    }
    if |groups| < maxGroups {
      groups := groups + [Opened(e)];
    }
    cancelled := false;
  }

  method Grow(ordered: seq<Episode>, policy: CorrelationPolicy, cap: nat, maxGroups: nat, patience: Option<nat>)
    returns (groups: seq<Open>, cancelled: bool)
    ensures cancelled <==> OutOfPatience(patience, Polls(ordered, policy, cap, maxGroups))
    ensures !cancelled ==> groups == PlaceAll(ordered, policy, cap, maxGroups).groups
  {
    groups, cancelled := [], false;
    var polls: nat := 0;
    for k := 0 to |ordered|
      invariant !cancelled && groups == PlaceAll(ordered[..k], policy, cap, maxGroups).groups
      invariant polls == Polls(ordered[..k], policy, cap, maxGroups) && !OutOfPatience(patience, polls)
    {
      assert ordered[..k + 1][..k] == ordered[..k];
      PollsGrow(ordered, k + 1, policy, cap, maxGroups);
      if patience.Some? && polls >= patience.value {
        return groups, true;
      }
      polls := polls + 1;
      ghost var before := PlaceAll(ordered[..k], policy, cap, maxGroups);
      groups, cancelled, polls := PlaceOne(groups, ordered[k], policy, cap, maxGroups, patience, polls, before.left);
      if cancelled {
        return;
      }
    }
    assert ordered[..|ordered|] == ordered;
  }

  method Peak(s: seq<Episode>) returns (peak: Severity)
    ensures peak == PeakOf(s)
  {
    peak := NoSeverity;
    for i := 0 to |s|
      invariant peak == PeakOf(s[..i])
    {
      assert s[..i + 1][..i] == s[..i];
      if s[i].peakSeverity.Rank() > peak.Rank() {
        peak := s[i].peakSeverity;
      }
    }
    assert s[..|s|] == s;
  }

  method Sources(s: seq<Episode>) returns (sources: seq<Name>)
    ensures sources == SourcesOf(s)
  {
    var all := [];
    for i := 0 to |s|
      invariant all == AllSources(s[..i])
    {
      assert s[..i + 1][..i] == s[..i];
      all := all + s[i].sources;
    }
    assert s[..|s|] == s;
    return Unique(SortBy(all, BytesLeq));
  }

  method FinishOne(g: Open, identify: seq<nat> -> nat) returns (r: CorrelationGroup)
    ensures r == FinishWith(identify)(g)
  {
    var peak := Peak(g.episodes);
    var sources := Sources(g.episodes);
    r := CorrelationGroup(identify(MemberIds(g)), MemberIds(g), g.windowStart, g.windowEnd, g.episodes[0].key.mechanism,
                          g.episodes[0].key.generation, peak, SortBy(g.decisions, DecisionLeq), sources, g.sizeCapped, g.ambiguous);
  }

  method Finish(groups: seq<Open>, identify: seq<nat> -> nat) returns (out: seq<CorrelationGroup>)
    ensures out == Map(FinishWith(identify), groups)
  {
    out := [];
    for i := 0 to |groups|
      invariant |out| == i && forall j :: 0 <= j < i ==> out[j] == FinishWith(identify)(groups[j])
    {
      var r := FinishOne(groups[i], identify);
      out := out + [r];
    }
    FinishedAll(out, groups, FinishWith(identify));
  }

  lemma FinishedAll(out: seq<CorrelationGroup>, groups: seq<Open>, finish: Open -> CorrelationGroup)
    requires |out| == |groups| && forall i :: 0 <= i < |groups| ==> out[i] == finish(groups[i])
    ensures out == Map(finish, groups)
  {
  }

  method Correlate(episodes: seq<Episode>, policy: CorrelationPolicy, limits: Limits, identify: seq<nat> -> nat, patience: Option<nat>)
    returns (r: Result<seq<CorrelationGroup>>)
    ensures r == if OutOfPatience(patience, Polls(SortBy(episodes, SeenLeq), policy, MemberCap(policy, limits), GroupCap(policy, limits)))
                 then Err(Cancelled) else Ok(Correlated(episodes, policy, limits, identify))
  {
    var ordered := SortBy(episodes, SeenLeq);
    var groups, cancelled := Grow(ordered, policy, MemberCap(policy, limits), GroupCap(policy, limits), patience);
    if cancelled {
      return Err(Cancelled);
    }
    var out := Finish(groups, identify);
    return Ok(SortBy(out, ReportLeq));
  }
}
