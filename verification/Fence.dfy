// Fencing: which observations of a source may influence current state (src/model/generation.cpp).
module Fencing {
  import opened Base
  import opened LittleEndian
  import opened Model

  datatype GenerationOrder = Older | Equal | Newer | Incomparable

  function CompareGeneration(candidate: GenerationVector, reference: GenerationVector): GenerationOrder {
    if candidate.epoch == reference.epoch then
      if candidate.generation == reference.generation then
        if candidate.revision == reference.revision then Equal
        else if candidate.revision < reference.revision then Older
        else Newer
      else if candidate.generation < reference.generation then Older
      else Newer
    else if candidate.epoch < reference.epoch then Older
    else if candidate.generation < reference.generation then Incomparable
    else Newer
  }

  datatype Decision =
    | FirstObservation | InOrder | GapDetected | Reboot | EpochAdvance | GenerationAdvance
    | UnknownSource | StaleEpoch | StaleGeneration | StaleRevision | IncomparableGeneration
    | ReplayedSequence | StaleIncarnation | AuthorityTooLow | InconsistentBoot
  {
    predicate Accepted() {
      FirstObservation? || InOrder? || GapDetected? || Reboot? || EpochAdvance? || GenerationAdvance?
    }
  }

  datatype FenceOutcome = FenceOutcome(decision: Decision, livenessReset: bool, sequenceGap: bool, gapSize: nat)

  // What the fence table remembers of a source.
  datatype SourceState = SourceState(source: Name, last: FenceVector, lastSeen: int, lastAuthority: AuthorityLevel,
                                     live: bool, hasState: bool, accepted: nat, rejected: nat)

  const NO_FENCE := FenceVector([], 0, 0, GenerationVector(0, 0, 0), 0)
  const UNKNOWN_SOURCE := SourceState([], NO_FENCE, 0, UnknownAuthority, false, false, 0, 0)

  function Plain(d: Decision): FenceOutcome { FenceOutcome(d, false, false, 0) }

  function EvaluateFence(incoming: FenceVector, authority: AuthorityLevel, minimum: AuthorityLevel,
                         previous: SourceState): FenceOutcome
  {
    var last := previous.last;
    if incoming.source == [] then Plain(UnknownSource)
    else if authority.Rank() < minimum.Rank() then Plain(AuthorityTooLow)
    else if !previous.hasState then Plain(FirstObservation)
    else if incoming.boot < last.boot then Plain(StaleIncarnation)
    else if incoming.boot > last.boot then FenceOutcome(Reboot, true, false, 0)
    else if incoming.incarnation < last.incarnation then Plain(StaleIncarnation)
    else if incoming.incarnation > last.incarnation then Plain(InconsistentBoot)
    else
      var order := CompareGeneration(incoming.gen, last.gen);
      if order == Older then
        if incoming.gen.epoch < last.gen.epoch then Plain(StaleEpoch)
        else if incoming.gen.generation < last.gen.generation then Plain(StaleGeneration)
        else Plain(StaleRevision)
      else if order == Incomparable then Plain(IncomparableGeneration)
      else if order == Newer && incoming.gen.epoch > last.gen.epoch then Plain(EpochAdvance)
      else if order == Newer && incoming.gen.generation > last.gen.generation then Plain(GenerationAdvance)
      else if incoming.sequence <= last.sequence then Plain(ReplayedSequence)
      else if incoming.sequence > last.sequence + 1 then
        FenceOutcome(GapDetected, false, true, incoming.sequence - (last.sequence + 1))
      else Plain(InOrder)
  }

  // ---- The comparison ----

  // A higher epoch comes with a lower generation.
  predicate Crossed(a: GenerationVector, b: GenerationVector) {
    (a.epoch < b.epoch && b.generation < a.generation) || (b.epoch < a.epoch && a.generation < b.generation)
  }

  function Flip(o: GenerationOrder): GenerationOrder {
    match o
    case Older => Newer
    case Newer => Older
    case _ => o
  }

  // The comparison is antisymmetric exactly on vectors that do not cross.
  lemma CompareFlips(a: GenerationVector, b: GenerationVector)
    ensures CompareGeneration(b, a) == Flip(CompareGeneration(a, b)) <==> !Crossed(a, b)
  {
  }

  lemma CompareNotAntisymmetric()
    ensures var a, b := GenerationVector(1, 9, 0), GenerationVector(2, 3, 0);
            CompareGeneration(a, b) == Older && CompareGeneration(b, a) == Incomparable
  {
  }

  // ---- What a fence accepts ----

  // Lexicographic order on (boot, epoch, generation, revision, sequence).
  predicate Before(a: FenceVector, b: FenceVector) {
    || a.boot < b.boot
    || (a.boot == b.boot
        && (|| a.gen.epoch < b.gen.epoch
            || (a.gen.epoch == b.gen.epoch
                && (|| a.gen.generation < b.gen.generation
                    || (a.gen.generation == b.gen.generation
                        && (|| a.gen.revision < b.gen.revision
                            || (a.gen.revision == b.gen.revision && a.sequence < b.sequence)))))))
  }

  // The same fabric instance: sequence numbers are comparable.
  predicate SameLine(a: FenceVector, b: FenceVector) {
    a.boot == b.boot && a.gen.epoch == b.gen.epoch && a.gen.generation == b.gen.generation
  }

  // Accepted after `last`: strictly later; within a boot the incarnation stays and neither epoch nor
  // generation goes back; within a line the sequence advances.
  predicate Follows(last: FenceVector, next: FenceVector) {
    && Before(last, next)
    && (last.boot == next.boot ==>
          && last.incarnation == next.incarnation
          && last.gen.epoch <= next.gen.epoch && last.gen.generation <= next.gen.generation)
    && (SameLine(last, next) ==> last.gen.revision <= next.gen.revision && last.sequence < next.sequence)
  }

  // Both directions: the decision table accepts exactly the fences that follow.
  lemma AcceptsExactly(incoming: FenceVector, authority: AuthorityLevel, minimum: AuthorityLevel, previous: SourceState)
    ensures EvaluateFence(incoming, authority, minimum, previous).decision.Accepted()
       <==> && incoming.source != []
            && minimum.Rank() <= authority.Rank()
            && (previous.hasState ==> Follows(previous.last, incoming))
  {
  }

  // The reported flags: a reset exactly on a new boot, a gap exactly when sequence numbers were skipped.
  lemma OutcomeFlags(incoming: FenceVector, authority: AuthorityLevel, minimum: AuthorityLevel, previous: SourceState)
    requires EvaluateFence(incoming, authority, minimum, previous).decision.Accepted()
    ensures var o := EvaluateFence(incoming, authority, minimum, previous);
            var last := previous.last;
            && (o.livenessReset <==> previous.hasState && incoming.boot != last.boot)
            && o.sequenceGap == (o.gapSize > 0)
            && o.gapSize == if previous.hasState && SameLine(last, incoming) then incoming.sequence - last.sequence - 1 else 0
  {
  }

  // What a fence says, component by component: boot, incarnation, epoch, generation, revision.
  function Parts(f: FenceVector): seq<nat> { [f.boot, f.incarnation, f.gen.epoch, f.gen.generation, f.gen.revision] }

  const BEHIND: seq<Decision> := [StaleIncarnation, StaleIncarnation, StaleEpoch, StaleGeneration, StaleRevision]
  const AHEAD: seq<Decision> := [Reboot, InconsistentBoot, EpochAdvance, GenerationAdvance]

  // The first component in which two fences differ.
  ghost predicate DifferAt(a: seq<nat>, b: seq<nat>, k: nat) { k < |a| == |b| && a[k] != b[k] && a[..k] == b[..k] }

  // The decision is named after the first component that differs from the last fence accepted: behind it in
  // that one, or ahead. A higher epoch with a lower generation is ahead of nothing, and a higher revision is
  // still a matter of the sequence number, as when nothing differs.
  lemma DecisionNamed(incoming: FenceVector, authority: AuthorityLevel, minimum: AuthorityLevel, previous: SourceState, k: nat)
    requires k <= 5 && (k < 5 ==> DifferAt(Parts(incoming), Parts(previous.last), k)) && (k == 5 ==> Parts(incoming) == Parts(previous.last))
    ensures EvaluateFence(incoming, authority, minimum, previous).decision
      == if incoming.source == [] then UnknownSource
         else if authority.Rank() < minimum.Rank() then AuthorityTooLow
         else if !previous.hasState then FirstObservation
         else if k < 5 && Parts(incoming)[k] < Parts(previous.last)[k] then BEHIND[k]
         else if k == 2 && incoming.gen.generation < previous.last.gen.generation then IncomparableGeneration
         else if k < 4 then AHEAD[k]
         else if incoming.sequence <= previous.last.sequence then ReplayedSequence
         else if incoming.sequence == previous.last.sequence + 1 then InOrder
         else GapDetected
  {
    var a, b := Parts(incoming), Parts(previous.last);
    forall i | 0 <= i < k ensures a[i] == b[i] {
      assert a[..k][i] == a[i] && b[..k][i] == b[i];
    }
    assert k > 0 ==> a[0] == b[0];
    assert k > 1 ==> a[1] == b[1];
    assert k > 2 ==> a[2] == b[2];
    assert k > 3 ==> a[3] == b[3];
    assert k > 4 ==> a[4] == b[4];
  }

  // Some component is the first, or none differs.
  lemma SomeDecision(a: FenceVector, b: FenceVector) returns (k: nat)
    ensures k <= 5 && (k < 5 ==> DifferAt(Parts(a), Parts(b), k)) && (k == 5 ==> Parts(a) == Parts(b))
  {
    k := 0;
    while k < 5 && Parts(a)[k] == Parts(b)[k]
      invariant k <= 5 && Parts(a)[..k] == Parts(b)[..k]
    {
      k := k + 1;
    }
    assert k == 5 ==> Parts(a) == Parts(a)[..5];
    assert k == 5 ==> Parts(b) == Parts(b)[..5];
  }

  // ---- Runs of observations of one source ----

  datatype Observation = Observation(fence: FenceVector, authority: AuthorityLevel, minimum: AuthorityLevel, now: int)

  datatype Step = Step(fence: FenceVector, gapSize: nat)

  // The table entry after an accepted observation.
  function Advanced(state: SourceState, source: Name, fence: FenceVector, now: int, authority: AuthorityLevel): SourceState {
    SourceState(source, fence, now, authority, true, true, state.accepted + 1, state.rejected)
  }

  function Denied(state: SourceState, source: Name): SourceState {
    state.(source := source, rejected := state.rejected + 1)
  }

  function Observe(state: SourceState, o: Observation): SourceState {
    if EvaluateFence(o.fence, o.authority, o.minimum, state).decision.Accepted()
    then Advanced(state, o.fence.source, o.fence, o.now, o.authority)
    else Denied(state, o.fence.source)
  }

  // The accepted observations of a run, in order.
  function AcceptedSteps(state: SourceState, run: seq<Observation>): seq<Step>
    decreases |run|
  {
    if run == [] then []
    else
      var o := EvaluateFence(run[0].fence, run[0].authority, run[0].minimum, state);
      (if o.decision.Accepted() then [Step(run[0].fence, o.gapSize)] else [])
      + AcceptedSteps(Observe(state, run[0]), run[1..])
  }

  lemma BeforeIsOrder(a: FenceVector, b: FenceVector, c: FenceVector)
    ensures !Before(a, a)
    ensures Before(a, b) && Before(b, c) ==> Before(a, c)
  {
  }

  lemma FollowsTransitive(a: FenceVector, b: FenceVector, c: FenceVector)
    requires Follows(a, b) && Follows(b, c)
    ensures Follows(a, c)
  {
  }

  lemma {:induction false} AcceptedFollowState(state: SourceState, run: seq<Observation>, i: nat)
    requires state.hasState && i < |AcceptedSteps(state, run)|
    ensures Follows(state.last, AcceptedSteps(state, run)[i].fence)
    decreases |run|
  {
    var o := EvaluateFence(run[0].fence, run[0].authority, run[0].minimum, state);
    var next := Observe(state, run[0]);
    AcceptsExactly(run[0].fence, run[0].authority, run[0].minimum, state);
    if o.decision.Accepted() {
      if i > 0 {
        AcceptedFollowState(next, run[1..], i - 1);
        FollowsTransitive(state.last, run[0].fence, AcceptedSteps(state, run)[i].fence);
      }
    } else {
      AcceptedFollowState(next, run[1..], i);
    }
  }

  // Across any run, accepted fences strictly increase; within one boot the incarnation is constant
  // and epoch and generation never decrease.
  lemma {:induction false} AcceptedIncrease(state: SourceState, run: seq<Observation>, i: nat, j: nat)
    requires i < j < |AcceptedSteps(state, run)|
    ensures Follows(AcceptedSteps(state, run)[i].fence, AcceptedSteps(state, run)[j].fence)
    decreases |run|
  {
    var o := EvaluateFence(run[0].fence, run[0].authority, run[0].minimum, state);
    var next := Observe(state, run[0]);
    if !o.decision.Accepted() {
      AcceptedIncrease(next, run[1..], i, j);
    } else if i == 0 {
      AcceptedFollowState(next, run[1..], j - 1);
    } else {
      AcceptedIncrease(next, run[1..], i - 1, j - 1);
    }
  }

  // So no fence is ever accepted twice.
  lemma NoReplay(state: SourceState, run: seq<Observation>, i: nat, j: nat)
    requires i < j < |AcceptedSteps(state, run)|
    ensures AcceptedSteps(state, run)[i].fence != AcceptedSteps(state, run)[j].fence
  {
    AcceptedIncrease(state, run, i, j);
    BeforeIsOrder(AcceptedSteps(state, run)[i].fence, AcceptedSteps(state, run)[i].fence, AcceptedSteps(state, run)[j].fence);
  }

  function GapSum(steps: seq<Step>): nat {
    if steps == [] then 0 else steps[0].gapSize + GapSum(steps[1..])
  }

  lemma {:induction false} StepFromState(state: SourceState, run: seq<Observation>)
    requires state.hasState && AcceptedSteps(state, run) != []
    ensures var s := AcceptedSteps(state, run)[0];
            SameLine(state.last, s.fence) ==> s.gapSize == s.fence.sequence - state.last.sequence - 1
    decreases |run|
  {
    var o := EvaluateFence(run[0].fence, run[0].authority, run[0].minimum, state);
    if o.decision.Accepted() {
      OutcomeFlags(run[0].fence, run[0].authority, run[0].minimum, state);
    } else {
      StepFromState(Observe(state, run[0]), run[1..]);
    }
  }

  lemma {:induction false} GapOfNext(state: SourceState, run: seq<Observation>, k: nat)
    requires k + 1 < |AcceptedSteps(state, run)|
    requires SameLine(AcceptedSteps(state, run)[k].fence, AcceptedSteps(state, run)[k + 1].fence)
    ensures AcceptedSteps(state, run)[k + 1].gapSize
         == AcceptedSteps(state, run)[k + 1].fence.sequence - AcceptedSteps(state, run)[k].fence.sequence - 1
    decreases |run|
  {
    var o := EvaluateFence(run[0].fence, run[0].authority, run[0].minimum, state);
    var next := Observe(state, run[0]);
    if !o.decision.Accepted() {
      GapOfNext(next, run[1..], k);
    } else if k > 0 {
      GapOfNext(next, run[1..], k - 1);
    } else {
      StepFromState(next, run[1..]);
    }
  }

  // At fixed boot, epoch and generation nothing is lost silently: the accepted steps after i plus
  // the gaps they report account for every sequence number up to j.
  lemma {:induction false} GapsAccountForSequence(state: SourceState, run: seq<Observation>, i: nat, j: nat)
    requires i <= j < |AcceptedSteps(state, run)|
    requires SameLine(AcceptedSteps(state, run)[i].fence, AcceptedSteps(state, run)[j].fence)
    ensures var steps := AcceptedSteps(state, run);
            (j - i) + GapSum(steps[i + 1..j + 1]) == steps[j].fence.sequence - steps[i].fence.sequence
    decreases j - i
  {
    var steps := AcceptedSteps(state, run);
    if i < j {
      if i + 1 < j {
        AcceptedIncrease(state, run, i, i + 1);
        AcceptedIncrease(state, run, i + 1, j);
      }
      assert SameLine(steps[i].fence, steps[i + 1].fence);
      GapOfNext(state, run, i);
      GapsAccountForSequence(state, run, i + 1, j);
      assert steps[i + 1..j + 1] == [steps[i + 1]] + steps[i + 2..j + 1];
    }
  }
}
