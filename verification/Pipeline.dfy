// Classification feeding the episode registry: what the registry refuses can never come from the classifier
// (src/assessment/classify.cpp, src/episode/episode.cpp).
module Pipeline {
  import opened Base
  import opened Model
  import opened Assessing
  import C = Classifying
  import E = Episodes

  // How a classification result is presented to the registry.
  datatype Context = Context(tenant: Name, confidence: nat, citations: seq<nat>, policyVersion: Bytes)

  function Presented(q: C.Request, j: C.Judgement, sources: seq<Name>, c: Context): CongestionAssessment {
    CongestionAssessment(q.subject, c.tenant, j.verdict, j.mechanisms, j.severity, c.confidence, c.citations, sources,
                         q.generation, c.policyVersion, q.evaluatedAt, IsAssertion(j.verdict))
  }

  // A classified result is never refused for lack of a mechanism: only an invalid request or an exhausted
  // budget of live episodes is. When nothing is asserted, no episode of the subject stays open.
  method ObserveClassified(registry: E.EpisodeRegistry, records: seq<Evidence>, q: C.Request, p: C.Policy, sources: seq<Name>,
                           c: Context, now: int)
    returns (r: Result<E.EpisodeUpdate>)
    requires registry.Valid()
    modifies registry
    ensures registry.Valid()
    ensures r.Err? ==> r.error == InvalidArgument || r.error == LimitExceeded
    ensures r.Ok? && !C.Decisive(C.Usable(records, q, p), p) ==>
      forall id :: id in registry.episodes ==> !E.IsOpenIn(registry.episodes[id], q.subject)
    ensures r.Ok? && C.Decisive(C.Usable(records, q, p), p) ==>
      r.value.id in registry.episodes && registry.episodes[r.value.id].state == E.Open
  {
    var judged, blockers, f := C.ClassifySubject(records, q, p);
    if judged.Err? {
      return Err(judged.error);
    }
    C.AssertedExactly(f, records, q, p);
    if IsAssertion(judged.value.verdict) {
      C.AssertionIsBacked(f, records, q, p);
    }
    r := registry.Observe(Presented(q, judged.value, sources, c), now);
  }
}
