// The check of the resource bounds before they are used (src/core/limits.cpp:20-80).
module ResourceLimits {
  import opened Base
  import opened Model

  const MAX_WORKERS: nat := 64
  const MAX_DEPTH: nat := 32

  // The bounds that must not be zero.
  function Positives(l: Limits): seq<nat> {
    [l.maxSources, l.maxRetainedEvidence, l.maxEvidencePerSubject, l.maxMetadataKeyBytes, l.maxMetadataValueBytes, l.maxNoteBytes,
     l.maxFrameBytes, l.maxJsonDepth, l.maxJsonNodes, l.maxDocumentBytes]
    + [l.maxNodes, l.maxPorts, l.maxLinks, l.maxQueues, l.maxBuffers, l.maxPaths, l.maxFlows, l.maxPathHops, l.maxPortsPerNode]
    + [l.maxWindowRecords, l.maxCitations, l.maxExplanationSteps, l.maxResultCandidates, l.maxLocalizationDepth, l.maxGraphNodes,
       l.maxGraphEdges, l.maxBlockers]
    + [l.maxEpisodes, l.maxEpisodeAssessments, l.maxEpisodeTransitions, l.maxGroups, l.maxGroupMembers, l.maxEpisodeFilterResults,
       l.maxPendingTasks, l.maxIngestQueueDepth]
    + [l.maxSnapshotBytes, l.maxSnapshotSections, l.maxSnapshotEvidence, l.maxSnapshotEpisodes]
  }

  // Bounds that bound one another.
  predicate Nested(l: Limits) {
    && l.maxEvidencePerSubject <= l.maxRetainedEvidence && l.maxWindowRecords <= l.maxRetainedEvidence
    && l.maxGroupMembers <= l.maxEpisodes && l.maxSnapshotEpisodes <= l.maxEpisodes
    && l.maxSnapshotEvidence <= l.maxRetainedEvidence
  }

  // What is wrong with the bounds, if anything.
  function Check(l: Limits): Option<ErrorCode> {
    if l.workerThreads > MAX_WORKERS then Some(OutOfRange)
    else if 0 in Positives(l) || !Nested(l) then Some(InvalidArgument)
    else if l.maxLocalizationDepth > MAX_DEPTH then Some(OutOfRange)
    else None
  }

  method Validate(l: Limits) returns (refused: Option<ErrorCode>)
    ensures refused == Check(l)
  {
    if l.workerThreads > MAX_WORKERS {
      return Some(OutOfRange);
    }
    var positives := Positives(l);
    for i := 0 to |positives|
      invariant 0 !in positives[..i]
    {
      if positives[i] == 0 {
        return Some(InvalidArgument);
      }
    }
    assert positives[..|positives|] == positives;
    if !Nested(l) {
      return Some(InvalidArgument);
    }
    if l.maxLocalizationDepth > MAX_DEPTH {
      return Some(OutOfRange);
    }
    return None;
  }

  // Another positive bound on snapshots leaves the check as it was.
  lemma SnapshotBoundIsFree(l: Limits, size: nat)
    requires size > 0 && Check(l) == None
    ensures Check(l.(maxSnapshotBytes := size)) == None
  {
    var m := l.(maxSnapshotBytes := size);
    forall i | 0 <= i < |Positives(m)| ensures Positives(m)[i] != 0 {
      if m.maxSnapshotBytes != Positives(m)[i] {
        assert Positives(l)[i] in Positives(l);
      }
    }
  }
}
