// A snapshot of episodes and evidence as the analysis knows them (src/persistence/snapshot.cpp).
module SnapshotContents {
  import opened Base
  import opened LittleEndian
  import opened Model
  import opened SnapshotWire
  import opened SnapshotTopology
  import opened SnapshotRebuild
  import opened SnapshotSections
  import opened SnapshotContainer
  import opened SnapshotFormat
  import Episodes
  import Kept = SnapshotEpisodes
  import Records = SnapshotRecords

  // What a runtime holds when it is saved.
  datatype Holding = Holding(metadata: Row, fabric: Fabric, episodes: seq<Episodes.Episode>, evidence: seq<Records.Stored>)

  function ContentOf(h: Holding): Content {
    Content(h.metadata, h.fabric, Kept.EpisodeRows(h.episodes), Records.EvidenceRows(h.evidence), false)
  }

  // Everything within the bounds and under the active policy, and every identity that of its content.
  ghost predicate Savable(h: Holding, lists: Lists, lim: Limits, env: Env) {
    && FitsRow(h.metadata, METADATA_COLUMNS, lim.maxDocumentBytes)
    && TextAt(h.metadata, VERSION_FIELD) == env.policyVersion && NumAt(h.metadata, POLICY_FIELD) == env.policyDigest
    && FabricWellFormed(h.fabric, lists, lim)
    && SavableEpisodes(h.episodes, lim, env) && SavableEvidence(h.evidence, lim, env)
    && 4 <= lim.maxSnapshotSections && lim.maxSnapshotEpisodes <= 0xFFFF_FFFF && lim.maxSnapshotEvidence <= 0xFFFF_FFFF
  }

  ghost predicate SavableEpisodes(episodes: seq<Episodes.Episode>, lim: Limits, env: Env) {
    forall i :: 0 <= i < |episodes| ==> Kept.Storable(episodes[i], lim) && env.episodeId(Kept.EpisodeRow(episodes[i])) == episodes[i].id
  }

  ghost predicate SavableEvidence(evidence: seq<Records.Stored>, lim: Limits, env: Env) {
    forall i :: 0 <= i < |evidence| ==> Records.Storable(evidence[i], lim) && env.evidenceId(Records.EvidenceRow(evidence[i])) == evidence[i].id
  }

  lemma EpisodesWellFormed(episodes: seq<Episodes.Episode>, lim: Limits, env: Env)
    requires SavableEpisodes(episodes, lim, env) && |episodes| <= 0xFFFF_FFFF
    ensures EntriesWellFormed(Kept.EpisodeRows(episodes), EpisodeColumns(lim), lim, env.episodeId)
  {
    var rows := Kept.EpisodeRows(episodes);
    forall i | 0 <= i < |rows|
      ensures FitsRow(rows[i], EpisodeColumns(lim), lim.maxDocumentBytes) && env.episodeId(rows[i]) == NumAt(rows[i], 0)
    {
      Kept.StorableFits(episodes[i], lim);
    }
  }

  lemma EvidenceWellFormed(evidence: seq<Records.Stored>, lim: Limits, env: Env)
    requires SavableEvidence(evidence, lim, env) && |evidence| <= 0xFFFF_FFFF
    ensures EntriesWellFormed(Records.EvidenceRows(evidence), EvidenceColumns(lim), lim, env.evidenceId)
  {
    var rows := Records.EvidenceRows(evidence);
    forall i | 0 <= i < |rows|
      ensures FitsRow(rows[i], EvidenceColumns(lim), lim.maxDocumentBytes) && env.evidenceId(rows[i]) == NumAt(rows[i], 0)
    {
      Records.StorableFits(evidence[i], lim);
    }
  }

  lemma EpisodePrefix(episodes: seq<Episodes.Episode>, bound: nat)
    ensures Prefix(Kept.EpisodeRows(episodes), bound) == Kept.EpisodeRows(Prefix(episodes, bound))
  {
  }

  lemma EvidencePrefix(evidence: seq<Records.Stored>, bound: nat)
    ensures Prefix(Records.EvidenceRows(evidence), bound) == Records.EvidenceRows(Prefix(evidence, bound))
  {
  }

  lemma SavableIsWellFormed(h: Holding, lists: Lists, lim: Limits, env: Env)
    requires Savable(h, lists, lim, env)
    ensures WellFormed(ContentOf(h), lists, lim, env)
  {
    EpisodePrefix(h.episodes, lim.maxSnapshotEpisodes);
    EvidencePrefix(h.evidence, lim.maxSnapshotEvidence);
    EpisodesWellFormed(Prefix(h.episodes, lim.maxSnapshotEpisodes), lim, env);
    EvidenceWellFormed(Prefix(h.evidence, lim.maxSnapshotEvidence), lim, env);
  }

  lemma RestoredContent(h: Holding, lim: Limits, env: Env)
    ensures var r := Restored(ContentOf(h), lim, env);
      && r.fabric == h.fabric && !r.truncated
      && r.episodes == Kept.EpisodeRows(Prefix(h.episodes, lim.maxSnapshotEpisodes))
      && r.evidence == Records.EvidenceRows(Prefix(h.evidence, lim.maxSnapshotEvidence))
  {
    EpisodePrefix(h.episodes, lim.maxSnapshotEpisodes);
    EvidencePrefix(h.evidence, lim.maxSnapshotEvidence);
  }

  lemma HoldingDecodes(h: Holding, lists: Lists, lim: Limits, env: Env, bytes: Bytes)
    requires Savable(h, lists, lim, env) && Encode(ContentOf(h), lists, lim, env) == Ok(bytes)
    ensures Decode(bytes, lim, env) == Ok(Restored(ContentOf(h), lim, env))
  {
    SavableIsWellFormed(h, lists, lim, env);
    SnapshotRoundTrip(ContentOf(h), lists, lim, env, bytes);
  }

  lemma SavablePrefixes(h: Holding, lists: Lists, lim: Limits, env: Env)
    requires Savable(h, lists, lim, env)
    ensures SavableEpisodes(Prefix(h.episodes, lim.maxSnapshotEpisodes), lim, env)
    ensures SavableEvidence(Prefix(h.evidence, lim.maxSnapshotEvidence), lim, env)
  {
  }

  // A snapshot gives back what was held: the same topology, and the episodes and records whose rows are read are, one
  // by one, the first ones that were held.
  lemma HoldingRoundTrip(h: Holding, lists: Lists, lim: Limits, env: Env, bytes: Bytes, read: Content,
                         episodes: seq<Episodes.Episode>, evidence: seq<Records.Stored>)
    requires Savable(h, lists, lim, env) && Encode(ContentOf(h), lists, lim, env) == Ok(bytes) && Decode(bytes, lim, env) == Ok(read)
    requires SavableEpisodes(episodes, lim, env) && read.episodes == Kept.EpisodeRows(episodes)
    requires SavableEvidence(evidence, lim, env) && read.evidence == Records.EvidenceRows(evidence)
    ensures read.fabric == h.fabric && !read.truncated
    ensures episodes == Prefix(h.episodes, lim.maxSnapshotEpisodes)
    ensures SameRecords(evidence, Prefix(h.evidence, lim.maxSnapshotEvidence))
  {
    HoldingDecodes(h, lists, lim, env, bytes);
    RestoredContent(h, lim, env);
    SavablePrefixes(h, lists, lim, env);
    EpisodesDetermined(episodes, Prefix(h.episodes, lim.maxSnapshotEpisodes), lim, env);
    EvidenceDetermined(evidence, Prefix(h.evidence, lim.maxSnapshotEvidence), lim, env);
  }

  lemma EpisodesDetermined(a: seq<Episodes.Episode>, b: seq<Episodes.Episode>, lim: Limits, env: Env)
    requires SavableEpisodes(a, lim, env) && SavableEpisodes(b, lim, env)
    ensures Kept.EpisodeRows(a) == Kept.EpisodeRows(b) ==> a == b
  {
    var x, y := Kept.EpisodeRows(a), Kept.EpisodeRows(b);
    if x == y {
      assert |a| == |x| == |y| == |b|;
      forall i | 0 <= i < |a| ensures a[i] == b[i] {
        assert x[i] == y[i];
        Kept.EpisodeRowInjective(a[i], b[i]);
      }
    }
  }

  // The same records but for their places in the store, which are given anew.
  ghost predicate SameRecords(a: seq<Records.Stored>, b: seq<Records.Stored>) {
    |a| == |b| && forall i :: 0 <= i < |a| ==> a[i] == b[i].(insertionIndex := a[i].insertionIndex)
  }

  lemma EvidenceDetermined(a: seq<Records.Stored>, b: seq<Records.Stored>, lim: Limits, env: Env)
    requires SavableEvidence(a, lim, env) && SavableEvidence(b, lim, env)
    ensures Records.EvidenceRows(a) == Records.EvidenceRows(b) ==> SameRecords(a, b)
  {
    var x, y := Records.EvidenceRows(a), Records.EvidenceRows(b);
    if x == y {
      assert |a| == |x| == |y| == |b|;
      forall i | 0 <= i < |a| ensures a[i] == b[i].(insertionIndex := a[i].insertionIndex) {
        assert x[i] == y[i];
        Records.EvidenceRowInjective(a[i], b[i]);
      }
    }
  }
}
