/** Traces, recommendations, decisions and locks (models.py). SHA-256 over canonical JSON is a function h
    from the hashed payload to a digest: every statement holds for every h, and CollisionFree(h) is asked
    for only where content is recovered from equal digests. */
module Records {
  import opened Prelude
  import opened Units
  import opened Models

  type Digest = string

  /** The observation time is not part of the anchor digest. */
  datatype Anchor = Anchor(name: string, version: string, content: int, observedAt: int)

  /** The detail mappings the review protocol writes, and everything else a graph stage may write. */
  datatype Details =
    | StageDetails(content: int)
    | DecisionDetails(candidateId: string, reviewer: string, note: string, approvalMode: Option<ApprovalMode>)
    | LockDetails(candidateId: string, reviewer: string, tier: ResultTier, mode: ApprovalMode,
                  acceptedAssumptions: seq<string>, overrideReason: Option<string>, unresolvedWarnings: seq<string>)

  datatype Entry = Entry(revision: int, stage: string, message: string, details: Details, at: int,
                         previousHash: Digest, entryHash: Digest)

  /** Everything about a trace that append never changes. */
  datatype Envelope = Envelope(traceId: string, requestId: string, requestFingerprint: string,
                               rawFingerprint: Option<string>, businessFingerprint: Option<string>,
                               databaseAnchor: Option<Anchor>)

  datatype Trace = Trace(envelope: Envelope, revision: int, entries: seq<Entry>)

  /** None stands for an absent or empty digest. trace is the field replaced at every commit. */
  datatype Recommendation = Recommendation(
    requestId: string,
    status: ResolutionStatus,
    candidates: seq<Candidate>,
    reviewable: seq<Candidate>,
    diagnostics: seq<Candidate>,
    revision: int,
    databaseAnchor: Option<Digest>,
    registryAnchor: Option<Digest>,
    policyAnchor: Option<Digest>,
    content: int,
    trace: Option<Trace>)

  datatype Approval = Approval(
    requestId: string,
    candidateId: string,
    reviewer: string,
    status: ApprovalStatus,
    note: string,
    createdAt: int,
    mode: ApprovalMode,
    candidateSha: Option<Digest>,
    recommendationSha: Option<Digest>,
    recommendationRevision: Option<int>,
    databaseAnchor: Option<Digest>,
    registryAnchor: Option<Digest>,
    policyAnchor: Option<Digest>,
    traceRevision: Option<int>,
    traceChain: Option<Digest>,
    reviewerIdentity: Option<string>)

  /** The frozen payload of a locked trace, with the digest of its bytes. */
  datatype Snapshot = Snapshot(requestId: string, traceId: string, traceRevision: int, traceChain: Digest,
                               databaseAnchor: Digest, registryAnchor: Option<Digest>, policyAnchor: Option<Digest>,
                               entries: seq<Entry>, sha: Digest)

  datatype Lock = Lock(
    requestId: string,
    candidate: Candidate,
    reviewer: string,
    approval: Approval,
    lockedAt: int,
    snapshot: Snapshot,
    candidateSha: Digest,
    recommendationSha: Digest,
    approvalSha: Digest)

  datatype Payload =
    | EntryPayload(revision: int, stage: string, message: string, details: Details, at: int, previousHash: Digest)
    | ChainPayload(unanchored: Envelope, anchorSha: Option<Digest>, revision: int, hashes: seq<Digest>)
    | AnchorPayload(anchor: Anchor)
    | CandidatePayload(candidate: Candidate)
    | RecommendationPayload(requestId: string, revision: int, status: ResolutionStatus, candidateDigests: seq<Digest>,
                            reviewableDigests: seq<Digest>, diagnosticDigests: seq<Digest>, content: int,
                            databaseAnchor: Option<Digest>, registryAnchor: Option<Digest>, policyAnchor: Option<Digest>)
    | ApprovalPayload(approval: Approval)
    | SnapshotPayload(requestId: string, traceId: string, revision: int, chain: Digest, anchorDigest: Digest,
                      registryAnchor: Option<Digest>, policyAnchor: Option<Digest>, entries: seq<Entry>)

  type Hash = Payload -> Digest

  /** Every payload but a candidate's. They are discrete, and some function into strings tells all of them apart
      (Encoding); candidates hold real numbers, which no such function can tell apart. */
  predicate Discrete(p: Payload) {
    !p.CandidatePayload?
  }

  /** No two discrete payloads have one digest. */
  ghost predicate CollisionFree(h: Hash) {
    forall p, q :: Discrete(p) && Discrete(q) && h(p) == h(q) ==> p == q
  }

  // ---- digests ----

  function CandidateSha(h: Hash, c: Candidate): Digest {
    h(CandidatePayload(c))
  }

  function CandidateShas(h: Hash, cs: seq<Candidate>): (r: seq<Digest>)
    ensures |r| == |cs|
  {
    seq(|cs|, i requires 0 <= i < |cs| => CandidateSha(h, cs[i]))
  }

  /** The trace field is deliberately not part of the digest. */
  function RecommendationSha(h: Hash, r: Recommendation): Digest {
    h(RecommendationPayload(r.requestId, r.revision, r.status, CandidateShas(h, r.candidates),
      CandidateShas(h, r.reviewable), CandidateShas(h, r.diagnostics), r.content,
      r.databaseAnchor, r.registryAnchor, r.policyAnchor))
  }

  /** The creation time is not part of the digest. */
  function ApprovalSha(h: Hash, a: Approval): Digest {
    h(ApprovalPayload(a.(createdAt := 0)))
  }

  function AnchorSha(h: Hash, a: Option<Anchor>): Option<Digest> {
    match a
    case Some(anchor) => Some(h(AnchorPayload(anchor.(observedAt := 0))))
    case None => None
  }

  // ---- hash chain ----

  function EntrySha(h: Hash, e: Entry): Digest {
    h(EntryPayload(e.revision, e.stage, e.message, e.details, e.at, e.previousHash))
  }

  function LastHash(entries: seq<Entry>): Digest {
    if entries == [] then "" else entries[|entries| - 1].entryHash
  }

  function NextEntry(h: Hash, t: Trace, stage: string, message: string, details: Details, at: int): Entry {
    var e := Entry(t.revision + 1, stage, message, details, at, LastHash(t.entries), "");
    e.(entryHash := EntrySha(h, e))
  }

  function Appended(h: Hash, t: Trace, stage: string, message: string, details: Details, at: int): Trace {
    t.(revision := t.revision + 1, entries := t.entries + [NextEntry(h, t, stage, message, details, at)])
  }

  predicate LinkOk(h: Hash, entries: seq<Entry>, i: nat)
    requires i < |entries|
  {
    && entries[i].revision == i + 1
    && entries[i].previousHash == LastHash(entries[..i])
    && entries[i].entryHash == EntrySha(h, entries[i])
  }

  /** verify_hash_chain returns without raising */
  predicate ChainOk(h: Hash, t: Trace) {
    t.revision == |t.entries| && forall i :: 0 <= i < |t.entries| ==> LinkOk(h, t.entries, i)
  }

  function Hashes(entries: seq<Entry>): (r: seq<Digest>)
    ensures |r| == |entries|
    ensures forall i :: 0 <= i < |r| ==> r[i] == entries[i].entryHash
  {
    seq(|entries|, i requires 0 <= i < |entries| => entries[i].entryHash)
  }

  /** chain_sha256_at_revision, inside the stored chain. */
  function ChainAt(h: Hash, t: Trace, revision: int): Digest
    requires 0 <= revision <= |t.entries|
  {
    h(ChainPayload(t.envelope.(databaseAnchor := None), AnchorSha(h, t.envelope.databaseAnchor), revision, Hashes(t.entries[..revision])))
  }

  function ChainAtRevision(h: Hash, t: Trace, revision: int): Result<Digest> {
    if !ChainOk(h, t) then Err(IntegrityError("trace hash chain is invalid"))
    else if revision < 0 || revision > t.revision then Err(IntegrityError("trace prefix revision is outside the stored chain"))
    else Ok(ChainAt(h, t, revision))
  }

  /** t is a prefix of u as far as any digest can tell. */
  predicate HashPrefix(t: Trace, u: Trace) {
    t.envelope == u.envelope && |t.entries| <= |u.entries| && Hashes(t.entries) == Hashes(u.entries[..|t.entries|])
  }

  /** LockedResolutionEvidenceSnapshot.from_trace */
  function SnapshotOf(h: Hash, t: Trace, registry: Option<Digest>, policy: Option<Digest>): Result<Snapshot> {
    match (ChainAtRevision(h, t, t.revision), AnchorSha(h, t.envelope.databaseAnchor))
    case (Err(e), _) => Err(e)
    case (_, None) => Err(IntegrityError("trace has no catalog anchor"))
    case (Ok(chain), Some(anchor)) =>
      Ok(Snapshot(t.envelope.requestId, t.envelope.traceId, t.revision, chain, anchor, registry, policy, t.entries,
        h(SnapshotPayload(t.envelope.requestId, t.envelope.traceId, t.revision, chain, anchor, registry, policy, t.entries))))
  }

  // ---- decisions ----

  predicate IntegrityBound(a: Approval) {
    && a.candidateSha.Some? && a.recommendationSha.Some? && a.recommendationRevision.Some?
    && a.databaseAnchor.Some? && a.registryAnchor.Some? && a.policyAnchor.Some?
    && a.traceRevision.Some? && a.traceChain.Some?
    && a.reviewerIdentity.Some? && a.reviewerIdentity.value != ""
  }

  predicate MatchesDecision(a: Approval, status: ApprovalStatus, reviewer: string, note: string, mode: ApprovalMode) {
    a.status == status && a.reviewer == reviewer && a.reviewerIdentity == Some(reviewer) && a.note == note && a.mode == mode
  }

  /** The bindings a replayed decision must agree on; the trace binding may differ. */
  predicate SameStableBindings(a: Approval, b: Approval) {
    && a.candidateSha == b.candidateSha
    && a.recommendationSha == b.recommendationSha
    && a.recommendationRevision == b.recommendationRevision
    && a.databaseAnchor == b.databaseAnchor
    && a.registryAnchor == b.registryAnchor
    && a.policyAnchor == b.policyAnchor
  }

  function FindReviewed(r: Recommendation, id: string): Option<Candidate> {
    Find(r.candidates + r.reviewable, id)
  }

  predicate SameContent(a: Recommendation, b: Recommendation) {
    a.(trace := None) == b.(trace := None)
  }

  // ---- the two facts about chains everything else uses ----

  /** Appending keeps a verified chain verified, and extends it by one entry. */
  lemma AppendKeepsChain(h: Hash, t: Trace, stage: string, message: string, details: Details, at: int)
    requires ChainOk(h, t)
    ensures ChainOk(h, Appended(h, t, stage, message, details, at))
    ensures HashPrefix(t, Appended(h, t, stage, message, details, at))
  {
    var u := Appended(h, t, stage, message, details, at);
    assert u.entries[..|t.entries|] == t.entries;
    forall i | 0 <= i < |u.entries| ensures LinkOk(h, u.entries, i) {
      assert u.entries[..i] == t.entries[..i];
      if i < |t.entries| { assert LinkOk(h, t.entries, i); }
    }
  }

  /** A prefix digest never changes while the trace only grows. */
  lemma PrefixDigestStable(h: Hash, t: Trace, u: Trace, revision: int)
    requires HashPrefix(t, u) && 0 <= revision <= |t.entries|
    ensures ChainAt(h, t, revision) == ChainAt(h, u, revision)
  {
    var n := |t.entries|;
    assert Hashes(t.entries[..revision]) == Hashes(u.entries[..revision]) by {
      forall i | 0 <= i < revision ensures t.entries[i].entryHash == u.entries[i].entryHash {
        assert Hashes(t.entries)[i] == Hashes(u.entries[..n])[i];
      }
    }
  }

  lemma HashPrefixTransitive(t: Trace, u: Trace, v: Trace)
    requires HashPrefix(t, u) && HashPrefix(u, v)
    ensures HashPrefix(t, v)
  {
    forall i | 0 <= i < |t.entries| ensures t.entries[i].entryHash == v.entries[i].entryHash {
      assert Hashes(t.entries)[i] == Hashes(u.entries[..|t.entries|])[i];
      assert Hashes(u.entries)[i] == Hashes(v.entries[..|u.entries|])[i];
    }
  }

  /** Tamper evidence: without collisions one entry hash fixes its whole history. Two verified chains
      that carry the same hash at the end of two prefixes have the same prefix, entry by entry. */
  lemma {:induction false} EntryHashFixesHistory(h: Hash, t: Trace, u: Trace, n: nat, m: nat)
    requires CollisionFree(h) && ChainOk(h, t) && ChainOk(h, u)
    requires 0 < n <= |t.entries| && 0 < m <= |u.entries|
    requires t.entries[n - 1].entryHash == u.entries[m - 1].entryHash
    ensures n == m && t.entries[..n] == u.entries[..m]
    decreases n
  {
    var e, f := t.entries[n - 1], u.entries[m - 1];
    assert LinkOk(h, t.entries, n - 1) && LinkOk(h, u.entries, m - 1);
    assert e == f && n == m;
    if n > 1 {
      assert LastHash(t.entries[..n - 1]) == t.entries[n - 2].entryHash;
      assert LastHash(u.entries[..n - 1]) == u.entries[n - 2].entryHash;
      EntryHashFixesHistory(h, t, u, n - 1, n - 1);
    }
    assert t.entries[..n] == t.entries[..n - 1] + [e];
    assert u.entries[..n] == u.entries[..n - 1] + [f];
  }

  /** Hence a hash-level prefix of a verified chain is a content-level prefix. */
  lemma HashPrefixIsPrefix(h: Hash, t: Trace, u: Trace)
    requires CollisionFree(h) && ChainOk(h, t) && ChainOk(h, u) && HashPrefix(t, u)
    ensures t.entries <= u.entries
  {
    var n := |t.entries|;
    if n > 0 {
      assert Hashes(t.entries)[n - 1] == Hashes(u.entries[..n])[n - 1];
      EntryHashFixesHistory(h, t, u, n, n);
    }
  }

  /** Envelopes that differ at most in when the catalogue was observed. */
  predicate SameOrigin(a: Envelope, b: Envelope) {
    && a.(databaseAnchor := None) == b.(databaseAnchor := None)
    && a.databaseAnchor.Some? == b.databaseAnchor.Some?
    && (a.databaseAnchor.Some? ==>
        a.databaseAnchor.value.(observedAt := 0) == b.databaseAnchor.value.(observedAt := 0))
  }

  /** And equal chain digests mean the same origin and equal prefixes. */
  lemma ChainDigestBinds(h: Hash, t: Trace, u: Trace, n: int, m: int)
    requires CollisionFree(h) && ChainOk(h, t) && ChainOk(h, u)
    requires 0 <= n <= t.revision && 0 <= m <= u.revision
    requires ChainAt(h, t, n) == ChainAt(h, u, m)
    ensures SameOrigin(t.envelope, u.envelope) && n == m && t.entries[..n] == u.entries[..m]
  {
    assert Hashes(t.entries[..n]) == Hashes(u.entries[..m]);
    if n > 0 {
      assert Hashes(t.entries[..n])[n - 1] == Hashes(u.entries[..m])[n - 1];
      EntryHashFixesHistory(h, t, u, n, m);
    }
  }

  // ---- what the other digests bind ----

  /** The candidates of a list are told apart by their digests. */
  ghost predicate ToldApart(h: Hash, cs: seq<Candidate>, ds: seq<Candidate>) {
    forall c, d :: c in cs && d in ds && CandidateSha(h, c) == CandidateSha(h, d) ==> c == d
  }

  lemma SameCandidates(h: Hash, cs: seq<Candidate>, ds: seq<Candidate>)
    requires CandidateShas(h, cs) == CandidateShas(h, ds) && ToldApart(h, cs, ds)
    ensures cs == ds
  {
    assert |CandidateShas(h, cs)| == |CandidateShas(h, ds)|;
    forall i | 0 <= i < |cs| ensures cs[i] == ds[i] {
      assert CandidateShas(h, cs)[i] == CandidateSha(h, cs[i]) && CandidateShas(h, ds)[i] == CandidateSha(h, ds[i]);
    }
  }

  /** Equal digests of two recommendations mean equal content, down to every listed candidate; only the trace is free. */
  lemma RecommendationShaBinds(h: Hash, r: Recommendation, q: Recommendation)
    requires CollisionFree(h)
    requires ToldApart(h, r.candidates, q.candidates) && ToldApart(h, r.reviewable, q.reviewable) && ToldApart(h, r.diagnostics, q.diagnostics)
    ensures RecommendationSha(h, r) == RecommendationSha(h, q) <==> r == q.(trace := r.trace)
  {
    if RecommendationSha(h, r) == RecommendationSha(h, q) {
      hide CandidateShas, ToldApart;
      SameCandidates(h, r.candidates, q.candidates);
      SameCandidates(h, r.reviewable, q.reviewable);
      SameCandidates(h, r.diagnostics, q.diagnostics);
    }
  }

  /** Equal digests of two decisions mean equal decisions; only the creation time is free. */
  lemma ApprovalShaBinds(h: Hash, a: Approval, b: Approval)
    requires CollisionFree(h)
    ensures ApprovalSha(h, a) == ApprovalSha(h, b) <==> a == b.(createdAt := a.createdAt)
  {
    if ApprovalSha(h, a) == ApprovalSha(h, b) {
      assert a.(createdAt := 0) == b.(createdAt := 0);
      assert a == a.(createdAt := 0).(createdAt := a.createdAt);
    }
  }

  /** Snapshots of two traces have one digest only if they are equal, and then the traces have equal entries, request
      and catalogue. */
  lemma SnapshotBinds(h: Hash, t: Trace, u: Trace, registry: Option<Digest>, policy: Option<Digest>, registry': Option<Digest>, policy': Option<Digest>)
    requires CollisionFree(h) && SnapshotOf(h, t, registry, policy).Ok? && SnapshotOf(h, u, registry', policy').Ok?
    requires SnapshotOf(h, t, registry, policy).value.sha == SnapshotOf(h, u, registry', policy').value.sha
    ensures SnapshotOf(h, t, registry, policy) == SnapshotOf(h, u, registry', policy')
    ensures SameOrigin(t.envelope, u.envelope) && t.entries == u.entries && registry == registry' && policy == policy'
  {
    var s, s' := SnapshotOf(h, t, registry, policy).value, SnapshotOf(h, u, registry', policy').value;
    hide ChainAt, ChainOk;
    assert SnapshotPayload(s.requestId, s.traceId, s.traceRevision, s.traceChain, s.databaseAnchor, s.registryAnchor, s.policyAnchor, s.entries)
        == SnapshotPayload(s'.requestId, s'.traceId, s'.traceRevision, s'.traceChain, s'.databaseAnchor, s'.registryAnchor, s'.policyAnchor, s'.entries);
    ChainDigestBinds(h, t, u, t.revision, u.revision);
  }
}
