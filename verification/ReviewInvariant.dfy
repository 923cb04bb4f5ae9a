/** The invariant of the store under the review protocol, and the three kinds of update that keep it. */
module ReviewInvariant {
  import opened Prelude
  import opened Models
  import opened Records
  import opened Store
  import opened Review
  import Derivation

  // ---- the invariant, one stored object at a time ----

  predicate RunInv(h: Hash, id: string, r: Recommendation, t: Trace) {
    && r.requestId == id && t.envelope.requestId == id
    && r.trace == Some(t)
    && ChainOk(h, t)
    && r.databaseAnchor == AnchorSha(h, t.envelope.databaseAnchor)
  }

  /** A digest recorded for a revision of the live trace. */
  predicate BindsPrefix(h: Hash, t: Trace, revision: int, chain: Digest) {
    && 1 <= revision <= |t.entries|
    && chain == ChainAt(h, t, revision)
  }

  /** The bindings of a stored decision to its candidate, its recommendation and the anchors. */
  predicate BoundTo(h: Hash, r: Recommendation, a: Approval) {
    && IntegrityBound(a)
    && FindReviewed(r, a.candidateId).Some?
    && a.candidateSha == Some(CandidateSha(h, FindReviewed(r, a.candidateId).value))
    && a.recommendationSha == Some(RecommendationSha(h, r))
    && a.recommendationRevision == Some(r.revision)
    && a.databaseAnchor == r.databaseAnchor && a.registryAnchor == r.registryAnchor && a.policyAnchor == r.policyAnchor
    && a.reviewerIdentity == Some(a.reviewer)
  }

  /** The gate a decision passed when it was taken. */
  predicate Gated(r: Recommendation, a: Approval) {
    && (a.status == APPROVED || a.status == REJECTED)
    && (a.status == REJECTED ==> a.mode == STANDARD)
    && (a.status == APPROVED ==> ApproveChecks(r, a.candidateId, a.note, a.mode).Ok?)
  }

  predicate ApprovalInv(h: Hash, r: Recommendation, t: Trace, k: Key, a: Approval) {
    && k == (a.requestId, a.candidateId)
    && BoundTo(h, r, a)
    && Gated(r, a)
    && BindsPrefix(h, t, a.traceRevision.value, a.traceChain.value)
  }

  /** A lock embeds the stored APPROVED decision a and freezes a prefix of the live trace. */
  predicate LockInv(h: Hash, r: Recommendation, t: Trace, a: Approval, id: string, l: Lock) {
    && l.requestId == id
    && a.status == APPROVED
    && l.approval == a.(status := LOCKED)
    && l.approvalSha == ApprovalSha(h, a)
    && FindReviewed(r, l.candidate.candidateId) == Some(l.candidate)
    && l.candidateSha == CandidateSha(h, l.candidate)
    && l.recommendationSha == RecommendationSha(h, r)
    && Derivation.LockTotalCheck(l.candidate).Ok?
    && l.snapshot.requestId == id
    && BindsPrefix(h, t, l.snapshot.traceRevision, l.snapshot.traceChain)
    && l.snapshot.traceRevision == |l.snapshot.entries|
    && ChainOk(h, Trace(t.envelope, l.snapshot.traceRevision, l.snapshot.entries))
    && Hashes(l.snapshot.entries) == Hashes(t.entries[..l.snapshot.traceRevision])
  }

  // ---- the invariant of the store ----

  ghost predicate RunsInv(h: Hash, s: State) {
    && s.traces.Keys == s.recommendations.Keys
    && forall id :: id in s.recommendations ==> RunInv(h, id, s.recommendations[id], s.traces[id])
  }

  ghost predicate ApprovalsInv(h: Hash, s: State) {
    forall k :: k in s.approvals ==>
      k.0 in s.recommendations && k.0 in s.traces && ApprovalInv(h, s.recommendations[k.0], s.traces[k.0], k, s.approvals[k])
  }

  ghost predicate OneApproved(approvals: map<Key, Approval>) {
    forall k, j | k in approvals && j in approvals && k.0 == j.0 ::
      approvals[k].status == APPROVED && approvals[j].status == APPROVED ==> k == j
  }

  ghost predicate LocksInv(h: Hash, s: State) {
    forall id :: id in s.locked ==>
      && id in s.recommendations && id in s.traces
      && (id, s.locked[id].candidate.candidateId) in s.approvals
      && LockInv(h, s.recommendations[id], s.traces[id], s.approvals[(id, s.locked[id].candidate.candidateId)], id, s.locked[id])
  }

  /** Every decision of a locked request was taken strictly before the lock entry. */
  ghost predicate DecidedBeforeLock(s: State) {
    forall k :: k in s.approvals && k.0 in s.locked ==>
      s.approvals[k].traceRevision.Some? && s.approvals[k].traceRevision.value < s.locked[k.0].snapshot.traceRevision
  }

  ghost predicate StateInv(h: Hash, s: State) {
    RunsInv(h, s) && ApprovalsInv(h, s) && OneApproved(s.approvals) && LocksInv(h, s) && DecidedBeforeLock(s)
  }

  /** What no step ever takes back. */
  ghost predicate Grows(s: State, u: State) {
    && (forall id :: id in s.recommendations ==> id in u.recommendations && SameContent(s.recommendations[id], u.recommendations[id]))
    && (forall id :: id in s.traces ==> id in u.traces && HashPrefix(s.traces[id], u.traces[id]))
    && (forall k :: k in s.approvals ==> k in u.approvals && u.approvals[k] == s.approvals[k])
    && (forall id :: id in s.locked ==> id in u.locked && u.locked[id] == s.locked[id])
    && (forall k :: k in u.approvals && k !in s.approvals ==> k.0 !in s.locked)
  }

  lemma GrowsReflexive(s: State)
    ensures Grows(s, s)
  {}

  lemma GrowsTransitive(s: State, u: State, v: State)
    requires Grows(s, u) && Grows(u, v)
    ensures Grows(s, v)
  {
    forall id | id in s.traces ensures id in v.traces && HashPrefix(s.traces[id], v.traces[id]) {
      HashPrefixTransitive(s.traces[id], u.traces[id], v.traces[id]);
    }
  }

  // ---- stability of one object under growth ----

  lemma BindsPrefixStable(h: Hash, t: Trace, u: Trace, revision: int, chain: Digest)
    requires HashPrefix(t, u) && BindsPrefix(h, t, revision, chain)
    ensures BindsPrefix(h, u, revision, chain)
  {
    PrefixDigestStable(h, t, u, revision);
  }

  lemma ContentDecides(h: Hash, r: Recommendation, q: Recommendation)
    requires SameContent(r, q)
    ensures RecommendationSha(h, r) == RecommendationSha(h, q)
    ensures r.requestId == q.requestId && r.status == q.status && r.revision == q.revision
    ensures r.candidates == q.candidates && r.reviewable == q.reviewable
    ensures r.databaseAnchor == q.databaseAnchor && r.registryAnchor == q.registryAnchor && r.policyAnchor == q.policyAnchor
  {
    assert r == q.(trace := r.trace) by { assert r.(trace := None).(trace := r.trace) == r; }
  }

  lemma ApprovalInvStable(h: Hash, r: Recommendation, t: Trace, q: Recommendation, u: Trace, k: Key, a: Approval)
    requires SameContent(r, q) && HashPrefix(t, u)
    requires ApprovalInv(h, r, t, k, a)
    ensures ApprovalInv(h, q, u, k, a)
  {
    ContentDecides(h, r, q);
    BindsPrefixStable(h, t, u, a.traceRevision.value, a.traceChain.value);
  }

  lemma LockInvStable(h: Hash, r: Recommendation, t: Trace, q: Recommendation, u: Trace, a: Approval, id: string, l: Lock)
    requires SameContent(r, q) && HashPrefix(t, u)
    requires LockInv(h, r, t, a, id, l)
    ensures LockInv(h, q, u, a, id, l)
  {
    ContentDecides(h, r, q);
    BindsPrefixStable(h, t, u, l.snapshot.traceRevision, l.snapshot.traceChain);
    PrefixHashes(t, u, l.snapshot.traceRevision);
  }

  lemma PrefixHashes(t: Trace, u: Trace, n: nat)
    requires HashPrefix(t, u) && n <= |t.entries|
    ensures Hashes(t.entries[..n]) == Hashes(u.entries[..n])
  {
    forall i | 0 <= i < n ensures t.entries[i].entryHash == u.entries[i].entryHash {
      assert Hashes(t.entries)[i] == Hashes(u.entries[..|t.entries|])[i];
    }
  }

  // ---- the updates ----

  /** A new run, or a verified extension of a stored trace. */
  predicate TraceWriteOk(h: Hash, s: State, r: Recommendation, t: Trace) {
    && RunInv(h, r.requestId, r.(trace := Some(t)), t)
    && (if r.requestId in s.recommendations && r.requestId in s.traces
        then s.recommendations[r.requestId] == r && HashPrefix(s.traces[r.requestId], t)
        else r.requestId !in s.recommendations && r.requestId !in s.traces)
  }

  lemma TraceWriteRuns(h: Hash, s: State, r: Recommendation, t: Trace)
    requires RunsInv(h, s) && TraceWriteOk(h, s, r, t)
    ensures RunsInv(h, WithTrace(s, r, t))
  {
    var u := WithTrace(s, r, t);
    assert u.recommendations.Keys == u.traces.Keys == s.recommendations.Keys + {r.requestId};
    assert RunInv(h, r.requestId, u.recommendations[r.requestId], u.traces[r.requestId]);
    hide ChainOk, HashPrefix;
    forall id | id in u.recommendations ensures RunInv(h, id, u.recommendations[id], u.traces[id]) {
      if id != r.requestId { assert RunInv(h, id, s.recommendations[id], s.traces[id]); }
    }
  }

  lemma TraceWriteGrows(h: Hash, s: State, r: Recommendation, t: Trace)
    requires RunsInv(h, s) && TraceWriteOk(h, s, r, t)
    ensures RunsInv(h, WithTrace(s, r, t)) && Grows(s, WithTrace(s, r, t))
  {
    hide RunsInv, LinkOk, AnchorSha, Hashes;
    TraceWriteRuns(h, s, r, t);
    var u := WithTrace(s, r, t);
    forall id | id in s.traces ensures id in u.traces && HashPrefix(s.traces[id], u.traces[id]) {}
  }

  /** Everything stored survives growth of recommendations and traces alone. */
  lemma TraceWriteKeeps(h: Hash, s: State, u: State)
    requires StateInv(h, s) && RunsInv(h, u) && Grows(s, u)
    requires u.approvals == s.approvals && u.locked == s.locked
    ensures StateInv(h, u)
  {
    hide RunsInv, ApprovalInv, LockInv, SameContent, HashPrefix, OneApproved;
    forall k | k in u.approvals
      ensures k.0 in u.recommendations && k.0 in u.traces && ApprovalInv(h, u.recommendations[k.0], u.traces[k.0], k, u.approvals[k])
    {
      ApprovalInvStable(h, s.recommendations[k.0], s.traces[k.0], u.recommendations[k.0], u.traces[k.0], k, s.approvals[k]);
    }
    forall id | id in u.locked
      ensures id in u.recommendations && id in u.traces
      ensures (id, u.locked[id].candidate.candidateId) in u.approvals
      ensures LockInv(h, u.recommendations[id], u.traces[id], u.approvals[(id, u.locked[id].candidate.candidateId)], id, u.locked[id])
    {
      LockInvStable(h, s.recommendations[id], s.traces[id], u.recommendations[id], u.traces[id],
        s.approvals[(id, s.locked[id].candidate.candidateId)], id, s.locked[id]);
    }
  }

  lemma TraceWrite(h: Hash, s: State, r: Recommendation, t: Trace)
    requires StateInv(h, s) && TraceWriteOk(h, s, r, t)
    ensures StateInv(h, WithTrace(s, r, t)) && Grows(s, WithTrace(s, r, t))
  {
    TraceWriteGrows(h, s, r, t);
    TraceWriteKeeps(h, s, WithTrace(s, r, t));
  }

  lemma ApprovalWriteApprovals(h: Hash, s: State, key: Key, a: Approval)
    requires ApprovalsInv(h, s) && key.0 in s.recommendations && key.0 in s.traces
    requires ApprovalInv(h, s.recommendations[key.0], s.traces[key.0], key, a)
    ensures ApprovalsInv(h, s.(approvals := s.approvals[key := a]))
  {
    var u := s.(approvals := s.approvals[key := a]);
    forall k | k in u.approvals
      ensures k.0 in u.recommendations && k.0 in u.traces && ApprovalInv(h, u.recommendations[k.0], u.traces[k.0], k, u.approvals[k])
    {
      if k != key { assert u.approvals[k] == s.approvals[k]; }
    }
  }

  lemma ApprovalWriteLocks(h: Hash, s: State, key: Key, a: Approval)
    requires LocksInv(h, s) && key !in s.approvals
    ensures LocksInv(h, s.(approvals := s.approvals[key := a]))
  {
    var u := s.(approvals := s.approvals[key := a]);
    forall i | i in u.locked
      ensures i in u.recommendations && i in u.traces && (i, u.locked[i].candidate.candidateId) in u.approvals
      ensures LockInv(h, u.recommendations[i], u.traces[i], u.approvals[(i, u.locked[i].candidate.candidateId)], i, u.locked[i])
    {
      assert (i, s.locked[i].candidate.candidateId) in s.approvals;
    }
  }

  lemma ApprovalWriteGrows(s: State, key: Key, a: Approval)
    requires key !in s.approvals && key.0 !in s.locked && DecidedBeforeLock(s)
    ensures Grows(s, s.(approvals := s.approvals[key := a])) && DecidedBeforeLock(s.(approvals := s.approvals[key := a]))
  {}

  lemma ApprovalWrite(h: Hash, s: State, key: Key, a: Approval)
    requires StateInv(h, s)
    requires key !in s.approvals && key.0 !in s.locked && key.0 in s.recommendations && key.0 in s.traces
    requires ApprovalInv(h, s.recommendations[key.0], s.traces[key.0], key, a)
    requires a.status == APPROVED ==> !HasApproved(s, key.0)
    ensures StateInv(h, s.(approvals := s.approvals[key := a]))
    ensures Grows(s, s.(approvals := s.approvals[key := a]))
  {
    ApprovalWriteApprovals(h, s, key, a);
    ApprovalWriteUnique(h, s, key, a);
    ApprovalWriteLocks(h, s, key, a);
    ApprovalWriteGrows(s, key, a);
    SameRuns(h, s, s.(approvals := s.approvals[key := a]));
  }

  lemma SameRuns(h: Hash, s: State, u: State)
    requires RunsInv(h, s) && u.recommendations == s.recommendations && u.traces == s.traces
    ensures RunsInv(h, u)
    ensures ApprovalsInv(h, s) && u.approvals == s.approvals ==> ApprovalsInv(h, u)
  {}

  lemma ApprovalWriteUnique(h: Hash, s: State, key: Key, a: Approval)
    requires ApprovalsInv(h, s) && OneApproved(s.approvals) && key !in s.approvals
    requires a.status == APPROVED ==> !HasApproved(s, key.0)
    ensures OneApproved(s.approvals[key := a])
  {
    var m := s.approvals[key := a];
    forall k, j | k in m && j in m && k.0 == j.0
      ensures m[k].status == APPROVED && m[j].status == APPROVED ==> k == j
    {
      if m[k].status == APPROVED && m[j].status == APPROVED && k != j {
        if k == key { NoOtherApproved(h, s, key.0, j); }
        if j == key { NoOtherApproved(h, s, key.0, k); }
      }
    }
  }

  lemma NoOtherApproved(h: Hash, s: State, id: string, k: Key)
    requires ApprovalsInv(h, s) && k in s.approvals && k.0 == id && !HasApproved(s, id)
    ensures s.approvals[k].status != APPROVED
  {
    assert s.approvals[k].requestId == id;
  }

  lemma LockWriteGrows(s: State, id: string, l: Lock)
    requires id !in s.locked && DecidedBeforeLock(s)
    requires forall k :: k in s.approvals && k.0 == id ==>
      s.approvals[k].traceRevision.Some? && s.approvals[k].traceRevision.value < l.snapshot.traceRevision
    ensures Grows(s, s.(locked := s.locked[id := l])) && DecidedBeforeLock(s.(locked := s.locked[id := l]))
  {}

  lemma LockWrite(h: Hash, s: State, id: string, l: Lock)
    requires StateInv(h, s) && id !in s.locked && id in s.recommendations && id in s.traces
    requires (id, l.candidate.candidateId) in s.approvals
    requires LockInv(h, s.recommendations[id], s.traces[id], s.approvals[(id, l.candidate.candidateId)], id, l)
    requires forall k :: k in s.approvals && k.0 == id ==>
      s.approvals[k].traceRevision.Some? && s.approvals[k].traceRevision.value < l.snapshot.traceRevision
    ensures StateInv(h, s.(locked := s.locked[id := l])) && Grows(s, s.(locked := s.locked[id := l]))
  {
    LockWriteLocks(h, s, id, l);
    LockWriteGrows(s, id, l);
    SameRuns(h, s, s.(locked := s.locked[id := l]));
  }

  lemma LockWriteLocks(h: Hash, s: State, id: string, l: Lock)
    requires LocksInv(h, s) && id in s.recommendations && id in s.traces
    requires (id, l.candidate.candidateId) in s.approvals
    requires LockInv(h, s.recommendations[id], s.traces[id], s.approvals[(id, l.candidate.candidateId)], id, l)
    ensures LocksInv(h, s.(locked := s.locked[id := l]))
  {
    var u := s.(locked := s.locked[id := l]);
    forall i | i in u.locked
      ensures i in u.recommendations && i in u.traces && (i, u.locked[i].candidate.candidateId) in u.approvals
      ensures LockInv(h, u.recommendations[i], u.traces[i], u.approvals[(i, u.locked[i].candidate.candidateId)], i, u.locked[i])
    {
      if i != id { assert u.locked[i] == s.locked[i]; }
    }
  }
}
