/** What the store guarantees on its own: whoever calls its four commits, in whatever order and with whatever
    arguments, every stored decision and lock stays bound to its run and spelled out in the trace. */
module StoreGuards {
  import opened Prelude
  import opened Models
  import opened Records
  import opened Store

  datatype StoreCall =
    | SaveRun(recommendation: Recommendation, trace: Trace)
    | SaveTrace(trace: Trace)
    | SaveDecision(approval: Approval, trace: Trace, sha: Digest, revision: int)
    | SaveLock(lock: Lock, trace: Trace, sha: Digest, revision: int)

  function Called(h: Hash, s: State, call: StoreCall): State {
    match call
    case SaveRun(r, t) => SaveRunSpec(h, s, r, t).0
    case SaveTrace(t) => SaveTraceSpec(h, s, t).0
    case SaveDecision(a, t, sha, revision) => SaveApprovalSpec(h, s, a, t, sha, revision).0
    case SaveLock(l, t, sha, revision) => SaveLockedSpec(h, s, l, t, sha, revision).0
  }

  function After(h: Hash, calls: seq<StoreCall>): State {
    if calls == [] then EMPTY else Called(h, After(h, calls[..|calls| - 1]), calls[|calls| - 1])
  }

  // ---- what is stored ----

  predicate RunStored(h: Hash, id: string, r: Recommendation, t: Trace) {
    r.requestId == id && t.envelope.requestId == id && r.trace == Some(t) && ChainOk(h, t)
  }

  /** The entry of that revision says so. */
  predicate Says(t: Trace, revision: int, stage: string, message: string, details: Details) {
    && 1 <= revision <= |t.entries|
    && var e := t.entries[revision - 1];
       e.stage == stage && e.message == message && e.details == details
  }

  /** A decision is terminal, digests its candidate, its recommendation and the trace up to its own entry, and that
      entry names candidate, reviewer and note, and the mode of an approval. */
  predicate DecisionStored(h: Hash, r: Recommendation, t: Trace, k: Key, a: Approval) {
    && k == (a.requestId, a.candidateId)
    && (a.status == APPROVED || (a.status == REJECTED && a.mode == STANDARD))
    && a.reviewer != "" && a.reviewerIdentity == Some(a.reviewer)
    && FindReviewed(r, a.candidateId).Some? && a.candidateSha == Some(CandidateSha(h, FindReviewed(r, a.candidateId).value))
    && a.recommendationSha == Some(RecommendationSha(h, r)) && a.recommendationRevision == Some(r.revision)
    && a.databaseAnchor.Some? && a.registryAnchor.Some? && a.policyAnchor.Some?
    && (a.databaseAnchor, a.registryAnchor, a.policyAnchor) == (r.databaseAnchor, r.registryAnchor, r.policyAnchor)
    && a.traceRevision.Some? && 1 <= a.traceRevision.value <= |t.entries|
    && a.traceChain == Some(ChainAt(h, t, a.traceRevision.value))
    && (if a.status == APPROVED
        then Says(t, a.traceRevision.value, "human_approval", "candidate approved",
               DecisionDetails(a.candidateId, a.reviewer, a.note, Some(a.mode)))
        else Says(t, a.traceRevision.value, "human_approval", "candidate rejected",
               DecisionDetails(a.candidateId, a.reviewer, a.note, None)))
  }

  /** A lock freezes the trace up to its own entry, digests everything it embeds, and the entry names candidate, tier,
      reviewer, mode, assumptions, warnings and the reason of an override. */
  predicate LockStored(h: Hash, r: Recommendation, t: Trace, a: Approval, id: string, l: Lock) {
    var revision := l.snapshot.traceRevision;
    && l.requestId == id && l.approval == a.(status := LOCKED) && l.approvalSha == ApprovalSha(h, a)
    && FindReviewed(r, l.candidate.candidateId) == Some(l.candidate) && a.candidateSha == Some(l.candidateSha)
    && l.candidateSha == CandidateSha(h, l.candidate) && l.recommendationSha == RecommendationSha(h, r)
    && (l.snapshot.requestId, l.snapshot.traceId) == (id, t.envelope.traceId)
    && Some(l.snapshot.databaseAnchor) == AnchorSha(h, t.envelope.databaseAnchor)
    && (l.snapshot.registryAnchor, l.snapshot.policyAnchor) == (r.registryAnchor, r.policyAnchor)
    && 1 <= revision <= |t.entries| && l.snapshot.entries == t.entries[..revision]
    && l.snapshot.traceChain == ChainAt(h, t, revision)
    && l.snapshot.sha == h(SnapshotPayload(id, l.snapshot.traceId, revision, l.snapshot.traceChain, l.snapshot.databaseAnchor,
                                           l.snapshot.registryAnchor, l.snapshot.policyAnchor, l.snapshot.entries))
    && Says(t, revision, "lock", "approved factor result locked",
            LockDetails(l.candidate.candidateId, l.reviewer, l.candidate.resultTier, a.mode, l.candidate.assumptions,
              if a.mode == REFERENCE_OVERRIDE then Some(a.note) else None, l.candidate.warnings))
  }

  ghost predicate Runs(h: Hash, s: State) {
    && s.traces.Keys == s.recommendations.Keys
    && forall id :: id in s.recommendations ==> RunStored(h, id, s.recommendations[id], s.traces[id])
  }

  ghost predicate Decisions(h: Hash, s: State) {
    forall k :: k in s.approvals ==>
      k.0 in s.recommendations && k.0 in s.traces && DecisionStored(h, s.recommendations[k.0], s.traces[k.0], k, s.approvals[k])
  }

  ghost predicate OneApproved(s: State) {
    forall k, j | k in s.approvals && j in s.approvals && k.0 == j.0 ::
      s.approvals[k].status == APPROVED && s.approvals[j].status == APPROVED ==> k == j
  }

  ghost predicate Locks(h: Hash, s: State) {
    forall id :: id in s.locked ==>
      && id in s.recommendations && id in s.traces
      && (id, s.locked[id].candidate.candidateId) in s.approvals
      && LockStored(h, s.recommendations[id], s.traces[id], s.approvals[(id, s.locked[id].candidate.candidateId)], id, s.locked[id])
  }

  /** The decisions of a locked request all precede its lock in the trace. */
  ghost predicate LockedLast(s: State) {
    forall k :: k in s.approvals && k.0 in s.locked ==>
      s.approvals[k].traceRevision.Some? && s.approvals[k].traceRevision.value < s.locked[k.0].snapshot.traceRevision
  }

  ghost predicate Guarded(h: Hash, s: State) {
    Runs(h, s) && Decisions(h, s) && OneApproved(s) && Locks(h, s) && LockedLast(s)
  }

  // ---- growth ----

  predicate Extends(t: Trace, u: Trace) {
    t.envelope == u.envelope && t.entries <= u.entries
  }

  /** Runs keep their content, traces only get entries behind, decisions and locks are written once, and nothing is
      decided after a lock. */
  ghost predicate Keeps(s: State, u: State) {
    && (forall id :: id in s.recommendations ==> id in u.recommendations && SameContent(s.recommendations[id], u.recommendations[id]))
    && (forall id :: id in s.traces ==> id in u.traces && Extends(s.traces[id], u.traces[id]))
    && (forall k :: k in s.approvals ==> k in u.approvals && u.approvals[k] == s.approvals[k])
    && (forall id :: id in s.locked ==> id in u.locked && u.locked[id] == s.locked[id])
    && (forall k :: k in u.approvals && k !in s.approvals ==> k.0 !in s.locked)
  }

  lemma KeepsReflexive(s: State)
    ensures Keeps(s, s)
  {}

  lemma KeepsTransitive(s: State, u: State, v: State)
    requires Keeps(s, u) && Keeps(u, v)
    ensures Keeps(s, v)
  {
    forall id | id in s.traces ensures id in v.traces && Extends(s.traces[id], v.traces[id]) {
      assert Extends(s.traces[id], u.traces[id]) && Extends(u.traces[id], v.traces[id]);
    }
  }

  lemma SameShas(h: Hash, r: Recommendation, q: Recommendation)
    requires SameContent(r, q)
    ensures RecommendationSha(h, r) == RecommendationSha(h, q) && q == r.(trace := q.trace)
  {
    assert r == q.(trace := r.trace) by { assert r.(trace := None).(trace := r.trace) == r; }
    assert q == r.(trace := q.trace) by { assert q.(trace := None).(trace := q.trace) == q; }
  }

  lemma SamePrefix(h: Hash, t: Trace, u: Trace, revision: int)
    requires Extends(t, u) && 1 <= revision <= |t.entries|
    ensures t.entries[..revision] == u.entries[..revision] && t.entries[revision - 1] == u.entries[revision - 1]
    ensures ChainAt(h, t, revision) == ChainAt(h, u, revision)
  {
    assert u.entries[..|t.entries|] == t.entries;
  }

  lemma DecisionKept(h: Hash, r: Recommendation, t: Trace, q: Recommendation, u: Trace, k: Key, a: Approval)
    requires SameContent(r, q) && Extends(t, u) && DecisionStored(h, r, t, k, a)
    ensures DecisionStored(h, q, u, k, a)
  {
    SameShas(h, r, q);
    SamePrefix(h, t, u, a.traceRevision.value);
  }

  lemma LockKept(h: Hash, r: Recommendation, t: Trace, q: Recommendation, u: Trace, a: Approval, id: string, l: Lock)
    requires SameContent(r, q) && Extends(t, u) && LockStored(h, r, t, a, id, l)
    ensures LockStored(h, q, u, a, id, l)
  {
    SameShas(h, r, q);
    SamePrefix(h, t, u, l.snapshot.traceRevision);
  }

  /** Runs and traces that only grow keep every decision and every lock. */
  lemma GrowthKeeps(h: Hash, s: State, u: State)
    requires Guarded(h, s) && Runs(h, u) && Keeps(s, u) && u.approvals == s.approvals && u.locked == s.locked
    ensures Guarded(h, u)
  {
    hide Runs, DecisionStored, LockStored, SameContent, Extends;
    forall k | k in u.approvals
      ensures k.0 in u.recommendations && k.0 in u.traces && DecisionStored(h, u.recommendations[k.0], u.traces[k.0], k, u.approvals[k])
    {
      DecisionKept(h, s.recommendations[k.0], s.traces[k.0], u.recommendations[k.0], u.traces[k.0], k, s.approvals[k]);
    }
    forall id | id in u.locked
      ensures id in u.recommendations && id in u.traces
      ensures (id, u.locked[id].candidate.candidateId) in u.approvals
      ensures LockStored(h, u.recommendations[id], u.traces[id], u.approvals[(id, u.locked[id].candidate.candidateId)], id, u.locked[id])
    {
      LockKept(h, s.recommendations[id], s.traces[id], u.recommendations[id], u.traces[id],
        s.approvals[(id, s.locked[id].candidate.candidateId)], id, s.locked[id]);
    }
  }

  // ---- the commits ----

  /** A new run, or a verified trace in place of one it extends. */
  predicate Writes(h: Hash, s: State, r: Recommendation, t: Trace) {
    && r.requestId == t.envelope.requestId && ChainOk(h, t)
    && if r.requestId in s.recommendations && r.requestId in s.traces
       then s.recommendations[r.requestId] == r && Extends(s.traces[r.requestId], t)
       else r.requestId !in s.recommendations && r.requestId !in s.traces
  }

  lemma WriteRuns(h: Hash, s: State, r: Recommendation, t: Trace)
    requires Runs(h, s) && Writes(h, s, r, t)
    ensures Runs(h, WithTrace(s, r, t))
  {
    hide ChainOk, Extends;
    var u := WithTrace(s, r, t);
    assert u.recommendations.Keys == u.traces.Keys == s.recommendations.Keys + {r.requestId};
    forall id | id in u.recommendations ensures RunStored(h, id, u.recommendations[id], u.traces[id]) {
      if id != r.requestId { assert RunStored(h, id, s.recommendations[id], s.traces[id]); }
    }
  }

  lemma WriteKeeps(h: Hash, s: State, r: Recommendation, t: Trace)
    requires Runs(h, s) && Writes(h, s, r, t)
    ensures Keeps(s, WithTrace(s, r, t))
  {
    hide ChainOk, RunStored;
  }

  lemma WriteTrace(h: Hash, s: State, r: Recommendation, t: Trace)
    requires Guarded(h, s) && Writes(h, s, r, t)
    ensures Guarded(h, WithTrace(s, r, t)) && Keeps(s, WithTrace(s, r, t))
  {
    hide Runs, Decisions, Locks, OneApproved, LockedLast, Keeps, Writes;
    WriteRuns(h, s, r, t);
    WriteKeeps(h, s, r, t);
    GrowthKeeps(h, s, WithTrace(s, r, t));
  }

  /** What the digests of a commit tell is what the entries say. */
  lemma Extending(h: Hash, t: Trace, u: Trace)
    requires CollisionFree(h) && ChainOk(h, t) && ChainOk(h, u) && HashPrefix(t, u)
    ensures Extends(t, u)
  {
    HashPrefixIsPrefix(h, t, u);
  }

  lemma CommitExtends(h: Hash, live: Trace, t: Trace, revision: int)
    requires CollisionFree(h) && ChainOk(h, live) && CommitTraceError(h, live, t, revision).None?
    ensures ChainOk(h, t) && Extends(live, t) && |t.entries| == |live.entries| + 1 == t.revision
  {
    assert t.entries[..|t.entries| - 1] == t.entries[..|live.entries|] by {
      assert |Hashes(t.entries[..|t.entries| - 1])| == |Hashes(live.entries)|;
    }
    Extending(h, live, t);
  }

  lemma WriteDecision(h: Hash, s: State, k: Key, a: Approval)
    requires Guarded(h, s) && k !in s.approvals && k.0 !in s.locked && k.0 in s.recommendations && k.0 in s.traces
    requires DecisionStored(h, s.recommendations[k.0], s.traces[k.0], k, a)
    requires a.status == APPROVED ==> !HasApproved(s, k.0)
    ensures Guarded(h, s.(approvals := s.approvals[k := a])) && Keeps(s, s.(approvals := s.approvals[k := a]))
  {
    hide DecisionStored, RunStored, LockStored, Keeps, HasApproved;
    DecisionsWith(h, s, k, a);
    OneApprovedWith(h, s, k, a);
    LocksWith(h, s, k, a);
    KeepsWith(s, s.(approvals := s.approvals[k := a]));
  }

  lemma LocksWith(h: Hash, s: State, k: Key, a: Approval)
    requires Locks(h, s) && k !in s.approvals
    ensures Locks(h, s.(approvals := s.approvals[k := a]))
  {
    hide LockStored;
    var u := s.(approvals := s.approvals[k := a]);
    forall id | id in u.locked
      ensures id in u.recommendations && id in u.traces && (id, u.locked[id].candidate.candidateId) in u.approvals
      ensures LockStored(h, u.recommendations[id], u.traces[id], u.approvals[(id, u.locked[id].candidate.candidateId)], id, u.locked[id])
    {
      assert (id, s.locked[id].candidate.candidateId) in s.approvals;
    }
  }

  /** Decisions and locks added to the same runs take nothing back. */
  lemma KeepsWith(s: State, u: State)
    requires u.recommendations == s.recommendations && u.traces == s.traces
    requires forall k :: k in s.approvals ==> k in u.approvals && u.approvals[k] == s.approvals[k]
    requires forall id :: id in s.locked ==> id in u.locked && u.locked[id] == s.locked[id]
    requires forall k :: k in u.approvals && k !in s.approvals ==> k.0 !in s.locked
    ensures Keeps(s, u)
  {}

  lemma DecisionsWith(h: Hash, s: State, k: Key, a: Approval)
    requires Decisions(h, s) && k.0 in s.recommendations && k.0 in s.traces
    requires DecisionStored(h, s.recommendations[k.0], s.traces[k.0], k, a)
    ensures Decisions(h, s.(approvals := s.approvals[k := a]))
  {
    hide DecisionStored;
  }

  lemma OneApprovedWith(h: Hash, s: State, k: Key, a: Approval)
    requires Decisions(h, s) && OneApproved(s) && k !in s.approvals
    requires a.status == APPROVED ==> !HasApproved(s, k.0)
    ensures OneApproved(s.(approvals := s.approvals[k := a]))
  {
    forall j | j in s.approvals && j.0 == k.0 ensures !HasApproved(s, k.0) ==> s.approvals[j].status != APPROVED {
      assert DecisionStored(h, s.recommendations[j.0], s.traces[j.0], j, s.approvals[j]);
    }
    hide DecisionStored;
  }

  lemma WriteLock(h: Hash, s: State, id: string, l: Lock)
    requires Guarded(h, s) && id !in s.locked && id in s.recommendations && id in s.traces
    requires (id, l.candidate.candidateId) in s.approvals
    requires LockStored(h, s.recommendations[id], s.traces[id], s.approvals[(id, l.candidate.candidateId)], id, l)
    requires forall k :: k in s.approvals && k.0 == id ==>
      s.approvals[k].traceRevision.Some? && s.approvals[k].traceRevision.value < l.snapshot.traceRevision
    ensures Guarded(h, s.(locked := s.locked[id := l])) && Keeps(s, s.(locked := s.locked[id := l]))
  {
    hide DecisionStored, LockStored, Keeps, RunStored, Locks, LockedLast;
    LocksAdded(h, s, id, l);
    LockedLastAdded(s, id, l);
    KeepsWith(s, s.(locked := s.locked[id := l]));
  }

  lemma LocksAdded(h: Hash, s: State, id: string, l: Lock)
    requires Locks(h, s) && id in s.recommendations && id in s.traces
    requires (id, l.candidate.candidateId) in s.approvals
    requires LockStored(h, s.recommendations[id], s.traces[id], s.approvals[(id, l.candidate.candidateId)], id, l)
    ensures Locks(h, s.(locked := s.locked[id := l]))
  {
    hide LockStored;
  }

  lemma LockedLastAdded(s: State, id: string, l: Lock)
    requires LockedLast(s)
    requires forall k :: k in s.approvals && k.0 == id ==>
      s.approvals[k].traceRevision.Some? && s.approvals[k].traceRevision.value < l.snapshot.traceRevision
    ensures LockedLast(s.(locked := s.locked[id := l]))
  {}

  lemma RunCall(h: Hash, s: State, r: Recommendation, t: Trace)
    requires Guarded(h, s)
    ensures Guarded(h, SaveRunSpec(h, s, r, t).0) && Keeps(s, SaveRunSpec(h, s, r, t).0)
  {
    hide Guarded, Keeps, ChainOk, WithTrace;
    KeepsReflexive(s);
    if SaveRunSpec(h, s, r, t).1.Ok? { WriteTrace(h, s, r, t); }
  }

  lemma Stored(h: Hash, s: State, id: string)
    requires Guarded(h, s) && (id in s.recommendations || id in s.traces)
    ensures id in s.recommendations && id in s.traces && RunStored(h, id, s.recommendations[id], s.traces[id])
  {
    assert id in s.recommendations.Keys && id in s.traces.Keys;
  }

  lemma TraceCall(h: Hash, s: State, t: Trace)
    requires CollisionFree(h) && Guarded(h, s)
    ensures Guarded(h, SaveTraceSpec(h, s, t).0) && Keeps(s, SaveTraceSpec(h, s, t).0)
  {
    hide Guarded, Keeps, ChainOk, WithTrace, HashPrefix, CollisionFree, Extends;
    KeepsReflexive(s);
    if SaveTraceSpec(h, s, t).1.Ok? {
      var id := t.envelope.requestId;
      Stored(h, s, id);
      Extending(h, s.traces[id], t);
      WriteTrace(h, s, s.recommendations[id], t);
    }
  }

  lemma DecisionCall(h: Hash, s: State, a: Approval, t: Trace, sha: Digest, revision: int)
    requires CollisionFree(h) && Guarded(h, s)
    ensures var u := SaveApprovalSpec(h, s, a, t, sha, revision).0; Guarded(h, u) && Keeps(s, u)
  {
    hide Guarded, Keeps, NewApprovalError, CollisionFree, WithTrace;
    KeepsReflexive(s);
    var (u, result) := SaveApprovalSpec(h, s, a, t, sha, revision);
    var key := (a.requestId, a.candidateId);
    if result.Ok? && key !in s.approvals {
      var r, live := s.recommendations[a.requestId], s.traces[a.requestId];
      Stored(h, s, a.requestId);
      NewDecision(h, s, r, live, a, t, sha, revision);
      hide ChainOk, MatchesDecision, SameStableBindings, RecommendationSha;
      WriteTrace(h, s, r, t);
      var v := WithTrace(s, r, t);
      SameApprovals(s, r, t, a.requestId);
      SameRun(r, t);
      DecisionKept(h, r, t, r.(trace := Some(t)), t, key, a);
      WriteDecision(h, v, key, a);
      KeepsTransitive(s, v, u);
    }
  }

  lemma SameApprovals(s: State, r: Recommendation, t: Trace, id: string)
    ensures var v := WithTrace(s, r, t);
            && v.approvals == s.approvals && v.locked == s.locked && HasApproved(v, id) == HasApproved(s, id)
            && t.envelope.requestId in v.recommendations && t.envelope.requestId in v.traces
            && v.recommendations[t.envelope.requestId] == r.(trace := Some(t)) && v.traces[t.envelope.requestId] == t
            && v == s.(recommendations := v.recommendations, traces := v.traces)
  {}

  lemma SameRun(r: Recommendation, t: Trace)
    ensures SameContent(r, r.(trace := Some(t))) && Extends(t, t)
  {}

  lemma NewDecision(h: Hash, s: State, r: Recommendation, live: Trace, a: Approval, t: Trace, sha: Digest, revision: int)
    requires CollisionFree(h) && RunStored(h, a.requestId, r, live)
    requires NewApprovalError(h, s, r, live, a, t, sha, revision).None?
    ensures a.requestId !in s.locked && (a.status == APPROVED ==> !HasApproved(s, a.requestId))
    ensures ChainOk(h, t) && Extends(live, t) && t.envelope.requestId == a.requestId
    ensures DecisionStored(h, r, t, (a.requestId, a.candidateId), a) && a.traceRevision == Some(|t.entries|)
    ensures RecommendationSha(h, r) == sha
  {
    hide HasApproved;
    CommitExtends(h, live, t, revision);
    hide CollisionFree, CommitTraceError, Extends, ChainOk, ChainAt, FindReviewed, CandidateSha, RecommendationSha;
  }

  lemma LockCall(h: Hash, s: State, l: Lock, t: Trace, sha: Digest, revision: int)
    requires CollisionFree(h) && Guarded(h, s)
    ensures var u := SaveLockedSpec(h, s, l, t, sha, revision).0; Guarded(h, u) && Keeps(s, u)
  {
    hide Guarded, Keeps, NewLockError, CollisionFree, WithTrace;
    KeepsReflexive(s);
    var (u, result) := SaveLockedSpec(h, s, l, t, sha, revision);
    if result.Ok? && l.requestId !in s.locked {
      var id := l.requestId;
      var r, live := s.recommendations[id], s.traces[id];
      Stored(h, s, id);
      NewLock(h, s, r, live, l, t, sha, revision);
      var v := WithTrace(s, r, t);
      hide ChainOk, RecommendationSha;
      WriteTrace(h, s, r, t);
      SameApprovals(s, r, t, id);
      SameRun(r, t);
      LockKept(h, r, t, r.(trace := Some(t)), t, s.approvals[(id, l.candidate.candidateId)], id, l);
      DecidedEarlier(h, s, id, l);
      WriteLock(h, v, id, l);
      KeepsTransitive(s, v, u);
    }
  }

  lemma DecidedEarlier(h: Hash, s: State, id: string, l: Lock)
    requires Guarded(h, s) && id in s.traces && l.snapshot.traceRevision == |s.traces[id].entries| + 1
    ensures forall k :: k in s.approvals && k.0 == id ==>
      s.approvals[k].traceRevision.Some? && s.approvals[k].traceRevision.value < l.snapshot.traceRevision
  {
    forall k | k in s.approvals && k.0 == id
      ensures s.approvals[k].traceRevision.Some? && s.approvals[k].traceRevision.value < l.snapshot.traceRevision
    {
      assert DecisionStored(h, s.recommendations[k.0], s.traces[k.0], k, s.approvals[k]);
    }
  }

  lemma NewLock(h: Hash, s: State, r: Recommendation, live: Trace, l: Lock, t: Trace, sha: Digest, revision: int)
    requires CollisionFree(h) && RunStored(h, l.requestId, r, live)
    requires NewLockError(h, s, r, live, l, t, sha, revision).None?
    ensures (l.requestId, l.candidate.candidateId) in s.approvals && l.snapshot.traceRevision == |live.entries| + 1
    ensures ChainOk(h, t) && Extends(live, t) && t.envelope.requestId == l.requestId
    ensures LockStored(h, r, t, s.approvals[(l.requestId, l.candidate.candidateId)], l.requestId, l)
    ensures RecommendationSha(h, r) == sha
  {
    hide LockStored;
    NoLockCommitError(h, s, r, live, l, t, sha, revision);
    CommitExtends(h, live, t, revision);
    BoundLock(h, s, r, live, l, t, sha, revision);
    hide CollisionFree, CommitTraceError, Extends, ChainOk, FindReviewed, CandidateSha, RecommendationSha, ApprovalSha, NewLockError;
  }

  lemma BoundLock(h: Hash, s: State, r: Recommendation, live: Trace, l: Lock, t: Trace, sha: Digest, revision: int)
    requires NewLockError(h, s, r, live, l, t, sha, revision).None? && t.envelope.requestId == l.requestId
    ensures (l.requestId, l.candidate.candidateId) in s.approvals && l.snapshot.traceRevision == t.revision == |t.entries|
    ensures LockStored(h, r, t, s.approvals[(l.requestId, l.candidate.candidateId)], l.requestId, l)
    ensures RecommendationSha(h, r) == sha
  {
    NoLockCommitError(h, s, r, live, l, t, sha, revision);
    assert ChainOk(h, t) && 1 <= t.revision;
    assert t.entries[..t.revision] == t.entries;
    hide CommitTraceError, ChainAt, ChainOk, FindReviewed, CandidateSha, RecommendationSha, ApprovalSha, AnchorSha;
  }

  // ---- every caller ----

  lemma CallGuarded(h: Hash, s: State, call: StoreCall)
    requires CollisionFree(h) && Guarded(h, s)
    ensures Guarded(h, Called(h, s, call)) && Keeps(s, Called(h, s, call))
  {
    hide Guarded, Keeps, CollisionFree, SaveRunSpec, SaveTraceSpec, SaveApprovalSpec, SaveLockedSpec;
    match call
    case SaveRun(r, t) => RunCall(h, s, r, t);
    case SaveTrace(t) => TraceCall(h, s, t);
    case SaveDecision(a, t, sha, revision) => DecisionCall(h, s, a, t, sha, revision);
    case SaveLock(l, t, sha, revision) => LockCall(h, s, l, t, sha, revision);
  }

  /** Whatever is called, in whatever order: every stored decision and every lock is bound to its run and spelled out by
      its own entry of the trace, a request has at most one approved candidate, and its lock comes last. */
  lemma {:induction false} AlwaysGuarded(h: Hash, calls: seq<StoreCall>)
    requires CollisionFree(h)
    ensures Guarded(h, After(h, calls))
  {
    if calls == [] {
      assert Guarded(h, EMPTY);
    } else {
      hide Guarded, Called, CollisionFree;
      AlwaysGuarded(h, calls[..|calls| - 1]);
      CallGuarded(h, After(h, calls[..|calls| - 1]), calls[|calls| - 1]);
    }
  }

  /** And no call ever takes back what an earlier one stored. */
  lemma {:induction false} AlwaysKept(h: Hash, calls: seq<StoreCall>, n: nat)
    requires CollisionFree(h) && n <= |calls|
    ensures Keeps(After(h, calls[..n]), After(h, calls))
    decreases |calls|
  {
    hide Guarded, Called, CollisionFree, Keeps;
    if n == |calls| {
      assert calls[..n] == calls;
      KeepsReflexive(After(h, calls));
    } else {
      var front := calls[..|calls| - 1];
      AlwaysGuarded(h, front);
      AlwaysKept(h, front, n);
      assert front[..n] == calls[..n];
      CallGuarded(h, After(h, front), calls[|calls| - 1]);
      KeepsTransitive(After(h, calls[..n]), After(h, front), After(h, calls));
    }
  }

  // ---- what is accepted ----

  lemma ExtendsByHashes(live: Trace, t: Trace)
    requires Extends(live, t)
    ensures HashPrefix(live, t)
    ensures |t.entries| == |live.entries| + 1 ==> Hashes(t.entries[..|t.entries| - 1]) == Hashes(live.entries)
  {
    assert t.entries[..|live.entries|] == live.entries;
  }

  /** A stored trace is replaced exactly by verified traces that add entries behind it. */
  lemma TraceAcceptedIff(h: Hash, s: State, t: Trace)
    requires CollisionFree(h) && Guarded(h, s)
    ensures var id := t.envelope.requestId;
            SaveTraceSpec(h, s, t).1.Ok? <==> id in s.recommendations && id in s.traces && ChainOk(h, t) && Extends(s.traces[id], t)
  {
    hide Guarded, CollisionFree, WithTrace;
    var id := t.envelope.requestId;
    if id in s.recommendations {
      Stored(h, s, id);
      var live := s.traces[id];
      if Extends(live, t) { ExtendsByHashes(live, t); }
      if ChainOk(h, t) && HashPrefix(live, t) { Extending(h, live, t); }
    }
  }

  /** The next entry: t is the verified live trace with one more entry. */
  predicate AddsOne(h: Hash, live: Trace, t: Trace) {
    ChainOk(h, t) && Extends(live, t) && |t.entries| == |live.entries| + 1
  }

  lemma CommitIff(h: Hash, live: Trace, t: Trace, revision: int)
    requires CollisionFree(h) && ChainOk(h, live) && live.revision == revision
    ensures CommitTraceError(h, live, t, revision).None? <==> AddsOne(h, live, t)
  {
    if CommitTraceError(h, live, t, revision).None? { CommitExtends(h, live, t, revision); }
    if AddsOne(h, live, t) { ExtendsByHashes(live, t); }
  }

  ghost predicate NobodyApproved(s: State, id: string) {
    forall k :: k in s.approvals && k.0 == id ==> s.approvals[k].status != APPROVED
  }

  lemma NobodyIff(h: Hash, s: State, id: string)
    requires Guarded(h, s)
    ensures NobodyApproved(s, id) <==> !HasApproved(s, id)
  {
    forall k | k in s.approvals ensures s.approvals[k].requestId == k.0 {
      assert DecisionStored(h, s.recommendations[k.0], s.traces[k.0], k, s.approvals[k]);
    }
    hide DecisionStored;
  }

  /** A first decision is stored exactly when the caller saw the live run and trace, adds one entry to it, the request is
      neither locked nor, for an approval, approved already, and the decision is what the guard asks for. */
  lemma DecisionAcceptedIff(h: Hash, s: State, a: Approval, t: Trace, sha: Digest, revision: int)
    requires CollisionFree(h) && Guarded(h, s) && (a.requestId, a.candidateId) !in s.approvals
    ensures SaveApprovalSpec(h, s, a, t, sha, revision).1.Ok? <==>
      && a.requestId in s.recommendations && a.requestId in s.traces
      && s.traces[a.requestId].revision == revision && RecommendationSha(h, s.recommendations[a.requestId]) == sha
      && AddsOne(h, s.traces[a.requestId], t)
      && a.requestId !in s.locked && (a.status == APPROVED ==> NobodyApproved(s, a.requestId))
      && DecisionStored(h, s.recommendations[a.requestId], t, (a.requestId, a.candidateId), a)
      && a.traceRevision == Some(|t.entries|)
  {
    hide Guarded, CollisionFree, WithTrace, NewApprovalError, DecisionStored, AddsOne, RecommendationSha;
    if a.requestId in s.recommendations && a.requestId in s.traces {
      Stored(h, s, a.requestId);
      NobodyIff(h, s, a.requestId);
      NewDecisionIff(h, s, s.recommendations[a.requestId], s.traces[a.requestId], a, t, sha, revision);
    }
  }

  /** A repeated decision is answered with the stored one exactly when the caller saw the live trace and decides alike, on
      the same candidate, recommendation and anchors; in any case nothing changes. */
  lemma ReplayAcceptedIff(h: Hash, s: State, a: Approval, t: Trace, sha: Digest, revision: int)
    requires Guarded(h, s) && (a.requestId, a.candidateId) in s.approvals
    ensures var b := s.approvals[(a.requestId, a.candidateId)];
            && SaveApprovalSpec(h, s, a, t, sha, revision).0 == s
            && (SaveApprovalSpec(h, s, a, t, sha, revision).1.Ok? ==> SaveApprovalSpec(h, s, a, t, sha, revision).1.value == b)
            && (SaveApprovalSpec(h, s, a, t, sha, revision).1.Ok? <==>
                && a.requestId in s.traces && s.traces[a.requestId].revision == revision
                && a.status == b.status && a.reviewer == b.reviewer && a.note == b.note && a.mode == b.mode
                && a.candidateSha == b.candidateSha && a.recommendationSha == b.recommendationSha
                && a.recommendationRevision == b.recommendationRevision
                && a.databaseAnchor == b.databaseAnchor && a.registryAnchor == b.registryAnchor && a.policyAnchor == b.policyAnchor)
  {
    hide Guarded, NewApprovalError, WithTrace, RecommendationSha;
    StoredDecision(h, s, (a.requestId, a.candidateId));
  }

  lemma StoredDecision(h: Hash, s: State, k: Key)
    requires Guarded(h, s) && k in s.approvals
    ensures k.0 in s.recommendations && k.0 in s.traces && s.approvals[k].reviewerIdentity == Some(s.approvals[k].reviewer)
  {
    assert DecisionStored(h, s.recommendations[k.0], s.traces[k.0], k, s.approvals[k]);
    hide ChainAt, RecommendationSha, CandidateSha, FindReviewed, ChainOk, Says;
  }

  lemma NewDecisionIff(h: Hash, s: State, r: Recommendation, live: Trace, a: Approval, t: Trace, sha: Digest, revision: int)
    requires CollisionFree(h) && RunStored(h, a.requestId, r, live)
    ensures live.revision == revision ==>
      (NewApprovalError(h, s, r, live, a, t, sha, revision).None? <==>
        && RecommendationSha(h, r) == sha && AddsOne(h, live, t)
        && a.requestId !in s.locked && (a.status == APPROVED ==> !HasApproved(s, a.requestId))
        && DecisionStored(h, r, t, (a.requestId, a.candidateId), a) && a.traceRevision == Some(|t.entries|))
  {
    hide HasApproved, CollisionFree, DecisionStored, RunStored, NewApprovalError, RecommendationSha, AddsOne;
    if live.revision == revision {
      LiveChain(h, a.requestId, r, live);
      CommitIff(h, live, t, revision);
      if NewApprovalError(h, s, r, live, a, t, sha, revision).None? {
        NewDecision(h, s, r, live, a, t, sha, revision);
        NoCommitError(h, s, r, live, a, t, sha, revision);
      } else if CommitTraceError(h, live, t, revision).None? && RecommendationSha(h, r) == sha {
        RefusedDecision(h, s, r, live, a, t, sha, revision);
      }
    }
  }

  lemma LiveChain(h: Hash, id: string, r: Recommendation, live: Trace)
    requires RunStored(h, id, r, live)
    ensures ChainOk(h, live) && live.envelope.requestId == id
  {}

  lemma NoCommitError(h: Hash, s: State, r: Recommendation, live: Trace, a: Approval, t: Trace, sha: Digest, revision: int)
    requires NewApprovalError(h, s, r, live, a, t, sha, revision).None?
    ensures CommitTraceError(h, live, t, revision).None?
  {
    hide HasApproved, CommitTraceError, ApprovalBindings, RecommendationSha;
  }

  lemma RefusedDecision(h: Hash, s: State, r: Recommendation, live: Trace, a: Approval, t: Trace, sha: Digest, revision: int)
    requires CommitTraceError(h, live, t, revision).None? && RecommendationSha(h, r) == sha
    requires NewApprovalError(h, s, r, live, a, t, sha, revision).Some?
    ensures !(&& a.requestId !in s.locked && (a.status == APPROVED ==> !HasApproved(s, a.requestId))
              && DecisionStored(h, r, t, (a.requestId, a.candidateId), a) && a.traceRevision == Some(|t.entries|))
  {
    assert t.revision == |t.entries|;
    hide HasApproved, CommitTraceError, ChainAt, FindReviewed, CandidateSha, RecommendationSha;
  }

  /** A first lock is stored exactly when the caller saw the live run and trace, adds one entry to it, and the lock is
      what the guard asks for, of the decision stored for its candidate. That the decision is an approval is not asked. */
  lemma LockAcceptedIff(h: Hash, s: State, l: Lock, t: Trace, sha: Digest, revision: int)
    requires CollisionFree(h) && Guarded(h, s) && l.requestId !in s.locked
    ensures SaveLockedSpec(h, s, l, t, sha, revision).1.Ok? <==>
      && l.requestId in s.recommendations && l.requestId in s.traces
      && s.traces[l.requestId].revision == revision && RecommendationSha(h, s.recommendations[l.requestId]) == sha
      && AddsOne(h, s.traces[l.requestId], t)
      && (l.requestId, l.candidate.candidateId) in s.approvals
      && LockStored(h, s.recommendations[l.requestId], t, s.approvals[(l.requestId, l.candidate.candidateId)], l.requestId, l)
      && l.snapshot.traceRevision == |t.entries|
  {
    hide Guarded, CollisionFree, WithTrace, NewLockError, LockStored, AddsOne, RecommendationSha;
    if l.requestId in s.recommendations && l.requestId in s.traces {
      Stored(h, s, l.requestId);
      NewLockIff(h, s, s.recommendations[l.requestId], s.traces[l.requestId], l, t, sha, revision);
    }
  }

  lemma NewLockIff(h: Hash, s: State, r: Recommendation, live: Trace, l: Lock, t: Trace, sha: Digest, revision: int)
    requires CollisionFree(h) && RunStored(h, l.requestId, r, live)
    ensures live.revision == revision ==>
      (NewLockError(h, s, r, live, l, t, sha, revision).None? <==>
        && RecommendationSha(h, r) == sha && AddsOne(h, live, t)
        && (l.requestId, l.candidate.candidateId) in s.approvals
        && LockStored(h, r, t, s.approvals[(l.requestId, l.candidate.candidateId)], l.requestId, l)
        && l.snapshot.traceRevision == |t.entries|)
  {
    hide CollisionFree, LockStored, RunStored, NewLockError, RecommendationSha, AddsOne;
    if live.revision == revision {
      LiveChain(h, l.requestId, r, live);
      CommitIff(h, live, t, revision);
      if NewLockError(h, s, r, live, l, t, sha, revision).None? {
        NewLock(h, s, r, live, l, t, sha, revision);
        NoLockCommitError(h, s, r, live, l, t, sha, revision);
      } else if CommitTraceError(h, live, t, revision).None? && RecommendationSha(h, r) == sha {
        RefusedLock(h, s, r, live, l, t, sha, revision);
      }
    }
  }

  lemma NoLockCommitError(h: Hash, s: State, r: Recommendation, live: Trace, l: Lock, t: Trace, sha: Digest, revision: int)
    requires NewLockError(h, s, r, live, l, t, sha, revision).None?
    ensures CommitTraceError(h, live, t, revision).None?
  {
    hide CommitTraceError, ChainAt, ChainOk, RecommendationSha, SnapshotOf, FindReviewed, ApprovalSha, CandidateSha;
  }

  lemma RefusedLock(h: Hash, s: State, r: Recommendation, live: Trace, l: Lock, t: Trace, sha: Digest, revision: int)
    requires CommitTraceError(h, live, t, revision).None? && RecommendationSha(h, r) == sha
    requires live.envelope.requestId == l.requestId && NewLockError(h, s, r, live, l, t, sha, revision).Some?
    ensures !(&& (l.requestId, l.candidate.candidateId) in s.approvals
              && LockStored(h, r, t, s.approvals[(l.requestId, l.candidate.candidateId)], l.requestId, l)
              && l.snapshot.traceRevision == |t.entries|)
  {
    assert ChainOk(h, t) && t.revision == |t.entries| && t.envelope == live.envelope;
    assert t.entries[..t.revision] == t.entries;
    hide CommitTraceError, ChainOk, ChainAt, FindReviewed, CandidateSha, RecommendationSha, ApprovalSha;
  }
}
