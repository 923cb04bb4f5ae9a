/** InMemoryResolutionStore (adapters.py): the compare-and-set commits and their specification. Each
    method body runs without interruption, under the approval lock or without any await. */
module Store {
  import opened Prelude
  import opened Models
  import opened Records

  type Key = (string, string)

  datatype State = State(
    recommendations: map<string, Recommendation>,
    traces: map<string, Trace>,
    approvals: map<Key, Approval>,
    locked: map<string, Lock>)

  const EMPTY := State(map[], map[], map[], map[])

  // ---- what each commit does to the state ----

  /** Both places a trace is stored, replaced together. */
  function WithTrace(s: State, r: Recommendation, t: Trace): State {
    s.(recommendations := s.recommendations[t.envelope.requestId := r.(trace := Some(t))],
       traces := s.traces[t.envelope.requestId := t])
  }

  function SaveRunSpec(h: Hash, s: State, r: Recommendation, t: Trace): (State, Result<()>) {
    if r.requestId != t.envelope.requestId then (s, Err(ValueError("recommendation and trace must belong to the same request")))
    else if r.requestId in s.recommendations || r.requestId in s.traces then (s, Err(ValueError("duplicate request_id")))
    else if !ChainOk(h, t) then (s, Err(IntegrityError("trace hash chain is invalid")))
    else (WithTrace(s, r, t), Ok(()))
  }

  function SaveTraceSpec(h: Hash, s: State, t: Trace): (State, Result<()>) {
    var id := t.envelope.requestId;
    if id !in s.recommendations || id !in s.traces then (s, Err(ValueError("no resolution run")))
    else if !ChainOk(h, t) then (s, Err(IntegrityError("trace hash chain is invalid")))
    else if t.envelope != s.traces[id].envelope then (s, Err(IntegrityError("trace envelope is immutable")))
    else if t.revision < s.traces[id].revision then (s, Err(ValueError("trace revision cannot move backwards")))
    else if !HashPrefix(s.traces[id], t) then (s, Err(ValueError("trace history is append-only")))
    else (WithTrace(s, s.recommendations[id], t), Ok(()))
  }

  /** t is the stored trace with one entry added, as far as its hashes tell. */
  predicate ExtendsByOne(current: Trace, t: Trace, revision: int) {
    && t.revision == revision + 1
    && t.entries != []
    && Hashes(t.entries[..|t.entries| - 1]) == Hashes(current.entries)
  }

  function CommitTraceError(h: Hash, current: Trace, t: Trace, revision: int): Option<Error> {
    if !ChainOk(h, t) then Some(IntegrityError("trace hash chain is invalid"))
    else if t.envelope != current.envelope then Some(IntegrityError("trace envelope cannot be replaced"))
    else if !ExtendsByOne(current, t, revision) then Some(IntegrityError("commit must append exactly one trace event"))
    else None
  }

  function DecisionMessage(a: Approval): string {
    if a.status == APPROVED then "candidate approved" else "candidate rejected"
  }

  function DecisionDetailsOf(a: Approval): Details {
    DecisionDetails(a.candidateId, a.reviewer, a.note, if a.status == APPROVED then Some(a.mode) else None)
  }

  predicate HasApproved(s: State, requestId: string) {
    exists k :: k in s.approvals && s.approvals[k].requestId == requestId && s.approvals[k].status == APPROVED
  }

  predicate ApprovalBindings(h: Hash, r: Recommendation, t: Trace, a: Approval)
    requires 0 <= t.revision <= |t.entries|
  {
    && FindReviewed(r, a.candidateId).Some?
    && a.candidateSha == Some(CandidateSha(h, FindReviewed(r, a.candidateId).value))
    && a.recommendationSha == Some(RecommendationSha(h, r))
    && a.recommendationRevision == Some(r.revision)
    && a.databaseAnchor == r.databaseAnchor && a.registryAnchor == r.registryAnchor && a.policyAnchor == r.policyAnchor
    && a.traceRevision == Some(t.revision)
    && a.traceChain == Some(ChainAt(h, t, t.revision))
  }

  /** The checks after the compare-and-set and the replay test of save_approval. */
  function NewApprovalError(h: Hash, s: State, r: Recommendation, current: Trace, a: Approval, t: Trace,
                            expectedSha: Digest, expectedRevision: int): Option<Error> {
    if a.requestId in s.locked then Some(ConflictError("locked resolution cannot be changed"))
    else if RecommendationSha(h, r) != expectedSha then Some(ConflictError("recommendation changed before approval commit"))
    else if CommitTraceError(h, current, t, expectedRevision).Some? then CommitTraceError(h, current, t, expectedRevision)
    else if a.status != APPROVED && a.status != REJECTED then Some(ConflictError("only terminal decisions can be persisted"))
    else if a.status == REJECTED && a.mode != STANDARD then Some(ConflictError("rejected decisions require standard mode"))
    else if a.status == APPROVED && HasApproved(s, a.requestId) then Some(ConflictError("request already has an approved candidate"))
    else if !IntegrityBound(a) then Some(IntegrityError("legacy approval cannot be persisted"))
    else
      var event := t.entries[|t.entries| - 1];
      if event.stage != "human_approval" || event.message != DecisionMessage(a) || event.details != DecisionDetailsOf(a)
         || a.reviewerIdentity != Some(a.reviewer)
      then Some(IntegrityError("approval decision does not match its trace event"))
      else if !ApprovalBindings(h, r, t, a) then Some(IntegrityError("approval bindings do not match"))
      else None
  }

  function SaveApprovalSpec(h: Hash, s: State, a: Approval, t: Trace, expectedSha: Digest, expectedRevision: int)
    : (State, Result<Approval>)
  {
    var key := (a.requestId, a.candidateId);
    if a.requestId !in s.recommendations || a.requestId !in s.traces then
      (s, Err(ConflictError("approval requires an existing resolution run")))
    else
      var r, current := s.recommendations[a.requestId], s.traces[a.requestId];
      if current.revision != expectedRevision then (s, Err(StaleError("trace revision changed before approval commit")))
      else if key in s.approvals then
        var existing := s.approvals[key];
        if !MatchesDecision(existing, a.status, a.reviewer, a.note, a.mode) then
          (s, Err(ConflictError("candidate already has a different terminal human decision")))
        else if SameStableBindings(existing, a) then (s, Ok(existing))
        else (s, Err(IntegrityError("replayed decision bindings do not match committed state")))
      else
        match NewApprovalError(h, s, r, current, a, t, expectedSha, expectedRevision)
        case Some(e) => (s, Err(e))
        case None => (WithTrace(s, r, t).(approvals := s.approvals[key := a]), Ok(a))
  }

  function LockDetailsOf(candidate: Candidate, reviewer: string, mode: ApprovalMode, note: string): Details {
    LockDetails(candidate.candidateId, reviewer, candidate.resultTier, mode, candidate.assumptions,
      if mode == REFERENCE_OVERRIDE then Some(note) else None, candidate.warnings)
  }

  /** The checks after the compare-and-set and the replay test of save_locked. Whether the stored approval is
      APPROVED is not among them. */
  function NewLockError(h: Hash, s: State, r: Recommendation, current: Trace, l: Lock, t: Trace,
                        expectedSha: Digest, expectedRevision: int): Option<Error> {
    var key := (l.requestId, l.candidate.candidateId);
    if RecommendationSha(h, r) != expectedSha then Some(ConflictError("recommendation changed before lock commit"))
    else if CommitTraceError(h, current, t, expectedRevision).Some? then CommitTraceError(h, current, t, expectedRevision)
    else if key !in s.approvals || ApprovalSha(h, s.approvals[key]) != l.approvalSha then
      Some(IntegrityError("approval changed before lock commit"))
    else if l.approval != s.approvals[key].(status := LOCKED) then
      Some(IntegrityError("lock embeds an approval different from the stored approval"))
    else
      var approval := s.approvals[key];
      var canonical := FindReviewed(r, l.candidate.candidateId);
      if canonical != Some(l.candidate) || Some(CandidateSha(h, l.candidate)) != approval.candidateSha then
        Some(IntegrityError("lock candidate differs from the approved recommendation candidate"))
      else
        var snapshot := SnapshotOf(h, t, r.registryAnchor, r.policyAnchor);
        if snapshot.Err? then Some(snapshot.error)
        else
          var event := t.entries[|t.entries| - 1];
          if l.candidateSha != CandidateSha(h, l.candidate)
             || l.recommendationSha != RecommendationSha(h, r)
             || l.snapshot != snapshot.value
             || event.stage != "lock" || event.message != "approved factor result locked"
             || event.details != LockDetailsOf(l.candidate, l.reviewer, approval.mode, approval.note)
          then Some(IntegrityError("lock bindings do not match committed state"))
          else None
  }

  function SaveLockedSpec(h: Hash, s: State, l: Lock, t: Trace, expectedSha: Digest, expectedRevision: int)
    : (State, Result<Lock>)
  {
    if l.requestId !in s.recommendations || l.requestId !in s.traces then
      (s, Err(ConflictError("lock requires an existing resolution run")))
    else
      var r, current := s.recommendations[l.requestId], s.traces[l.requestId];
      if current.revision != expectedRevision then (s, Err(StaleError("trace revision changed before lock commit")))
      else if l.requestId in s.locked then
        if s.locked[l.requestId].candidate.candidateId == l.candidate.candidateId then (s, Ok(s.locked[l.requestId]))
        else (s, Err(ConflictError("resolution is already locked and immutable")))
      else
        match NewLockError(h, s, r, current, l, t, expectedSha, expectedRevision)
        case Some(e) => (s, Err(e))
        case None => (WithTrace(s, r, t).(locked := s.locked[l.requestId := l]), Ok(l))
  }

  // ---- the store itself ----

  class InMemoryResolutionStore {
    const h: Hash
    var recommendations: map<string, Recommendation>
    var traces: map<string, Trace>
    var approvals: map<Key, Approval>
    var locked: map<string, Lock>

    constructor (h: Hash)
      ensures this.h == h && Value() == EMPTY
    {
      this.h := h;
      recommendations, traces, approvals, locked := map[], map[], map[], map[];
    }

    function Value(): State
      reads this
    {
      State(recommendations, traces, approvals, locked)
    }

    method SaveResolutionRun(recommendation: Recommendation, trace: Trace) returns (result: Result<()>)
      modifies this
      ensures (Value(), result) == SaveRunSpec(h, old(Value()), recommendation, trace)
    {
      if recommendation.requestId != trace.envelope.requestId {
        return Err(ValueError("recommendation and trace must belong to the same request"));
      }
      if recommendation.requestId in recommendations || recommendation.requestId in traces {
        return Err(ValueError("duplicate request_id"));
      }
      if !ChainOk(h, trace) {
        return Err(IntegrityError("trace hash chain is invalid"));
      }
      StoreTrace(recommendation, trace);
      result := Ok(());
    }

    /** The two assignments every commit ends with. */
    method StoreTrace(recommendation: Recommendation, trace: Trace)
      modifies this`recommendations, this`traces
      ensures Value() == WithTrace(old(Value()), recommendation, trace)
    {
      traces := traces[trace.envelope.requestId := trace];
      recommendations := recommendations[trace.envelope.requestId := recommendation.(trace := Some(trace))];
    }

    method SaveTrace(trace: Trace) returns (result: Result<()>)
      modifies this
      ensures (Value(), result) == SaveTraceSpec(h, old(Value()), trace)
    {
      var id := trace.envelope.requestId;
      if id !in recommendations || id !in traces {
        return Err(ValueError("no resolution run"));
      }
      if !ChainOk(h, trace) {
        return Err(IntegrityError("trace hash chain is invalid"));
      }
      var current := traces[id];
      if trace.envelope != current.envelope {
        return Err(IntegrityError("trace envelope is immutable"));
      }
      if trace.revision < current.revision {
        return Err(ValueError("trace revision cannot move backwards"));
      }
      if !HashPrefix(current, trace) {
        return Err(ValueError("trace history is append-only"));
      }
      StoreTrace(recommendations[id], trace);
      result := Ok(());
    }

    method SaveApproval(approval: Approval, trace: Trace, expectedSha: Digest, expectedRevision: int)
      returns (result: Result<Approval>)
      modifies this
      ensures (Value(), result) == SaveApprovalSpec(h, old(Value()), approval, trace, expectedSha, expectedRevision)
    {
      var key := (approval.requestId, approval.candidateId);
      if approval.requestId !in recommendations || approval.requestId !in traces {
        return Err(ConflictError("approval requires an existing resolution run"));
      }
      var recommendation, current := recommendations[approval.requestId], traces[approval.requestId];
      if current.revision != expectedRevision {
        return Err(StaleError("trace revision changed before approval commit"));
      }
      if key in approvals {
        var existing := approvals[key];
        if !MatchesDecision(existing, approval.status, approval.reviewer, approval.note, approval.mode) {
          return Err(ConflictError("candidate already has a different terminal human decision"));
        }
        if SameStableBindings(existing, approval) {
          return Ok(existing);
        }
        return Err(IntegrityError("replayed decision bindings do not match committed state"));
      }
      var error := NewApprovalError(h, Value(), recommendation, current, approval, trace, expectedSha, expectedRevision);
      if error.Some? {
        return Err(error.value);
      }
      approvals := approvals[key := approval];
      StoreTrace(recommendation, trace);
      result := Ok(approval);
    }

    method SaveLocked(lock: Lock, trace: Trace, expectedSha: Digest, expectedRevision: int)
      returns (result: Result<Lock>)
      modifies this
      ensures (Value(), result) == SaveLockedSpec(h, old(Value()), lock, trace, expectedSha, expectedRevision)
    {
      if lock.requestId !in recommendations || lock.requestId !in traces {
        return Err(ConflictError("lock requires an existing resolution run"));
      }
      var recommendation, current := recommendations[lock.requestId], traces[lock.requestId];
      if current.revision != expectedRevision {
        return Err(StaleError("trace revision changed before lock commit"));
      }
      if lock.requestId in locked {
        var existing := locked[lock.requestId];
        if existing.candidate.candidateId == lock.candidate.candidateId {
          return Ok(existing);
        }
        return Err(ConflictError("resolution is already locked and immutable"));
      }
      var error := NewLockError(h, Value(), recommendation, current, lock, trace, expectedSha, expectedRevision);
      if error.Some? {
        return Err(error.value);
      }
      locked := locked[lock.requestId := lock];
      StoreTrace(recommendation, trace);
      result := Ok(lock);
    }
  }
}
