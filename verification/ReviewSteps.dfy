/** Every suspended review task agrees with the store, and every step keeps it so. */
module ReviewSteps {
  import opened Prelude
  import opened Models
  import opened Records
  import opened Store
  import opened Review
  import opened ReviewInvariant
  import Derivation

  // ---- what a suspended task may rely on ----

  predicate DecisionOk(s: State, d: Decision) {
    var id := d.recommendation.requestId;
    && id in s.recommendations && id in s.traces
    && SameContent(d.recommendation, s.recommendations[id])
    && (d.status == APPROVED || d.status == REJECTED)
    && (d.status == REJECTED ==> d.mode == STANDARD)
    && FindReviewed(d.recommendation, d.candidate.candidateId) == Some(d.candidate)
    && (d.status == APPROVED ==> ApproveChecks(d.recommendation, d.candidate.candidateId, d.note, d.mode).Ok?)
  }

  predicate LockingOk(s: State, l: Locking) {
    var id := l.recommendation.requestId;
    && id in s.recommendations && id in s.traces
    && SameContent(l.recommendation, s.recommendations[id])
    && (id, l.candidate.candidateId) in s.approvals
    && s.approvals[(id, l.candidate.candidateId)] == l.approval
    && l.approval.status == APPROVED
    && FindReviewed(l.recommendation, l.candidate.candidateId) == Some(l.candidate)
    && Derivation.LockTotalCheck(l.candidate).Ok?
  }

  /** t adds one entry to some past revision of the live trace. */
  predicate ExtendsPast(h: Hash, live: Trace, t: Trace) {
    && ChainOk(h, t)
    && t.envelope == live.envelope
    && 1 <= t.revision <= |live.entries| + 1
    && Hashes(t.entries[..t.revision - 1]) == Hashes(live.entries[..t.revision - 1])
  }

  /** The retry bookkeeping: attempt k starts at least k revisions after the first read. */
  predicate AttemptOk(expected: Option<int>, attempt: nat, first: int, revision: int) {
    attempt < ATTEMPTS && (attempt > 0 ==> expected.None? && first + attempt <= revision)
  }

  predicate OutcomeOk(s: State, o: Outcome) {
    match o
    case Decided(a) => (a.requestId, a.candidateId) in s.approvals && s.approvals[(a.requestId, a.candidateId)] == a
    case Locked(l) => l.requestId in s.locked && s.locked[l.requestId] == l
    case Raised(e) => !e.IntegrityError?
  }

  predicate DecisionCommitOk(h: Hash, d: Decision, a: Approval, t: Trace) {
    && t.revision == |t.entries| && t.entries != []
    && BoundApproval(h, d, t, a.createdAt) == Ok(a)
    && t.entries[|t.entries| - 1].stage == "human_approval"
    && (t.entries[|t.entries| - 1].message, t.entries[|t.entries| - 1].details) == DecisionEvent(d)
  }

  predicate LockCommitOk(h: Hash, l: Locking, lock: Lock, t: Trace) {
    && t.revision == |t.entries| && t.entries != []
    && lock.requestId == l.recommendation.requestId
    && lock.candidate == l.candidate && lock.reviewer == l.reviewer
    && lock.approval == l.approval.(status := LOCKED)
    && SnapshotOf(h, t, l.recommendation.registryAnchor, l.recommendation.policyAnchor) == Ok(lock.snapshot)
    && lock.candidateSha == CandidateSha(h, l.candidate)
    && lock.recommendationSha == RecommendationSha(h, l.recommendation)
    && lock.approvalSha == ApprovalSha(h, l.approval)
    && t.entries[|t.entries| - 1].stage == "lock"
    && t.entries[|t.entries| - 1].message == "approved factor result locked"
    && t.entries[|t.entries| - 1].details == LockDetailsOf(l.candidate, l.reviewer, l.approval.mode, l.approval.note)
  }

  predicate TaskInv(h: Hash, s: State, task: Task) {
    match task
    case ReadRecommendation(cmd) => !cmd.LockCandidate?
    case CheckDecisionRevision(d) => DecisionOk(s, d)
    case ReadExisting(d) => DecisionOk(s, d)
    case ReadTrace(d, attempt, first) =>
      DecisionOk(s, d) && AttemptOk(d.expected, attempt, first, s.traces[d.recommendation.requestId].revision)
    case CommitDecision(d, attempt, first, a, t) =>
      && DecisionOk(s, d)
      && AttemptOk(d.expected, attempt, first, t.revision - 1)
      && first <= t.revision - 1
      && ExtendsPast(h, s.traces[d.recommendation.requestId], t)
      && DecisionCommitOk(h, d, a, t)
    case CheckLockRevision(cmd) => true
    case ReadLocked(cmd) => true
    case ReadApproval(cmd) => true
    case ReadLockedRecommendation(cmd, a) =>
      (cmd.requestId, cmd.candidateId) in s.approvals && s.approvals[(cmd.requestId, cmd.candidateId)] == a && a.status == APPROVED
    case ReadLockTrace(l, attempt, first) =>
      LockingOk(s, l) && AttemptOk(l.expected, attempt, first, s.traces[l.recommendation.requestId].revision)
    case CommitLock(l, attempt, first, lock, t) =>
      && LockingOk(s, l)
      && AttemptOk(l.expected, attempt, first, t.revision - 1)
      && first <= t.revision - 1
      && ExtendsPast(h, s.traces[l.recommendation.requestId], t)
      && LockCommitOk(h, l, lock, t)
    case Done(o) => OutcomeOk(s, o)
  }

  // ---- stability: a suspended task is not disturbed by the others ----

  lemma ExtendsPastStable(h: Hash, live: Trace, later: Trace, t: Trace)
    requires ExtendsPast(h, live, t) && HashPrefix(live, later)
    ensures ExtendsPast(h, later, t)
  {
    PrefixHashes(live, later, t.revision - 1);
  }

  lemma DecisionStable(h: Hash, s: State, u: State, d: Decision)
    requires Grows(s, u) && DecisionOk(s, d)
    ensures DecisionOk(u, d)
    ensures d.recommendation.requestId in s.traces
  {}

  lemma LockingStable(h: Hash, s: State, u: State, l: Locking)
    requires Grows(s, u) && LockingOk(s, l)
    ensures LockingOk(u, l)
    ensures l.recommendation.requestId in s.traces
  {}

  lemma RevisionsGrow(h: Hash, s: State, u: State, id: string)
    requires RunsInv(h, s) && RunsInv(h, u) && Grows(s, u) && id in s.traces
    ensures id in u.traces && s.traces[id].revision <= u.traces[id].revision && HashPrefix(s.traces[id], u.traces[id])
  {
    assert RunInv(h, id, s.recommendations[id], s.traces[id]);
    assert RunInv(h, id, u.recommendations[id], u.traces[id]);
  }

  lemma StoredStable(s: State, u: State, k: Key)
    requires Grows(s, u)
    ensures k in s.approvals ==> k in u.approvals && u.approvals[k] == s.approvals[k]
  {}

  lemma OutcomeStable(s: State, u: State, o: Outcome)
    requires Grows(s, u) && OutcomeOk(s, o)
    ensures OutcomeOk(u, o)
  {}

  lemma TaskStable(h: Hash, s: State, u: State, task: Task)
    requires RunsInv(h, s) && RunsInv(h, u) && Grows(s, u) && TaskInv(h, s, task)
    ensures TaskInv(h, u, task)
  {
    hide Grows, RunsInv, HashPrefix, DecisionOk, LockingOk, ExtendsPast, DecisionCommitOk, LockCommitOk;
    match task
    case ReadLockedRecommendation(cmd, a) => StoredStable(s, u, (cmd.requestId, cmd.candidateId));
    case Done(o) => OutcomeStable(s, u, o);
    case CheckDecisionRevision(d) => DecisionStable(h, s, u, d);
    case ReadExisting(d) => DecisionStable(h, s, u, d);
    case ReadTrace(d, attempt, first) =>
      DecisionStable(h, s, u, d);
      RevisionsGrow(h, s, u, d.recommendation.requestId);
    case CommitDecision(d, attempt, first, a, t) =>
      DecisionStable(h, s, u, d);
      RevisionsGrow(h, s, u, d.recommendation.requestId);
      ExtendsPastStable(h, s.traces[d.recommendation.requestId], u.traces[d.recommendation.requestId], t);
    case ReadLockTrace(l, attempt, first) =>
      LockingStable(h, s, u, l);
      RevisionsGrow(h, s, u, l.recommendation.requestId);
    case CommitLock(l, attempt, first, lock, t) =>
      LockingStable(h, s, u, l);
      RevisionsGrow(h, s, u, l.recommendation.requestId);
      ExtendsPastStable(h, s.traces[l.recommendation.requestId], u.traces[l.recommendation.requestId], t);
    case _ =>
  }

  // ---- reads ----

  lemma AppendExtends(h: Hash, live: Trace, stage: string, message: string, details: Details, at: int)
    requires ChainOk(h, live)
    ensures ExtendsPast(h, live, Appended(h, live, stage, message, details, at))
  {
    AppendKeepsChain(h, live, stage, message, details, at);
    var t := Appended(h, live, stage, message, details, at);
    assert t.entries[..t.revision - 1] == live.entries == live.entries[..t.revision - 1];
  }

  lemma ApproveChecksFinds(r: Recommendation, id: string, note: string, mode: ApprovalMode)
    requires ApproveChecks(r, id, note, mode).Ok?
    ensures FindReviewed(r, id) == Some(ApproveChecks(r, id, note, mode).value)
  {
    FindConcat(r.candidates, r.reviewable, id);
  }

  lemma {:induction false} FindConcat(xs: seq<Candidate>, ys: seq<Candidate>, id: string)
    ensures Find(xs + ys, id) == if Find(xs, id).Some? then Find(xs, id) else Find(ys, id)
  {
    if xs == [] {
      assert xs + ys == ys;
    } else {
      assert (xs + ys)[1..] == xs[1..] + ys;
      FindConcat(xs[1..], ys, id);
    }
  }

  lemma KnownRun(h: Hash, s: State, id: string)
    requires RunsInv(h, s) && id in s.recommendations
    ensures id in s.traces && s.recommendations[id].requestId == id
    ensures SameContent(s.recommendations[id], s.recommendations[id])
  {
    assert RunInv(h, id, s.recommendations[id], s.traces[id]);
    hide ChainOk;
  }

  /** A candidate found by its id carries that id. */
  lemma FoundId(r: Recommendation, id: string)
    ensures FindReviewed(r, id).Some? ==> FindReviewed(r, id).value.candidateId == id
  {}

  lemma AfterRecommendationInv(h: Hash, s: State, cmd: Command)
    requires RunsInv(h, s) && !cmd.LockCandidate?
    ensures TaskInv(h, s, AfterRecommendation(s, cmd))
  {
    hide RunsInv, ApproveChecks, FindReviewed;
    if cmd.requestId in s.recommendations {
      var r := s.recommendations[cmd.requestId];
      KnownRun(h, s, cmd.requestId);
      if cmd.Approve? && ApproveChecks(r, cmd.candidateId, cmd.note, cmd.mode).Ok? {
        ApproveChecksFinds(r, cmd.candidateId, cmd.note, cmd.mode);
      }
      FoundId(r, cmd.candidateId);
      if cmd.Approve? { ApproveErrors(r, cmd.candidateId, cmd.note, cmd.mode); }
    }
  }

  lemma ApproveErrors(r: Recommendation, id: string, note: string, mode: ApprovalMode)
    ensures ApproveChecks(r, id, note, mode).Err? ==> !ApproveChecks(r, id, note, mode).error.IntegrityError?
  {
    hide AdmissionIncomplete, HardRejected, Blank;
  }

  lemma RunOf(h: Hash, s: State, id: string)
    requires RunsInv(h, s) && id in s.recommendations && id in s.traces
    ensures RunInv(h, id, s.recommendations[id], s.traces[id]) && ChainOk(h, s.traces[id])
  {
    hide ChainOk;
  }

  lemma AppendedRevision(h: Hash, t: Trace, stage: string, message: string, details: Details, at: int)
    requires ChainOk(h, t)
    ensures var u := Appended(h, t, stage, message, details, at);
            && u.revision == t.revision + 1 == |u.entries| && u.envelope == t.envelope
            && u.entries[|u.entries| - 1].stage == stage
            && u.entries[|u.entries| - 1].message == message && u.entries[|u.entries| - 1].details == details
  {
    hide LinkOk;
  }

  /** What one turn of _commit_decision prepares on a verified trace. */
  lemma DecisionPrepared(h: Hash, d: Decision, t: Trace, now: int)
    requires ChainOk(h, t)
    ensures var (message, details) := DecisionEvent(d);
            var u := Appended(h, t, "human_approval", message, details, now);
            && ExtendsPast(h, t, u) && u.revision == t.revision + 1 == |u.entries|
            && (BoundApproval(h, d, u, now).Err? ==> BoundApproval(h, d, u, now).error.ValueError?)
            && (BoundApproval(h, d, u, now).Ok? ==> DecisionCommitOk(h, d, BoundApproval(h, d, u, now).value, u))
  {
    hide ChainOk, ExtendsPast, ChainAt, CandidateSha, RecommendationSha, Blank, Appended;
    var (message, details) := DecisionEvent(d);
    AppendExtends(h, t, "human_approval", message, details, now);
    AppendedRevision(h, t, "human_approval", message, details, now);
    ExtendsChain(h, t, Appended(h, t, "human_approval", message, details, now));
  }

  lemma AfterTraceInv(h: Hash, s: State, d: Decision, attempt: nat, first: int, now: int)
    requires RunsInv(h, s) && TaskInv(h, s, ReadTrace(d, attempt, first))
    ensures TaskInv(h, s, AfterTrace(h, s, d, attempt, first, now))
  {
    hide RunsInv, RunInv, Appended, ExtendsPast, DecisionCommitOk, BoundApproval, ChainOk, ApproveChecks, FindReviewed, SameContent;
    RunOf(h, s, d.recommendation.requestId);
    DecisionPrepared(h, d, s.traces[d.recommendation.requestId], now);
  }

  /** What one turn of lock prepares on a verified trace. */
  lemma LockPrepared(h: Hash, l: Locking, t: Trace, now: int)
    requires ChainOk(h, t) && t.envelope.databaseAnchor.Some?
    ensures var u := Appended(h, t, "lock", "approved factor result locked",
              LockDetailsOf(l.candidate, l.reviewer, l.approval.mode, l.approval.note), now);
            var snapshot := SnapshotOf(h, u, l.recommendation.registryAnchor, l.recommendation.policyAnchor);
            && ExtendsPast(h, t, u) && u.revision == t.revision + 1 && snapshot.Ok?
            && LockCommitOk(h, l, Lock(l.recommendation.requestId, l.candidate, l.reviewer, l.approval.(status := LOCKED), now, snapshot.value,
                 CandidateSha(h, l.candidate), RecommendationSha(h, l.recommendation), ApprovalSha(h, l.approval)), u)
  {
    hide ExtendsPast, ChainAt, CandidateSha, RecommendationSha, ApprovalSha, Appended, SnapshotOf;
    var details := LockDetailsOf(l.candidate, l.reviewer, l.approval.mode, l.approval.note);
    AppendExtends(h, t, "lock", "approved factor result locked", details, now);
    AppendedRevision(h, t, "lock", "approved factor result locked", details, now);
    var u := Appended(h, t, "lock", "approved factor result locked", details, now);
    ExtendsChain(h, t, u);
    SnapshotExists(h, u, l.recommendation.registryAnchor, l.recommendation.policyAnchor);
  }

  lemma ExtendsFacts(h: Hash, id: string, r: Recommendation, live: Trace, t: Trace)
    requires RunInv(h, id, r, live) && ExtendsPast(h, live, t)
    ensures ChainOk(h, t) && t.envelope.requestId == id && r.requestId == id && SameContent(r, r)
    ensures live.revision == |live.entries| && t.revision == |t.entries|
  {
    hide LinkOk;
  }

  lemma ExtendsChain(h: Hash, live: Trace, t: Trace)
    requires ExtendsPast(h, live, t)
    ensures ChainOk(h, t)
  {}

  /** The prefix test of lock passes for the binding of a stored decision. */
  lemma PrefixTestPasses(h: Hash, t: Trace, a: Approval)
    requires ChainOk(h, t) && a.traceRevision.Some? && a.traceChain.Some? && BindsPrefix(h, t, a.traceRevision.value, a.traceChain.value)
    ensures 1 <= a.traceRevision.value <= t.revision
    ensures ChainAtRevision(h, t, a.traceRevision.value).Ok? && a.traceChain == Some(ChainAtRevision(h, t, a.traceRevision.value).value)
  {
    hide LinkOk, ChainAt;
  }

  lemma AnchorPresent(h: Hash, r: Recommendation, t: Trace, id: string, a: Approval)
    requires RunInv(h, id, r, t) && BoundTo(h, r, a)
    ensures t.envelope.databaseAnchor.Some? && a.traceRevision.Some? && a.traceChain.Some?
  {
    hide ChainOk, CandidateSha, RecommendationSha, FindReviewed;
  }

  lemma AfterLockTraceInv(h: Hash, s: State, l: Locking, attempt: nat, first: int, now: int)
    requires LockingOk(s, l) && TaskInv(h, s, ReadLockTrace(l, attempt, first))
    requires RunInv(h, l.recommendation.requestId, s.recommendations[l.recommendation.requestId], s.traces[l.recommendation.requestId])
    requires ChainOk(h, s.traces[l.recommendation.requestId])
    requires BoundTo(h, s.recommendations[l.recommendation.requestId], l.approval)
    requires BindsPrefix(h, s.traces[l.recommendation.requestId], l.approval.traceRevision.value, l.approval.traceChain.value)
    ensures TaskInv(h, s, AfterLockTrace(h, s, l, attempt, first, now))
  {
    hide RunInv, BoundTo, BindsPrefix, Appended, LockDetailsOf, RecommendationSha, CandidateSha, ApprovalSha, SnapshotOf, ExtendsPast,
         Blank, LockCommitOk, ChainOk, ChainAtRevision, SameContent, FindReviewed, Derivation.LockTotalCheck;
    var id := l.recommendation.requestId;
    AnchorPresent(h, s.recommendations[id], s.traces[id], id, l.approval);
    PrefixTestPasses(h, s.traces[id], l.approval);
    LockPrepared(h, l, s.traces[id], now);
  }

  lemma SnapshotExists(h: Hash, t: Trace, registry: Option<Digest>, policy: Option<Digest>)
    requires ChainOk(h, t) && t.envelope.databaseAnchor.Some?
    ensures SnapshotOf(h, t, registry, policy).Ok?
  {}

  lemma LockChecksInv(h: Hash, r: Recommendation, candidateId: string, a: Approval)
    requires BoundTo(h, r, a) && a.candidateId == candidateId
    ensures LockChecks(h, r, candidateId, a).Err? ==> !LockChecks(h, r, candidateId, a).error.IntegrityError?
    ensures LockChecks(h, r, candidateId, a).Ok? ==>
      && FindReviewed(r, candidateId) == Some(LockChecks(h, r, candidateId, a).value)
      && Derivation.LockTotalCheck(LockChecks(h, r, candidateId, a).value).Ok?
  {
    TotalCheckErrors(FindReviewed(r, candidateId).value);
  }

  lemma TotalCheckErrors(c: Candidate)
    ensures Derivation.LockTotalCheck(c).Err? ==> Derivation.LockTotalCheck(c).error.ValueError?
  {}

  // ---- commits ----

  /** A commit whose compare-and-set succeeds writes a verified extension of the live trace. */
  lemma ExtendsNow(h: Hash, s: State, id: string, t: Trace)
    requires StateInv(h, s) && id in s.recommendations && id in s.traces
    requires ExtendsPast(h, s.traces[id], t) && s.traces[id].revision == t.revision - 1
    ensures HashPrefix(s.traces[id], t) && ExtendsByOne(s.traces[id], t, s.traces[id].revision)
    ensures TraceWriteOk(h, s, s.recommendations[id], t)
  {
    var live := s.traces[id];
    assert RunInv(h, id, s.recommendations[id], live);
    assert live.entries[..t.revision - 1] == live.entries;
  }

  /** When the store rejects a new decision of the engine, it is because of the review state, never because
      a binding or a chain is wrong. */
  lemma NewApprovalErrorKinds(h: Hash, s: State, d: Decision, a: Approval, t: Trace, r: Recommendation, live: Trace)
    requires DecisionCommitOk(h, d, a, t) && SameContent(d.recommendation, r)
    requires FindReviewed(d.recommendation, d.candidate.candidateId) == Some(d.candidate)
    requires ChainOk(h, live) && ExtendsPast(h, live, t) && live.revision == t.revision - 1
    ensures var e := NewApprovalError(h, s, r, live, a, t, RecommendationSha(h, d.recommendation), t.revision - 1);
            e.Some? ==> e.value.ConflictError?
  {
    ContentDecides(h, d.recommendation, r);
    assert live.entries[..t.revision - 1] == live.entries;
    assert CommitTraceError(h, live, t, t.revision - 1).None?;
  }

  /** A replayed decision agrees on its bindings with the stored one. */
  lemma ReplayAgrees(h: Hash, d: Decision, a: Approval, t: Trace, r: Recommendation, e: Approval)
    requires DecisionCommitOk(h, d, a, t) && SameContent(d.recommendation, r) && BoundTo(h, r, e)
    requires FindReviewed(d.recommendation, d.candidate.candidateId) == Some(d.candidate)
    requires e.candidateId == a.candidateId
    ensures SameStableBindings(e, a)
  {
    ContentDecides(h, d.recommendation, r);
    hide CandidateSha, RecommendationSha, ChainAt;
  }

  /** How save_approval can end for a decision the engine prepared. */
  lemma SaveApprovalResult(h: Hash, s: State, d: Decision, a: Approval, t: Trace)
    requires DecisionOk(s, d) && DecisionCommitOk(h, d, a, t) && d.recommendation.requestId == a.requestId
    requires RunInv(h, a.requestId, s.recommendations[a.requestId], s.traces[a.requestId])
    requires ExtendsPast(h, s.traces[a.requestId], t) && ChainOk(h, s.traces[a.requestId])
    requires (a.requestId, a.candidateId) in s.approvals ==>
      var e := s.approvals[(a.requestId, a.candidateId)];
      BoundTo(h, s.recommendations[a.requestId], e) && (e.requestId, e.candidateId) == (a.requestId, a.candidateId)
    ensures var (u, result) := SaveApprovalSpec(h, s, a, t, RecommendationSha(h, d.recommendation), t.revision - 1);
            && (result.Ok? ==> OutcomeOk(u, Decided(result.value)))
            && (result.Err? ==> u == s && !result.error.IntegrityError?)
            && (result.Err? && result.error.StaleError? ==> s.traces[a.requestId].revision != t.revision - 1)
  {
    hide NewApprovalError, WithTrace, RunInv, BoundTo, ExtendsPast, DecisionCommitOk, ChainOk, SameContent, FindReviewed, ApproveChecks,
         RecommendationSha, MatchesDecision, SameStableBindings;
    var key, r, live := (a.requestId, a.candidateId), s.recommendations[a.requestId], s.traces[a.requestId];
    if key in s.approvals {
      ReplayAgrees(h, d, a, t, r, s.approvals[key]);
    } else if live.revision == t.revision - 1 {
      NewApprovalErrorKinds(h, s, d, a, t, r, live);
    }
  }

  lemma DecisionIds(h: Hash, d: Decision, a: Approval, t: Trace)
    requires DecisionCommitOk(h, d, a, t)
    ensures a.requestId == d.recommendation.requestId && a.candidateId == d.candidate.candidateId
  {
    hide CandidateSha, RecommendationSha, ChainAt;
  }

  lemma ExtendsFromPast(h: Hash, live: Trace, t: Trace)
    requires ExtendsPast(h, live, t) && ChainOk(h, live)
    ensures t.revision - 1 <= live.revision
  {
    hide LinkOk;
  }

  lemma StepCommitsDecision(h: Hash, s: State, d: Decision, attempt: nat, first: int, a: Approval, t: Trace, now: int)
    ensures Step(h, s, CommitDecision(d, attempt, first, a, t), now) ==
      var (u, result) := SaveApprovalSpec(h, s, a, t, RecommendationSha(h, d.recommendation), t.revision - 1);
      match result
      case Ok(saved) => (u, Done(Decided(saved)))
      case Err(e) =>
        if e.StaleError? && d.expected.None? && attempt != ATTEMPTS - 1 then (u, ReadTrace(d, attempt + 1, first))
        else (u, Done(Raised(e)))
  {
    hide SaveApprovalSpec, RecommendationSha;
  }

  /** How a call continues after its decision commit. */
  lemma CommitDecisionNext(h: Hash, s: State, d: Decision, attempt: nat, first: int, a: Approval, t: Trace, now: int)
    requires TaskInv(h, s, CommitDecision(d, attempt, first, a, t)) && a.requestId == d.recommendation.requestId
    requires RunInv(h, a.requestId, s.recommendations[a.requestId], s.traces[a.requestId]) && ChainOk(h, s.traces[a.requestId])
    requires (a.requestId, a.candidateId) in s.approvals ==>
      var e := s.approvals[(a.requestId, a.candidateId)];
      BoundTo(h, s.recommendations[a.requestId], e) && (e.requestId, e.candidateId) == (a.requestId, a.candidateId)
    ensures var (u, next) := Step(h, s, CommitDecision(d, attempt, first, a, t), now); TaskInv(h, u, next)
  {
    hide Step, SaveApprovalSpec, RunInv, BoundTo, ExtendsPast, DecisionCommitOk, ChainOk, SameContent, FindReviewed, ApproveChecks;
    StepCommitsDecision(h, s, d, attempt, first, a, t, now);
    SaveApprovalResult(h, s, d, a, t);
    ExtendsFromPast(h, s.traces[a.requestId], t);
    var (u, result) := SaveApprovalSpec(h, s, a, t, RecommendationSha(h, d.recommendation), t.revision - 1);
    var (v, next) := Step(h, s, CommitDecision(d, attempt, first, a, t), now);
    assert v == u;
    if result.Ok? {
      assert next == Done(Decided(result.value));
    } else if !next.Done? {
      assert AttemptOk(d.expected, attempt + 1, first, s.traces[a.requestId].revision);
    }
  }

  lemma NewDecisionState(h: Hash, s: State, d: Decision, a: Approval, t: Trace)
    requires StateInv(h, s) && DecisionOk(s, d) && DecisionCommitOk(h, d, a, t)
    requires ExtendsPast(h, s.traces[a.requestId], t) && s.traces[a.requestId].revision == t.revision - 1
    requires (a.requestId, a.candidateId) !in s.approvals && a.requestId !in s.locked
    requires a.status == APPROVED ==> !HasApproved(s, a.requestId)
    ensures var u := WithTrace(s, s.recommendations[a.requestId], t).(approvals := s.approvals[(a.requestId, a.candidateId) := a]);
            StateInv(h, u) && Grows(s, u)
  {
    var id, key := a.requestId, (a.requestId, a.candidateId);
    var r := s.recommendations[id];
    ExtendsNow(h, s, id, t);
    var m := WithTrace(s, r, t);
    NewDecisionInv(h, d, a, t, r, m.recommendations[id]);
    hide StateInv, Grows, ApprovalInv, DecisionCommitOk, ExtendsPast, TraceWriteOk, DecisionOk;
    TraceWrite(h, s, r, t);
    ApprovalWrite(h, m, key, a);
    GrowsTransitive(s, m, m.(approvals := m.approvals[key := a]));
  }

  lemma NewDecisionInv(h: Hash, d: Decision, a: Approval, t: Trace, r: Recommendation, q: Recommendation)
    requires DecisionCommitOk(h, d, a, t) && SameContent(d.recommendation, r) && SameContent(r, q)
    requires FindReviewed(d.recommendation, d.candidate.candidateId) == Some(d.candidate)
    requires d.status == APPROVED || d.status == REJECTED
    requires d.status == REJECTED ==> d.mode == STANDARD
    requires d.status == APPROVED ==> ApproveChecks(d.recommendation, d.candidate.candidateId, d.note, d.mode).Ok?
    ensures ApprovalInv(h, q, t, (a.requestId, a.candidateId), a)
  {
    ContentDecides(h, d.recommendation, r);
    ContentDecides(h, r, q);
    assert d.reviewer != "";
  }

  /** What save_approval writes, if anything. */
  lemma SaveApprovalWrites(h: Hash, s: State, a: Approval, t: Trace, sha: Digest, revision: int)
    ensures var u := SaveApprovalSpec(h, s, a, t, sha, revision).0;
            || u == s
            || (&& a.requestId in s.recommendations && a.requestId in s.traces && s.traces[a.requestId].revision == revision
                && (a.requestId, a.candidateId) !in s.approvals && a.requestId !in s.locked
                && (a.status == APPROVED ==> !HasApproved(s, a.requestId))
                && u == WithTrace(s, s.recommendations[a.requestId], t).(approvals := s.approvals[(a.requestId, a.candidateId) := a]))
  {
    hide WithTrace, MatchesDecision, SameStableBindings, CommitTraceError, IntegrityBound, ApprovalBindings, HasApproved, RecommendationSha;
  }

  lemma CommitDecisionState(h: Hash, s: State, d: Decision, attempt: nat, first: int, a: Approval, t: Trace, now: int)
    requires StateInv(h, s) && TaskInv(h, s, CommitDecision(d, attempt, first, a, t))
    ensures var u := Step(h, s, CommitDecision(d, attempt, first, a, t), now).0; StateInv(h, u) && Grows(s, u)
  {
    hide StateInv, Grows, Step, SaveApprovalSpec, ExtendsPast, DecisionCommitOk, DecisionOk, HasApproved, WithTrace;
    GrowsReflexive(s);
    StepCommitsDecision(h, s, d, attempt, first, a, t, now);
    DecisionIds(h, d, a, t);
    SaveApprovalWrites(h, s, a, t, RecommendationSha(h, d.recommendation), t.revision - 1);
    if Step(h, s, CommitDecision(d, attempt, first, a, t), now).0 != s { NewDecisionState(h, s, d, a, t); }
  }

  /** The store never rejects a lock of the engine once its compare-and-set has succeeded. */
  lemma NewLockAccepted(h: Hash, s: State, l: Locking, lock: Lock, t: Trace, r: Recommendation, live: Trace)
    requires LockCommitOk(h, l, lock, t) && SameContent(l.recommendation, r)
    requires FindReviewed(l.recommendation, l.candidate.candidateId) == Some(l.candidate)
    requires (lock.requestId, lock.candidate.candidateId) in s.approvals
    requires s.approvals[(lock.requestId, lock.candidate.candidateId)] == l.approval && BoundTo(h, r, l.approval)
    requires l.approval.candidateId == l.candidate.candidateId
    requires ChainOk(h, live) && ExtendsPast(h, live, t) && live.revision == t.revision - 1
    ensures NewLockError(h, s, r, live, lock, t, RecommendationSha(h, l.recommendation), t.revision - 1).None?
  {
    ContentDecides(h, l.recommendation, r);
    assert live.entries[..t.revision - 1] == live.entries;
    assert CommitTraceError(h, live, t, t.revision - 1).None?;
  }

  /** How save_locked can end for a lock the engine prepared. */
  lemma SaveLockedResult(h: Hash, s: State, l: Locking, lock: Lock, t: Trace)
    requires LockingOk(s, l) && LockCommitOk(h, l, lock, t)
    requires lock.requestId == l.recommendation.requestId && lock.candidate == l.candidate
    requires RunInv(h, lock.requestId, s.recommendations[lock.requestId], s.traces[lock.requestId])
    requires ExtendsPast(h, s.traces[lock.requestId], t) && ChainOk(h, s.traces[lock.requestId])
    requires BoundTo(h, s.recommendations[lock.requestId], l.approval) && l.approval.candidateId == l.candidate.candidateId
    requires lock.requestId in s.locked ==> s.locked[lock.requestId].requestId == lock.requestId
    ensures var (u, result) := SaveLockedSpec(h, s, lock, t, RecommendationSha(h, l.recommendation), t.revision - 1);
            && (result.Ok? ==> OutcomeOk(u, Locked(result.value)))
            && (result.Err? ==> u == s && !result.error.IntegrityError?)
            && (result.Err? && result.error.StaleError? ==> s.traces[lock.requestId].revision != t.revision - 1)
  {
    hide NewLockError, WithTrace, RunInv, BoundTo, ExtendsPast, LockCommitOk, ChainOk, SameContent, FindReviewed, RecommendationSha,
         Derivation.LockTotalCheck;
    if s.traces[lock.requestId].revision == t.revision - 1 {
      NewLockAccepted(h, s, l, lock, t, s.recommendations[lock.requestId], s.traces[lock.requestId]);
    }
  }

  lemma LockIds(h: Hash, l: Locking, lock: Lock, t: Trace)
    requires LockCommitOk(h, l, lock, t)
    ensures lock.requestId == l.recommendation.requestId && lock.candidate == l.candidate && lock.reviewer == l.reviewer
  {
    hide CandidateSha, RecommendationSha, ApprovalSha, SnapshotOf, LockDetailsOf;
  }

  lemma SnapshotRevision(h: Hash, l: Locking, lock: Lock, t: Trace)
    requires LockCommitOk(h, l, lock, t)
    ensures lock.snapshot.traceRevision == t.revision
  {
    hide CandidateSha, RecommendationSha, ApprovalSha, LockDetailsOf, ChainOk, ChainAt;
  }

  lemma StepCommitsLock(h: Hash, s: State, l: Locking, attempt: nat, first: int, lock: Lock, t: Trace, now: int)
    ensures Step(h, s, CommitLock(l, attempt, first, lock, t), now) ==
      var (u, result) := SaveLockedSpec(h, s, lock, t, RecommendationSha(h, l.recommendation), t.revision - 1);
      match result
      case Ok(saved) => (u, Done(Locked(saved)))
      case Err(e) =>
        if e.StaleError? && l.expected.None? && attempt != ATTEMPTS - 1 then (u, ReadLockTrace(l, attempt + 1, first))
        else (u, Done(Raised(e)))
  {
    hide SaveLockedSpec, RecommendationSha;
  }

  lemma CommitLockNext(h: Hash, s: State, l: Locking, attempt: nat, first: int, lock: Lock, t: Trace, now: int)
    requires TaskInv(h, s, CommitLock(l, attempt, first, lock, t))
    requires lock.requestId == l.recommendation.requestId && lock.candidate == l.candidate
    requires RunInv(h, lock.requestId, s.recommendations[lock.requestId], s.traces[lock.requestId]) && ChainOk(h, s.traces[lock.requestId])
    requires BoundTo(h, s.recommendations[lock.requestId], l.approval) && l.approval.candidateId == l.candidate.candidateId
    requires lock.requestId in s.locked ==> s.locked[lock.requestId].requestId == lock.requestId
    ensures var (u, next) := Step(h, s, CommitLock(l, attempt, first, lock, t), now); TaskInv(h, u, next)
  {
    hide Step, SaveLockedSpec, RunInv, BoundTo, ExtendsPast, LockCommitOk, ChainOk, SameContent, FindReviewed, Derivation.LockTotalCheck;
    StepCommitsLock(h, s, l, attempt, first, lock, t, now);
    SaveLockedResult(h, s, l, lock, t);
    ExtendsFromPast(h, s.traces[lock.requestId], t);
    var (u, result) := SaveLockedSpec(h, s, lock, t, RecommendationSha(h, l.recommendation), t.revision - 1);
    var (v, next) := Step(h, s, CommitLock(l, attempt, first, lock, t), now);
    assert v == u;
    if result.Ok? {
      assert next == Done(Locked(result.value));
    } else if !next.Done? {
      assert AttemptOk(l.expected, attempt + 1, first, s.traces[lock.requestId].revision);
    }
  }

  lemma NewLockInv(h: Hash, l: Locking, lock: Lock, t: Trace, r: Recommendation, q: Recommendation)
    requires LockCommitOk(h, l, lock, t) && SameContent(l.recommendation, r) && SameContent(r, q)
    requires ChainOk(h, t) && t.envelope.requestId == lock.requestId
    requires FindReviewed(l.recommendation, l.candidate.candidateId) == Some(l.candidate)
    requires l.approval.status == APPROVED && Derivation.LockTotalCheck(l.candidate).Ok?
    ensures LockInv(h, q, t, l.approval, lock.requestId, lock)
  {
    ContentDecides(h, l.recommendation, r);
    ContentDecides(h, r, q);
    assert t.entries[..t.revision] == t.entries;
  }

  lemma NewLockState(h: Hash, s: State, l: Locking, lock: Lock, t: Trace)
    requires StateInv(h, s) && LockingOk(s, l) && LockCommitOk(h, l, lock, t)
    requires lock.requestId !in s.locked
    requires ExtendsPast(h, s.traces[lock.requestId], t) && s.traces[lock.requestId].revision == t.revision - 1
    ensures var u := WithTrace(s, s.recommendations[lock.requestId], t).(locked := s.locked[lock.requestId := lock]);
            StateInv(h, u) && Grows(s, u)
  {
    hide RunsInv, ApprovalsInv, LocksInv, OneApproved, DecidedBeforeLock, Grows, LockInv, TraceWriteOk, LockCommitOk, SameContent, HashPrefix,
         Derivation.LockTotalCheck, FindReviewed, ExtendsPast, RunInv, ChainOk;
    LockIds(h, l, lock, t);
    SnapshotRevision(h, l, lock, t);
    var id := lock.requestId;
    var r := s.recommendations[id];
    RunOf(h, s, id);
    ExtendsFacts(h, id, r, s.traces[id], t);
    ExtendsNow(h, s, id, t);
    TraceWrite(h, s, r, t);
    var m := WithTrace(s, r, t);
    NewLockInv(h, l, lock, t, r, m.recommendations[id]);
    DecisionsBefore(h, s, id, t);
    LockWrite(h, m, id, lock);
    GrowsTransitive(s, m, m.(locked := m.locked[id := lock]));
  }

  lemma DecisionsBefore(h: Hash, s: State, id: string, t: Trace)
    requires ApprovalsInv(h, s) && id in s.traces && |s.traces[id].entries| < t.revision
    ensures forall k :: k in s.approvals && k.0 == id ==>
      s.approvals[k].traceRevision.Some? && s.approvals[k].traceRevision.value < t.revision
  {
    forall k | k in s.approvals && k.0 == id
      ensures s.approvals[k].traceRevision.Some? && s.approvals[k].traceRevision.value < t.revision
    {
      assert ApprovalInv(h, s.recommendations[k.0], s.traces[k.0], k, s.approvals[k]);
    }
  }

  /** What save_locked writes, if anything. */
  lemma SaveLockedWrites(h: Hash, s: State, l: Lock, t: Trace, sha: Digest, revision: int)
    ensures var u := SaveLockedSpec(h, s, l, t, sha, revision).0;
            || u == s
            || (&& l.requestId in s.recommendations && l.requestId in s.traces && s.traces[l.requestId].revision == revision
                && l.requestId !in s.locked
                && u == WithTrace(s, s.recommendations[l.requestId], t).(locked := s.locked[l.requestId := l]))
  {
    hide WithTrace, NewLockError, RecommendationSha;
  }

  lemma CommitLockState(h: Hash, s: State, l: Locking, attempt: nat, first: int, lock: Lock, t: Trace, now: int)
    requires StateInv(h, s) && TaskInv(h, s, CommitLock(l, attempt, first, lock, t))
    ensures var u := Step(h, s, CommitLock(l, attempt, first, lock, t), now).0; StateInv(h, u) && Grows(s, u)
  {
    hide StateInv, Grows, Step, SaveLockedSpec, ExtendsPast, LockCommitOk, LockingOk, WithTrace;
    GrowsReflexive(s);
    StepCommitsLock(h, s, l, attempt, first, lock, t, now);
    LockIds(h, l, lock, t);
    SaveLockedWrites(h, s, lock, t, RecommendationSha(h, l.recommendation), t.revision - 1);
    if Step(h, s, CommitLock(l, attempt, first, lock, t), now).0 != s { NewLockState(h, s, l, lock, t); }
  }

  // ---- every step ----

  /** No step of any task breaks the invariant of the store or takes anything back. */
  lemma StepState(h: Hash, s: State, task: Task, now: int)
    requires StateInv(h, s) && TaskInv(h, s, task)
    ensures StateInv(h, Step(h, s, task, now).0) && Grows(s, Step(h, s, task, now).0)
  {
    hide StateInv, Grows, TaskInv, SaveApprovalSpec, SaveLockedSpec;
    match task
    case CommitDecision(d, attempt, first, a, t) => CommitDecisionState(h, s, d, attempt, first, a, t, now);
    case CommitLock(l, attempt, first, lock, t) => CommitLockState(h, s, l, attempt, first, lock, t, now);
    case _ => GrowsReflexive(s);
  }

  /** The stored decision and run a lock or a replay reads are well bound. */
  lemma StoredDecision(h: Hash, s: State, k: Key)
    requires ApprovalsInv(h, s) && RunsInv(h, s) && k in s.approvals
    ensures k.0 in s.recommendations && k.0 in s.traces
    ensures RunInv(h, k.0, s.recommendations[k.0], s.traces[k.0])
    ensures ApprovalInv(h, s.recommendations[k.0], s.traces[k.0], k, s.approvals[k])
  {}

  lemma StoredLock(h: Hash, s: State, id: string)
    requires LocksInv(h, s) && id in s.locked
    ensures s.locked[id].requestId == id
  {
    assert LockInv(h, s.recommendations[id], s.traces[id], s.approvals[(id, s.locked[id].candidate.candidateId)], id, s.locked[id]);
  }

  lemma AfterExistingInv(h: Hash, s: State, d: Decision)
    requires ApprovalsInv(h, s) && DecisionOk(s, d)
    ensures TaskInv(h, s, AfterExisting(s, d))
  {
    hide ApprovalsInv, DecisionOk, MatchesDecision, AttemptOk;
    var key := (d.recommendation.requestId, d.candidate.candidateId);
    if key in s.approvals { StoredKey(h, s, key); }
    FirstAttempt(h, s, d);
  }

  lemma FirstAttempt(h: Hash, s: State, d: Decision)
    requires DecisionOk(s, d)
    ensures TaskInv(h, s, ReadTrace(d, 0, 0))
  {
    hide ApproveChecks, FindReviewed, SameContent;
    assert d.recommendation.requestId in s.traces;
  }

  lemma StoredKey(h: Hash, s: State, k: Key)
    requires ApprovalsInv(h, s) && k in s.approvals
    ensures k == (s.approvals[k].requestId, s.approvals[k].candidateId)
  {
    assert ApprovalInv(h, s.recommendations[k.0], s.traces[k.0], k, s.approvals[k]);
    hide BoundTo, Gated, BindsPrefix;
  }

  lemma ReadLockedNext(h: Hash, s: State, cmd: Command, now: int)
    requires LocksInv(h, s)
    ensures TaskInv(h, s, Step(h, s, ReadLocked(cmd), now).1)
  {
    hide LocksInv;
    if cmd.requestId in s.locked { StoredLock(h, s, cmd.requestId); }
  }

  lemma ReadLockedRecommendationNext(h: Hash, s: State, cmd: Command, a: Approval, now: int)
    requires ApprovalsInv(h, s) && RunsInv(h, s) && TaskInv(h, s, ReadLockedRecommendation(cmd, a))
    ensures TaskInv(h, s, Step(h, s, ReadLockedRecommendation(cmd, a), now).1)
  {
    hide LockChecks, RunsInv, ApprovalsInv, BoundTo, Gated, BindsPrefix, RunInv, Derivation.LockTotalCheck, FindReviewed;
    StoredDecision(h, s, (cmd.requestId, cmd.candidateId));
    KnownRun(h, s, cmd.requestId);
    FoundId(s.recommendations[cmd.requestId], cmd.candidateId);
    LockChecksInv(h, s.recommendations[cmd.requestId], cmd.candidateId, a);
  }

  lemma ReadLockTraceNext(h: Hash, s: State, l: Locking, attempt: nat, first: int, now: int)
    requires ApprovalsInv(h, s) && RunsInv(h, s) && TaskInv(h, s, ReadLockTrace(l, attempt, first))
    ensures TaskInv(h, s, Step(h, s, ReadLockTrace(l, attempt, first), now).1)
  {
    hide AfterLockTrace, RunsInv, ApprovalsInv, BoundTo, ChainOk, Gated;
    StoredDecision(h, s, (l.recommendation.requestId, l.candidate.candidateId));
    RunOf(h, s, l.recommendation.requestId);
    AfterLockTraceInv(h, s, l, attempt, first, now);
  }

  lemma AnyCommitDecisionNext(h: Hash, s: State, d: Decision, attempt: nat, first: int, a: Approval, t: Trace, now: int)
    requires ApprovalsInv(h, s) && RunsInv(h, s) && TaskInv(h, s, CommitDecision(d, attempt, first, a, t))
    ensures var (u, next) := Step(h, s, CommitDecision(d, attempt, first, a, t), now); TaskInv(h, u, next)
  {
    hide Step, ApprovalsInv, RunsInv, ExtendsPast, DecisionCommitOk, ChainOk, BoundTo, Gated, BindsPrefix, RunInv, AttemptOk;
    var key := (a.requestId, a.candidateId);
    DecisionIds(h, d, a, t);
    if key in s.approvals { StoredDecision(h, s, key); }
    RunOf(h, s, a.requestId);
    CommitDecisionNext(h, s, d, attempt, first, a, t, now);
  }

  lemma AnyCommitLockNext(h: Hash, s: State, l: Locking, attempt: nat, first: int, lock: Lock, t: Trace, now: int)
    requires ApprovalsInv(h, s) && RunsInv(h, s) && LocksInv(h, s) && TaskInv(h, s, CommitLock(l, attempt, first, lock, t))
    ensures var (u, next) := Step(h, s, CommitLock(l, attempt, first, lock, t), now); TaskInv(h, u, next)
  {
    hide Step, RunsInv, ApprovalsInv, LocksInv, ExtendsPast, LockCommitOk, AttemptOk, BoundTo, RunInv, SnapshotOf, Gated, BindsPrefix, ChainOk;
    LockIds(h, l, lock, t);
    StoredDecision(h, s, (l.recommendation.requestId, l.candidate.candidateId));
    if lock.requestId in s.locked { StoredLock(h, s, lock.requestId); }
    RunOf(h, s, lock.requestId);
    CommitLockNext(h, s, l, attempt, first, lock, t, now);
  }

  /** And what the call continues as agrees with the new store. */
  lemma StepNext(h: Hash, s: State, task: Task, now: int)
    requires StateInv(h, s) && TaskInv(h, s, task)
    ensures var (u, next) := Step(h, s, task, now); TaskInv(h, u, next)
  {
    hide RunsInv, ApprovalsInv, LocksInv, OneApproved, DecidedBeforeLock, SaveApprovalSpec, SaveLockedSpec,
         AfterRecommendation, AfterTrace, AfterExisting, AfterLockTrace, LockChecks;
    match task
    case ReadRecommendation(cmd) => AfterRecommendationInv(h, s, cmd);
    case ReadTrace(d, attempt, first) => AfterTraceInv(h, s, d, attempt, first, now);
    case CommitDecision(d, attempt, first, a, t) => AnyCommitDecisionNext(h, s, d, attempt, first, a, t, now);
    case ReadExisting(d) => AfterExistingInv(h, s, d);
    case ReadLocked(cmd) => ReadLockedNext(h, s, cmd, now);
    case ReadLockedRecommendation(cmd, a) => ReadLockedRecommendationNext(h, s, cmd, a, now);
    case ReadLockTrace(l, attempt, first) => ReadLockTraceNext(h, s, l, attempt, first, now);
    case CommitLock(l, attempt, first, lock, t) => AnyCommitLockNext(h, s, l, attempt, first, lock, t, now);
    case _ =>
  }
}
