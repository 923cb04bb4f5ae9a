/** What approve, reject and lock do when nobody interferes: they succeed exactly when the stored state allows it. */
module Undisturbed {
  import opened Prelude
  import opened Models
  import opened Records
  import opened Store
  import opened Review
  import opened ReviewInvariant
  import opened ReviewSteps
  import opened ReviewTheorems
  import opened Engine
  import Derivation

  /** A call from one of its awaits to its end, with nothing happening in between. */
  ghost function Alone(h: Hash, s: State, t: Task, clock: Clock, k: nat): (State, Outcome)
    decreases Remaining(t)
  {
    match t
    case Done(o) => (s, o)
    case _ =>
      StepDecreases(h, s, t, clock(k));
      var (u, next) := Step(h, s, t, clock(k));
      Alone(h, u, next, clock, k + 1)
  }

  lemma AloneStep(h: Hash, s: State, t: Task, clock: Clock, k: nat)
    requires !t.Done?
    ensures var (u, next) := Step(h, s, t, clock(k)); Alone(h, s, t, clock, k) == Alone(h, u, next, clock, k + 1)
  {
    hide Step, Remaining;
  }

  lemma AloneDone(h: Hash, s: State, o: Outcome, clock: Clock, k: nat)
    ensures Alone(h, s, Done(o), clock, k) == (s, o)
  {}

  // ---- when a decision can be taken ----

  predicate AsExpected(s: State, id: string, expected: Option<int>) {
    id in s.traces && (expected.Some? ==> expected.value == s.traces[id].revision)
  }

  /** What a new decision needs beyond its gates. */
  predicate Free(s: State, d: Decision) {
    var r := d.recommendation;
    && r.requestId !in s.locked
    && (d.status == APPROVED ==> !HasApproved(s, r.requestId))
    && r.databaseAnchor.Some? && r.registryAnchor.Some? && r.policyAnchor.Some?
    && !Blank(r.requestId) && !Blank(d.candidate.candidateId) && !Blank(d.reviewer)
  }

  /** A decision already taken must be the same; a new one must be free. */
  predicate Takeable(s: State, d: Decision) {
    var key := (d.recommendation.requestId, d.candidate.candidateId);
    && AsExpected(s, d.recommendation.requestId, d.expected)
    && if key in s.approvals then MatchesDecision(s.approvals[key], d.status, d.reviewer, d.note, d.mode) else Free(s, d)
  }

  lemma BoundIff(h: Hash, d: Decision, t: Trace, now: int)
    requires ChainOk(h, t)
    ensures var r := d.recommendation;
            BoundApproval(h, d, t, now).Ok? <==>
              && r.databaseAnchor.Some? && r.registryAnchor.Some? && r.policyAnchor.Some?
              && !Blank(r.requestId) && !Blank(d.candidate.candidateId) && !Blank(d.reviewer)
  {
    hide LinkOk, ChainAt, CandidateSha, RecommendationSha, Blank;
  }

  /** The store takes a prepared decision exactly when the request is neither locked nor, for an approval, approved. */
  lemma NewApprovalIff(h: Hash, s: State, d: Decision, a: Approval, t: Trace, r: Recommendation, live: Trace)
    requires DecisionCommitOk(h, d, a, t) && SameContent(d.recommendation, r)
    requires FindReviewed(d.recommendation, d.candidate.candidateId) == Some(d.candidate)
    requires d.status == APPROVED || d.status == REJECTED
    requires d.status == REJECTED ==> d.mode == STANDARD
    requires ChainOk(h, live) && ExtendsPast(h, live, t) && live.revision == t.revision - 1
    ensures NewApprovalError(h, s, r, live, a, t, RecommendationSha(h, d.recommendation), t.revision - 1).None? <==>
      a.requestId !in s.locked && (a.status == APPROVED ==> !HasApproved(s, a.requestId))
  {
    hide HasApproved;
    ContentDecides(h, d.recommendation, r);
    assert live.entries[..t.revision - 1] == live.entries;
    assert CommitTraceError(h, live, t, t.revision - 1).None?;
    assert d.reviewer != "";
  }

  /** The commit of a prepared decision whose compare-and-set succeeds. */
  lemma CommitAlone(h: Hash, s: State, d: Decision, first: int, a: Approval, t: Trace, clock: Clock, k: nat)
    requires StateInv(h, s) && TaskInv(h, s, CommitDecision(d, 0, first, a, t))
    requires s.traces[d.recommendation.requestId].revision == t.revision - 1
    requires (d.recommendation.requestId, d.candidate.candidateId) !in s.approvals
    ensures Alone(h, s, CommitDecision(d, 0, first, a, t), clock, k).1.Decided? <==>
      d.recommendation.requestId !in s.locked && (d.status == APPROVED ==> !HasApproved(s, d.recommendation.requestId))
  {
    hide Step, SaveApprovalSpec, RunsInv, ApprovalsInv, LocksInv, OneApproved, DecidedBeforeLock, DecisionCommitOk, ExtendsPast, RunInv,
         ChainOk, SameContent, FindReviewed, ApproveChecks, HasApproved, Alone, NewApprovalError;
    var id := d.recommendation.requestId;
    DecisionIds(h, d, a, t);
    DecisionStatus(h, d, a, t);
    RunOf(h, s, id);
    NewApprovalIff(h, s, d, a, t, s.recommendations[id], s.traces[id]);
    NewApprovalErrorKinds(h, s, d, a, t, s.recommendations[id], s.traces[id]);
    AloneStep(h, s, CommitDecision(d, 0, first, a, t), clock, k);
    StepCommitsDecision(h, s, d, 0, first, a, t, clock(k));
    SavedIff(h, s, a, t, RecommendationSha(h, d.recommendation));
    var (u, next) := Step(h, s, CommitDecision(d, 0, first, a, t), clock(k));
    AloneDone(h, u, next.outcome, clock, k + 1);
  }

  lemma DecisionStatus(h: Hash, d: Decision, a: Approval, t: Trace)
    requires DecisionCommitOk(h, d, a, t)
    ensures a.status == d.status
  {
    hide CandidateSha, RecommendationSha, ChainAt, ChainOk;
  }

  lemma SavedIff(h: Hash, s: State, a: Approval, t: Trace, sha: Digest)
    requires a.requestId in s.recommendations && a.requestId in s.traces && s.traces[a.requestId].revision == t.revision - 1
    requires (a.requestId, a.candidateId) !in s.approvals
    ensures var result := SaveApprovalSpec(h, s, a, t, sha, t.revision - 1).1;
            var e := NewApprovalError(h, s, s.recommendations[a.requestId], s.traces[a.requestId], a, t, sha, t.revision - 1);
            if e.None? then result == Ok(a) else result == Err(e.value)
  {
    hide NewApprovalError, WithTrace, MatchesDecision, SameStableBindings;
  }

  lemma TraceAlone(h: Hash, s: State, d: Decision, clock: Clock, k: nat)
    requires StateInv(h, s) && DecisionOk(s, d) && AsExpected(s, d.recommendation.requestId, d.expected)
    requires (d.recommendation.requestId, d.candidate.candidateId) !in s.approvals
    ensures Alone(h, s, ReadTrace(d, 0, 0), clock, k).1.Decided? <==> Free(s, d)
  {
    hide Step, RunsInv, ApprovalsInv, LocksInv, OneApproved, DecidedBeforeLock, DecisionCommitOk, ExtendsPast, RunInv, ChainOk, SameContent,
         FindReviewed, ApproveChecks, HasApproved, Alone, BoundApproval, Appended, Blank;
    var id, now := d.recommendation.requestId, clock(k);
    RunOf(h, s, id);
    var live := s.traces[id];
    var (message, details) := DecisionEvent(d);
    var t := Appended(h, live, "human_approval", message, details, now);
    AloneStep(h, s, ReadTrace(d, 0, 0), clock, k);
    StepReadTrace(h, s, d, 0, 0, now);
    FirstAttempt(h, s, d);
    AfterTraceInv(h, s, d, 0, 0, now);
    DecisionPrepared(h, d, live, now);
    ExtendsChain(h, live, t);
    BoundIff(h, d, t, now);
    var bound := BoundApproval(h, d, t, now);
    if bound.Ok? {
      CommitAlone(h, s, d, live.revision, bound.value, t, clock, k + 1);
    } else {
      AloneDone(h, s, Raised(bound.error), clock, k + 1);
    }
  }

  lemma ExistingAlone(h: Hash, s: State, d: Decision, clock: Clock, k: nat)
    requires StateInv(h, s) && DecisionOk(s, d) && AsExpected(s, d.recommendation.requestId, d.expected)
    ensures Alone(h, s, ReadExisting(d), clock, k).1.Decided? <==> Takeable(s, d)
  {
    hide Step, StateInv, DecisionOk, Alone, Free, MatchesDecision;
    AloneStep(h, s, ReadExisting(d), clock, k);
    StepReadExisting(h, s, d, clock(k));
    var next := AfterExisting(s, d);
    if next.Done? { AloneDone(h, s, next.outcome, clock, k + 1); } else { TraceAlone(h, s, d, clock, k + 1); }
  }

  lemma DecisionAlone(h: Hash, s: State, d: Decision, clock: Clock, k: nat)
    requires StateInv(h, s) && DecisionOk(s, d)
    ensures Alone(h, s, StartDecision(d), clock, k).1.Decided? <==> Takeable(s, d)
  {
    hide Step, StateInv, Alone, Takeable, SameContent, FindReviewed, ApproveChecks;
    if d.expected.None? {
      ExistingAlone(h, s, d, clock, k);
    } else {
      AloneStep(h, s, CheckDecisionRevision(d), clock, k);
      StepCheckDecision(h, s, d, clock(k));
      var next := Step(h, s, CheckDecisionRevision(d), clock(k)).1;
      TakeableExpects(s, d);
      if next.Done? { AloneDone(h, s, next.outcome, clock, k + 1); } else { ExistingAlone(h, s, d, clock, k + 1); }
    }
  }

  lemma TakeableExpects(s: State, d: Decision)
    ensures Takeable(s, d) ==> AsExpected(s, d.recommendation.requestId, d.expected)
  {}

  /** The decision a command asks for. */
  function Asked(r: Recommendation, c: Candidate, cmd: Command): Decision
    requires !cmd.LockCandidate?
  {
    Decision(r, c, cmd.reviewer, if cmd.Approve? then APPROVED else REJECTED, cmd.note, if cmd.Approve? then cmd.mode else STANDARD, cmd.expected)
  }

  /** What the stored state must be for approve or reject to decide. */
  predicate Decidable(s: State, cmd: Command)
    requires !cmd.LockCandidate?
  {
    && cmd.requestId in s.recommendations
    && var r := s.recommendations[cmd.requestId];
    && FindReviewed(r, cmd.candidateId).Some?
    && var c := FindReviewed(r, cmd.candidateId).value;
    && (cmd.Approve? ==> PassedGates(r, c, cmd.note, cmd.mode))
    && Takeable(s, Asked(r, c, cmd))
  }

  /** Undisturbed, approve and reject decide exactly when the candidate is offered, passes the gates of its mode, the
      revision is the expected one, and the decision was taken before or is still free to be taken. */
  lemma UndisturbedDecision(h: Hash, actions: seq<Action>, cmd: Command, clock: Clock)
    requires EngineDriven(h, actions) && !cmd.LockCandidate?
    ensures Alone(h, Reach(h, actions).state, Start(cmd), clock, 0).1.Decided? <==> Decidable(Reach(h, actions).state, cmd)
  {
    ReachInv(h, actions);
    hide Reach, EngineDriven;
    DecisionFromStart(h, Reach(h, actions).state, cmd, clock);
  }

  lemma DecisionFromStart(h: Hash, s: State, cmd: Command, clock: Clock)
    requires StateInv(h, s) && !cmd.LockCandidate?
    ensures Alone(h, s, Start(cmd), clock, 0).1.Decided? <==> Decidable(s, cmd)
  {
    hide Step, RunsInv, ApprovalsInv, LocksInv, OneApproved, DecidedBeforeLock, Alone, Takeable, FindReviewed, ApproveChecks, PassedGates,
         StartDecision, SameContent;
    AloneStep(h, s, ReadRecommendation(cmd), clock, 0);
    StepReadRecommendation(h, s, cmd, clock(0));
    if cmd.requestId in s.recommendations {
      var r := s.recommendations[cmd.requestId];
      KnownRun(h, s, cmd.requestId);
      FoundId(r, cmd.candidateId);
      if cmd.Approve? { ApproveChecksIff(r, cmd.candidateId, cmd.note, cmd.mode); }
      if FindReviewed(r, cmd.candidateId).Some? && (cmd.Approve? ==> ApproveChecks(r, cmd.candidateId, cmd.note, cmd.mode).Ok?) {
        DecisionAlone(h, s, Asked(r, FindReviewed(r, cmd.candidateId).value, cmd), clock, 1);
      } else {
        AloneDone(h, s, AfterRecommendation(s, cmd).outcome, clock, 1);
      }
    } else {
      AloneDone(h, s, AfterRecommendation(s, cmd).outcome, clock, 1);
    }
  }

  // ---- when a candidate can be locked ----

  predicate LockAllowed(s: State, cmd: Command) {
    var key := (cmd.requestId, cmd.candidateId);
    && (cmd.expected.Some? ==> AsExpected(s, cmd.requestId, cmd.expected))
    && if cmd.requestId in s.locked then s.locked[cmd.requestId].candidate.candidateId == cmd.candidateId
       else
         && key in s.approvals && s.approvals[key].status == APPROVED && cmd.requestId in s.recommendations
         && FindReviewed(s.recommendations[cmd.requestId], cmd.candidateId).Some?
         && Derivation.LockTotalCheck(FindReviewed(s.recommendations[cmd.requestId], cmd.candidateId).value).Ok?
         && !Blank(cmd.requestId) && !Blank(cmd.reviewer)
  }

  lemma LockCommitAlone(h: Hash, s: State, l: Locking, first: int, lock: Lock, t: Trace, clock: Clock, k: nat)
    requires StateInv(h, s) && TaskInv(h, s, CommitLock(l, 0, first, lock, t))
    requires s.traces[l.recommendation.requestId].revision == t.revision - 1 && l.recommendation.requestId !in s.locked
    ensures Alone(h, s, CommitLock(l, 0, first, lock, t), clock, k).1 == Locked(lock)
  {
    hide Step, SaveLockedSpec, RunsInv, ApprovalsInv, LocksInv, OneApproved, DecidedBeforeLock, LockCommitOk, ExtendsPast, RunInv, ChainOk,
         SameContent, FindReviewed, BoundTo, Alone, NewLockError, Gated, BindsPrefix;
    var id := l.recommendation.requestId;
    LockIds(h, l, lock, t);
    StoredDecision(h, s, (id, l.candidate.candidateId));
    RunOf(h, s, id);
    NewLockAccepted(h, s, l, lock, t, s.recommendations[id], s.traces[id]);
    AloneStep(h, s, CommitLock(l, 0, first, lock, t), clock, k);
    StepCommitsLock(h, s, l, 0, first, lock, t, clock(k));
    LockSavedIff(h, s, lock, t, RecommendationSha(h, l.recommendation));
    var u := Step(h, s, CommitLock(l, 0, first, lock, t), clock(k)).0;
    AloneDone(h, u, Locked(lock), clock, k + 1);
  }

  lemma LockSavedIff(h: Hash, s: State, l: Lock, t: Trace, sha: Digest)
    requires l.requestId in s.recommendations && l.requestId in s.traces && s.traces[l.requestId].revision == t.revision - 1
    requires l.requestId !in s.locked
    requires NewLockError(h, s, s.recommendations[l.requestId], s.traces[l.requestId], l, t, sha, t.revision - 1).None?
    ensures SaveLockedSpec(h, s, l, t, sha, t.revision - 1).1 == Ok(l)
  {
    hide NewLockError, WithTrace;
  }

  lemma LockTraceAlone(h: Hash, s: State, l: Locking, clock: Clock, k: nat)
    requires StateInv(h, s) && LockingOk(s, l) && AsExpected(s, l.recommendation.requestId, l.expected)
    requires l.recommendation.requestId !in s.locked
    ensures Alone(h, s, ReadLockTrace(l, 0, 0), clock, k).1.Locked? <==> !Blank(l.recommendation.requestId) && !Blank(l.reviewer)
  {
    hide Step, RunsInv, ApprovalsInv, LocksInv, OneApproved, DecidedBeforeLock, LockCommitOk, ExtendsPast, RunInv, ChainOk, SameContent,
         FindReviewed, BoundTo, Alone, Appended, SnapshotOf, ChainAtRevision, LockDetailsOf, Blank, Gated, BindsPrefix,
         Derivation.LockTotalCheck, CandidateSha, RecommendationSha, ApprovalSha;
    var id, now := l.recommendation.requestId, clock(k);
    var key := (id, l.candidate.candidateId);
    StoredDecision(h, s, key);
    RunOf(h, s, id);
    var live := s.traces[id];
    AnchorPresent(h, s.recommendations[id], live, id, l.approval);
    PrefixTestPasses(h, live, l.approval);
    AloneStep(h, s, ReadLockTrace(l, 0, 0), clock, k);
    StepReadLockTrace(h, s, l, 0, 0, now);
    LockPrepared(h, l, live, now);
    AfterLockTraceInv(h, s, l, 0, 0, now);
    var (u, next) := Step(h, s, ReadLockTrace(l, 0, 0), now);
    if next.Done? {
      AloneDone(h, s, next.outcome, clock, k + 1);
    } else {
      LockCommitAlone(h, s, l, next.first, next.lock, next.trace, clock, k + 1);
    }
  }

  lemma ApprovedAlone(h: Hash, s: State, cmd: Command, clock: Clock, k: nat)
    requires StateInv(h, s) && cmd.LockCandidate? && cmd.requestId !in s.locked
    requires (cmd.requestId, cmd.candidateId) in s.approvals && s.approvals[(cmd.requestId, cmd.candidateId)].status == APPROVED
    requires cmd.expected.Some? ==> AsExpected(s, cmd.requestId, cmd.expected)
    ensures Alone(h, s, ReadLockedRecommendation(cmd, s.approvals[(cmd.requestId, cmd.candidateId)]), clock, k).1.Locked? <==> LockAllowed(s, cmd)
  {
    hide Step, RunsInv, ApprovalsInv, LocksInv, OneApproved, DecidedBeforeLock, Alone, LockChecks, FindReviewed, RunInv, BoundTo, Gated,
         BindsPrefix, SameContent, Blank, Derivation.LockTotalCheck;
    var key := (cmd.requestId, cmd.candidateId);
    var a := s.approvals[key];
    StoredDecision(h, s, key);
    KnownRun(h, s, cmd.requestId);
    var r := s.recommendations[cmd.requestId];
    FoundId(r, cmd.candidateId);
    ApprovedPassesLock(h, r, s.traces[cmd.requestId], key, a);
    LockChecksInv(h, r, cmd.candidateId, a);
    AloneStep(h, s, ReadLockedRecommendation(cmd, a), clock, k);
    StepReadLockedRecommendation(h, s, cmd, a, clock(k));
    var next := Step(h, s, ReadLockedRecommendation(cmd, a), clock(k)).1;
    if next.Done? { AloneDone(h, s, next.outcome, clock, k + 1); } else { LockTraceAlone(h, s, next.l, clock, k + 1); }
  }

  lemma ReadLockedAlone(h: Hash, s: State, cmd: Command, clock: Clock, k: nat)
    requires StateInv(h, s) && cmd.LockCandidate?
    requires cmd.expected.Some? ==> AsExpected(s, cmd.requestId, cmd.expected)
    ensures Alone(h, s, ReadLocked(cmd), clock, k).1.Locked? <==> LockAllowed(s, cmd)
  {
    hide Step, StateInv, Alone, FindReviewed, Blank, Derivation.LockTotalCheck;
    AloneStep(h, s, ReadLocked(cmd), clock, k);
    StepReadLocked(h, s, cmd, clock(k));
    var next := Step(h, s, ReadLocked(cmd), clock(k)).1;
    if next.Done? {
      AloneDone(h, s, next.outcome, clock, k + 1);
    } else {
      AloneStep(h, s, ReadApproval(cmd), clock, k + 1);
      StepReadApproval(h, s, cmd, clock(k + 1));
      var after := AfterApproval(s, cmd);
      if after.Done? { AloneDone(h, s, after.outcome, clock, k + 2); } else { ApprovedAlone(h, s, cmd, clock, k + 2); }
    }
  }

  /** Undisturbed, lock succeeds exactly when the revision is the expected one and the candidate is the one locked
      already, or is approved with a consistent total. */
  lemma UndisturbedLock(h: Hash, actions: seq<Action>, cmd: Command, clock: Clock)
    requires EngineDriven(h, actions) && cmd.LockCandidate?
    ensures Alone(h, Reach(h, actions).state, Start(cmd), clock, 0).1.Locked? <==> LockAllowed(Reach(h, actions).state, cmd)
  {
    ReachInv(h, actions);
    hide Reach, EngineDriven, Alone, Step, StateInv, FindReviewed, Blank, Derivation.LockTotalCheck;
    var s := Reach(h, actions).state;
    if cmd.expected.None? {
      ReadLockedAlone(h, s, cmd, clock, 0);
    } else {
      AloneStep(h, s, CheckLockRevision(cmd), clock, 0);
      StepCheckLock(h, s, cmd, clock(0));
      var next := Step(h, s, CheckLockRevision(cmd), clock(0)).1;
      if next.Done? { AloneDone(h, s, next.outcome, clock, 1); } else { ReadLockedAlone(h, s, cmd, clock, 1); }
    }
  }
}
