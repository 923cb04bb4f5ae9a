/** What holds in every reachable configuration of the review protocol, whatever calls run and however
    their awaits interleave. */
module ReviewTheorems {
  import opened Prelude
  import opened Models
  import opened Records
  import opened Store
  import opened Review
  import opened ReviewInvariant
  import opened ReviewSteps
  import Derivation

  ghost predicate ConfigInv(h: Hash, c: Config) {
    && StateInv(h, c.state)
    && forall i :: 0 <= i < |c.tasks| ==> TaskInv(h, c.state, c.tasks[i])
  }

  // ---- runs ----

  lemma TasksStable(h: Hash, s: State, u: State, tasks: seq<Task>)
    requires RunsInv(h, s) && RunsInv(h, u) && Grows(s, u)
    requires forall i :: 0 <= i < |tasks| ==> TaskInv(h, s, tasks[i])
    ensures forall i :: 0 <= i < |tasks| ==> TaskInv(h, u, tasks[i])
  {
    forall i | 0 <= i < |tasks| ensures TaskInv(h, u, tasks[i]) {
      TaskStable(h, s, u, tasks[i]);
    }
  }

  lemma ResolveInv(h: Hash, s: State, r: Recommendation, t: Trace)
    requires StateInv(h, s) && BoundRun(h, r, t)
    ensures StateInv(h, SaveRunSpec(h, s, r, t).0) && Grows(s, SaveRunSpec(h, s, r, t).0)
  {
    hide StateInv, Grows;
    GrowsReflexive(s);
    if SaveRunSpec(h, s, r, t).1.Ok? { TraceWrite(h, s, r, t); }
  }

  lemma AppendTraceInv(h: Hash, s: State, t: Trace)
    requires StateInv(h, s)
    ensures StateInv(h, SaveTraceSpec(h, s, t).0) && Grows(s, SaveTraceSpec(h, s, t).0)
  {
    hide ApprovalsInv, LocksInv, OneApproved, DecidedBeforeLock, Grows, RunsInv, LinkOk, HashPrefix, Hashes;
    var id := t.envelope.requestId;
    GrowsReflexive(s);
    if SaveTraceSpec(h, s, t).1.Ok? {
      RunOf(h, s, id);
      TraceWrite(h, s, s.recommendations[id], t);
    }
  }

  /** One action of anyone keeps the invariant and takes nothing back. */
  lemma ApplyInv(h: Hash, c: Config, a: Action)
    requires ConfigInv(h, c)
    requires a.Resolve? ==> BoundRun(h, a.recommendation, a.trace)
    ensures ConfigInv(h, Apply(h, c, a)) && Grows(c.state, Apply(h, c, a).state)
  {
    hide RunsInv, ApprovalsInv, LocksInv, OneApproved, DecidedBeforeLock, Grows, Step, SaveRunSpec, SaveTraceSpec, TaskInv;
    GrowsReflexive(c.state);
    match a
    case Resolve(r, t) =>
      ResolveInv(h, c.state, r, t);
      TasksStable(h, c.state, Apply(h, c, a).state, c.tasks);
    case Call(cmd) => StartInv(h, c.state, cmd);
    case Advance(i, now) =>
      if i < |c.tasks| {
        StepState(h, c.state, c.tasks[i], now);
        StepNext(h, c.state, c.tasks[i], now);
        TasksStable(h, c.state, Apply(h, c, a).state, c.tasks);
      }
    case AppendTrace(t) =>
      AppendTraceInv(h, c.state, t);
      TasksStable(h, c.state, Apply(h, c, a).state, c.tasks);
  }

  lemma StartInv(h: Hash, s: State, cmd: Command)
    ensures TaskInv(h, s, Start(cmd))
  {}

  lemma {:induction false} RunKeeps(h: Hash, c: Config, actions: seq<Action>)
    requires ConfigInv(h, c) && EngineDriven(h, actions)
    ensures ConfigInv(h, Run(h, c, actions)) && Grows(c.state, Run(h, c, actions).state)
    decreases |actions|
  {
    hide ConfigInv, Grows, Apply;
    GrowsReflexive(c.state);
    if actions != [] {
      var d := Apply(h, c, actions[0]);
      ApplyInv(h, c, actions[0]);
      assert EngineDriven(h, actions[1..]);
      RunKeeps(h, d, actions[1..]);
      GrowsTransitive(c.state, d.state, Run(h, d, actions[1..]).state);
    }
  }

  lemma {:induction false} RunConcat(h: Hash, c: Config, xs: seq<Action>, ys: seq<Action>)
    ensures Run(h, c, xs + ys) == Run(h, Run(h, c, xs), ys)
    decreases |xs|
  {
    if xs == [] {
      assert xs + ys == ys;
    } else {
      assert (xs + ys)[1..] == xs[1..] + ys;
      RunConcat(h, Apply(h, c, xs[0]), xs[1..], ys);
    }
  }

  function Reach(h: Hash, actions: seq<Action>): Config {
    Run(h, INITIAL, actions)
  }

  lemma ReachInv(h: Hash, actions: seq<Action>)
    requires EngineDriven(h, actions)
    ensures ConfigInv(h, Reach(h, actions))
  {
    RunKeeps(h, INITIAL, actions);
  }

  lemma ReachGrows(h: Hash, before: seq<Action>, after: seq<Action>)
    requires EngineDriven(h, before + after)
    ensures ConfigInv(h, Reach(h, before)) && ConfigInv(h, Reach(h, before + after))
    ensures Grows(Reach(h, before).state, Reach(h, before + after).state)
  {
    assert EngineDriven(h, before) by {
      forall i | 0 <= i < |before| && before[i].Resolve? ensures BoundRun(h, before[i].recommendation, before[i].trace) {
        assert (before + after)[i] == before[i];
      }
    }
    assert EngineDriven(h, after) by {
      forall i | 0 <= i < |after| && after[i].Resolve? ensures BoundRun(h, after[i].recommendation, after[i].trace) {
        assert (before + after)[|before| + i] == after[i];
      }
    }
    ReachInv(h, before);
    RunConcat(h, INITIAL, before, after);
    RunKeeps(h, Reach(h, before), after);
  }

  // ---- safety over all interleavings ----

  /** A request never has two APPROVED decisions. */
  lemma AtMostOneApproval(h: Hash, actions: seq<Action>, j: Key, k: Key)
    requires EngineDriven(h, actions)
    ensures var s := Reach(h, actions).state;
            (j in s.approvals && k in s.approvals && j.0 == k.0
             && s.approvals[j].status == APPROVED && s.approvals[k].status == APPROVED) ==> j == k
  {
    ReachInv(h, actions);
  }

  /** Decisions and locks are write-once, and a locked request accepts no further decision. */
  lemma WriteOnce(h: Hash, before: seq<Action>, after: seq<Action>, k: Key, id: string)
    requires EngineDriven(h, before + after)
    ensures var s, u := Reach(h, before).state, Reach(h, before + after).state;
            && (k in s.approvals ==> k in u.approvals && u.approvals[k] == s.approvals[k])
            && (id in s.locked ==> id in u.locked && u.locked[id] == s.locked[id])
            && (k.0 in s.locked && k in u.approvals ==> k in s.approvals)
  {
    ReachGrows(h, before, after);
  }

  /** A lock embeds the stored APPROVED decision, although the store itself never checks that status. */
  lemma LockedWasApproved(h: Hash, actions: seq<Action>, id: string)
    requires EngineDriven(h, actions)
    requires id in Reach(h, actions).state.locked
    ensures var s := Reach(h, actions).state;
            var l := s.locked[id];
            var k := (id, l.candidate.candidateId);
            && k in s.approvals && s.approvals[k].status == APPROVED
            && l.approval == s.approvals[k].(status := LOCKED)
            && s.approvals[k].traceRevision.Some? && s.approvals[k].traceRevision.value < l.snapshot.traceRevision
  {
    ReachInv(h, actions);
    var s := Reach(h, actions).state;
    assert LockInv(h, s.recommendations[id], s.traces[id], s.approvals[(id, s.locked[id].candidate.candidateId)], id, s.locked[id]);
  }

  /** Every decision stays bound to an unchanged prefix of the live trace and to an unchanged
      recommendation, in every later configuration. */
  lemma DecisionStaysBound(h: Hash, before: seq<Action>, after: seq<Action>, k: Key)
    requires EngineDriven(h, before + after) && k in Reach(h, before).state.approvals
    ensures var a, u := Reach(h, before).state.approvals[k], Reach(h, before + after).state;
            && k.0 in u.recommendations && k.0 in u.traces
            && a.recommendationSha == Some(RecommendationSha(h, u.recommendations[k.0]))
            && FindReviewed(u.recommendations[k.0], k.1).Some?
            && a.candidateSha == Some(CandidateSha(h, FindReviewed(u.recommendations[k.0], k.1).value))
            && a.traceRevision.Some? && 1 <= a.traceRevision.value <= u.traces[k.0].revision
            && ChainAtRevision(h, u.traces[k.0], a.traceRevision.value).Ok?
            && a.traceChain == Some(ChainAtRevision(h, u.traces[k.0], a.traceRevision.value).value)
  {
    hide Reach, EngineDriven, RunsInv, ApprovalsInv, LocksInv, OneApproved, DecidedBeforeLock, TaskInv, Gated, CandidateSha, RecommendationSha,
         FindReviewed, SameContent, HashPrefix, ChainAt, LinkOk;
    ReachGrows(h, before, after);
    var u := Reach(h, before + after).state;
    StoredDecision(h, u, k);
  }

  /** So does every lock; without collisions its frozen entries are the live prefix, entry by entry. */
  lemma LockStaysBound(h: Hash, before: seq<Action>, after: seq<Action>, id: string)
    requires EngineDriven(h, before + after) && id in Reach(h, before).state.locked
    ensures var l, u := Reach(h, before).state.locked[id], Reach(h, before + after).state;
            && id in u.traces && 1 <= l.snapshot.traceRevision <= u.traces[id].revision == |u.traces[id].entries|
            && l.snapshot.traceChain == ChainAt(h, u.traces[id], l.snapshot.traceRevision)
            && (CollisionFree(h) ==> l.snapshot.entries == u.traces[id].entries[..l.snapshot.traceRevision])
  {
    hide Reach, EngineDriven, RunsInv, ApprovalsInv, LocksInv, OneApproved, DecidedBeforeLock, TaskInv, ApprovalInv, RunInv, LockInv,
         SameContent, HashPrefix;
    ReachGrows(h, before, after);
    var u := Reach(h, before + after).state;
    var l := Reach(h, before).state.locked[id];
    assert u.locked[id] == l;
    StoredLockInv(h, u, id);
    RunOf(h, u, id);
    FrozenPrefix(h, u.recommendations[id], u.traces[id], u.approvals[(id, l.candidate.candidateId)], id, l);
  }

  /** A stored lock binds the live trace; without collisions its frozen entries are the live prefix. */
  lemma FrozenPrefix(h: Hash, r: Recommendation, t: Trace, a: Approval, id: string, l: Lock)
    requires LockInv(h, r, t, a, id, l) && ChainOk(h, t)
    ensures 1 <= l.snapshot.traceRevision <= t.revision == |t.entries|
    ensures l.snapshot.traceChain == ChainAt(h, t, l.snapshot.traceRevision)
    ensures CollisionFree(h) ==> l.snapshot.entries == t.entries[..l.snapshot.traceRevision]
  {
    hide CandidateSha, RecommendationSha, ApprovalSha, FindReviewed, Derivation.LockTotalCheck, ChainAt, LinkOk;
    var n := l.snapshot.traceRevision;
    if CollisionFree(h) {
      var frozen := Trace(t.envelope, n, l.snapshot.entries);
      assert Hashes(frozen.entries)[n - 1] == Hashes(t.entries[..n])[n - 1];
      EntryHashFixesHistory(h, frozen, t, n, n);
      assert frozen.entries[..n] == frozen.entries;
    }
  }

  lemma StoredLockInv(h: Hash, s: State, id: string)
    requires StateInv(h, s) && id in s.locked
    ensures id in s.recommendations && id in s.traces && (id, s.locked[id].candidate.candidateId) in s.approvals
    ensures LockInv(h, s.recommendations[id], s.traces[id], s.approvals[(id, s.locked[id].candidate.candidateId)], id, s.locked[id])
    ensures RunInv(h, id, s.recommendations[id], s.traces[id])
    ensures ApprovalInv(h, s.recommendations[id], s.traces[id], (id, s.locked[id].candidate.candidateId),
                        s.approvals[(id, s.locked[id].candidate.candidateId)])
  {
    hide LockInv, ApprovalInv, RunInv, OneApproved, DecidedBeforeLock;
    StoredDecision(h, s, (id, s.locked[id].candidate.candidateId));
  }

  /** No call of approve, reject or lock ever ends with an integrity error. */
  lemma NoIntegrityError(h: Hash, actions: seq<Action>, i: nat)
    requires EngineDriven(h, actions) && i < |Reach(h, actions).tasks|
    ensures var t := Reach(h, actions).tasks[i];
            t.Done? && t.outcome.Raised? ==> !t.outcome.error.IntegrityError?
  {
    ReachInv(h, actions);
    var c := Reach(h, actions);
    assert TaskInv(h, c.state, c.tasks[i]);
  }

  /** What a call reported stays stored. */
  lemma ReportedStaysStored(h: Hash, before: seq<Action>, after: seq<Action>, i: nat)
    requires EngineDriven(h, before + after) && i < |Reach(h, before).tasks| && Reach(h, before).tasks[i].Done?
    ensures OutcomeOk(Reach(h, before + after).state, Reach(h, before).tasks[i].outcome)
  {
    ReachGrows(h, before, after);
    hide Reach, EngineDriven, RunsInv, ApprovalsInv, LocksInv, OneApproved, DecidedBeforeLock;
    var c := Reach(h, before);
    assert TaskInv(h, c.state, c.tasks[i]);
    OutcomeStable(c.state, Reach(h, before + after).state, c.tasks[i].outcome);
  }

  // ---- the gate in front of a lock ----

  /** The gates of approve, as conditions on the candidate and its recommendation. */
  predicate PassedGates(r: Recommendation, c: Candidate, note: string, mode: ApprovalMode) {
    && (r.status == RECOMMENDATION_READY || r.status == REFERENCE_REVIEW_REQUIRED)
    && !HardRejected(c) && !AdmissionIncomplete(c)
    && (c.resultTier == REFERENCE_ONLY ==> mode == REFERENCE_OVERRIDE && !Blank(note))
    && (c.resultTier == USABLE_WITH_ASSUMPTIONS ==> mode != STANDARD)
    && (r.status == REFERENCE_REVIEW_REQUIRED ==> mode == REFERENCE_OVERRIDE)
    && (c !in r.candidates ==> mode == REFERENCE_OVERRIDE)
  }

  /** approve accepts a candidate exactly when it is the first one with the id and passes these gates. */
  lemma ApproveChecksIff(r: Recommendation, id: string, note: string, mode: ApprovalMode)
    ensures ApproveChecks(r, id, note, mode).Ok? <==>
      FindReviewed(r, id).Some? && PassedGates(r, FindReviewed(r, id).value, note, mode)
    ensures ApproveChecks(r, id, note, mode).Ok? ==> FindReviewed(r, id) == Some(ApproveChecks(r, id, note, mode).value)
  {
    FindConcat(r.candidates, r.reviewable, id);
    hide HardRejected, AdmissionIncomplete, Blank, Find;
  }

  /** Hence what passed approve's checks passed every gate. */
  lemma ApproveChecksMean(r: Recommendation, id: string, note: string, mode: ApprovalMode)
    requires ApproveChecks(r, id, note, mode).Ok?
    ensures FindReviewed(r, id) == Some(ApproveChecks(r, id, note, mode).value)
    ensures PassedGates(r, ApproveChecks(r, id, note, mode).value, note, mode)
  {
    hide ApproveChecks, PassedGates, FindReviewed;
    ApproveChecksIff(r, id, note, mode);
  }

  /** The decision digests this candidate and this recommendation, under its anchors. */
  predicate Binds(h: Hash, r: Recommendation, c: Candidate, a: Approval) {
    && IntegrityBound(a)
    && a.candidateSha == Some(CandidateSha(h, c)) && a.recommendationSha == Some(RecommendationSha(h, r))
    && a.recommendationRevision == Some(r.revision)
    && (a.databaseAnchor, a.registryAnchor, a.policyAnchor) == (r.databaseAnchor, r.registryAnchor, r.policyAnchor)
  }

  /** lock accepts a candidate exactly when it is the first one with the id, nothing bars it, the mode of the decision
      allows its tier, its total is consistent, and the decision binds it. */
  lemma LockChecksIff(h: Hash, r: Recommendation, id: string, a: Approval)
    ensures LockChecks(h, r, id, a).Ok? <==>
      && FindReviewed(r, id).Some?
      && var c := FindReviewed(r, id).value;
         && !AdmissionIncomplete(c) && !HardRejected(c)
         && (c.resultTier == REFERENCE_ONLY ==> a.mode == REFERENCE_OVERRIDE)
         && (c.resultTier == USABLE_WITH_ASSUMPTIONS ==> a.mode != STANDARD)
         && Derivation.LockTotalCheck(c).Ok? && Binds(h, r, c, a)
    ensures LockChecks(h, r, id, a).Ok? ==> FindReviewed(r, id) == Some(LockChecks(h, r, id, a).value)
  {
    hide AdmissionIncomplete, HardRejected, FindReviewed, CandidateSha, RecommendationSha, IntegrityBound, Derivation.LockTotalCheck;
  }

  /** What approve checked and bound, lock finds again: only the total is left to refuse an approved candidate. */
  lemma ApprovedPassesLock(h: Hash, r: Recommendation, t: Trace, k: Key, a: Approval)
    requires ApprovalInv(h, r, t, k, a) && a.status == APPROVED
    ensures FindReviewed(r, k.1).Some?
    ensures LockChecks(h, r, k.1, a).Ok? <==> Derivation.LockTotalCheck(FindReviewed(r, k.1).value).Ok?
  {
    hide BindsPrefix, HardRejected, AdmissionIncomplete, Derivation.LockTotalCheck, FindReviewed, ApproveChecks, CandidateSha, RecommendationSha;
    ApproveChecksMean(r, k.1, a.note, a.mode);
  }

  lemma LockedPassedGates(h: Hash, r: Recommendation, t: Trace, a: Approval, id: string, l: Lock)
    requires LockInv(h, r, t, a, id, l) && ApprovalInv(h, r, t, (id, l.candidate.candidateId), a)
    ensures FindReviewed(r, l.candidate.candidateId) == Some(l.candidate) && PassedGates(r, l.candidate, a.note, a.mode)
  {
    hide BindsPrefix, BoundTo, ChainOk, CandidateSha, RecommendationSha, ApprovalSha, FindReviewed, ApproveChecks, PassedGates;
    ApproveChecksMean(r, l.candidate.candidateId, a.note, a.mode);
  }

  /** Whatever is locked came from the committed recommendation and passed every approval gate. */
  lemma LockedWasAdmissible(h: Hash, actions: seq<Action>, id: string)
    requires EngineDriven(h, actions)
    requires id in Reach(h, actions).state.locked
    ensures id in Reach(h, actions).state.recommendations
    ensures (id, Reach(h, actions).state.locked[id].candidate.candidateId) in Reach(h, actions).state.approvals
    ensures var s := Reach(h, actions).state;
            var c := s.locked[id].candidate;
            var r := s.recommendations[id];
            var a := s.approvals[(id, c.candidateId)];
            FindReviewed(r, c.candidateId) == Some(c) && PassedGates(r, c, a.note, a.mode)
  {
    hide Reach, EngineDriven, LockInv, ApprovalInv, RunInv, RunsInv, ApprovalsInv, LocksInv, OneApproved, DecidedBeforeLock, TaskInv,
         PassedGates, FindReviewed;
    ReachInv(h, actions);
    var s := Reach(h, actions).state;
    StoredLockInv(h, s, id);
    var c := s.locked[id].candidate;
    LockedPassedGates(h, s.recommendations[id], s.traces[id], s.approvals[(id, c.candidateId)], id, s.locked[id]);
  }

  predicate Approvable(status: ResolutionStatus) {
    status == RECOMMENDATION_READY || status == REFERENCE_REVIEW_REQUIRED
  }

  /** A run saved with any other status is never approved and never locked, whatever is tried later. */
  lemma UnapprovableNeverLocked(h: Hash, before: seq<Action>, after: seq<Action>, id: string)
    requires EngineDriven(h, before + after)
    requires id in Reach(h, before).state.recommendations && !Approvable(Reach(h, before).state.recommendations[id].status)
    ensures var u := Reach(h, before + after).state;
            && id !in u.locked
            && forall k :: k in u.approvals && k.0 == id ==> u.approvals[k].status == REJECTED
  {
    hide Reach, EngineDriven, RunsInv, ApprovalsInv, LocksInv, OneApproved, DecidedBeforeLock, TaskInv, PassedGates;
    ReachGrows(h, before, after);
    var s, u := Reach(h, before).state, Reach(h, before + after).state;
    ContentDecides(h, s.recommendations[id], u.recommendations[id]);
    hide SameContent, HashPrefix;
    forall k | k in u.approvals && k.0 == id ensures u.approvals[k].status == REJECTED {
      StoredDecision(h, u, k);
      UnapprovedStatus(h, u.recommendations[id], u.traces[id], k, u.approvals[k]);
    }
    if id in u.locked {
      StoredLockInv(h, u, id);
      assert false;
    }
  }

  lemma UnapprovedStatus(h: Hash, r: Recommendation, t: Trace, k: Key, a: Approval)
    requires ApprovalInv(h, r, t, k, a) && !Approvable(r.status)
    ensures a.status == REJECTED
  {
    hide BindsPrefix, BoundTo, HardRejected, AdmissionIncomplete;
  }

  // ---- retries ----

  /** The error raised after the retry loop is never reached. */
  lemma LoopNeverExhausted(h: Hash, actions: seq<Action>, i: nat)
    requires EngineDriven(h, actions) && i < |Reach(h, actions).tasks|
    ensures var t := Reach(h, actions).tasks[i];
            (t.ReadTrace? || t.ReadLockTrace?) ==> t.attempt < ATTEMPTS
  {
    ReachInv(h, actions);
    var c := Reach(h, actions);
    assert TaskInv(h, c.state, c.tasks[i]);
  }

  /** A call without an expected revision gives up as stale only after other callers have advanced the
      trace by at least eight entries since its first read. */
  lemma StaleMeansContention(h: Hash, actions: seq<Action>, i: nat, now: int)
    requires EngineDriven(h, actions) && i < |Reach(h, actions).tasks|
    ensures var c := Reach(h, actions);
            var task := c.tasks[i];
            var next := Step(h, c.state, task, now).1;
            next.Done? && next.outcome.Raised? && next.outcome.error.StaleError? ==>
              match task
              case CommitDecision(d, _, first, _, _) => d.expected.None? ==>
                d.recommendation.requestId in c.state.traces
                && c.state.traces[d.recommendation.requestId].revision >= first + 8
              case CommitLock(l, _, first, _, _) => l.expected.None? ==>
                l.recommendation.requestId in c.state.traces
                && c.state.traces[l.recommendation.requestId].revision >= first + 8
              case ReadTrace(d, _, _) => d.expected.Some?
              case ReadLockTrace(l, _, _) => l.expected.Some?
              case _ => true
  {
    ReachInv(h, actions);
    var c := Reach(h, actions);
    assert TaskInv(h, c.state, c.tasks[i]);
    hide Step, AfterTrace, AfterLockTrace, TaskInv, RunsInv, ApprovalsInv, LocksInv, OneApproved, DecidedBeforeLock, Reach;
    match c.tasks[i]
    case CommitDecision(d, attempt, first, a, t) =>
      CommitMembership(h, c.state, c.tasks[i]);
      if d.expected.None? { StaleDecision(h, c.state, d, attempt, first, a, t, now); }
    case CommitLock(l, attempt, first, lock, t) =>
      CommitMembership(h, c.state, c.tasks[i]);
      if l.expected.None? { StaleLock(h, c.state, l, attempt, first, lock, t, now); }
    case ReadTrace(d, attempt, first) => StaleRead(h, c.state, d, attempt, first, now);
    case ReadLockTrace(l, attempt, first) => StaleLockRead(h, c.state, l, attempt, first, now);
    case _ =>
  }

  lemma CommitMembership(h: Hash, s: State, task: Task)
    requires TaskInv(h, s, task)
    ensures task.CommitDecision? ==> task.d.recommendation.requestId in s.traces
    ensures task.CommitLock? ==> task.l.recommendation.requestId in s.traces
  {}

  /** A commit is stale only when its compare-and-set fails. */
  lemma ApprovalStale(h: Hash, s: State, a: Approval, t: Trace, sha: Digest, revision: int)
    ensures var result := SaveApprovalSpec(h, s, a, t, sha, revision).1;
            result.Err? && result.error.StaleError? ==> a.requestId in s.traces && s.traces[a.requestId].revision != revision
  {
    hide CommitTraceError, IntegrityBound, ApprovalBindings, HasApproved, RecommendationSha, MatchesDecision, SameStableBindings, WithTrace;
    if a.requestId in s.traces { TraceErrorNotStale(h, s.traces[a.requestId], t, revision); }
  }

  lemma LockStale(h: Hash, s: State, l: Lock, t: Trace, sha: Digest, revision: int)
    ensures var result := SaveLockedSpec(h, s, l, t, sha, revision).1;
            result.Err? && result.error.StaleError? ==> l.requestId in s.traces && s.traces[l.requestId].revision != revision
  {
    hide NewLockError, RecommendationSha, WithTrace;
    if l.requestId in s.recommendations && l.requestId in s.traces {
      LockErrorNotStale(h, s, s.recommendations[l.requestId], s.traces[l.requestId], l, t, sha, revision);
    }
  }

  lemma TraceErrorNotStale(h: Hash, live: Trace, t: Trace, revision: int)
    ensures CommitTraceError(h, live, t, revision).Some? ==> !CommitTraceError(h, live, t, revision).value.StaleError?
  {
    hide ChainOk, ExtendsByOne;
  }

  lemma SnapshotErrorNotStale(h: Hash, t: Trace, registry: Option<Digest>, policy: Option<Digest>)
    ensures SnapshotOf(h, t, registry, policy).Err? ==> !SnapshotOf(h, t, registry, policy).error.StaleError?
  {
    hide ChainOk, ChainAt;
  }

  lemma LockErrorNotStale(h: Hash, s: State, r: Recommendation, live: Trace, lock: Lock, t: Trace, sha: Digest, revision: int)
    ensures var e := NewLockError(h, s, r, live, lock, t, sha, revision); e.Some? ==> !e.value.StaleError?
  {
    hide CommitTraceError, SnapshotOf, RecommendationSha, ApprovalSha, CandidateSha, LockDetailsOf, FindReviewed;
    TraceErrorNotStale(h, live, t, revision);
    SnapshotErrorNotStale(h, t, r.registryAnchor, r.policyAnchor);
  }

  lemma StaleDecision(h: Hash, s: State, d: Decision, attempt: nat, first: int, a: Approval, t: Trace, now: int)
    requires RunsInv(h, s) && TaskInv(h, s, CommitDecision(d, attempt, first, a, t)) && d.expected.None?
    ensures var next := Step(h, s, CommitDecision(d, attempt, first, a, t), now).1;
            next.Done? && next.outcome.Raised? && next.outcome.error.StaleError? ==>
              s.traces[d.recommendation.requestId].revision >= first + 8
  {
    hide Step, RunsInv, SaveApprovalSpec, DecisionCommitOk, ExtendsPast, RunInv, ChainOk, SameContent, FindReviewed, ApproveChecks;
    DecisionIds(h, d, a, t);
    StepCommitsDecision(h, s, d, attempt, first, a, t, now);
    ApprovalStale(h, s, a, t, RecommendationSha(h, d.recommendation), t.revision - 1);
    RunOf(h, s, a.requestId);
    ExtendsFromPast(h, s.traces[a.requestId], t);
  }

  lemma StaleLock(h: Hash, s: State, l: Locking, attempt: nat, first: int, lock: Lock, t: Trace, now: int)
    requires RunsInv(h, s) && TaskInv(h, s, CommitLock(l, attempt, first, lock, t)) && l.expected.None?
    ensures var next := Step(h, s, CommitLock(l, attempt, first, lock, t), now).1;
            next.Done? && next.outcome.Raised? && next.outcome.error.StaleError? ==>
              s.traces[l.recommendation.requestId].revision >= first + 8
  {
    hide Step, RunsInv, SaveLockedSpec, LockCommitOk, ExtendsPast, RunInv, ChainOk, SameContent, FindReviewed, ApproveChecks;
    LockIds(h, l, lock, t);
    StepCommitsLock(h, s, l, attempt, first, lock, t, now);
    LockStale(h, s, lock, t, RecommendationSha(h, l.recommendation), t.revision - 1);
    RunOf(h, s, lock.requestId);
    ExtendsFromPast(h, s.traces[lock.requestId], t);
  }

  lemma StaleRead(h: Hash, s: State, d: Decision, attempt: nat, first: int, now: int)
    requires TaskInv(h, s, ReadTrace(d, attempt, first))
    ensures var next := Step(h, s, ReadTrace(d, attempt, first), now).1;
            next.Done? && next.outcome.Raised? && next.outcome.error.StaleError? ==> d.expected.Some?
  {}

  lemma StaleLockRead(h: Hash, s: State, l: Locking, attempt: nat, first: int, now: int)
    requires TaskInv(h, s, ReadLockTrace(l, attempt, first))
    ensures var next := Step(h, s, ReadLockTrace(l, attempt, first), now).1;
            next.Done? && next.outcome.Raised? && next.outcome.error.StaleError? ==> l.expected.Some?
  {
    hide Appended, LockDetailsOf, CandidateSha, RecommendationSha, ApprovalSha, SnapshotOf, ChainAtRevision, Blank, LockingOk;
    if l.recommendation.requestId in s.traces { LockReadErrors(h, l, s.traces[l.recommendation.requestId], now); }
  }

  lemma LockReadErrors(h: Hash, l: Locking, t: Trace, now: int)
    ensures forall n :: ChainAtRevision(h, t, n).Err? ==> !ChainAtRevision(h, t, n).error.StaleError?
    ensures var u := Appended(h, t, "lock", "approved factor result locked",
              LockDetailsOf(l.candidate, l.reviewer, l.approval.mode, l.approval.note), now);
            var snapshot := SnapshotOf(h, u, l.recommendation.registryAnchor, l.recommendation.policyAnchor);
            snapshot.Err? ==> !snapshot.error.StaleError?
  {
    hide ChainOk, Appended, LockDetailsOf, ChainAt;
  }
}
