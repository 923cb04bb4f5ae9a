/** The audit trail counts: one human_approval entry per decision, one lock entry per lock. */
module ReviewAudit {
  import opened Prelude
  import opened Models
  import opened Records
  import opened Store
  import opened Review
  import opened ReviewInvariant
  import opened ReviewSteps
  import opened ReviewTheorems

  const HUMAN_APPROVAL := "human_approval"
  const LOCK := "lock"

  // ---- what a commit does, for any caller of the store ----

  predicate AddsEntry(s: State, id: string, t: Trace, stage: string) {
    && id in s.recommendations && id in s.traces && t.envelope.requestId == id
    && |t.entries| == |s.traces[id].entries| + 1
    && HashPrefix(s.traces[id], t)
    && t.entries[|t.entries| - 1].stage == stage
  }

  /** u is s with one new decision and its one entry, and nothing else changed. */
  predicate DecisionCommitted(s: State, u: State, a: Approval, t: Trace) {
    && (a.requestId, a.candidateId) !in s.approvals && a.requestId !in s.locked
    && AddsEntry(s, a.requestId, t, HUMAN_APPROVAL)
    && u == WithTrace(s, s.recommendations[a.requestId], t).(approvals := s.approvals[(a.requestId, a.candidateId) := a])
  }

  predicate LockCommitted(s: State, u: State, l: Lock, t: Trace) {
    && l.requestId !in s.locked
    && AddsEntry(s, l.requestId, t, LOCK)
    && u == WithTrace(s, s.recommendations[l.requestId], t).(locked := s.locked[l.requestId := l])
  }

  lemma CommittedTrace(h: Hash, live: Trace, t: Trace, revision: int)
    requires CommitTraceError(h, live, t, revision).None?
    ensures |t.entries| == |live.entries| + 1 && HashPrefix(live, t) && t.envelope == live.envelope
  {
    assert t.entries[..|t.entries| - 1] == t.entries[..|live.entries|] by {
      assert |Hashes(t.entries[..|t.entries| - 1])| == |Hashes(live.entries)|;
    }
  }

  lemma RunRequest(h: Hash, s: State, id: string)
    requires RunsInv(h, s) && id in s.recommendations && id in s.traces
    ensures s.traces[id].envelope.requestId == id
  {
    assert RunInv(h, id, s.recommendations[id], s.traces[id]);
    hide ChainOk;
  }

  /** save_approval: an error or a replay changes nothing; a first commit adds one decision and one entry. */
  lemma SaveApprovalEffect(h: Hash, s: State, a: Approval, t: Trace, sha: Digest, revision: int)
    requires RunsInv(h, s)
    ensures var (u, result) := SaveApprovalSpec(h, s, a, t, sha, revision);
            var key := (a.requestId, a.candidateId);
            && (result.Err? ==> u == s)
            && (result.Ok? && key in s.approvals ==> u == s && result.value == s.approvals[key])
            && (result.Ok? && key !in s.approvals ==> result.value == a && DecisionCommitted(s, u, a, t))
  {
    hide RunsInv, RunInv, CommitTraceError, ApprovalBindings, IntegrityBound, MatchesDecision, SameStableBindings, HasApproved, RecommendationSha,
         HashPrefix, WithTrace;
    if a.requestId in s.recommendations {
      KnownRun(h, s, a.requestId);
      var r, live := s.recommendations[a.requestId], s.traces[a.requestId];
      RunRequest(h, s, a.requestId);
      if NewApprovalError(h, s, r, live, a, t, sha, revision).None? {
        CommittedTrace(h, live, t, revision);
      }
    }
  }

  /** save_locked, likewise. */
  lemma SaveLockedEffect(h: Hash, s: State, l: Lock, t: Trace, sha: Digest, revision: int)
    requires RunsInv(h, s)
    ensures var (u, result) := SaveLockedSpec(h, s, l, t, sha, revision);
            && (result.Err? ==> u == s)
            && (result.Ok? && l.requestId in s.locked ==> u == s && result.value == s.locked[l.requestId])
            && (result.Ok? && l.requestId !in s.locked ==> result.value == l && LockCommitted(s, u, l, t))
  {
    if l.requestId in s.recommendations {
      var r, live := s.recommendations[l.requestId], s.traces[l.requestId];
      assert RunInv(h, l.requestId, r, live);
      if NewLockError(h, s, r, live, l, t, sha, revision).None? {
        NewLockStage(h, s, r, live, l, t, sha, revision);
        CommittedTrace(h, live, t, revision);
      }
    }
  }

  lemma NewLockStage(h: Hash, s: State, r: Recommendation, live: Trace, l: Lock, t: Trace, sha: Digest, revision: int)
    requires NewLockError(h, s, r, live, l, t, sha, revision).None?
    ensures CommitTraceError(h, live, t, revision).None?
    ensures t.entries != [] && t.entries[|t.entries| - 1].stage == LOCK
  {}

  /** One step of any review call: nothing changes, or exactly one decision or one lock is committed. */
  lemma StepEffect(h: Hash, s: State, task: Task, now: int)
    requires RunsInv(h, s)
    ensures var (u, next) := Step(h, s, task, now);
            || u == s
            || (task.CommitDecision? && next == Done(Decided(task.approval)) && DecisionCommitted(s, u, task.approval, task.trace))
            || (task.CommitLock? && next == Done(Locked(task.lock)) && LockCommitted(s, u, task.lock, task.trace))
    ensures var (u, next) := Step(h, s, task, now);
            !next.Done? || next.outcome.Raised? ==> u == s
  {
    hide RunsInv, SaveApprovalSpec, SaveLockedSpec, DecisionCommitted, LockCommitted,
         AfterRecommendation, AfterTrace, AfterExisting, AfterLockTrace, LockChecks, RecommendationSha;
    match task
    case CommitDecision(d, _, _, a, t) =>
      SaveApprovalEffect(h, s, a, t, RecommendationSha(h, d.recommendation), t.revision - 1);
      var (u, result) := SaveApprovalSpec(h, s, a, t, RecommendationSha(h, d.recommendation), t.revision - 1);
      assert Step(h, s, task, now).0 == u;
      assert result.Err? ==> u == s;
      assert result.Ok? ==> Step(h, s, task, now).1 == Done(Decided(result.value));
    case CommitLock(l, _, _, lock, t) =>
      SaveLockedEffect(h, s, lock, t, RecommendationSha(h, l.recommendation), t.revision - 1);
      var (u, result) := SaveLockedSpec(h, s, lock, t, RecommendationSha(h, l.recommendation), t.revision - 1);
      assert result.Ok? ==> Step(h, s, task, now).1 == Done(Locked(result.value));
    case _ =>
  }

  // ---- conservation ----

  function Count(entries: seq<Entry>, stage: string): nat {
    if entries == [] then 0
    else Count(entries[..|entries| - 1], stage) + if entries[|entries| - 1].stage == stage then 1 else 0
  }

  function DecisionsOf(approvals: map<Key, Approval>, id: string): set<Key> {
    set k | k in approvals.Keys && k.0 == id
  }

  /** The books balance for one request. */
  ghost predicate Balanced(s: State, id: string)
    requires id in s.traces
  {
    && Count(s.traces[id].entries, HUMAN_APPROVAL) == |DecisionsOf(s.approvals, id)|
    && Count(s.traces[id].entries, LOCK) == if id in s.locked then 1 else 0
  }

  predicate QuietEntry(e: Entry) {
    e.stage != HUMAN_APPROVAL && e.stage != LOCK
  }

  predicate QuietFrom(t: Trace, n: nat) {
    forall i :: n <= i < |t.entries| ==> QuietEntry(t.entries[i])
  }

  /** Nobody but the review protocol writes review stages: the stages of the graph are other strings. */
  predicate Quiet(s: State, a: Action) {
    match a
    case Resolve(_, t) => QuietFrom(t, 0)
    case AppendTrace(t) =>
      QuietFrom(t, if t.envelope.requestId in s.traces then |s.traces[t.envelope.requestId].entries| else 0)
    case _ => true
  }

  predicate QuietRun(h: Hash, c: Config, actions: seq<Action>)
    decreases |actions|
  {
    actions == [] || (Quiet(c.state, actions[0]) && QuietRun(h, Apply(h, c, actions[0]), actions[1..]))
  }

  lemma {:induction false} QuietSuffix(xs: seq<Entry>, ys: seq<Entry>, stage: string)
    requires xs <= ys && (stage == HUMAN_APPROVAL || stage == LOCK)
    requires forall i :: |xs| <= i < |ys| ==> QuietEntry(ys[i])
    ensures Count(ys, stage) == Count(xs, stage)
    decreases |ys|
  {
    if |ys| > |xs| {
      QuietSuffix(xs, ys[..|ys| - 1], stage);
    } else {
      assert xs == ys;
    }
  }

  lemma QuietCounts(h: Hash, live: Trace, t: Trace)
    requires CollisionFree(h) && ChainOk(h, live) && ChainOk(h, t) && HashPrefix(live, t) && QuietFrom(t, |live.entries|)
    ensures Count(t.entries, HUMAN_APPROVAL) == Count(live.entries, HUMAN_APPROVAL)
    ensures Count(t.entries, LOCK) == Count(live.entries, LOCK)
  {
    HashPrefixIsPrefix(h, live, t);
    QuietSuffix(live.entries, t.entries, HUMAN_APPROVAL);
    QuietSuffix(live.entries, t.entries, LOCK);
  }

  lemma OneMore(h: Hash, live: Trace, t: Trace, stage: string)
    requires CollisionFree(h) && ChainOk(h, live) && ChainOk(h, t) && HashPrefix(live, t)
    requires |t.entries| == |live.entries| + 1
    ensures Count(t.entries, stage) == Count(live.entries, stage) + if t.entries[|t.entries| - 1].stage == stage then 1 else 0
  {
    HashPrefixIsPrefix(h, live, t);
    assert t.entries[..|t.entries| - 1] == live.entries;
  }

  lemma DecisionsOfGrow(approvals: map<Key, Approval>, key: Key, a: Approval, id: string)
    requires key !in approvals
    ensures |DecisionsOf(approvals[key := a], id)| == |DecisionsOf(approvals, id)| + if key.0 == id then 1 else 0
  {
    if key.0 == id {
      assert DecisionsOf(approvals[key := a], id) == DecisionsOf(approvals, id) + {key};
    } else {
      assert DecisionsOf(approvals[key := a], id) == DecisionsOf(approvals, id);
    }
  }

  lemma DecisionBalanced(h: Hash, s: State, u: State, a: Approval, t: Trace, id: string)
    requires CollisionFree(h) && RunsInv(h, s) && RunsInv(h, u) && DecisionCommitted(s, u, a, t)
    requires id in s.traces && Balanced(s, id)
    ensures id in u.traces && Balanced(u, id)
  {
    DecisionsOfGrow(s.approvals, (a.requestId, a.candidateId), a, id);
    if id == a.requestId {
      assert RunInv(h, id, s.recommendations[id], s.traces[id]) && RunInv(h, id, u.recommendations[id], u.traces[id]);
      OneMore(h, s.traces[id], t, HUMAN_APPROVAL);
      OneMore(h, s.traces[id], t, LOCK);
    }
  }

  lemma LockBalanced(h: Hash, s: State, u: State, l: Lock, t: Trace, id: string)
    requires CollisionFree(h) && RunsInv(h, s) && RunsInv(h, u) && LockCommitted(s, u, l, t)
    requires id in s.traces && Balanced(s, id)
    ensures id in u.traces && Balanced(u, id)
  {
    if id == l.requestId {
      assert RunInv(h, id, s.recommendations[id], s.traces[id]) && RunInv(h, id, u.recommendations[id], u.traces[id]);
      OneMore(h, s.traces[id], t, HUMAN_APPROVAL);
      OneMore(h, s.traces[id], t, LOCK);
    }
  }

  lemma AppendBalanced(h: Hash, s: State, t: Trace, id: string)
    requires CollisionFree(h) && RunsInv(h, s) && Quiet(s, AppendTrace(t))
    requires id in s.traces && Balanced(s, id)
    ensures var u := SaveTraceSpec(h, s, t).0; id in u.traces && Balanced(u, id)
  {
    if id == t.envelope.requestId && SaveTraceSpec(h, s, t).1.Ok? {
      assert RunInv(h, id, s.recommendations[id], s.traces[id]);
      QuietCounts(h, s.traces[id], t);
    }
  }

  /** A fresh run starts with empty books. */
  lemma ResolveBalanced(h: Hash, s: State, r: Recommendation, t: Trace, id: string)
    requires ApprovalsInv(h, s) && LocksInv(h, s) && RunsInv(h, s) && Quiet(s, Resolve(r, t))
    requires id in s.traces ==> Balanced(s, id)
    ensures var u := SaveRunSpec(h, s, r, t).0; id in u.traces ==> Balanced(u, id)
  {
    hide RunsInv, ChainOk, ApprovalInv, LockInv, WithTrace, Balanced;
    WithTraceFacts(s, r, t);
    if SaveRunSpec(h, s, r, t).1.Err? || id != r.requestId {
      SameBooks(s, SaveRunSpec(h, s, r, t).0, id);
    } else {
      NewBooks(h, s, SaveRunSpec(h, s, r, t).0, id, t);
    }
  }

  lemma WithTraceFacts(s: State, r: Recommendation, t: Trace)
    ensures var u := WithTrace(s, r, t);
            u.approvals == s.approvals && u.locked == s.locked && u.traces == s.traces[t.envelope.requestId := t]
  {}

  lemma SameBooks(s: State, u: State, id: string)
    requires u.approvals == s.approvals && u.locked == s.locked
    requires id in u.traces <==> id in s.traces
    requires id in s.traces ==> u.traces[id] == s.traces[id] && Balanced(s, id)
    ensures id in u.traces ==> Balanced(u, id)
  {}

  lemma NewBooks(h: Hash, s: State, u: State, id: string, t: Trace)
    requires ApprovalsInv(h, s) && LocksInv(h, s) && id !in s.recommendations
    requires u.approvals == s.approvals && u.locked == s.locked && id in u.traces && u.traces[id] == t && QuietFrom(t, 0)
    ensures Balanced(u, id)
  {
    hide ApprovalInv, LockInv;
    assert DecisionsOf(s.approvals, id) == {};
    assert [] <= t.entries;
    QuietSuffix([], t.entries, HUMAN_APPROVAL);
    QuietSuffix([], t.entries, LOCK);
  }

  lemma StepBalanced(h: Hash, s: State, task: Task, now: int, id: string)
    requires CollisionFree(h) && StateInv(h, s) && TaskInv(h, s, task)
    requires id in s.traces && Balanced(s, id)
    ensures var u := Step(h, s, task, now).0; id in u.traces && Balanced(u, id)
  {
    var u := Step(h, s, task, now).0;
    StepState(h, s, task, now);
    StepEffect(h, s, task, now);
    hide TaskInv, Step, ApprovalsInv, LocksInv, DecidedBeforeLock, OneApproved, RunsInv, Grows, Balanced, DecisionCommitted, LockCommitted;
    if task.CommitDecision? && DecisionCommitted(s, u, task.approval, task.trace) {
      DecisionBalanced(h, s, u, task.approval, task.trace, id);
    } else if task.CommitLock? && LockCommitted(s, u, task.lock, task.trace) {
      LockBalanced(h, s, u, task.lock, task.trace, id);
    } else {
      assert u == s;
    }
  }

  lemma StepKeepsRequests(h: Hash, s: State, task: Task, now: int, id: string)
    requires RunsInv(h, s)
    ensures id in Step(h, s, task, now).0.traces ==> id in s.traces
  {
    StepEffect(h, s, task, now);
    hide Step, RunsInv;
  }

  lemma ApplyBalanced(h: Hash, c: Config, a: Action, id: string)
    requires CollisionFree(h) && ConfigInv(h, c) && Quiet(c.state, a)
    requires id in c.state.traces ==> Balanced(c.state, id)
    ensures id in Apply(h, c, a).state.traces ==> Balanced(Apply(h, c, a).state, id)
  {
    hide TaskInv, Step, DecidedBeforeLock, OneApproved, RunsInv, ApprovalsInv, LocksInv, Balanced, Quiet, SaveRunSpec;
    match a
    case Resolve(r, t) => ResolveBalanced(h, c.state, r, t, id);
    case AppendTrace(t) => if id in c.state.traces { AppendBalanced(h, c.state, t, id); }
    case Advance(i, now) =>
      if i < |c.tasks| {
        StepKeepsRequests(h, c.state, c.tasks[i], now, id);
        if id in c.state.traces { StepBalanced(h, c.state, c.tasks[i], now, id); }
      }
    case Call(_) =>
  }

  lemma {:induction false} RunBalanced(h: Hash, c: Config, actions: seq<Action>, id: string)
    requires CollisionFree(h) && ConfigInv(h, c) && EngineDriven(h, actions) && QuietRun(h, c, actions)
    requires id in c.state.traces ==> Balanced(c.state, id)
    ensures id in Run(h, c, actions).state.traces ==> Balanced(Run(h, c, actions).state, id)
    decreases |actions|
  {
    hide ConfigInv, Apply, Balanced, Quiet;
    if actions != [] {
      ApplyInv(h, c, actions[0]);
      ApplyBalanced(h, c, actions[0], id);
      assert EngineDriven(h, actions[1..]);
      RunBalanced(h, Apply(h, c, actions[0]), actions[1..], id);
    }
  }

  /** In every reachable configuration the trace of a request holds one human_approval entry per stored
      decision and one lock entry exactly when the request is locked. */
  lemma AuditConserved(h: Hash, actions: seq<Action>, id: string)
    requires CollisionFree(h) && EngineDriven(h, actions) && QuietRun(h, INITIAL, actions)
    requires id in Reach(h, actions).state.traces
    ensures Balanced(Reach(h, actions).state, id)
  {
    RunBalanced(h, INITIAL, actions, id);
  }
}
