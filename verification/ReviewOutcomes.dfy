/** What a call reports is about what it was asked: its request, its candidate, its reviewer, its note and mode. */
module ReviewOutcomes {
  import opened Prelude
  import opened Models
  import opened Records
  import opened Store
  import opened Review
  import opened ReviewInvariant
  import opened ReviewSteps
  import opened ReviewTheorems

  // ---- what a call may do on behalf of its command ----

  /** The locals of a decision are those of its command. */
  predicate DecisionFor(cmd: Command, d: Decision) {
    && !cmd.LockCandidate?
    && d.recommendation.requestId == cmd.requestId && d.candidate.candidateId == cmd.candidateId
    && d.reviewer == cmd.reviewer && d.note == cmd.note && d.expected == cmd.expected
    && d.status == (if cmd.Approve? then APPROVED else REJECTED)
    && d.mode == (if cmd.Approve? then cmd.mode else STANDARD)
  }

  predicate LockingFor(cmd: Command, l: Locking) {
    && cmd.LockCandidate?
    && l.recommendation.requestId == cmd.requestId && l.candidate.candidateId == cmd.candidateId
    && l.reviewer == cmd.reviewer && l.expected == cmd.expected
  }

  /** A reported decision is the one asked for, a reported lock is one of the candidate asked for. */
  predicate Reports(cmd: Command, o: Outcome) {
    match o
    case Decided(a) =>
      && !cmd.LockCandidate?
      && a.requestId == cmd.requestId && a.candidateId == cmd.candidateId && a.reviewer == cmd.reviewer && a.note == cmd.note
      && a.status == (if cmd.Approve? then APPROVED else REJECTED)
      && a.mode == (if cmd.Approve? then cmd.mode else STANDARD)
    case Locked(l) => cmd.LockCandidate? && l.requestId == cmd.requestId && l.candidate.candidateId == cmd.candidateId
    case Raised(_) => true
  }

  /** The trace about to be committed continues the revision the command expects. */
  predicate OnExpected(cmd: Command, t: Trace) {
    cmd.expected.Some? ==> t.revision == cmd.expected.value + 1
  }

  predicate Serves(cmd: Command, t: Task) {
    match t
    case ReadRecommendation(c) => c == cmd && !cmd.LockCandidate?
    case CheckDecisionRevision(d) => DecisionFor(cmd, d)
    case ReadExisting(d) => DecisionFor(cmd, d)
    case ReadTrace(d, _, _) => DecisionFor(cmd, d)
    case CommitDecision(d, _, _, _, t) => DecisionFor(cmd, d) && OnExpected(cmd, t)
    case CheckLockRevision(c) => c == cmd && cmd.LockCandidate?
    case ReadLocked(c) => c == cmd && cmd.LockCandidate?
    case ReadApproval(c) => c == cmd && cmd.LockCandidate?
    case ReadLockedRecommendation(c, _) => c == cmd && cmd.LockCandidate?
    case ReadLockTrace(l, _, _) => LockingFor(cmd, l)
    case CommitLock(l, _, _, _, t) => LockingFor(cmd, l) && OnExpected(cmd, t)
    case Done(o) => Reports(cmd, o)
  }

  lemma StartServes(cmd: Command)
    ensures Serves(cmd, Start(cmd))
  {}

  lemma RecommendationServes(h: Hash, s: State, cmd: Command)
    requires RunsInv(h, s) && !cmd.LockCandidate?
    ensures Serves(cmd, AfterRecommendation(s, cmd))
  {
    hide RunsInv, ApproveChecks, FindReviewed;
    if cmd.requestId in s.recommendations {
      var r := s.recommendations[cmd.requestId];
      KnownRun(h, s, cmd.requestId);
      FoundId(r, cmd.candidateId);
      if cmd.Approve? { ApproveChecksIff(r, cmd.candidateId, cmd.note, cmd.mode); }
    }
  }

  lemma ExistingServes(h: Hash, s: State, d: Decision, cmd: Command)
    requires ApprovalsInv(h, s) && DecisionFor(cmd, d)
    ensures Serves(cmd, AfterExisting(s, d))
  {
    hide ApprovalsInv;
    var key := (d.recommendation.requestId, d.candidate.candidateId);
    if key in s.approvals { StoredKey(h, s, key); }
  }

  lemma TraceServes(h: Hash, s: State, d: Decision, attempt: nat, first: int, now: int, cmd: Command)
    requires DecisionFor(cmd, d)
    ensures Serves(cmd, AfterTrace(h, s, d, attempt, first, now))
  {
    hide BoundApproval, DecisionEvent, NextEntry;
  }

  lemma LockTraceServes(h: Hash, s: State, l: Locking, attempt: nat, first: int, now: int, cmd: Command)
    requires LockingFor(cmd, l)
    ensures Serves(cmd, AfterLockTrace(h, s, l, attempt, first, now))
  {
    hide SnapshotOf, NextEntry, ChainAtRevision, LockDetailsOf, CandidateSha, RecommendationSha, ApprovalSha, Blank;
  }

  lemma LockedRecommendationServes(h: Hash, s: State, cmd: Command, a: Approval, now: int)
    requires RunsInv(h, s) && cmd.LockCandidate?
    requires (cmd.requestId, cmd.candidateId) in s.approvals && s.approvals[(cmd.requestId, cmd.candidateId)] == a
    ensures Serves(cmd, Step(h, s, ReadLockedRecommendation(cmd, a), now).1)
  {
    hide RunsInv, LockChecks, FindReviewed;
    if cmd.requestId in s.recommendations {
      KnownRun(h, s, cmd.requestId);
      FoundId(s.recommendations[cmd.requestId], cmd.candidateId);
      LockChecksIff(h, s.recommendations[cmd.requestId], cmd.candidateId, a);
    }
  }

  /** What a bound decision says. */
  lemma BoundFields(h: Hash, d: Decision, a: Approval, t: Trace)
    requires DecisionCommitOk(h, d, a, t)
    ensures a.requestId == d.recommendation.requestId && a.candidateId == d.candidate.candidateId && a.reviewer == d.reviewer
    ensures a.status == d.status && a.note == d.note && a.mode == d.mode
  {
    hide CandidateSha, RecommendationSha, ChainAt, ChainOk;
  }

  /** save_approval returns the record it was given, or a stored one of the same key and decision. */
  lemma SavedApproval(h: Hash, s: State, a: Approval, t: Trace, sha: Digest, revision: int)
    requires ApprovalsInv(h, s)
    ensures var result := SaveApprovalSpec(h, s, a, t, sha, revision).1;
            result.Ok? ==>
              && result.value.requestId == a.requestId && result.value.candidateId == a.candidateId && result.value.reviewer == a.reviewer
              && result.value.status == a.status && result.value.note == a.note && result.value.mode == a.mode
  {
    hide ApprovalsInv, NewApprovalError, WithTrace, RecommendationSha, SameStableBindings;
    if (a.requestId, a.candidateId) in s.approvals { StoredKey(h, s, (a.requestId, a.candidateId)); }
  }

  lemma CommitDecisionServes(h: Hash, s: State, d: Decision, attempt: nat, first: int, a: Approval, t: Trace, now: int, cmd: Command)
    requires ApprovalsInv(h, s) && TaskInv(h, s, CommitDecision(d, attempt, first, a, t)) && DecisionFor(cmd, d)
    ensures Serves(cmd, Step(h, s, CommitDecision(d, attempt, first, a, t), now).1)
  {
    hide ApprovalsInv, Step, SaveApprovalSpec, DecisionCommitOk, ExtendsPast;
    BoundFields(h, d, a, t);
    StepCommitsDecision(h, s, d, attempt, first, a, t, now);
    SavedApproval(h, s, a, t, RecommendationSha(h, d.recommendation), t.revision - 1);
  }

  /** save_locked returns the lock it was given, or a stored one of the same request and candidate. */
  lemma SavedLock(h: Hash, s: State, l: Lock, t: Trace, sha: Digest, revision: int)
    requires LocksInv(h, s)
    ensures var result := SaveLockedSpec(h, s, l, t, sha, revision).1;
            result.Ok? ==>
              && result.value.requestId == l.requestId && result.value.candidate.candidateId == l.candidate.candidateId
              && (l.requestId !in s.locked ==> result.value == l)
  {
    hide LocksInv, NewLockError, WithTrace, RecommendationSha;
    if l.requestId in s.locked { StoredLock(h, s, l.requestId); }
  }

  lemma CommitLockServes(h: Hash, s: State, l: Locking, attempt: nat, first: int, lock: Lock, t: Trace, now: int, cmd: Command)
    requires LocksInv(h, s) && TaskInv(h, s, CommitLock(l, attempt, first, lock, t)) && LockingFor(cmd, l)
    ensures var next := Step(h, s, CommitLock(l, attempt, first, lock, t), now).1;
            Serves(cmd, next)
            && (next.Done? && next.outcome.Locked? && cmd.requestId !in s.locked ==> next.outcome.lock.reviewer == cmd.reviewer)
  {
    hide LocksInv, Step, SaveLockedSpec, ExtendsPast, SnapshotOf, LockCommitOk, LockingOk, AttemptOk;
    LockIds(h, l, lock, t);
    StepCommitsLock(h, s, l, attempt, first, lock, t, now);
    SavedLock(h, s, lock, t, RecommendationSha(h, l.recommendation), t.revision - 1);
  }

  lemma ReadLockedServes(h: Hash, s: State, cmd: Command, now: int)
    requires LocksInv(h, s) && cmd.LockCandidate?
    ensures Serves(cmd, Step(h, s, ReadLocked(cmd), now).1)
  {
    hide LocksInv;
    if cmd.requestId in s.locked { StoredLock(h, s, cmd.requestId); }
  }

  /** No step of a call leaves its command. */
  lemma StepServes(h: Hash, s: State, t: Task, now: int, cmd: Command)
    requires StateInv(h, s) && TaskInv(h, s, t) && Serves(cmd, t)
    ensures Serves(cmd, Step(h, s, t, now).1)
  {
    hide RunsInv, ApprovalsInv, LocksInv, OneApproved, DecidedBeforeLock, SaveApprovalSpec, SaveLockedSpec,
         AfterRecommendation, AfterTrace, AfterExisting, AfterLockTrace, LockChecks, DecisionOk, LockingOk, ExtendsPast, DecisionCommitOk,
         LockCommitOk, AttemptOk, DecisionFor, LockingFor;
    match t
    case ReadRecommendation(c) => RecommendationServes(h, s, c);
    case ReadExisting(d) => ExistingServes(h, s, d, cmd);
    case ReadTrace(d, attempt, first) => TraceServes(h, s, d, attempt, first, now, cmd);
    case CommitDecision(d, attempt, first, a, u) => CommitDecisionServes(h, s, d, attempt, first, a, u, now, cmd);
    case ReadLocked(c) => ReadLockedServes(h, s, c, now);
    case ReadLockedRecommendation(c, a) => LockedRecommendationServes(h, s, c, a, now);
    case ReadLockTrace(l, attempt, first) => LockTraceServes(h, s, l, attempt, first, now, cmd);
    case CommitLock(l, attempt, first, lock, u) => CommitLockServes(h, s, l, attempt, first, lock, u, now, cmd);
    case _ =>
  }

  // ---- whole runs ----

  /** The commands of a run, in the order their calls started. */
  function Commands(actions: seq<Action>): seq<Command> {
    if actions == [] then []
    else
      var front, last := Commands(actions[..|actions| - 1]), actions[|actions| - 1];
      if last.Call? then front + [last.cmd] else front
  }

  lemma {:induction false} CommandsConcat(xs: seq<Action>, ys: seq<Action>)
    ensures Commands(xs + ys) == Commands(xs) + Commands(ys)
  {
    if ys == [] {
      assert xs + ys == xs;
    } else {
      assert (xs + ys)[..|xs + ys| - 1] == xs + ys[..|ys| - 1];
      CommandsConcat(xs, ys[..|ys| - 1]);
    }
  }

  predicate AllServe(cmds: seq<Command>, tasks: seq<Task>) {
    |cmds| == |tasks| && forall i :: 0 <= i < |tasks| ==> Serves(cmds[i], tasks[i])
  }

  lemma ApplyServes(h: Hash, c: Config, a: Action, cmds: seq<Command>)
    requires ConfigInv(h, c) && AllServe(cmds, c.tasks)
    ensures AllServe(if a.Call? then cmds + [a.cmd] else cmds, Apply(h, c, a).tasks)
  {
    hide StateInv, Step, SaveRunSpec, SaveTraceSpec, Serves, TaskInv, Start;
    match a
    case Call(cmd) => StartServes(cmd);
    case Advance(i, now) =>
      if i < |c.tasks| { StepServes(h, c.state, c.tasks[i], now, cmds[i]); }
    case _ =>
  }

  lemma {:induction false} ReachServes(h: Hash, actions: seq<Action>)
    requires EngineDriven(h, actions)
    ensures AllServe(Commands(actions), Reach(h, actions).tasks)
    decreases |actions|
  {
    hide ConfigInv, Apply, AllServe;
    if actions == [] {
      EmptyServe();
    } else {
      var front, last := actions[..|actions| - 1], actions[|actions| - 1];
      assert actions == front + [last];
      RunConcat(h, INITIAL, front, [last]);
      assert Run(h, Reach(h, front), [last]) == Apply(h, Reach(h, front), last);
      assert EngineDriven(h, front);
      ReachInv(h, front);
      ReachServes(h, front);
      ApplyServes(h, Reach(h, front), last, Commands(front));
    }
  }

  lemma EmptyServe()
    ensures AllServe([], [])
  {}

  /** In every interleaving, a call that ends as decided was an approve or reject and reports the decision it was
      asked for, word for word; one that ends as locked was a lock and reports a lock of the candidate named. */
  lemma OutcomeIsAsked(h: Hash, actions: seq<Action>, i: nat)
    requires EngineDriven(h, actions) && i < |Reach(h, actions).tasks| && Reach(h, actions).tasks[i].Done?
    ensures |Commands(actions)| == |Reach(h, actions).tasks|
    ensures Reports(Commands(actions)[i], Reach(h, actions).tasks[i].outcome)
  {
    hide Reach, EngineDriven, Reports;
    ReachServes(h, actions);
    assert Serves(Commands(actions)[i], Reach(h, actions).tasks[i]);
  }

  /** And the call whose commit takes the lock puts its own reviewer on it. */
  lemma CommittedLockIsSigned(h: Hash, actions: seq<Action>, i: nat, now: int)
    requires EngineDriven(h, actions) && i < |Reach(h, actions).tasks|
    ensures |Commands(actions)| == |Reach(h, actions).tasks|
    ensures var s, cmd := Reach(h, actions).state, Commands(actions)[i];
            var (u, next) := Step(h, s, Reach(h, actions).tasks[i], now);
            cmd.requestId !in s.locked && cmd.requestId in u.locked ==>
              && cmd.LockCandidate? && u.locked[cmd.requestId].reviewer == cmd.reviewer
              && u.locked[cmd.requestId].candidate.candidateId == cmd.candidateId
              && next == Done(Locked(u.locked[cmd.requestId]))
  {
    ReachInv(h, actions);
    ReachServes(h, actions);
    var c := Reach(h, actions);
    assert TaskInv(h, c.state, c.tasks[i]) && Serves(Commands(actions)[i], c.tasks[i]);
    hide Reach, EngineDriven;
    SignedStep(h, c.state, c.tasks[i], now, Commands(actions)[i]);
  }

  lemma SignedStep(h: Hash, s: State, t: Task, now: int, cmd: Command)
    requires StateInv(h, s) && TaskInv(h, s, t) && Serves(cmd, t)
    ensures var (u, next) := Step(h, s, t, now);
            cmd.requestId !in s.locked && cmd.requestId in u.locked ==>
              && cmd.LockCandidate? && u.locked[cmd.requestId].reviewer == cmd.reviewer
              && u.locked[cmd.requestId].candidate.candidateId == cmd.candidateId
              && next == Done(Locked(u.locked[cmd.requestId]))
  {
    hide StateInv, SaveApprovalSpec, SaveLockedSpec, AfterRecommendation, AfterTrace, AfterExisting, AfterLockTrace, AfterApproval, LockChecks,
         ExtendsPast, DecisionCommitOk, LockCommitOk, DecisionOk, LockingOk, AttemptOk;
    match t
    case CommitDecision(d, attempt, first, a, u) =>
      DecisionTakesNoLock(h, s, a, u, RecommendationSha(h, d.recommendation), u.revision - 1);
    case CommitLock(l, attempt, first, lock, u) =>
      LockIds(h, l, lock, u);
      StepCommitsLock(h, s, l, attempt, first, lock, u, now);
      WrittenIsReturned(h, s, lock, u, RecommendationSha(h, l.recommendation), u.revision - 1);
    case _ =>
  }

  lemma DecisionTakesNoLock(h: Hash, s: State, a: Approval, t: Trace, sha: Digest, revision: int)
    ensures SaveApprovalSpec(h, s, a, t, sha, revision).0.locked == s.locked
  {
    hide NewApprovalError, RecommendationSha, MatchesDecision, SameStableBindings;
  }

  lemma WrittenIsReturned(h: Hash, s: State, l: Lock, t: Trace, sha: Digest, revision: int)
    ensures var (u, result) := SaveLockedSpec(h, s, l, t, sha, revision);
            l.requestId !in s.locked && l.requestId in u.locked ==> result == Ok(l) && u.locked[l.requestId] == l
  {
    hide NewLockError, RecommendationSha;
  }

  // ---- the expected revision ----

  /** A call that expects a revision changes something only at that very revision. */
  lemma ExpectedIsHonoured(h: Hash, actions: seq<Action>, i: nat, now: int)
    requires EngineDriven(h, actions) && i < |Reach(h, actions).tasks|
    ensures |Commands(actions)| == |Reach(h, actions).tasks|
    ensures var s, cmd := Reach(h, actions).state, Commands(actions)[i];
            var u := Step(h, s, Reach(h, actions).tasks[i], now).0;
            u != s && cmd.expected.Some? ==>
              && cmd.requestId in s.traces && s.traces[cmd.requestId].revision == cmd.expected.value
              && cmd.requestId in u.traces && u.traces[cmd.requestId].revision == cmd.expected.value + 1
  {
    ReachInv(h, actions);
    ReachServes(h, actions);
    var c := Reach(h, actions);
    assert TaskInv(h, c.state, c.tasks[i]) && Serves(Commands(actions)[i], c.tasks[i]);
    hide Reach, EngineDriven;
    ExpectedStep(h, c.state, c.tasks[i], now, Commands(actions)[i]);
  }

  lemma ExpectedStep(h: Hash, s: State, t: Task, now: int, cmd: Command)
    requires StateInv(h, s) && TaskInv(h, s, t) && Serves(cmd, t)
    ensures var u := Step(h, s, t, now).0;
            u != s && cmd.expected.Some? ==>
              && cmd.requestId in s.traces && s.traces[cmd.requestId].revision == cmd.expected.value
              && cmd.requestId in u.traces && u.traces[cmd.requestId].revision == cmd.expected.value + 1
  {
    hide RunsInv, ApprovalsInv, LocksInv, OneApproved, DecidedBeforeLock, SaveApprovalSpec, SaveLockedSpec, AfterRecommendation, AfterTrace,
         AfterExisting, AfterLockTrace, AfterApproval, LockChecks, DecisionCommitOk, LockCommitOk, AttemptOk, FindReviewed, ApproveChecks;
    match t
    case CommitDecision(d, attempt, first, a, u) =>
      CommitEnvelope(h, s, cmd.requestId, u);
      BoundFields(h, d, a, u);
      StepCommitsDecision(h, s, d, attempt, first, a, u, now);
      DecisionAtRevision(h, s, a, u, RecommendationSha(h, d.recommendation), u.revision - 1);
    case CommitLock(l, attempt, first, lock, u) =>
      CommitEnvelope(h, s, cmd.requestId, u);
      LockIds(h, l, lock, u);
      StepCommitsLock(h, s, l, attempt, first, lock, u, now);
      LockAtRevision(h, s, lock, u, RecommendationSha(h, l.recommendation), u.revision - 1);
    case _ =>
  }

  lemma CommitEnvelope(h: Hash, s: State, id: string, t: Trace)
    requires RunsInv(h, s) && id in s.recommendations && id in s.traces && ExtendsPast(h, s.traces[id], t)
    ensures t.envelope.requestId == id
  {
    assert RunInv(h, id, s.recommendations[id], s.traces[id]);
    hide ChainOk;
  }

  lemma DecisionAtRevision(h: Hash, s: State, a: Approval, t: Trace, sha: Digest, revision: int)
    ensures var u := SaveApprovalSpec(h, s, a, t, sha, revision).0;
            u != s && t.envelope.requestId == a.requestId ==>
              && a.requestId in s.traces && s.traces[a.requestId].revision == revision
              && a.requestId in u.traces && u.traces[a.requestId] == t
  {
    hide NewApprovalError, RecommendationSha, MatchesDecision, SameStableBindings;
  }

  lemma LockAtRevision(h: Hash, s: State, l: Lock, t: Trace, sha: Digest, revision: int)
    ensures var u := SaveLockedSpec(h, s, l, t, sha, revision).0;
            u != s && t.envelope.requestId == l.requestId ==>
              && l.requestId in s.traces && s.traces[l.requestId].revision == revision
              && l.requestId in u.traces && u.traces[l.requestId] == t
  {
    hide NewLockError, RecommendationSha;
  }

  // ---- one attempt ----

  predicate AtExpected(expected: Option<int>, revision: int) {
    expected.Some? ==> expected.value == revision
  }

  /** An attempt at a decision reaches its commit exactly when fewer than eight came before, the trace is there, verified
      and at the expected revision, the recommendation has all its anchors, and no name is blank. */
  lemma DecisionAttemptIff(h: Hash, s: State, d: Decision, attempt: nat, first: int, now: int)
    ensures var id := d.recommendation.requestId;
            AfterTrace(h, s, d, attempt, first, now).CommitDecision? <==>
              && attempt < 8 && id in s.traces
              && ChainOk(h, s.traces[id]) && AtExpected(d.expected, s.traces[id].revision)
              && d.recommendation.databaseAnchor.Some? && d.recommendation.registryAnchor.Some? && d.recommendation.policyAnchor.Some?
              && !Blank(id) && !Blank(d.candidate.candidateId) && !Blank(d.reviewer)
  {
    hide ChainOk, ChainAt, NextEntry, Blank, CandidateSha, RecommendationSha, DecisionEvent;
    var id := d.recommendation.requestId;
    if id in s.traces {
      var (message, details) := DecisionEvent(d);
      var t := s.traces[id];
      AppendedChain(h, t, "human_approval", message, details, now);
    }
  }

  lemma AppendedChain(h: Hash, t: Trace, stage: string, message: string, details: Details, at: int)
    ensures var u := Appended(h, t, stage, message, details, at);
            && (ChainOk(h, u) <==> ChainOk(h, t)) && u.revision == t.revision + 1 && u.envelope == t.envelope
            && (ChainOk(h, t) ==> 0 <= t.revision)
  {
    var u := Appended(h, t, stage, message, details, at);
    if ChainOk(h, t) { AppendKeepsChain(h, t, stage, message, details, at); }
    if ChainOk(h, u) {
      forall i | 0 <= i < |t.entries| ensures LinkOk(h, t.entries, i) {
        assert LinkOk(h, u.entries, i);
        assert u.entries[..i] == t.entries[..i] && u.entries[i] == t.entries[i];
      }
    }
  }

  /** An attempt at a lock reaches its commit exactly when fewer than eight came before, the trace is there, verified and at
      the expected revision, the decision digests a prefix of it, the catalogue is anchored, and no name is blank. */
  lemma LockAttemptIff(h: Hash, s: State, l: Locking, attempt: nat, first: int, now: int)
    ensures var id := l.recommendation.requestId;
            AfterLockTrace(h, s, l, attempt, first, now).CommitLock? <==>
              && attempt < 8 && id in s.traces
              && ChainOk(h, s.traces[id]) && AtExpected(l.expected, s.traces[id].revision)
              && l.approval.traceRevision.Some? && 1 <= l.approval.traceRevision.value <= s.traces[id].revision
              && l.approval.traceChain == Some(ChainAt(h, s.traces[id], l.approval.traceRevision.value))
              && s.traces[id].envelope.databaseAnchor.Some?
              && !Blank(id) && !Blank(l.reviewer)
  {
    hide ChainAt, NextEntry, Blank, CandidateSha, RecommendationSha, ApprovalSha, LockDetailsOf, LinkOk;
    var id := l.recommendation.requestId;
    if id in s.traces {
      AppendedChain(h, s.traces[id], "lock", "approved factor result locked",
        LockDetailsOf(l.candidate, l.reviewer, l.approval.mode, l.approval.note), now);
      hide Appended;
    }
  }
}
