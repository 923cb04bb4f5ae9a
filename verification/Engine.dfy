/** approve, reject and lock in the loop form of engine.py, run against the mutable store while other calls
    proceed at every await, and proved to be runs of the step system. */
module Engine {
  import opened Prelude
  import opened Models
  import opened Records
  import opened Store
  import opened TraceLog
  import opened Review
  import opened ReviewSteps
  import opened ReviewTheorems
  import opened ReviewOutcomes

  /** What everybody else does while call me is suspended for the k-th time. */
  type Schedule = nat -> seq<Action>
  type Clock = nat -> int

  predicate Spares(actions: seq<Action>, me: nat) {
    forall i :: 0 <= i < |actions| && actions[i].Advance? ==> actions[i].task != me
  }

  ghost predicate SparesAlways(others: Schedule, me: nat) {
    forall k: nat :: Spares(others(k), me)
  }

  lemma {:induction false} RunSpares(h: Hash, c: Config, actions: seq<Action>, me: nat)
    requires me < |c.tasks| && Spares(actions, me)
    ensures me < |Run(h, c, actions).tasks| && Run(h, c, actions).tasks[me] == c.tasks[me]
    decreases |actions|
  {
    if actions != [] {
      assert Spares(actions[1..], me);
      RunSpares(h, Apply(h, c, actions[0]), actions[1..], me);
    }
  }

  // ---- how much a call can still do ----

  function Remaining(t: Task): nat {
    match t
    case ReadRecommendation(_) => 30
    case CheckDecisionRevision(_) => 29
    case ReadExisting(_) => 28
    case ReadTrace(_, attempt, _) => if attempt >= ATTEMPTS then 1 else 2 * (ATTEMPTS - attempt) + 2
    case CommitDecision(_, attempt, _, _, _) => if attempt >= ATTEMPTS then 2 else 2 * (ATTEMPTS - attempt) + 1
    case CheckLockRevision(_) => 31
    case ReadLocked(_) => 30
    case ReadApproval(_) => 29
    case ReadLockedRecommendation(_, _) => 28
    case ReadLockTrace(_, attempt, _) => if attempt >= ATTEMPTS then 1 else 2 * (ATTEMPTS - attempt) + 2
    case CommitLock(_, attempt, _, _, _) => if attempt >= ATTEMPTS then 2 else 2 * (ATTEMPTS - attempt) + 1
    case Done(_) => 0
  }

  lemma CommandReadsDecrease(s: State, cmd: Command)
    ensures Remaining(AfterRecommendation(s, cmd)) < 30
    ensures Remaining(AfterApproval(s, cmd)) < 29
  {
    hide ApproveChecks;
  }

  lemma DecisionReadsDecrease(h: Hash, s: State, d: Decision, attempt: nat, first: int, now: int)
    ensures Remaining(AfterExisting(s, d)) < 28
    ensures Remaining(AfterTrace(h, s, d, attempt, first, now)) < Remaining(ReadTrace(d, attempt, first))
  {
    hide BoundApproval, Appended, MatchesDecision, DecisionEvent;
  }

  lemma LockReadDecreases(h: Hash, s: State, l: Locking, attempt: nat, first: int, now: int)
    ensures Remaining(AfterLockTrace(h, s, l, attempt, first, now)) < Remaining(ReadLockTrace(l, attempt, first))
  {
    hide SnapshotOf, Appended, ChainAtRevision, LockDetailsOf, CandidateSha, RecommendationSha, ApprovalSha, Blank;
  }

  /** Every call ends: each await brings it closer to its outcome. */
  lemma StepDecreases(h: Hash, s: State, t: Task, now: int)
    requires !t.Done?
    ensures Remaining(Step(h, s, t, now).1) < Remaining(t)
  {
    hide SaveApprovalSpec, SaveLockedSpec, AfterRecommendation, AfterExisting, AfterTrace, AfterLockTrace, AfterApproval, LockChecks;
    match t
    case ReadRecommendation(cmd) => CommandReadsDecrease(s, cmd);
    case ReadExisting(d) => DecisionReadsDecrease(h, s, d, 0, 0, now);
    case ReadTrace(d, attempt, first) => DecisionReadsDecrease(h, s, d, attempt, first, now);
    case ReadApproval(cmd) => CommandReadsDecrease(s, cmd);
    case ReadLockTrace(l, attempt, first) => LockReadDecreases(h, s, l, attempt, first, now);
    case _ =>
  }

  /** One await of call me: everybody else acts, then me advances. */
  function Turn(h: Hash, c: Config, me: nat, others: Schedule, clock: Clock, k: nat): Config {
    Apply(h, Run(h, c, others(k)), Advance(me, clock(k)))
  }

  /** Call me from its k-th await to its end. */
  ghost function Drive(h: Hash, c: Config, me: nat, others: Schedule, clock: Clock, k: nat): Config
    requires me < |c.tasks| && SparesAlways(others, me)
    decreases Remaining(c.tasks[me])
  {
    if c.tasks[me].Done? then c
    else
      RunSpares(h, c, others(k), me);
      StepDecreases(h, Run(h, c, others(k)).state, c.tasks[me], clock(k));
      Drive(h, Turn(h, c, me, others, clock, k), me, others, clock, k + 1)
  }

  /** The actions of one driven call, in order. */
  ghost function DriveActions(h: Hash, c: Config, me: nat, others: Schedule, clock: Clock, k: nat): seq<Action>
    requires me < |c.tasks| && SparesAlways(others, me)
    decreases Remaining(c.tasks[me])
  {
    if c.tasks[me].Done? then []
    else
      RunSpares(h, c, others(k), me);
      StepDecreases(h, Run(h, c, others(k)).state, c.tasks[me], clock(k));
      others(k) + [Advance(me, clock(k))] + DriveActions(h, Turn(h, c, me, others, clock, k), me, others, clock, k + 1)
  }

  /** Only the two commits touch the store. */
  lemma StoreEffect(h: Hash, s: State, tasks: seq<Task>, i: nat, now: int)
    ensures i < |tasks| ==>
      Step(h, s, tasks[i], now).0 ==
        match tasks[i]
        case CommitDecision(d, _, _, a, t) => SaveApprovalSpec(h, s, a, t, RecommendationSha(h, d.recommendation), t.revision - 1).0
        case CommitLock(l, _, _, lock, t) => SaveLockedSpec(h, s, lock, t, RecommendationSha(h, l.recommendation), t.revision - 1).0
        case _ => s
  {
    hide SaveApprovalSpec, SaveLockedSpec, AfterRecommendation, AfterExisting, AfterTrace, AfterLockTrace, AfterApproval, LockChecks;
  }

  lemma StepReadTrace(h: Hash, s: State, d: Decision, attempt: nat, first: int, now: int)
    ensures Step(h, s, ReadTrace(d, attempt, first), now) == (s, AfterTrace(h, s, d, attempt, first, now))
  {
    hide AfterTrace;
  }

  lemma StepCheckDecision(h: Hash, s: State, d: Decision, now: int)
    ensures Step(h, s, CheckDecisionRevision(d), now) ==
      var id := d.recommendation.requestId;
      (s, if id !in s.traces then Done(Raised(KeyError("trace not found")))
          else if Some(s.traces[id].revision) != d.expected then Done(Raised(StaleError("trace revision changed before decision")))
          else ReadExisting(d))
  {}

  lemma StepReadExisting(h: Hash, s: State, d: Decision, now: int)
    ensures Step(h, s, ReadExisting(d), now) == (s, AfterExisting(s, d))
  {}

  lemma StepReadRecommendation(h: Hash, s: State, cmd: Command, now: int)
    ensures Step(h, s, ReadRecommendation(cmd), now) == (s, AfterRecommendation(s, cmd))
  {}

  lemma StepCheckLock(h: Hash, s: State, cmd: Command, now: int)
    ensures Step(h, s, CheckLockRevision(cmd), now) ==
      (s, if cmd.requestId !in s.traces then Done(Raised(KeyError("trace not found")))
          else if Some(s.traces[cmd.requestId].revision) != cmd.expected then Done(Raised(StaleError("trace revision changed before lock")))
          else ReadLocked(cmd))
  {}

  lemma StepReadLocked(h: Hash, s: State, cmd: Command, now: int)
    ensures Step(h, s, ReadLocked(cmd), now) ==
      (s, if cmd.requestId !in s.locked then ReadApproval(cmd)
          else if s.locked[cmd.requestId].candidate.candidateId == cmd.candidateId then Done(Locked(s.locked[cmd.requestId]))
          else Done(Raised(ConflictError("resolution is already locked and immutable"))))
  {}

  lemma StepReadApproval(h: Hash, s: State, cmd: Command, now: int)
    ensures Step(h, s, ReadApproval(cmd), now) == (s, AfterApproval(s, cmd))
  {}

  lemma StepReadLockedRecommendation(h: Hash, s: State, cmd: Command, a: Approval, now: int)
    ensures Step(h, s, ReadLockedRecommendation(cmd, a), now) ==
      (s, if cmd.requestId !in s.recommendations then Done(Raised(KeyError("unknown request")))
          else
            match LockChecks(h, s.recommendations[cmd.requestId], cmd.candidateId, a)
            case Err(e) => Done(Raised(e))
            case Ok(c) => ReadLockTrace(Locking(s.recommendations[cmd.requestId], c, cmd.reviewer, a, cmd.expected), 0, 0))
  {
    hide LockChecks;
  }

  /** The checks lock makes on each trace it reads. */
  function LockReadError(h: Hash, l: Locking, t: Trace): Option<Error> {
    if l.expected.Some? && t.revision != l.expected.value then Some(StaleError("trace revision changed before lock"))
    else if l.approval.traceRevision.None? || l.approval.traceRevision.value < 1 || l.approval.traceRevision.value > t.revision then
      Some(IntegrityError("approval trace binding is not a prefix"))
    else
      match ChainAtRevision(h, t, l.approval.traceRevision.value)
      case Err(e) => Some(e)
      case Ok(chain) =>
        if l.approval.traceChain != Some(chain) then Some(IntegrityError("approval trace binding is not a prefix")) else None
  }

  lemma StepReadLockTrace(h: Hash, s: State, l: Locking, attempt: nat, first: int, now: int)
    requires attempt < ATTEMPTS
    ensures Step(h, s, ReadLockTrace(l, attempt, first), now) == (s,
      var id := l.recommendation.requestId;
      var error := if id !in s.traces then Some(KeyError("trace not found")) else LockReadError(h, l, s.traces[id]);
      if error.Some? then Done(Raised(error.value))
      else
        var t := s.traces[id];
        var updated := Appended(h, t, "lock", "approved factor result locked",
          LockDetailsOf(l.candidate, l.reviewer, l.approval.mode, l.approval.note), now);
        match SnapshotOf(h, updated, l.recommendation.registryAnchor, l.recommendation.policyAnchor)
        case Err(e) => Done(Raised(e))
        case Ok(snapshot) =>
          if Blank(id) || Blank(l.reviewer) then Done(Raised(ValueError("locked resolution requires request_id and reviewer")))
          else CommitLock(l, attempt, if attempt == 0 then t.revision else first,
            Lock(id, l.candidate, l.reviewer, l.approval.(status := LOCKED), now, snapshot,
              CandidateSha(h, l.candidate), RecommendationSha(h, l.recommendation), ApprovalSha(h, l.approval)),
            updated))
  {
    hide SnapshotOf, Appended, LockDetailsOf, ChainAtRevision, CandidateSha, RecommendationSha, ApprovalSha, Blank;
  }

  // ---- the mutable system ----

  /** The store together with the calls suspended on it. */
  class System {
    const store: InMemoryResolutionStore
    var tasks: seq<Task>

    constructor (store: InMemoryResolutionStore)
      ensures this.store == store && tasks == []
    {
      this.store, this.tasks := store, [];
    }

    function Value(): Config
      reads this, store
    {
      Config(store.Value(), tasks)
    }

    /** One action of somebody else, executed on the mutable store. */
    method Perform(a: Action)
      modifies this`tasks, store
      ensures Value() == Apply(store.h, old(Value()), a)
    {
      match a
      case Resolve(r, t) => var _ := store.SaveResolutionRun(r, t);
      case AppendTrace(t) => var _ := store.SaveTrace(t);
      case Call(cmd) => tasks := tasks + [Start(cmd)];
      case Advance(i, now) =>
        StoreEffect(store.h, old(store.Value()), old(tasks), i, now);
        hide Step, SaveApprovalSpec, SaveLockedSpec;
        if i < |tasks| {
          var task, next := tasks[i], Step(store.h, store.Value(), tasks[i], now).1;
          if task.CommitDecision? {
            var _ := store.SaveApproval(task.approval, task.trace, RecommendationSha(store.h, task.d.recommendation), task.trace.revision - 1);
          } else if task.CommitLock? {
            var _ := store.SaveLocked(task.lock, task.trace, RecommendationSha(store.h, task.l.recommendation), task.trace.revision - 1);
          }
          tasks := tasks[i := next];
        }
    }

    /** Everybody else acts. */
    method PerformAll(actions: seq<Action>)
      modifies this`tasks, store
      ensures Value() == Run(store.h, old(Value()), actions)
    {
      ghost var start := Value();
      var i := 0;
      assert actions[0..] == actions;
      while i < |actions|
        invariant 0 <= i <= |actions|
        invariant Run(store.h, Value(), actions[i..]) == Run(store.h, start, actions)
      {
        assert actions[i..][1..] == actions[i + 1..];
        Perform(actions[i]);
        i := i + 1;
      }
    }

    /** The call at position me suspends as task; everybody else acts meanwhile. */
    method Suspend(me: nat, task: Task, actions: seq<Action>)
      requires me < |tasks| && Spares(actions, me)
      modifies this`tasks, store
      ensures me < |tasks| && tasks[me] == task
      ensures Value() == Run(store.h, Config(old(store.Value()), old(tasks)[me := task]), actions)
    {
      tasks := tasks[me := task];
      RunSpares(store.h, Value(), actions, me);
      PerformAll(actions);
    }

    /** One await: suspend as task, resume for step k. What Drive still has to do is the rest of the call. */
    method Await(me: nat, task: Task, others: Schedule, clock: Clock, k: nat)
      requires me < |tasks| && SparesAlways(others, me) && !task.Done?
      modifies this`tasks, store
      ensures me < |tasks| && tasks[me] == task
      ensures var (s, next) := Step(store.h, store.Value(), task, clock(k));
              Drive(store.h, Config(old(store.Value()), old(tasks)[me := task]), me, others, clock, k)
              == Drive(store.h, Config(s, tasks[me := next]), me, others, clock, k + 1)
    {
      hide Step;
      Suspend(me, task, others(k));
    }

    /** The call at position me ended with this outcome, and left the whole system as the run says. */
    ghost predicate Settles(me: nat, outcome: Option<Outcome>, whole: Config)
      reads this, store
    {
      outcome.Some? && me < |tasks| && tasks[me] == Done(outcome.value) && Value() == whole
    }

    /** Return or raise: record the outcome of call me. */
    method Finish(me: nat, outcome: Outcome, others: Schedule, clock: Clock, k: nat)
      requires me < |tasks| && SparesAlways(others, me)
      modifies this`tasks
      ensures Settles(me, Some(outcome), Drive(store.h, Config(old(store.Value()), old(tasks)[me := Done(outcome)]), me, others, clock, k))
    {
      tasks := tasks[me := Done(outcome)];
    }

    /** One turn of the retry loop of _commit_decision. */
    method DecisionAttempt(me: nat, d: Decision, attempt: nat, firstRevision: int, others: Schedule, clock: Clock, k: nat)
      returns (outcome: Option<Outcome>, first: int)
      requires me < |tasks| && SparesAlways(others, me) && attempt < ATTEMPTS
      modifies this`tasks, store
      ensures me < |tasks|
      ensures var whole := Drive(store.h, Config(old(store.Value()), old(tasks)[me := ReadTrace(d, attempt, firstRevision)]), me, others, clock, k);
              Settles(me, outcome, whole) || (outcome.None? && attempt + 1 < ATTEMPTS
                && whole == Drive(store.h, Config(store.Value(), tasks[me := ReadTrace(d, attempt + 1, first)]), me, others, clock, k + 2))
    {
      hide Step, SaveApprovalSpec, BoundApproval, DecisionEvent, Appended, RecommendationSha;
      var id := d.recommendation.requestId;
      first := firstRevision;
      Await(me, ReadTrace(d, attempt, firstRevision), others, clock, k);
      StepReadTrace(store.h, store.Value(), d, attempt, firstRevision, clock(k));
      if id !in store.traces {
        outcome := Some(Raised(KeyError("trace not found")));
        tasks := tasks[me := Done(outcome.value)];
        return;
      }
      var trace := store.traces[id];
      if d.expected.Some? && trace.revision != d.expected.value {
        outcome := Some(Raised(StaleError("trace revision changed before decision")));
        tasks := tasks[me := Done(outcome.value)];
        return;
      }
      var updated := new ResolutionTrace.Clone(trace);
      var (message, details) := DecisionEvent(d);
      updated.Append(store.h, "human_approval", message, details, clock(k));
      var approval := BoundApproval(store.h, d, updated.Value(), clock(k));
      if approval.Err? {
        outcome := Some(Raised(approval.error));
        tasks := tasks[me := Done(outcome.value)];
        return;
      }
      if attempt == 0 {
        first := trace.revision;
      }
      outcome := DecisionSave(me, d, attempt, first, approval.value, updated.Value(), others, clock, k + 1);
    }

    /** save_approval, and whether the loop goes on. */
    method DecisionSave(me: nat, d: Decision, attempt: nat, first: int, approval: Approval, updated: Trace,
                        others: Schedule, clock: Clock, k: nat)
      returns (outcome: Option<Outcome>)
      requires me < |tasks| && SparesAlways(others, me) && attempt < ATTEMPTS
      modifies this`tasks, store
      ensures me < |tasks|
      ensures var whole := Drive(store.h, Config(old(store.Value()), old(tasks)[me := CommitDecision(d, attempt, first, approval, updated)]),
                                 me, others, clock, k);
              Settles(me, outcome, whole) || (outcome.None? && attempt + 1 < ATTEMPTS
                && whole == Drive(store.h, Config(store.Value(), tasks[me := ReadTrace(d, attempt + 1, first)]), me, others, clock, k + 1))
    {
      hide Step, SaveApprovalSpec, RecommendationSha;
      Await(me, CommitDecision(d, attempt, first, approval, updated), others, clock, k);
      StepCommitsDecision(store.h, store.Value(), d, attempt, first, approval, updated, clock(k));
      var result := store.SaveApproval(approval, updated, RecommendationSha(store.h, d.recommendation), updated.revision - 1);
      match result
      case Ok(saved) =>
        outcome := Some(Decided(saved));
        tasks := tasks[me := Done(outcome.value)];
      case Err(e) =>
        if e.StaleError? && d.expected.None? && attempt != ATTEMPTS - 1 {
          outcome := None;
        } else {
          outcome := Some(Raised(e));
          tasks := tasks[me := Done(outcome.value)];
        }
    }

    /** _commit_decision: the expected revision, the replay test, then at most eight attempts. */
    method Decide(me: nat, d: Decision, others: Schedule, clock: Clock, start: nat) returns (outcome: Outcome)
      requires me < |tasks| && SparesAlways(others, me)
      modifies this`tasks, store
      ensures Settles(me, Some(outcome), Drive(store.h, Config(old(store.Value()), old(tasks)[me := StartDecision(d)]), me, others, clock, start))
    {
      hide Step, SparesAlways, Drive;
      var k, id := start, d.recommendation.requestId;
      if d.expected.Some? {
        Await(me, CheckDecisionRevision(d), others, clock, k);
        StepCheckDecision(store.h, store.Value(), d, clock(k));
        if id !in store.traces {
          outcome := Raised(KeyError("trace not found"));
          Finish(me, outcome, others, clock, k + 1);
          return;
        }
        if Some(store.traces[id].revision) != d.expected {
          outcome := Raised(StaleError("trace revision changed before decision"));
          Finish(me, outcome, others, clock, k + 1);
          return;
        }
        k := k + 1;
      }
      Await(me, ReadExisting(d), others, clock, k);
      StepReadExisting(store.h, store.Value(), d, clock(k));
      k := k + 1;
      var key := (id, d.candidate.candidateId);
      if key in store.approvals {
        outcome := if MatchesDecision(store.approvals[key], d.status, d.reviewer, d.note, d.mode)
          then Decided(store.approvals[key])
          else Raised(ConflictError("candidate already has a different terminal human decision"));
        Finish(me, outcome, others, clock, k);
        return;
      }
      outcome := DecisionLoop(me, d, others, clock, k);
    }

    /** for attempt in range(8): it always returns or raises inside. */
    method DecisionLoop(me: nat, d: Decision, others: Schedule, clock: Clock, start: nat) returns (outcome: Outcome)
      requires me < |tasks| && SparesAlways(others, me)
      modifies this`tasks, store
      ensures Settles(me, Some(outcome), Drive(store.h, Config(old(store.Value()), old(tasks)[me := ReadTrace(d, 0, 0)]), me, others, clock, start))
    {
      hide Drive, SparesAlways;
      ghost var goal := Drive(store.h, Config(store.Value(), tasks[me := ReadTrace(d, 0, 0)]), me, others, clock, start);
      var k, attempt, first := start, 0, 0;
      outcome := Raised(StaleError("decision could not commit after concurrent updates"));
      while true
        invariant me < |tasks| && attempt < ATTEMPTS
        invariant goal == Drive(store.h, Config(store.Value(), tasks[me := ReadTrace(d, attempt, first)]), me, others, clock, k)
        decreases ATTEMPTS - attempt
      {
        var settled: Option<Outcome>;
        settled, first := DecisionAttempt(me, d, attempt, first, others, clock, k);
        if settled.Some? {
          return settled.value;
        }
        k, attempt := k + 2, attempt + 1;
      }
    }

    /** approve and reject. */
    method ApproveOrReject(me: nat, cmd: Command, others: Schedule, clock: Clock) returns (outcome: Outcome)
      requires me < |tasks| && SparesAlways(others, me) && !cmd.LockCandidate?
      modifies this`tasks, store
      ensures Settles(me, Some(outcome), Drive(store.h, Config(old(store.Value()), old(tasks)[me := Start(cmd)]), me, others, clock, 0))
    {
      hide Step, SparesAlways, Drive, ApproveChecks, StartDecision;
      Await(me, ReadRecommendation(cmd), others, clock, 0);
      StepReadRecommendation(store.h, store.Value(), cmd, clock(0));
      if cmd.requestId !in store.recommendations {
        outcome := Raised(KeyError("unknown request"));
        Finish(me, outcome, others, clock, 1);
        return;
      }
      var r := store.recommendations[cmd.requestId];
      match cmd
      case Approve(_, candidateId, reviewer, note, mode, expected) =>
        var checked := ApproveChecks(r, candidateId, note, mode);
        if checked.Err? {
          outcome := Raised(checked.error);
          Finish(me, outcome, others, clock, 1);
          return;
        }
        outcome := Decide(me, Decision(r, checked.value, reviewer, APPROVED, note, mode, expected), others, clock, 1);
      case Reject(_, candidateId, reviewer, note, expected) =>
        var found := FindReviewed(r, candidateId);
        if found.None? {
          outcome := Raised(KeyError("candidate not found"));
          Finish(me, outcome, others, clock, 1);
          return;
        }
        outcome := Decide(me, Decision(r, found.value, reviewer, REJECTED, note, STANDARD, expected), others, clock, 1);
    }

    /** lock: every check of the candidate and of its stored approval, then at most eight attempts. */
    method LockResolution(me: nat, cmd: Command, others: Schedule, clock: Clock) returns (outcome: Outcome)
      requires me < |tasks| && SparesAlways(others, me) && cmd.LockCandidate?
      modifies this`tasks, store
      ensures Settles(me, Some(outcome), Drive(store.h, Config(old(store.Value()), old(tasks)[me := Start(cmd)]), me, others, clock, 0))
    {
      hide Step, SparesAlways, Drive;
      var k := 0;
      if cmd.expected.Some? {
        Await(me, CheckLockRevision(cmd), others, clock, k);
        StepCheckLock(store.h, store.Value(), cmd, clock(k));
        k := k + 1;
        if cmd.requestId !in store.traces {
          outcome := Raised(KeyError("trace not found"));
          Finish(me, outcome, others, clock, k);
          return;
        }
        if Some(store.traces[cmd.requestId].revision) != cmd.expected {
          outcome := Raised(StaleError("trace revision changed before lock"));
          Finish(me, outcome, others, clock, k);
          return;
        }
      }
      Await(me, ReadLocked(cmd), others, clock, k);
      StepReadLocked(store.h, store.Value(), cmd, clock(k));
      k := k + 1;
      if cmd.requestId in store.locked {
        outcome := if store.locked[cmd.requestId].candidate.candidateId == cmd.candidateId
          then Locked(store.locked[cmd.requestId])
          else Raised(ConflictError("resolution is already locked and immutable"));
        Finish(me, outcome, others, clock, k);
        return;
      }
      outcome := LockApproved(me, cmd, others, clock, k);
    }

    method LockApproved(me: nat, cmd: Command, others: Schedule, clock: Clock, start: nat) returns (outcome: Outcome)
      requires me < |tasks| && SparesAlways(others, me) && cmd.LockCandidate?
      modifies this`tasks, store
      ensures Settles(me, Some(outcome), Drive(store.h, Config(old(store.Value()), old(tasks)[me := ReadApproval(cmd)]), me, others, clock, start))
    {
      hide Step, SparesAlways, Drive, LockChecks;
      var k, key := start, (cmd.requestId, cmd.candidateId);
      Await(me, ReadApproval(cmd), others, clock, k);
      StepReadApproval(store.h, store.Value(), cmd, clock(k));
      k := k + 1;
      if key !in store.approvals || store.approvals[key].status != APPROVED {
        outcome := Raised(ConflictError("candidate must be approved before locking"));
        Finish(me, outcome, others, clock, k);
        return;
      }
      var approval := store.approvals[key];
      Await(me, ReadLockedRecommendation(cmd, approval), others, clock, k);
      StepReadLockedRecommendation(store.h, store.Value(), cmd, approval, clock(k));
      k := k + 1;
      if cmd.requestId !in store.recommendations {
        outcome := Raised(KeyError("unknown request"));
        Finish(me, outcome, others, clock, k);
        return;
      }
      var r := store.recommendations[cmd.requestId];
      var checked := LockChecks(store.h, r, cmd.candidateId, approval);
      if checked.Err? {
        outcome := Raised(checked.error);
        Finish(me, outcome, others, clock, k);
        return;
      }
      outcome := LockLoop(me, Locking(r, checked.value, cmd.reviewer, approval, cmd.expected), others, clock, k);
    }

    method LockLoop(me: nat, l: Locking, others: Schedule, clock: Clock, start: nat) returns (outcome: Outcome)
      requires me < |tasks| && SparesAlways(others, me)
      modifies this`tasks, store
      ensures Settles(me, Some(outcome), Drive(store.h, Config(old(store.Value()), old(tasks)[me := ReadLockTrace(l, 0, 0)]), me, others, clock, start))
    {
      hide Drive, SparesAlways;
      ghost var goal := Drive(store.h, Config(store.Value(), tasks[me := ReadLockTrace(l, 0, 0)]), me, others, clock, start);
      var k, attempt, first := start, 0, 0;
      outcome := Raised(StaleError("lock could not commit after concurrent updates"));
      while true
        invariant me < |tasks| && attempt < ATTEMPTS
        invariant goal == Drive(store.h, Config(store.Value(), tasks[me := ReadLockTrace(l, attempt, first)]), me, others, clock, k)
        decreases ATTEMPTS - attempt
      {
        var settled: Option<Outcome>;
        settled, first := LockAttempt(me, l, attempt, first, others, clock, k);
        if settled.Some? {
          return settled.value;
        }
        k, attempt := k + 2, attempt + 1;
      }
    }

    /** One turn of the retry loop of lock. */
    method LockAttempt(me: nat, l: Locking, attempt: nat, firstRevision: int, others: Schedule, clock: Clock, k: nat)
      returns (outcome: Option<Outcome>, first: int)
      requires me < |tasks| && SparesAlways(others, me) && attempt < ATTEMPTS
      modifies this`tasks, store
      ensures me < |tasks|
      ensures var whole := Drive(store.h, Config(old(store.Value()), old(tasks)[me := ReadLockTrace(l, attempt, firstRevision)]), me, others, clock, k);
              Settles(me, outcome, whole) || (outcome.None? && attempt + 1 < ATTEMPTS
                && whole == Drive(store.h, Config(store.Value(), tasks[me := ReadLockTrace(l, attempt + 1, first)]), me, others, clock, k + 2))
    {
      hide Step, SparesAlways, Drive, SaveLockedSpec, Appended, LockDetailsOf, CandidateSha, RecommendationSha, ApprovalSha, Blank;
      var id := l.recommendation.requestId;
      first := firstRevision;
      Await(me, ReadLockTrace(l, attempt, firstRevision), others, clock, k);
      StepReadLockTrace(store.h, store.Value(), l, attempt, firstRevision, clock(k));
      var error := if id !in store.traces then Some(KeyError("trace not found")) else LockReadError(store.h, l, store.traces[id]);
      if error.Some? {
        outcome := Some(Raised(error.value));
        Finish(me, outcome.value, others, clock, k + 1);
        return;
      }
      var trace := store.traces[id];
      var updated := new ResolutionTrace.Clone(trace);
      updated.Append(store.h, "lock", "approved factor result locked",
        LockDetailsOf(l.candidate, l.reviewer, l.approval.mode, l.approval.note), clock(k));
      var snapshot := SnapshotOf(store.h, updated.Value(), l.recommendation.registryAnchor, l.recommendation.policyAnchor);
      if snapshot.Err? {
        outcome := Some(Raised(snapshot.error));
        Finish(me, outcome.value, others, clock, k + 1);
        return;
      }
      if Blank(id) || Blank(l.reviewer) {
        outcome := Some(Raised(ValueError("locked resolution requires request_id and reviewer")));
        Finish(me, outcome.value, others, clock, k + 1);
        return;
      }
      if attempt == 0 {
        first := trace.revision;
      }
      var lock := Lock(id, l.candidate, l.reviewer, l.approval.(status := LOCKED), clock(k), snapshot.value,
        CandidateSha(store.h, l.candidate), RecommendationSha(store.h, l.recommendation), ApprovalSha(store.h, l.approval));
      outcome := LockSave(me, l, attempt, first, lock, updated.Value(), others, clock, k + 1);
    }

    /** save_locked, and whether the loop goes on. */
    method LockSave(me: nat, l: Locking, attempt: nat, first: int, lock: Lock, updated: Trace,
                    others: Schedule, clock: Clock, k: nat)
      returns (outcome: Option<Outcome>)
      requires me < |tasks| && SparesAlways(others, me) && attempt < ATTEMPTS
      modifies this`tasks, store
      ensures me < |tasks|
      ensures var whole := Drive(store.h, Config(old(store.Value()), old(tasks)[me := CommitLock(l, attempt, first, lock, updated)]),
                                 me, others, clock, k);
              Settles(me, outcome, whole) || (outcome.None? && attempt + 1 < ATTEMPTS
                && whole == Drive(store.h, Config(store.Value(), tasks[me := ReadLockTrace(l, attempt + 1, first)]), me, others, clock, k + 1))
    {
      hide Step, SaveLockedSpec, RecommendationSha, Drive, SparesAlways;
      Await(me, CommitLock(l, attempt, first, lock, updated), others, clock, k);
      StepCommitsLock(store.h, store.Value(), l, attempt, first, lock, updated, clock(k));
      var result := store.SaveLocked(lock, updated, RecommendationSha(store.h, l.recommendation), updated.revision - 1);
      match result
      case Ok(saved) =>
        outcome := Some(Locked(saved));
        Finish(me, outcome.value, others, clock, k + 1);
      case Err(e) =>
        if e.StaleError? && l.expected.None? && attempt != ATTEMPTS - 1 {
          outcome := None;
        } else {
          outcome := Some(Raised(e));
          Finish(me, outcome.value, others, clock, k + 1);
        }
    }
  }

  // ---- driven calls are runs of the step system ----

  lemma {:induction false} DriveRuns(h: Hash, c: Config, me: nat, others: Schedule, clock: Clock, k: nat)
    requires me < |c.tasks| && SparesAlways(others, me)
    ensures Drive(h, c, me, others, clock, k) == Run(h, c, DriveActions(h, c, me, others, clock, k))
    ensures var end := Drive(h, c, me, others, clock, k); me < |end.tasks| && end.tasks[me].Done?
    decreases Remaining(c.tasks[me])
  {
    if !c.tasks[me].Done? {
      RunSpares(h, c, others(k), me);
      StepDecreases(h, Run(h, c, others(k)).state, c.tasks[me], clock(k));
      hide Step, Remaining;
      var next := Turn(h, c, me, others, clock, k);
      DriveRuns(h, next, me, others, clock, k + 1);
      var rest := DriveActions(h, next, me, others, clock, k + 1);
      RunConcat(h, c, others(k) + [Advance(me, clock(k))], rest);
      RunConcat(h, c, others(k), [Advance(me, clock(k))]);
    }
  }

  lemma {:induction false} DriveDriven(h: Hash, c: Config, me: nat, others: Schedule, clock: Clock, k: nat)
    requires me < |c.tasks| && SparesAlways(others, me) && forall j: nat :: EngineDriven(h, others(j))
    ensures EngineDriven(h, DriveActions(h, c, me, others, clock, k))
    decreases Remaining(c.tasks[me])
  {
    if !c.tasks[me].Done? {
      RunSpares(h, c, others(k), me);
      StepDecreases(h, Run(h, c, others(k)).state, c.tasks[me], clock(k));
      hide Step, Remaining, Run;
      DriveDriven(h, Turn(h, c, me, others, clock, k), me, others, clock, k + 1);
    }
  }

  /** A call executed in loop form is one run of the step system, so every theorem about runs is about it. */
  lemma DriveIsRun(h: Hash, c: Config, me: nat, others: Schedule, clock: Clock, k: nat)
    requires me < |c.tasks| && SparesAlways(others, me)
    ensures Drive(h, c, me, others, clock, k) == Run(h, c, DriveActions(h, c, me, others, clock, k))
    ensures var end := Drive(h, c, me, others, clock, k); me < |end.tasks| && end.tasks[me].Done?
    ensures (forall j: nat :: EngineDriven(h, others(j))) ==> EngineDriven(h, DriveActions(h, c, me, others, clock, k))
  {
    hide Drive, DriveActions, Run, EngineDriven, SparesAlways;
    DriveRuns(h, c, me, others, clock, k);
    if forall j: nat :: EngineDriven(h, others(j)) { DriveDriven(h, c, me, others, clock, k); }
  }

  /** One call of approve, reject or lock, executed in loop form from any reachable configuration while any
      other calls proceed at its awaits: it ends, in a reachable configuration, never with an integrity error, and
      with an outcome that is stored and is what the call asked for. */
  lemma LoopFormIsSafe(h: Hash, before: seq<Action>, cmd: Command, others: Schedule, clock: Clock)
    requires EngineDriven(h, before) && SparesAlways(others, |Reach(h, before).tasks|)
    requires forall j: nat :: EngineDriven(h, others(j))
    ensures var me, c := |Reach(h, before).tasks|, Apply(h, Reach(h, before), Call(cmd));
            var end := Drive(h, c, me, others, clock, 0);
            && c.tasks[me] == Start(cmd)
            && (exists actions :: EngineDriven(h, actions) && end == Reach(h, actions))
            && me < |end.tasks| && end.tasks[me].Done? && OutcomeOk(end.state, end.tasks[me].outcome)
            && Reports(cmd, end.tasks[me].outcome)
            && (end.tasks[me].outcome.Raised? ==> !end.tasks[me].outcome.error.IntegrityError?)
  {
    hide Step, Start, OutcomeOk, Reports;
    var me, c := |Reach(h, before).tasks|, Apply(h, Reach(h, before), Call(cmd));
    var end := Drive(h, c, me, others, clock, 0);
    DriveIsRun(h, c, me, others, clock, 0);
    var rest := DriveActions(h, c, me, others, clock, 0);
    var actions := before + [Call(cmd)] + rest;
    RunConcat(h, INITIAL, before + [Call(cmd)], rest);
    RunConcat(h, INITIAL, before, [Call(cmd)]);
    assert end == Reach(h, actions) && EngineDriven(h, actions);
    NoIntegrityError(h, actions, me);
    assert actions + [] == actions;
    ReportedStaysStored(h, actions, [], me);
    CommandsConcat(before + [Call(cmd)], rest);
    assert (before + [Call(cmd)])[..|before|] == before;
    ReachServes(h, before);
    OutcomeIsAsked(h, actions, me);
  }
}
