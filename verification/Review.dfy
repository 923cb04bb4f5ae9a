/** The review protocol of A1FactorResolutionEngine (engine.py) as a step system. A task is one call of
    approve, reject or lock; it advances from one await to the next, and every await is an interleaving point. */
module Review {
  import opened Prelude
  import opened Models
  import opened Records
  import opened Store
  import Derivation

  datatype Command =
    | Approve(requestId: string, candidateId: string, reviewer: string, note: string, mode: ApprovalMode, expected: Option<int>)
    | Reject(requestId: string, candidateId: string, reviewer: string, note: string, expected: Option<int>)
    | LockCandidate(requestId: string, candidateId: string, reviewer: string, expected: Option<int>)

  /** The locals of _commit_decision. */
  datatype Decision = Decision(recommendation: Recommendation, candidate: Candidate, reviewer: string,
                               status: ApprovalStatus, note: string, mode: ApprovalMode, expected: Option<int>)

  /** The locals of lock once its checks have passed. */
  datatype Locking = Locking(recommendation: Recommendation, candidate: Candidate, reviewer: string,
                             approval: Approval, expected: Option<int>)

  datatype Outcome = Decided(approval: Approval) | Locked(lock: Lock) | Raised(error: Error)

  /** Where a call is suspended, with what it has read. first is the revision its first attempt read. */
  datatype Task =
    | ReadRecommendation(cmd: Command)
    | CheckDecisionRevision(d: Decision)
    | ReadExisting(d: Decision)
    | ReadTrace(d: Decision, attempt: nat, first: int)
    | CommitDecision(d: Decision, attempt: nat, first: int, approval: Approval, trace: Trace)
    | CheckLockRevision(cmd: Command)
    | ReadLocked(cmd: Command)
    | ReadApproval(cmd: Command)
    | ReadLockedRecommendation(cmd: Command, approval: Approval)
    | ReadLockTrace(l: Locking, attempt: nat, first: int)
    | CommitLock(l: Locking, attempt: nat, first: int, lock: Lock, trace: Trace)
    | Done(outcome: Outcome)

  const ATTEMPTS := 8

  // ---- the checks of approve and lock ----

  /** What approve demands before it commits anything. */
  function ApproveChecks(r: Recommendation, candidateId: string, note: string, mode: ApprovalMode): Result<Candidate> {
    if r.status != RECOMMENDATION_READY && r.status != REFERENCE_REVIEW_REQUIRED then Err(ValueError("not approvable"))
    else
      var selected, reviewable := Find(r.candidates, candidateId), Find(r.reviewable, candidateId);
      if selected.None? && reviewable.Some? && mode != REFERENCE_OVERRIDE then Err(ValueError("reviewable requires override"))
      else if selected.None? && reviewable.None? then Err(KeyError("candidate not found"))
      else
        var c := if selected.Some? then selected.value else reviewable.value;
        if AdmissionIncomplete(c) then Err(ValueError("formal evidence missing"))
        else if HardRejected(c) then Err(ValueError("hard-blocked"))
        else if r.status == REFERENCE_REVIEW_REQUIRED && mode != REFERENCE_OVERRIDE then Err(ValueError("review requires override"))
        else if c.resultTier == REFERENCE_ONLY && (mode != REFERENCE_OVERRIDE || Blank(note)) then
          Err(ValueError("REFERENCE_ONLY requires override and reason"))
        else if c.resultTier == USABLE_WITH_ASSUMPTIONS && mode == STANDARD then
          Err(ValueError("assumptions must be accepted"))
        else Ok(c)
  }

  /** What lock demands of the candidate and the stored approval before it tries to commit. */
  function LockChecks(h: Hash, r: Recommendation, candidateId: string, a: Approval): Result<Candidate> {
    match FindReviewed(r, candidateId)
    case None => Err(KeyError("candidate not found"))
    case Some(c) =>
      if AdmissionIncomplete(c) then Err(ValueError("formal evidence missing"))
      else if HardRejected(c) then Err(ValueError("hard-blocked"))
      else if c.resultTier == REFERENCE_ONLY && a.mode != REFERENCE_OVERRIDE then Err(ValueError("REFERENCE_ONLY requires override"))
      else if c.resultTier == USABLE_WITH_ASSUMPTIONS && a.mode == STANDARD then Err(ValueError("assumptions must be accepted"))
      else if Derivation.LockTotalCheck(c).Err? then Err(Derivation.LockTotalCheck(c).error)
      else if !IntegrityBound(a) then Err(ValueError("legacy approval cannot be locked"))
      else if a.candidateSha != Some(CandidateSha(h, c)) || a.recommendationSha != Some(RecommendationSha(h, r))
              || a.recommendationRevision != Some(r.revision) || a.databaseAnchor != r.databaseAnchor
              || a.registryAnchor != r.registryAnchor || a.policyAnchor != r.policyAnchor
      then Err(IntegrityError("approval binding no longer matches"))
      else Ok(c)
  }

  /** _bound_approval: chain_sha256 verifies the whole chain, then the record constructor checks its texts. */
  function BoundApproval(h: Hash, d: Decision, t: Trace, now: int): Result<Approval> {
    var r := d.recommendation;
    if r.databaseAnchor.None? || r.registryAnchor.None? || r.policyAnchor.None? then
      Err(ValueError("recommendation is missing integrity anchors"))
    else
      match ChainAtRevision(h, t, t.revision)
      case Err(e) => Err(e)
      case Ok(chain) =>
        if Blank(r.requestId) || Blank(d.candidate.candidateId) || Blank(d.reviewer) then
          Err(ValueError("approval requires request_id, candidate_id and reviewer"))
        else
          Ok(Approval(r.requestId, d.candidate.candidateId, d.reviewer, d.status, d.note, now, d.mode,
            Some(CandidateSha(h, d.candidate)), Some(RecommendationSha(h, r)), Some(r.revision),
            r.databaseAnchor, r.registryAnchor, r.policyAnchor, Some(t.revision), Some(chain), Some(d.reviewer)))
  }

  function DecisionEvent(d: Decision): (string, Details) {
    (if d.status == APPROVED then "candidate approved" else "candidate rejected",
     DecisionDetails(d.candidate.candidateId, d.reviewer, d.note, if d.status == APPROVED then Some(d.mode) else None))
  }

  // ---- one step ----

  function Start(cmd: Command): Task {
    match cmd
    case LockCandidate(_, _, _, expected) => if expected.Some? then CheckLockRevision(cmd) else ReadLocked(cmd)
    case _ => ReadRecommendation(cmd)
  }

  function StartDecision(d: Decision): Task {
    if d.expected.Some? then CheckDecisionRevision(d) else ReadExisting(d)
  }

  /** approve and reject up to their first suspension inside _commit_decision. */
  function AfterRecommendation(s: State, cmd: Command): Task {
    if cmd.requestId !in s.recommendations then Done(Raised(KeyError("unknown request")))
    else
      var r := s.recommendations[cmd.requestId];
      match cmd
      case Approve(_, candidateId, reviewer, note, mode, expected) =>
        (match ApproveChecks(r, candidateId, note, mode)
         case Err(e) => Done(Raised(e))
         case Ok(c) => StartDecision(Decision(r, c, reviewer, APPROVED, note, mode, expected)))
      case Reject(_, candidateId, reviewer, note, expected) =>
        (match FindReviewed(r, candidateId)
         case None => Done(Raised(KeyError("candidate not found")))
         case Some(c) => StartDecision(Decision(r, c, reviewer, REJECTED, note, STANDARD, expected)))
      case LockCandidate(_, _, _, _) => Done(Raised(KeyError("not a decision")))
  }

  function AfterExisting(s: State, d: Decision): Task {
    var key := (d.recommendation.requestId, d.candidate.candidateId);
    if key !in s.approvals then ReadTrace(d, 0, 0)
    else if MatchesDecision(s.approvals[key], d.status, d.reviewer, d.note, d.mode) then Done(Decided(s.approvals[key]))
    else Done(Raised(ConflictError("candidate already has a different terminal human decision")))
  }

  /** One turn of the retry loop of _commit_decision, up to its save. */
  function AfterTrace(h: Hash, s: State, d: Decision, attempt: nat, first: int, now: int): Task {
    var id := d.recommendation.requestId;
    if attempt >= ATTEMPTS then Done(Raised(StaleError("decision could not commit after concurrent updates")))
    else if id !in s.traces then Done(Raised(KeyError("trace not found")))
    else
      var t := s.traces[id];
      if d.expected.Some? && t.revision != d.expected.value then Done(Raised(StaleError("trace revision changed before decision")))
      else
        var (message, details) := DecisionEvent(d);
        var updated := Appended(h, t, "human_approval", message, details, now);
        match BoundApproval(h, d, updated, now)
        case Err(e) => Done(Raised(e))
        case Ok(a) => CommitDecision(d, attempt, if attempt == 0 then t.revision else first, a, updated)
  }

  function AfterApproval(s: State, cmd: Command): Task {
    var key := (cmd.requestId, cmd.candidateId);
    if key !in s.approvals || s.approvals[key].status != APPROVED then
      Done(Raised(ConflictError("candidate must be approved before locking")))
    else ReadLockedRecommendation(cmd, s.approvals[key])
  }

  function AfterLockTrace(h: Hash, s: State, l: Locking, attempt: nat, first: int, now: int): Task {
    var id := l.recommendation.requestId;
    if attempt >= ATTEMPTS then Done(Raised(StaleError("lock could not commit after concurrent updates")))
    else if id !in s.traces then Done(Raised(KeyError("trace not found")))
    else
      var t := s.traces[id];
      if l.expected.Some? && t.revision != l.expected.value then Done(Raised(StaleError("trace revision changed before lock")))
      else if l.approval.traceRevision.None? || l.approval.traceRevision.value < 1 || l.approval.traceRevision.value > t.revision then
        Done(Raised(IntegrityError("approval trace binding is not a prefix")))
      else
        match ChainAtRevision(h, t, l.approval.traceRevision.value)
        case Err(e) => Done(Raised(e))
        case Ok(chain) =>
          if l.approval.traceChain != Some(chain) then Done(Raised(IntegrityError("approval trace binding is not a prefix")))
          else
            var updated := Appended(h, t, "lock", "approved factor result locked",
              LockDetailsOf(l.candidate, l.reviewer, l.approval.mode, l.approval.note), now);
            match SnapshotOf(h, updated, l.recommendation.registryAnchor, l.recommendation.policyAnchor)
            case Err(e) => Done(Raised(e))
            case Ok(snapshot) =>
              if Blank(id) || Blank(l.reviewer) then Done(Raised(ValueError("locked resolution requires request_id and reviewer")))
              else
                var lock := Lock(id, l.candidate, l.reviewer, l.approval.(status := LOCKED), now, snapshot,
                  CandidateSha(h, l.candidate), RecommendationSha(h, l.recommendation), ApprovalSha(h, l.approval));
                CommitLock(l, attempt, if attempt == 0 then t.revision else first, lock, updated)
  }

  /** Advance a task past the await it is suspended at. now is the clock reading of that step. */
  function Step(h: Hash, s: State, task: Task, now: int): (State, Task) {
    match task
    case ReadRecommendation(cmd) => (s, AfterRecommendation(s, cmd))
    case CheckDecisionRevision(d) =>
      var id := d.recommendation.requestId;
      if id !in s.traces then (s, Done(Raised(KeyError("trace not found"))))
      else if Some(s.traces[id].revision) != d.expected then (s, Done(Raised(StaleError("trace revision changed before decision"))))
      else (s, ReadExisting(d))
    case ReadExisting(d) => (s, AfterExisting(s, d))
    case ReadTrace(d, attempt, first) => (s, AfterTrace(h, s, d, attempt, first, now))
    case CommitDecision(d, attempt, first, a, t) =>
      var (s', result) := SaveApprovalSpec(h, s, a, t, RecommendationSha(h, d.recommendation), t.revision - 1);
      (match result
       case Ok(saved) => (s', Done(Decided(saved)))
       case Err(e) =>
         if e.StaleError? && d.expected.None? && attempt != ATTEMPTS - 1 then (s', ReadTrace(d, attempt + 1, first))
         else (s', Done(Raised(e))))
    case CheckLockRevision(cmd) =>
      if cmd.requestId !in s.traces then (s, Done(Raised(KeyError("trace not found"))))
      else if Some(s.traces[cmd.requestId].revision) != cmd.expected then (s, Done(Raised(StaleError("trace revision changed before lock"))))
      else (s, ReadLocked(cmd))
    case ReadLocked(cmd) =>
      if cmd.requestId !in s.locked then (s, ReadApproval(cmd))
      else if s.locked[cmd.requestId].candidate.candidateId == cmd.candidateId then (s, Done(Locked(s.locked[cmd.requestId])))
      else (s, Done(Raised(ConflictError("resolution is already locked and immutable"))))
    case ReadApproval(cmd) => (s, AfterApproval(s, cmd))
    case ReadLockedRecommendation(cmd, a) =>
      if cmd.requestId !in s.recommendations then (s, Done(Raised(KeyError("unknown request"))))
      else
        var r := s.recommendations[cmd.requestId];
        (match LockChecks(h, r, cmd.candidateId, a)
         case Err(e) => (s, Done(Raised(e)))
         case Ok(c) => (s, ReadLockTrace(Locking(r, c, cmd.reviewer, a, cmd.expected), 0, 0)))
    case ReadLockTrace(l, attempt, first) => (s, AfterLockTrace(h, s, l, attempt, first, now))
    case CommitLock(l, attempt, first, lock, t) =>
      var (s', result) := SaveLockedSpec(h, s, lock, t, RecommendationSha(h, l.recommendation), t.revision - 1);
      (match result
       case Ok(saved) => (s', Done(Locked(saved)))
       case Err(e) =>
         if e.StaleError? && l.expected.None? && attempt != ATTEMPTS - 1 then (s', ReadLockTrace(l, attempt + 1, first))
         else (s', Done(Raised(e))))
    case Done(_) => (s, task)
  }

  // ---- the whole system ----

  datatype Config = Config(state: State, tasks: seq<Task>)

  /** resolve saves a run; call starts a review task; advance moves one task past its await;
      append is any caller's save_trace. */
  datatype Action =
    | Resolve(recommendation: Recommendation, trace: Trace)
    | Call(cmd: Command)
    | Advance(task: nat, now: int)
    | AppendTrace(trace: Trace)

  function Apply(h: Hash, c: Config, a: Action): Config {
    match a
    case Resolve(r, t) => c.(state := SaveRunSpec(h, c.state, r, t).0)
    case Call(cmd) => c.(tasks := c.tasks + [Start(cmd)])
    case Advance(i, now) =>
      if i < |c.tasks| then
        var (s, t) := Step(h, c.state, c.tasks[i], now);
        Config(s, c.tasks[i := t])
      else c
    case AppendTrace(t) => c.(state := SaveTraceSpec(h, c.state, t).0)
  }

  const INITIAL := Config(EMPTY, [])

  function Run(h: Hash, c: Config, actions: seq<Action>): Config
    decreases |actions|
  {
    if actions == [] then c else Run(h, Apply(h, c, actions[0]), actions[1..])
  }

  /** The anchors _bind_recommendation attaches: the database anchor comes from the trace itself. */
  predicate BoundRun(h: Hash, r: Recommendation, t: Trace) {
    && r.requestId == t.envelope.requestId
    && r.databaseAnchor == AnchorSha(h, t.envelope.databaseAnchor)
  }

  /** Runs are saved by resolve, which binds them; nothing else is asked of any action. */
  predicate EngineDriven(h: Hash, actions: seq<Action>) {
    forall i :: 0 <= i < |actions| && actions[i].Resolve? ==> BoundRun(h, actions[i].recommendation, actions[i].trace)
  }
}
