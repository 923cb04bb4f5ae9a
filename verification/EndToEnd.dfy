/** From a request to its lock: A1FactorResolutionEngine.resolve runs the graph, binds its recommendation and
    stores it; what the graph run guarantees, every later run of the review protocol keeps. */
module EndToEnd {
  import opened Prelude
  import opened Models
  import opened Records
  import opened Store
  import opened Review
  import opened ReviewInvariant
  import opened ReviewSteps
  import opened ReviewTheorems
  import Derivation
  import Engine
  import Pipeline
  import TopK

  // ---- what holds from now on, whatever anybody does ----

  /** From here on, id is never approved and never locked. */
  ghost predicate NeverApproved(h: Hash, actions: seq<Action>, id: string) {
    forall after :: EngineDriven(h, after) ==> OnlyRejected(Reach(h, actions + after).state, id)
  }

  ghost predicate OnlyRejected(s: State, id: string) {
    id !in s.locked && forall k :: k in s.approvals && k.0 == id ==> s.approvals[k].status == REJECTED
  }

  /** From here on, whatever is locked for id is one of the candidates selected or offered for review. */
  ghost predicate LocksOnlyOffered(h: Hash, actions: seq<Action>, id: string, selection: TopK.Selection) {
    forall after :: EngineDriven(h, after) && id in Reach(h, actions + after).state.locked ==>
      Offered(Reach(h, actions + after).state, id, selection)
  }

  /** The locked candidate was selected and is sufficient, or it was offered for review only; it is not blocked,
      its admission is complete, and its approval has the mode and the reason its tier asks for. */
  predicate Offered(s: State, id: string, selection: TopK.Selection)
    requires id in s.locked
  {
    var c := s.locked[id].candidate;
    && (id, c.candidateId) in s.approvals
    && var a := s.approvals[(id, c.candidateId)];
    && a.status == APPROVED && !HardRejected(c) && !AdmissionIncomplete(c)
    && ((c in selection.candidates && Sufficient(c)) || (c in selection.reviewable && c.resultTier == REFERENCE_ONLY))
    && (c.resultTier == REFERENCE_ONLY ==> a.mode == REFERENCE_OVERRIDE && !Blank(a.note))
    && (c.resultTier == USABLE_WITH_ASSUMPTIONS ==> a.mode != STANDARD)
  }

  /** From here on, no check of lock refuses an approved candidate of id. */
  ghost predicate ApprovedStaysLockable(h: Hash, actions: seq<Action>, id: string) {
    forall after: seq<Action>, k: Key :: EngineDriven(h, after) && k.0 == id && ApprovedIn(Reach(h, actions + after).state, k) ==>
      Lockable(h, Reach(h, actions + after).state, k)
  }

  predicate ApprovedIn(s: State, k: Key) {
    k in s.approvals && s.approvals[k].status == APPROVED
  }

  predicate Lockable(h: Hash, s: State, k: Key)
    requires k in s.approvals
  {
    k.0 in s.recommendations && LockChecks(h, s.recommendations[k.0], k.1, s.approvals[k]).Ok?
  }

  /** The stored recommendation carries what the graph selected. */
  predicate Carries(s: State, id: string, selection: TopK.Selection) {
    && id in s.recommendations
    && s.recommendations[id].status == selection.status
    && s.recommendations[id].candidates == selection.candidates
    && s.recommendations[id].reviewable == selection.reviewable
  }

  lemma EngineDrivenConcat(h: Hash, xs: seq<Action>, ys: seq<Action>)
    requires EngineDriven(h, xs) && EngineDriven(h, ys)
    ensures EngineDriven(h, xs + ys)
  {
    hide BoundRun;
  }

  /** What a recommendation carries, it carries for good. */
  lemma StillCarries(h: Hash, actions: seq<Action>, after: seq<Action>, id: string, selection: TopK.Selection)
    requires EngineDriven(h, actions) && EngineDriven(h, after) && Carries(Reach(h, actions).state, id, selection)
    ensures Carries(Reach(h, actions + after).state, id, selection)
  {
    hide Reach, EngineDriven, RunsInv, ApprovalsInv, LocksInv, OneApproved, DecidedBeforeLock, TaskInv;
    EngineDrivenConcat(h, actions, after);
    ReachGrows(h, actions, after);
    ContentDecides(h, Reach(h, actions).state.recommendations[id], Reach(h, actions + after).state.recommendations[id]);
  }

  /** The store holds, for id, what the graph recommends in env. */
  predicate CarriesRun(s: State, id: string, env: Pipeline.Environment) {
    Pipeline.Recommended(env).Ok? && Carries(s, id, Pipeline.Recommended(env).value)
  }

  // ---- from the stored run to the lock ----

  /** A request that was not normalized, or whose graph run ended with any request gap, is never approved and
      never locked, by any later calls. */
  lemma IncompleteNeverLocked(h: Hash, actions: seq<Action>, id: string, env: Pipeline.Environment)
    requires EngineDriven(h, actions) && CarriesRun(Reach(h, actions).state, id, env)
    requires env.normalized ==> Pipeline.Finished(env).Ok? && Pipeline.Finished(env).value.requestGaps != []
    ensures NeverApproved(h, actions, id)
  {
    hide Reach, EngineDriven, Pipeline.Finished, Pipeline.Recommended;
    assert !Approvable(Pipeline.Recommended(env).value.status) by {
      if env.normalized { Pipeline.IncompleteNeverSelected(env); } else { NotNormalized(env); }
    }
    forall after | EngineDriven(h, after) ensures OnlyRejected(Reach(h, actions + after).state, id) {
      EngineDrivenConcat(h, actions, after);
      UnapprovableNeverLocked(h, actions, after, id);
    }
  }

  lemma NotNormalized(env: Pipeline.Environment)
    requires !env.normalized
    ensures !Approvable(Pipeline.Recommended(env).value.status)
  {
    hide Pipeline.Finished;
  }

  /** Whatever is locked later passed the gate of the list it was offered in. */
  lemma LockedWasOffered(h: Hash, actions: seq<Action>, id: string, env: Pipeline.Environment)
    requires EngineDriven(h, actions) && CarriesRun(Reach(h, actions).state, id, env)
    ensures LocksOnlyOffered(h, actions, id, Pipeline.Recommended(env).value)
  {
    hide Reach, EngineDriven, HardRejected, AdmissionIncomplete, Blank, Sufficient, Pipeline.Finished, Pipeline.Recommended;
    var selection := Pipeline.Recommended(env).value;
    Pipeline.OfferedPassGates(env);
    forall after | EngineDriven(h, after) && id in Reach(h, actions + after).state.locked
      ensures Offered(Reach(h, actions + after).state, id, selection)
    {
      StillCarries(h, actions, after, id, selection);
      EngineDrivenConcat(h, actions, after);
      LockedWasAdmissible(h, actions + after, id);
      LockedWasApproved(h, actions + after, id);
      var s := Reach(h, actions + after).state;
      assert s.locked[id].candidate in s.recommendations[id].candidates + s.recommendations[id].reviewable;
    }
  }

  /** Once a candidate with a consistent total is approved, no check of lock can refuse it: what approve
      checked, and what it bound, lock finds again. */
  lemma ApprovedIsLockable(h: Hash, actions: seq<Action>, k: Key)
    requires EngineDriven(h, actions) && ApprovedIn(Reach(h, actions).state, k)
    ensures k.0 in Reach(h, actions).state.recommendations
    ensures var r := Reach(h, actions).state.recommendations[k.0];
            && FindReviewed(r, k.1).Some?
            && (Lockable(h, Reach(h, actions).state, k) <==> Derivation.LockTotalCheck(FindReviewed(r, k.1).value).Ok?)
  {
    hide Reach, EngineDriven, RunsInv, ApprovalsInv, LocksInv, OneApproved, DecidedBeforeLock, TaskInv, ApprovalInv, RunInv, LockChecks,
         Derivation.LockTotalCheck, FindReviewed;
    ReachInv(h, actions);
    var s := Reach(h, actions).state;
    StoredDecision(h, s, k);
    ApprovedPassesLock(h, s.recommendations[k.0], s.traces[k.0], k, s.approvals[k]);
  }

  /** Hence, if candidates enter the graph fresh from their records, whatever of the run is approved can be locked. */
  lemma ApprovedCanBeLocked(h: Hash, actions: seq<Action>, id: string, env: Pipeline.Environment)
    requires EngineDriven(h, actions) && CarriesRun(Reach(h, actions).state, id, env) && Pipeline.EntersFresh(env)
    ensures ApprovedStaysLockable(h, actions, id)
  {
    hide Reach, EngineDriven, Derivation.LockTotalCheck, Lockable, Pipeline.Finished, Pipeline.Recommended, Pipeline.EntersFresh;
    Pipeline.OfferedPassGates(env);
    forall after: seq<Action>, k: Key | EngineDriven(h, after) && k.0 == id && ApprovedIn(Reach(h, actions + after).state, k)
      ensures Lockable(h, Reach(h, actions + after).state, k)
    {
      StillCarries(h, actions, after, id, Pipeline.Recommended(env).value);
      EngineDrivenConcat(h, actions, after);
      ApprovedIsLockable(h, actions + after, k);
    }
  }

  // ---- resolve ----

  /** _bind_recommendation, for the recommendation a finished graph holds. */
  function Bind(h: Hash, id: string, selection: TopK.Selection, t: Trace, registry: Digest, policy: Digest, content: int): Recommendation {
    Recommendation(id, selection.status, selection.candidates, selection.reviewable, selection.diagnostics, 1,
      AnchorSha(h, t.envelope.databaseAnchor), Some(registry), Some(policy), content, Some(t))
  }

  lemma ReachConcat(h: Hash, before: seq<Action>, others: seq<Action>)
    ensures Reach(h, before + others) == Run(h, Reach(h, before), others)
  {
    RunConcat(h, INITIAL, before, others);
  }

  /** Storing a bound recommendation is one action of the review protocol. */
  lemma StoredRun(h: Hash, before: seq<Action>, r: Recommendation, t: Trace)
    requires EngineDriven(h, before) && BoundRun(h, r, t)
    ensures EngineDriven(h, before + [Resolve(r, t)])
    ensures Reach(h, before + [Resolve(r, t)]).state == SaveRunSpec(h, Reach(h, before).state, r, t).0
  {
    hide SaveRunSpec;
    ReachConcat(h, before, [Resolve(r, t)]);
    assert Run(h, Reach(h, before), [Resolve(r, t)]) == Apply(h, Reach(h, before), Resolve(r, t));
  }

  /** The store takes a bound recommendation with all it carries, or nothing. */
  lemma SavedCarries(h: Hash, s: State, id: string, selection: TopK.Selection, t: Trace, registry: Digest, policy: Digest, content: int)
    requires t.envelope.requestId == id
    ensures BoundRun(h, Bind(h, id, selection, t, registry, policy, content), t)
    ensures var (u, saved) := SaveRunSpec(h, s, Bind(h, id, selection, t, registry, policy, content), t);
            if saved.Ok? then Carries(u, id, selection) else u == s
  {
    hide ChainOk, AnchorSha;
  }

  /** Bind and store. history is how the store came about. */
  method StoreBound(store: InMemoryResolutionStore, ghost history: seq<Action>, id: string, selection: TopK.Selection, trace: Trace,
                    registry: Digest, policy: Digest, content: int)
    returns (saved: Result<()>)
    requires EngineDriven(store.h, history) && store.Value() == Reach(store.h, history).state && trace.envelope.requestId == id
    modifies store
    ensures var longer := history + [Resolve(Bind(store.h, id, selection, trace, registry, policy, content), trace)];
            if saved.Ok? then
              EngineDriven(store.h, longer) && store.Value() == Reach(store.h, longer).state && Carries(store.Value(), id, selection)
            else
              store.Value() == old(store.Value())
  {
    hide Reach, EngineDriven, SaveRunSpec, Bind, BoundRun, Carries;
    var r := Bind(store.h, id, selection, trace, registry, policy, content);
    SavedCarries(store.h, store.Value(), id, selection, trace, registry, policy, content);
    StoredRun(store.h, history, r, trace);
    saved := store.SaveResolutionRun(r, trace);
  }

  /** resolve: refuse a known id, run the graph while everybody else acts, bind, and store if the id is still
      free. before is any history of the store; the trace is the one the graph wrote for this request. */
  method ResolveRequest(system: Engine.System, ghost before: seq<Action>, others: seq<Action>, env: Pipeline.Environment,
                        id: string, trace: Trace, registry: Digest, policy: Digest, content: int)
    returns (result: Result<Recommendation>, ghost history: seq<Action>)
    requires EngineDriven(system.store.h, before) && EngineDriven(system.store.h, others)
    requires system.Value() == Reach(system.store.h, before)
    requires trace.envelope.requestId == id
    modifies system, system.store
    // the store is reached through this history, in which only others and one stored run are new
    ensures EngineDriven(system.store.h, history) && system.store.Value() == Reach(system.store.h, history).state
    ensures result.Err? ==> history == before || history == before + others
    ensures result.Ok? ==> Pipeline.Recommended(env).Ok?
    ensures result.Ok? ==>
      var stored := Bind(system.store.h, id, Pipeline.Recommended(env).value, trace, registry, policy, content);
      history == before + others + [Resolve(stored, trace)]
    // it carries the run, from now on
    ensures result.Ok? ==> CarriesRun(system.store.Value(), id, env) && result.value == system.store.recommendations[id]
    // a request that could not be normalized or ended with a gap is never approved and never locked
    ensures result.Ok? && (env.normalized ==> Pipeline.Finished(env).Ok? && Pipeline.Finished(env).value.requestGaps != []) ==> NeverApproved(system.store.h, history, id)
    // whatever is locked was offered, and passed the gate of its list
    ensures result.Ok? ==> LocksOnlyOffered(system.store.h, history, id, Pipeline.Recommended(env).value)
    // and what is approved can be locked
    ensures result.Ok? && Pipeline.EntersFresh(env) ==> ApprovedStaysLockable(system.store.h, history, id)
  {
    hide Reach, EngineDriven, Bind, NeverApproved, LocksOnlyOffered, ApprovedStaysLockable, Pipeline.EntersFresh, Pipeline.Finished,
         Pipeline.Recommended;
    var h := system.store.h;
    history := before;
    if id in system.store.recommendations || id in system.store.traces {
      return Err(ValueError("duplicate request_id")), history;
    }
    var graph := new Pipeline.GraphState();
    var run := graph.Run(env);
    system.PerformAll(others);
    ReachConcat(h, before, others);
    EngineDrivenConcat(h, before, others);
    history := before + others;
    if run.Err? {
      return Err(run.error), history;
    }
    var saved := StoreBound(system.store, history, id, run.value, trace, registry, policy, content);
    if saved.Err? {
      return Err(saved.error), history;
    }
    history := history + [Resolve(Bind(h, id, run.value, trace, registry, policy, content), trace)];
    result := Ok(system.store.recommendations[id]);
    if !env.normalized || graph.requestGaps != [] { IncompleteNeverLocked(h, history, id, env); }
    LockedWasOffered(h, history, id, env);
    if Pipeline.EntersFresh(env) { ApprovedCanBeLocked(h, history, id, env); }
  }
}
