# CarbonFactorResolver: verified models

CarbonFactorResolver turns an activity request into ranked emission-factor candidates and then runs a human
review protocol that ends in one immutable lock. This project models four parts of it in Dafny and proves
properties of each over all inputs, all runs or all interleavings.

- **Review, lock and audit trace.** `Records` (traces, hash chain, digests, decisions, locks), `TraceLog` (the
  mutable trace), `Store` (the in-memory store and its compare-and-set commits), `StoreGuards` (what the store guarantees
  to any caller), `Review` (approve, reject and lock as a step system in which every `await` is an interleaving point),
  `ReviewInvariant`, `ReviewSteps`, `ReviewTheorems`, `ReviewAudit` (what every reachable configuration satisfies),
  `ReviewOutcomes` (what a call reports is what its command asked for), `Undisturbed` (exactly when a call that nobody
  disturbs succeeds), and `Engine` (the same calls in loop form on the mutable store, proved to be runs of the step
  system). SHA-256 over canonical JSON is a function parameter `h`: every statement holds for every `h`, and
  `CollisionFree(h)` is required only where content is recovered from equal digests; `Encoding` proves that some
  function meets that assumption. `Http` is the idempotency protocol of the resolve route.
- **Decision pipeline.** `Models` (candidates and the approval gates), `Ranking`, `TopK`, `Pipeline` (the graph run
  from local evaluation to its recommendation), `PipelineLaws` (which candidates a run ends with and what it asks for),
  `EndToEnd` (from a request through its run and its stored recommendation to the lock).
- **Derivation arithmetic**, over the reals with units as positive scales: `Units`, `Derivation`,
  `ProcessAdjustment`, `ReferenceFlow`, `GradeResolution`, `DerivationChain`, and the same on the values of units,
  records and evidence: `DerivationLaws`, `ProcessLaws`, `GradeLaws`.
- **Deterministic selection and canonicalisation.** `MaterialMatch`, `NumericGrade`, `NumericGradeLaws`, `Canonical`,
  `Equivalence` (which values have one canonical form), `Catalog`, `Json`, `JsonComplexity`, `PublicScan`. `Prelude` and
  `Sorting` hold the shared idioms.

Methods mirror the imperative code and are proved equal to a specification function; what the source promises is
then proved about that function, and its main results are stated on the values of the inputs, without the functions
that compute them. `dafny verify dfyconfig.toml` checks the whole project.

## Findings

Where a natural expectation is false of the code, the model keeps the code and states when the expectation holds.

- Top-K promises leading parts of the ranking, but when a decisive attribute is missing it lists sufficient
  candidates before reference-only ones (`src/a1_factor_engine/nodes.py:1489-1535`). `TopK.AmbiguityFollowsRankingIff`
  gives the exact condition, `TopK.AmbiguityReordersExample` a ranking that is reordered.
- `canonical_value` sorts mapping items, but the sort has no effect on the resulting dictionary
  (`Canonical.BuildSorted`): keys with one `str()` and different values still make the result depend on insertion
  order. `Canonical.MappingOrderIff` gives the exact condition, `Canonical.CollidingKeysExample` an instance.
- The ranking is the same for every input order exactly when no id has two different strongest candidates
  (`Ranking.OneRankingIffUnambiguous`); weaker duplicates may differ freely.
- The delta route of the process adjustment is not always reversible: `ProcessAdjustment.DeltaReversible` gives the
  exact condition, `ProcessAdjustment.DeltaIrreversibleExample` an instance.
- A location of the public scan decodes to its path for every path except that of the root, which is written like the
  member with the empty name (`PublicScan.PointerRoundTrip`).
- `resolver.state` is awaited outside the `try` of the resolve handler (`src/a1_factor_engine/api.py:481-485`). If it
  raises, a new owner reservation is left behind with nothing stored: `Http.BoundIffStored` gives the exact condition,
  `Http.ReservationLeftExample` an instance. The getter of the in-memory store cannot raise.
- `save_locked` asks that a lock embed the stored decision, but not that this decision be an approval
  (`StoreGuards.LockAcceptedIff`); only `lock` asks for that (`ReviewTheorems.LockedWasApproved`).
- The final raise after both retry loops, the integrity errors of `lock` and `save_locked`, the conflict for a stored
  resolution without a binding, and the guard on equal bracket grades are unreachable in the modelled runs.

## Model

| member | source | states |
|---|---|---|
| Records.AppendKeepsChain | src/a1_factor_engine/models.py:1229-1257 | appending keeps a verified chain verified and extends it by one entry |
| Records.PrefixDigestStable | src/a1_factor_engine/models.py:1262-1282 | the digest of a prefix never changes while a trace only grows |
| Records.HashPrefixTransitive | src/a1_factor_engine/adapters.py:899-904 | append-only growth composes over any number of commits |
| Records.EntryHashFixesHistory | src/a1_factor_engine/models.py:1189-1257 | tamper evidence: without collisions one entry hash fixes the whole history before it |
| Records.HashPrefixIsPrefix | src/a1_factor_engine/adapters.py:899-904 | comparing entry hashes is enough to know that one trace is a content-level prefix of another |
| Records.ChainDigestBinds | src/a1_factor_engine/models.py:1262-1282 | equal chain digests mean the same origin, the same revision and the same entries |
| Records.RecommendationShaBinds | src/a1_factor_engine/models.py:2003-2028 | where candidates are told apart by their digests, two recommendations have one digest exactly when they are equal but for their traces |
| Records.ApprovalShaBinds | src/a1_factor_engine/models.py:2079-2098 | two decisions have one digest exactly when they are equal but for their creation times |
| Records.SnapshotBinds | src/a1_factor_engine/models.py:1411-1451 | snapshots with one digest are equal, and were taken of equal entries, request, catalogue and anchors |
| Encoding.CollisionFreeExists | src/a1_factor_engine/integrity.py:113-121 | some function into strings tells all digested payloads but candidates apart, so that the assumption of the binding results can be met |
| TraceLog.ResolutionTrace.Append | src/a1_factor_engine/models.py:1229-1236 | the mutable trace becomes the old one with exactly one chained entry |
| TraceLog.ResolutionTrace.VerifyHashChain | src/a1_factor_engine/models.py:1238-1257 | the loop accepts exactly the traces in which every entry links to its predecessor and hashes its own content |
| TraceLog.ResolutionTrace.Clone | src/a1_factor_engine/models.py:1287-1299 | a clone has the value of the trace it copies |
| Store.InMemoryResolutionStore.SaveResolutionRun | src/a1_factor_engine/adapters.py:856-869 | a run is stored once per request id, recommendation and trace together, or nothing changes |
| Store.InMemoryResolutionStore.SaveTrace | src/a1_factor_engine/adapters.py:874-909 | only a verified extension of the stored trace with the same envelope replaces it |
| Store.InMemoryResolutionStore.SaveApproval | src/a1_factor_engine/adapters.py:914-1074 | compare-and-set commit of a decision with its trace: the whole new state and every error branch |
| Store.InMemoryResolutionStore.SaveLocked | src/a1_factor_engine/adapters.py:1079-1183 | compare-and-set commit of a lock with its trace: the whole new state and every error branch |
| StoreGuards.AlwaysGuarded | src/a1_factor_engine/adapters.py:856-1183 | whoever calls the four commits, in whatever order and with whatever arguments: every stored decision and lock digests its run and its prefix of the trace and is spelled out by its own entry there, a request has at most one approved candidate, and its lock comes last |
| StoreGuards.AlwaysKept | src/a1_factor_engine/adapters.py:856-1183 | and no call ever takes back what an earlier one stored: traces only get entries behind, decisions and locks are written once |
| StoreGuards.TraceAcceptedIff | src/a1_factor_engine/adapters.py:874-909 | a stored trace is replaced exactly by verified traces that add entries behind it |
| StoreGuards.DecisionAcceptedIff | src/a1_factor_engine/adapters.py:914-1074 | a first decision is stored exactly when its caller saw the live run and trace, adds one entry, the request is free for it, and the decision is bound and spelled out as the guard demands |
| StoreGuards.ReplayAcceptedIff | src/a1_factor_engine/adapters.py:930-961 | a repeated decision is answered with the stored one exactly when it decides alike on the same candidate, recommendation and anchors, and changes nothing |
| StoreGuards.LockAcceptedIff | src/a1_factor_engine/adapters.py:1079-1183 | the same for a first lock of a decided candidate; that the decision is an approval is not asked by the store |
| ReviewInvariant.ApprovalWrite | src/a1_factor_engine/adapters.py:1006-1074 | a first decision keeps the store invariant, at most one APPROVED decision per request included |
| ReviewInvariant.LockWrite | src/a1_factor_engine/adapters.py:1126-1183 | a first lock keeps the store invariant and overwrites nothing |
| ReviewInvariant.TraceWrite | src/a1_factor_engine/adapters.py:905-909 | replacing a trace by an extension keeps every stored decision and lock bound |
| ReviewSteps.TaskStable | src/a1_factor_engine/engine.py:627-676 | what a suspended call has read stays valid while others commit, approvals being write-once |
| ReviewSteps.ReplayAgrees | src/a1_factor_engine/adapters.py:932-961 | a replayed decision always agrees with the stored one on its stable bindings |
| ReviewSteps.NewApprovalErrorKinds | src/a1_factor_engine/adapters.py:962-1067 | the store refuses a prepared decision only for the review state, never for a binding or a chain |
| ReviewSteps.NewLockAccepted | src/a1_factor_engine/adapters.py:1099-1176 | once its compare-and-set succeeds, a prepared lock is never refused |
| ReviewSteps.StepState | src/a1_factor_engine/engine.py:518-752 | no step of approve, reject or lock breaks the store invariant or takes anything back |
| ReviewSteps.StepNext | src/a1_factor_engine/engine.py:518-752 | after every step the suspended call still agrees with the store |
| ReviewTheorems.ApplyInv | src/a1_factor_engine/engine.py:473-486 | any action of anyone keeps the invariant of the whole configuration and only adds to the store |
| ReviewTheorems.AtMostOneApproval | src/a1_factor_engine/adapters.py:1006-1011 | in every interleaving a request has at most one APPROVED decision |
| ReviewTheorems.WriteOnce | src/a1_factor_engine/adapters.py:930-963 | decisions and locks are never overwritten and nothing is decided after a lock |
| ReviewTheorems.LockedWasApproved | src/a1_factor_engine/engine.py:632-634 | a lock embeds the stored APPROVED decision, equal up to status, although save_locked never checks it |
| ReviewTheorems.DecisionStaysBound | src/a1_factor_engine/engine.py:675-713 | every decision stays bound to an unchanged prefix of the live trace and an unchanged recommendation |
| ReviewTheorems.LockStaysBound | src/a1_factor_engine/models.py:1397-1451 | a lock's frozen evidence stays a prefix of the live trace, entry by entry without collisions |
| ReviewTheorems.NoIntegrityError | src/a1_factor_engine/engine.py:691-713 | no call of approve, reject or lock ever ends with an integrity error |
| ReviewTheorems.ReportedStaysStored | src/a1_factor_engine/engine.py:742-751 | a decision or lock reported to a caller stays stored as reported |
| ReviewTheorems.ApproveChecksMean | src/a1_factor_engine/engine.py:526-572 | what passes approve is the candidate named, with an approvable status, no hard block, no missing evidence and the mode and reason its tier asks for |
| ReviewTheorems.ApproveChecksIff | src/a1_factor_engine/engine.py:526-572 | approve accepts exactly the candidate named, if the status is approvable and it passes every gate of its list, its tier, the mode and the note; otherwise nothing |
| ReviewTheorems.LockChecksIff | src/a1_factor_engine/engine.py:635-694 | lock accepts exactly the candidate named, if nothing bars it, the mode of the decision allows its tier, its total is consistent and the decision binds it |
| ReviewOutcomes.OutcomeIsAsked | src/a1_factor_engine/engine.py:518-752 | in every interleaving a call that ends as decided reports the request, candidate, reviewer, note, status and mode of its own command, and one that ends as locked a lock of the candidate it named |
| ReviewOutcomes.CommittedLockIsSigned | src/a1_factor_engine/engine.py:714-752 | the call whose commit takes the lock puts its own reviewer on it |
| ReviewOutcomes.ExpectedIsHonoured | src/a1_factor_engine/engine.py:835-909 | a call that expects a revision changes something only at that very revision |
| ReviewOutcomes.DecisionAttemptIff | src/a1_factor_engine/engine.py:870-899 | exactly when an attempt at a decision reaches its commit |
| ReviewOutcomes.LockAttemptIff | src/a1_factor_engine/engine.py:695-742 | exactly when an attempt at a lock reaches its commit |
| Undisturbed.UndisturbedDecision | src/a1_factor_engine/engine.py:518-611 | undisturbed, approve and reject decide exactly when the candidate is offered and passes the gates, the revision is the expected one, and the decision was taken before or is still free to be taken |
| Undisturbed.UndisturbedLock | src/a1_factor_engine/engine.py:613-752 | undisturbed, lock succeeds exactly when the revision is the expected one and the candidate is the one locked already, or is approved with a consistent total |
| ReviewTheorems.LockedWasAdmissible | src/a1_factor_engine/engine.py:526-664 | every locked candidate comes from the committed recommendation and passed all approval gates, the note included |
| ReviewTheorems.UnapprovableNeverLocked | src/a1_factor_engine/engine.py:526-530 | a run saved with any other status is never approved and never locked |
| ReviewTheorems.LoopNeverExhausted | src/a1_factor_engine/engine.py:870-909 | the raise after the retry loop is unreachable |
| ReviewTheorems.StaleMeansContention | src/a1_factor_engine/engine.py:695-752 | without an expected revision, giving up as stale means others advanced the trace by at least eight entries |
| ReviewAudit.SaveApprovalEffect | src/a1_factor_engine/adapters.py:914-1074 | an error or replay changes nothing; a first commit adds one decision and one human_approval entry |
| ReviewAudit.SaveLockedEffect | src/a1_factor_engine/adapters.py:1079-1183 | an error or replay changes nothing; a first commit adds one lock and one lock entry |
| ReviewAudit.StepEffect | src/a1_factor_engine/engine.py:870-909 | a step of a review call changes nothing or commits exactly the decision or lock it reports |
| ReviewAudit.AuditConserved | src/a1_factor_engine/adapters.py:985-1074 | in every reachable state human_approval entries equal stored decisions and lock entries equal locks |
| Engine.StepDecreases | src/a1_factor_engine/engine.py:870-909 | every await brings a call closer to its outcome, so every call ends |
| Engine.System.DecisionAttempt | src/a1_factor_engine/engine.py:870-908 | one turn of the decision retry loop does what the step system does |
| Engine.System.Decide | src/a1_factor_engine/engine.py:835-909 | _commit_decision on the mutable store, with others running at each await, is a run of the step system |
| Engine.System.ApproveOrReject | src/a1_factor_engine/engine.py:518-611 | approve and reject end with the outcome and the state the step system gives; OutcomeIsAsked ties that outcome to the command |
| Engine.System.LockAttempt | src/a1_factor_engine/engine.py:695-752 | one turn of the lock retry loop does what the step system does |
| Engine.System.LockResolution | src/a1_factor_engine/engine.py:613-752 | lock ends with the outcome and the state the step system gives |
| Engine.DriveIsRun | src/a1_factor_engine/engine.py:518-752 | a call in loop form is one run of the step system |
| Engine.LoopFormIsSafe | src/a1_factor_engine/engine.py:518-752 | a call in loop form, from any reachable state, ends in a reachable state with a stored outcome that is what its command asked for, and no integrity error |
| Http.ResolveRoute.EnterLocked | src/a1_factor_engine/api.py:461-480 | owner reservation and fingerprint check under the lock, with rollback of a new reservation |
| Http.ResolveRoute.ResumeWithState | src/a1_factor_engine/api.py:481-498 | replay, refusal or fingerprint binding once the stored state is known; a raising resolver.state keeps the reservation |
| Http.ResolveRoute.ResumeWithResult | src/a1_factor_engine/api.py:498-522 | success stores the result; any failure removes the binding and a new reservation |
| Http.ApplyInv | src/a1_factor_engine/api.py:453-522 | every arrival and every resumption keeps the protocol invariant of every request id |
| Http.OneInFlight | src/a1_factor_engine/api.py:461-472 | at most one scope, hence one engine run, is in flight for a request id, and it owns the id |
| Http.BoundIffStored | src/a1_factor_engine/api.py:461-513 | with nobody in flight an id is bound exactly when its result is stored, and owned exactly then or when a raising resolver.state left its reservation |
| Http.ReservationLeftExample | src/a1_factor_engine/api.py:472-485 | one raising resolver.state leaves an idle id owned with nothing stored |
| Http.FailedReadReserves | src/a1_factor_engine/api.py:472-485 | a raising resolver.state leaves everything about its id as found, but for the reservation, whatever others did meanwhile |
| Http.FailureRestores | src/a1_factor_engine/api.py:461-512 | a failed run leaves owner, fingerprints, lock and result of its id exactly as it found them, whatever others did between its awaits |
| Http.FreshResolves | src/a1_factor_engine/api.py:461-522 | a request for a fresh id runs the engine whatever others do between its awaits: a success is stored, bound and returned as created, a failure is answered as such and leaves the id as it was |
| Http.NeverUnbound | src/a1_factor_engine/api.py:486-493 | the conflict for a stored resolution without a binding never occurs |
| Http.SuccessReplays | src/a1_factor_engine/api.py:464-497 | once an id is settled, any waiting request for it, in every interleaving, replays the result or gets the conflict its scope and fingerprint decide |
| Http.ReplayAnswers | src/a1_factor_engine/api.py:464-497 | and it gets there in two undisturbed moves |
| Http.AnsweredMeansStored | src/a1_factor_engine/api.py:486-522 | a created or replayed answer is stored and bound to the request's fingerprint |
| Units.FactorRoundTrip | src/a1_factor_engine/units.py:339-377 | a factor conversion the registry accepts is undone exactly by the opposite one |
| Units.ActivityMultipliersInvert | src/a1_factor_engine/units.py:302-337 | activity conversions come in inverse pairs |
| Units.DenominatorAlignment | src/a1_factor_engine/units.py:339-377 | a factor per kilogram on kilograms equals the factor on the mass in its own denominator |
| DerivationLaws.ActivityLaw | src/a1_factor_engine/units.py:302-337 | a converted quantity is the same amount in base units; only normal and plain volumes are refused |
| DerivationLaws.FactorLaw | src/a1_factor_engine/units.py:339-377 | a converted factor emits the same per base unit of activity |
| DerivationLaws.EvidenceLaw | src/a1_factor_engine/units.py:287-337 | evidence relates a normal and a plain volume in its own direction only, and changes no other conversion |
| Derivation.ConsistentPassesLock | src/a1_factor_engine/engine.py:665-672 | a consistent candidate is never stopped by the total check of lock |
| DerivationLaws.LockTotalIff | src/a1_factor_engine/engine.py:665-672 | lock accepts a total exactly when the kilograms are the activity, and the total is factor times impact times activity, both up to a billionth |
| DerivationLaws.ApplicationLaw | src/a1_factor_engine/derived_factor.py:43-70 | a factor applied to its own denominator gives factor times impact times activity, and nothing else is accepted |
| DerivationLaws.MassLaw | src/a1_factor_engine/derived_factor.py:254-280 | a total from kilograms needs a mass factor and counts the kilograms in its denominator |
| DerivationLaws.PrimaryIff | src/a1_factor_engine/derived_factor.py:131-160 | outright recommendation exactly for formal carbon factors with complete admission that are exact grade anchors, or direct and without a serious gap |
| DerivationLaws.UsableIff | src/a1_factor_engine/derived_factor.py:131-160 | usable with assumptions exactly for those derived with evidence, technical class proxies, and direct ones with a serious gap |
| DerivationLaws.IncompleteIff | src/a1_factor_engine/derived_factor.py:131-133 | formal admission is incomplete exactly if some limitation says so, whatever it goes on to say |
| DerivationLaws.StrengthLaw | src/a1_factor_engine/derived_factor.py:111-128 | the strength in points: score, coverage, source and short derivation, less gap severity, clamped |
| DerivationLaws.HardRejectedIff | src/a1_factor_engine/graph.py:49-66 | what can never be overridden: an unadjusted process, an open process gap, a grade conflict |
| Derivation.Finalize | src/a1_factor_engine/derived_factor.py:163-181 | re-tiering touches no number, and missing formal evidence always ends at REFERENCE_ONLY |
| DerivationLaws.FinalizeMeans | src/a1_factor_engine/derived_factor.py:163-181 | a tier is lowered below the minimum score and under a governance cap, which alone leaves a note |
| Derivation.DeriveKeepsConsistency | src/a1_factor_engine/derived_factor.py:184-251 | installing any factor keeps factor, activity, kilograms and total consistent |
| Derivation.DeriveAccepts | src/a1_factor_engine/derived_factor.py:184-251 | installing a non-negative factor in a consistent candidate is never refused |
| Derivation.FreshIsConsistent | src/a1_factor_engine/nodes.py:298-413 | a candidate fresh from a record is consistent whenever its conversions exist |
| DerivationLaws.FreshLaw | src/a1_factor_engine/nodes.py:298-413 | the total of a fresh candidate is the record factor times the requested quantity, both brought to one denominator; without a denominator it has no total |
| DerivationLaws.FreshBaseLaw | src/a1_factor_engine/nodes.py:298-413 | and without conditioned volumes that is the record factor times the request in base units |
| DerivationLaws.UnitScaleMeans | src/a1_factor_engine/unit_resolution.py:21-93 | unit scaling counts the units that differ, marks direct candidates as converted and touches no number |
| ReferenceFlow.ResolveReferenceFlow | src/a1_factor_engine/reference_flow_resolution.py:67-116 | the loop yields the conversions of the compatible records, or the first conversion error |
| ReferenceFlow.OnePerCompatible | src/a1_factor_engine/reference_flow_resolution.py:23-116 | one candidate per compatible record, in order, each converted by its own record |
| ReferenceFlow.ConvertedIsConsistent | src/a1_factor_engine/reference_flow_resolution.py:76-115 | the total stated through kilograms agrees with the denominator-aligned application |
| ReferenceFlow.FlowLaw | src/a1_factor_engine/reference_flow_resolution.py:23-116 | exactly the records that speak about this product give a candidate, whose kilograms are quantity times mass per unit and whose total is the factor times that mass |
| ProcessAdjustment.ByName | src/a1_factor_engine/process_adjustment.py:108-114 | the indexing loop, duplicates refused |
| ProcessAdjustment.IndexedIffDistinct | src/a1_factor_engine/process_adjustment.py:108-114 | evidence is indexed exactly when no name repeats |
| ProcessAdjustment.Stoichiometric | src/a1_factor_engine/process_adjustment.py:52-63 | accepted exactly for admissible inputs, and never more than complete oxidation of pure carbon |
| ProcessAdjustment.ReadReplacement | src/a1_factor_engine/process_adjustment.py:187-270 | whatever passes the evidence checks is two admissible routes and positive carriers |
| ProcessAdjustment.StoichiometricMeans | src/a1_factor_engine/process_adjustment.py:52-63 | the exact stoichiometric emission, and when there is one |
| ProcessAdjustment.AcceptedIffAdmissible | src/a1_factor_engine/process_adjustment.py:66-270 | evidence passes exactly when units, shares, energies, carriers and direct emissions are admissible and the factor includes the process |
| ProcessAdjustment.ReplacementLaw | src/a1_factor_engine/process_adjustment.py:187-285 | on the values of the evidence: the energy and direct emission of the reference route goes out, that of the target route comes in |
| ProcessAdjustment.ReplacementAcceptedIff | src/a1_factor_engine/process_adjustment.py:187-285 | a replacement is accepted exactly for admissible evidence, a factor that includes the process, converts to kilograms and covers the removed emission |
| ProcessAdjustment.EnergyMonotone | src/a1_factor_engine/process_adjustment.py:229-284 | more target energy never lowers the factor, more reference energy never raises it |
| ProcessAdjustment.DeltaLaw | src/a1_factor_engine/process_adjustment.py:358-404 | when a delta adjustment is accepted, and by how much it moves the factor |
| ProcessAdjustment.ReplacementConserves | src/a1_factor_engine/process_adjustment.py:271-285 | the factor moves by exactly target minus reference process, the common upstream part conserved |
| ProcessAdjustment.EqualRoutesIdentity | src/a1_factor_engine/process_adjustment.py:187-285 | replacing a route by itself changes nothing, within the clamp tolerance |
| ProcessAdjustment.Swapped | src/a1_factor_engine/process_adjustment.py:187-196 | every evidence has an exchange, an omitted target gas share becoming an explicit zero |
| ProcessAdjustment.SwapReadsExchanged | src/a1_factor_engine/process_adjustment.py:66-105 | exchanged evidence passes the same checks and reads as the exchanged routes, stoichiometry included |
| ProcessAdjustment.ReplacementReversible | src/a1_factor_engine/process_adjustment.py:187-285 | replacing back is accepted and restores the factor, exactly or within the clamp tolerance |
| ProcessAdjustment.CandidateReversible | src/a1_factor_engine/process_adjustment.py:117-356 | replacing a candidate's route and back is accepted and restores factor and total, the score rising once |
| ProcessAdjustment.DeltaReversible | src/a1_factor_engine/process_adjustment.py:358-377 | an accepted delta adjustment is taken back by exchanged evidence exactly when the common part outweighs the other delta |
| ProcessAdjustment.DeltaCandidateReversible | src/a1_factor_engine/process_adjustment.py:117-404 | the same for candidates: taken back exactly then, restoring factor and total where no clamp fires |
| ProcessAdjustment.DeltaIrreversibleExample | src/a1_factor_engine/process_adjustment.py:358-377 | a candidate and delta evidence that are accepted while the exchanged evidence is refused |
| ProcessAdjustment.ProcessKeepsConsistency | src/a1_factor_engine/process_adjustment.py:182-416 | whatever the evidence, a consistent candidate stays consistent |
| ProcessAdjustment.UnadjustedIsBlocked | src/a1_factor_engine/process_adjustment.py:409-416 | without a decomposition the factor is kept but the candidate is hard-blocked |
| ProcessLaws.NodeLaw | src/a1_factor_engine/nodes.py:1111-1175 | the process node always answers: the process is resolved exactly when the evidence gives a factor, at that factor and the raised score; otherwise factor and score stay and refused evidence leaves one warning |
| GradeResolution.CollectAnchors | src/a1_factor_engine/grade_resolution.py:53-62 | the anchors are the first graded records of their source ids |
| GradeResolution.Resolve | src/a1_factor_engine/grade_resolution.py:40-148 | resolve_grade from its anchors, branch by branch, is the specified choice |
| GradeResolution.BracketNeverDegenerate | src/a1_factor_engine/grade_resolution.py:84-86 | without an exact anchor two bracketing anchors differ, so the guard never fails |
| GradeResolution.InterpolationBounded | src/a1_factor_engine/grade_resolution.py:84-92 | an interpolated factor lies between its anchors, which are adjacent around the target |
| GradeResolution.GradeMonotone | src/a1_factor_engine/grade_resolution.py:63-136 | the resolved factor is nondecreasing in the target across exact, interpolated and nearest cases |
| GradeResolution.GradeInstallsFactor | src/a1_factor_engine/grade_resolution.py:68-147 | the returned candidate carries the resolved factor |
| GradeResolution.GradeKeepsConsistency | src/a1_factor_engine/grade_resolution.py:70-147 | every grade resolution keeps a consistent candidate consistent |
| GradeLaws.GradeLaw | src/a1_factor_engine/grade_resolution.py:40-148 | on the records of the series: exact anchor, line between the adjacent anchors, nearest anchor or no change, ties included, with the factor of the record in the unit of the candidate |
| GradeLaws.GradeAccepts | src/a1_factor_engine/grade_resolution.py:40-148 | if the graded records have usable units and factors, a grade is always resolved |
| DerivationChain.ChainConsistent | src/a1_factor_engine/engine.py:141-155 | any sequence of unit, flow, process, grade and re-evaluation steps keeps a candidate consistent |
| DerivationChain.ChainPassesLock | src/a1_factor_engine/engine.py:665-672 | hence lock never rejects the total of a pipeline-produced candidate |
| Ranking.BuildPool | src/a1_factor_engine/nodes.py:1365-1373 | the pool loop over resolution and proxy candidates |
| Ranking.PoolKeeps | src/a1_factor_engine/nodes.py:1365-1373 | the pool holds, for every id, exactly the first of its strongest candidates |
| Ranking.WorstIsGreatest | src/a1_factor_engine/nodes.py:134-144 | the applicability rank uses the greatest severity of the geography and year gaps |
| Ranking.BeforeStrictTotal | src/a1_factor_engine/nodes.py:1392-1404 | the nine-part key is a strict total order on candidates with distinct ids |
| Ranking.RankingSorted | src/a1_factor_engine/nodes.py:1389-1404 | the ranking is strictly increasing in the key and holds every pooled candidate once |
| Ranking.BeforeIsPreferred | src/a1_factor_engine/nodes.py:1392-1404 | one candidate ranks before another exactly when it is preferred: a better type, a milder geography or year gap, a smaller priority rank, more strength, score or coverage, fewer assumptions, then ids |
| Ranking.PreferredIsListedFirst | src/a1_factor_engine/nodes.py:1389-1404 | of two listed candidates the preferred one is listed first |
| Ranking.OneRankingIffUnambiguous | src/a1_factor_engine/nodes.py:1365-1404 | the ranking is one for every input order exactly when no id has two different strongest candidates |
| TopK.IncompleteNeverSelectable | src/a1_factor_engine/nodes.py:1544-1685 | a request gap leaves no selected candidate and only MORE_INPUT_NEEDED or UNRESOLVED |
| TopK.StatusMeansLists | src/a1_factor_engine/nodes.py:1621-1685 | the status is ready exactly when something is selected |
| TopK.ListsPassGates | src/a1_factor_engine/nodes.py:1489-1566 | every returned list passes its own gate |
| TopK.ListsDisjoint | src/a1_factor_engine/nodes.py:1489-1566 | selected, reviewable and diagnostic ids are pairwise disjoint |
| TopK.ListsFollowRanking | src/a1_factor_engine/nodes.py:1489-1566 | listed candidates are in ranking order, whatever passes the gate and is left out ranks after them, and is left out for lack of room only |
| TopK.SelectedIff | src/a1_factor_engine/nodes.py:1489-1627 | something is selected exactly when a ranked candidate is sufficient, the request is complete, its unit accepted and no attribute left open |
| TopK.AskedIff | src/a1_factor_engine/nodes.py:1497-1521 | an attribute is asked for exactly when the request leaves it open and candidates in play name different values |
| TopK.RequiredIff | src/a1_factor_engine/nodes.py:1484-1526 | the fields asked for are those of the gaps, conversion evidence where a unit lacks it, and the open attributes |
| TopK.ReviewableIff | src/a1_factor_engine/nodes.py:1489-1566 | when there is something to review: whatever is in play behind an open attribute, else what is for reference only |
| TopK.OpenMeansCapped | src/a1_factor_engine/nodes.py:1531-1543 | behind an open attribute every candidate is capped and says why |
| TopK.OpenStatusLaw | src/a1_factor_engine/nodes.py:1645-1685 | why nothing was selected, in order of precedence |
| TopK.AmbiguityFollowsRankingIff | src/a1_factor_engine/nodes.py:1497-1543 | exactly when the ambiguous selection follows the ranking |
| TopK.AmbiguityReordersExample | src/a1_factor_engine/nodes.py:1497-1543 | a direct match below the minimum score ranks first and is listed behind a sufficient alias match |
| Pipeline.EachRouterOnce | src/a1_factor_engine/engine.py:125-139 | process and grade routers run exactly once per candidate, whatever order the record prefers |
| Pipeline.RoutersRoute | src/a1_factor_engine/engine.py:141-155 | what the routers make of one candidate: only a process gap means the process node, only a grade gap the grade node, both mean process then grade, or the reverse where the record prefers it |
| Pipeline.ResolvedOne | src/a1_factor_engine/engine.py:141-155 | a candidate is scaled, converted by every compatible record if it has a flow gap, and routed without that gap |
| Pipeline.ResolvedConcat | src/a1_factor_engine/engine.py:141-155 | candidates do not influence each other |
| Pipeline.WithoutGapMeans | src/a1_factor_engine/nodes.py:1099-1101 | settling a gap removes the gaps of that type and nothing else |
| Pipeline.Collect | src/a1_factor_engine/engine.py:165-195 | the loop over connectors gathers the records of every reference that was fetched and extracted |
| Pipeline.FailuresStayLocal | src/a1_factor_engine/engine.py:165-195 | an unavailable connector or a failed reference takes nothing from the others |
| PipelineLaws.CollectedIff | src/a1_factor_engine/engine.py:165-195 | what is collected is exactly what some reference of some connector returned |
| Pipeline.Deduplicate | src/a1_factor_engine/engine.py:196-218 | the dedup loop yields the first records of the ids without a conflict, and the conflicting ids |
| Pipeline.ConflictsFound | src/a1_factor_engine/engine.py:196-218 | comparing with the first record of an id finds every conflict; the other ids keep their first record |
| Pipeline.GraphState.RunNode | src/a1_factor_engine/nodes.py:1053-1066 | the unit, process and grade nodes replace every candidate by its transformation, in order |
| Pipeline.GraphState.RunReferenceFlow | src/a1_factor_engine/nodes.py:1074-1108 | the converted candidates in order; when one is dropped its missing mass replaces the required fields |
| Pipeline.GraphState.DiscoverExternal | src/a1_factor_engine/engine.py:157-330 | the whole new state of external discovery |
| Pipeline.DiscoverKeeps | src/a1_factor_engine/engine.py:157-330 | discovery only adds gaps, each with a required field, and reports a conflict exactly when records disagree |
| Pipeline.GraphState.ResolveCurrent | src/a1_factor_engine/engine.py:141-155 | the nodes and the routers of every candidate, in order: the new state, or the first error |
| Pipeline.ResolveKeeps | src/a1_factor_engine/engine.py:141-155 | resolving keeps candidates consistent and never clears the required fields |
| Pipeline.GraphState.Run | src/a1_factor_engine/engine.py:332-438 | the run ends with the recommendation that is a function of what its ports answer |
| Pipeline.FinishedKeeps | src/a1_factor_engine/engine.py:332-438 | through every stage no gap is lost, every gap asks for a field, and candidates that enter fresh stay consistent |
| PipelineLaws.StagesMean | src/a1_factor_engine/engine.py:332-438 | which candidates a run ends with: local ones, external ones only where none are left and the request is complete, stand-ins only where no external record was found, nothing is asked, and nothing is left or a material is absent |
| PipelineLaws.RunGapsIff | src/a1_factor_engine/engine.py:332-438 | which gaps a run ends with: those of the request and its local evaluation, and those external evidence opens, which is looked for if the request is incomplete or no local candidate is left |
| PipelineLaws.RunRecommendsIff | src/a1_factor_engine/engine.py:332-438 | a run recommends something exactly when a competing candidate is sufficient and nothing is missing: no gap, no unit error of the request, no open attribute |
| PipelineLaws.RunStatusLaw | src/a1_factor_engine/nodes.py:1645-1685 | why a run recommends nothing, in order of precedence |
| PipelineLaws.RunAsksIff | src/a1_factor_engine/nodes.py:1484-1526 | what a run asks for |
| PipelineLaws.MassAskedIff | src/a1_factor_engine/nodes.py:1090-1098 | the missing mass of the unit is asked for exactly when some candidate with a flow gap has no applicable record |
| PipelineLaws.DiscoveryAsksIff | src/a1_factor_engine/engine.py:219-330 | external evidence asks for the subject exactly when it is open and a record names one, and for the route exactly when it is open and the candidates name two |
| Pipeline.IncompleteNeverSelected | src/a1_factor_engine/engine.py:332-438 | a run that ends with any request gap selects nothing and ends with a status approve refuses |
| Pipeline.OfferedPassGates | src/a1_factor_engine/engine.py:332-438 | whatever a run offers passed the gate of its list and the total check of lock |
| Pipeline.SelectionPassesLock | src/a1_factor_engine/nodes.py:1489-1551 | nothing Top-K returns for selection or review fails the total check of lock |
| EndToEnd.ResolveRequest | src/a1_factor_engine/engine.py:473-486 | resolve stores the bound recommendation of its graph run or nothing; from then on a request with a gap is never approved or locked, only offered candidates are locked, and approved ones can be |
| EndToEnd.IncompleteNeverLocked | src/a1_factor_engine/engine.py:332-371 | a request whose graph run ended with any gap is never approved and never locked by any later sequence of calls |
| EndToEnd.LockedWasOffered | src/a1_factor_engine/graph.py:49-80 | a locked candidate was selected by the run and is sufficient, or was offered for review and overridden with a written reason |
| EndToEnd.ApprovedIsLockable | src/a1_factor_engine/engine.py:635-694 | an approved candidate passes every check of lock exactly when its total is consistent |
| EndToEnd.ApprovedCanBeLocked | src/a1_factor_engine/engine.py:635-694 | hence whatever of a run is approved passes every check of lock, in every later state |
| MaterialMatch.SelectMatches | src/a1_factor_engine/material_registry.py:277-293 | the greedy loop with its set of occupied positions |
| MaterialMatch.PositionTest | src/a1_factor_engine/material_registry.py:288-292 | the position-set test agrees with interval overlap |
| MaterialMatch.SelectedInOrder | src/a1_factor_engine/material_registry.py:285-293 | the selected spans are disjoint and in increasing order |
| MaterialMatch.DroppedIffBeaten | src/a1_factor_engine/material_registry.py:284-292 | an occurrence is dropped exactly when it overlaps a kept one that is longer, or as long and earlier, or of a smaller rule id at the same place |
| MaterialMatch.SelectionForgetsOrder | src/a1_factor_engine/material_registry.py:277-293 | with distinct rule ids the result does not depend on the order of rules or aliases |
| MaterialMatch.CompetesIff | src/a1_factor_engine/material_registry.py:277-283 | what competes: every rule with each alias at every place where it occurs; nothing else is selected |
| NumericGrade.ClassifyNegatives | src/a1_factor_engine/material_registry.py:325-371 | the negative patterns are classified first, each match unless it meets an earlier token |
| NumericGrade.NegativesCovered | src/a1_factor_engine/material_registry.py:353-371 | every match of every negative pattern is covered by a negative token |
| NumericGrade.ParseNumericGrade | src/a1_factor_engine/material_registry.py:318-578 | the whole parser, stage by stage |
| NumericGrade.ParseGuarantees | src/a1_factor_engine/material_registry.py:318-578 | tokens sorted and disjoint, a grade exactly when one token is a purity grade, no negative token reused |
| NumericGrade.GradeOrigin | src/a1_factor_engine/material_registry.py:384-578 | a grade stands over a free match of its rule, rules in order of precedence, implicit grades registered |
| NumericGradeLaws.ParseLaw | src/a1_factor_engine/material_registry.py:318-578 | exactly which grade a text has: of the first free percentage, else of the first free formula, else of the first registered prefix, else of the only bare number that means one |
| NumericGradeLaws.TokensLaw | src/a1_factor_engine/material_registry.py:318-578 | exactly which tokens a text has, and which bare numbers stay unresolved |
| NumericGradeLaws.ExplicitLaw | src/a1_factor_engine/material_registry.py:384-436 | when and with what component and schema an explicit percentage is a grade |
| NumericGradeLaws.FormulaLaw | src/a1_factor_engine/material_registry.py:438-508 | the same for a component formula followed by a value |
| NumericGradeLaws.PrefixedLaw | src/a1_factor_engine/material_registry.py:510-537 | the first schema, in schema and prefix order, whose first free match it allows |
| NumericGradeLaws.StandaloneLaw | src/a1_factor_engine/material_registry.py:539-578 | exactly one free number that exactly one bare schema allows |
| NumericGradeLaws.TokenIsMatch | src/a1_factor_engine/material_registry.py:353-371 | every negative token is a whole match of a pattern of its role |
| Canonical.CanonicalIdempotent | src/a1_factor_engine/integrity.py:82-110 | canonicalising twice is canonicalising once |
| Canonical.SetForgetsOrder | src/a1_factor_engine/integrity.py:102-104 | a set's result depends only on its canonical elements |
| Canonical.BuildSorted | src/a1_factor_engine/integrity.py:95-99 | the sort in the mapping case has no effect on the resulting dictionary |
| Canonical.MappingForgetsOrder | src/a1_factor_engine/integrity.py:95-99 | a mapping's result does not depend on item order if no key carries two values |
| Canonical.MappingOrderIff | src/a1_factor_engine/integrity.py:95-99 | and only then |
| Canonical.CollidingKeysExample | src/a1_factor_engine/integrity.py:95-99 | keys 1 and "1" give two results in two insertion orders |
| Equivalence.CanonicalIffEquivalent | src/a1_factor_engine/integrity.py:82-110 | two values have one canonical form exactly when they are equivalent: leaves by content, listings pointwise, sets as multisets, mappings and fields by the last value of each key, tagged mappings as what they spell |
| Catalog.CanonicalCatalogRecords | src/a1_factor_engine/integrity.py:124-150 | the loop with its identity set and final sort |
| Catalog.AcceptedIff | src/a1_factor_engine/integrity.py:129-148 | accepted exactly when all fields are in the schema and identities exist and differ |
| Catalog.UnorderedAlike | src/a1_factor_engine/integrity.py:137-140 | two unordered lists are kept alike exactly when they hold the same canonical values |
| Catalog.RearrangedAlike | src/a1_factor_engine/integrity.py:129-148 | reordering the unordered lists and exchanging absent for null fields give an alike record |
| Catalog.ReorderedListAlike | src/a1_factor_engine/integrity.py:137-140 | reordering aliases or boundary modules gives an alike record |
| Catalog.AbsentIsNull | src/a1_factor_engine/integrity.py:136-142 | an absent field of the schema and a null one are alike |
| Catalog.PermutedMatches | src/a1_factor_engine/integrity.py:124-150 | records in another order match |
| Catalog.AlikeMatches | src/a1_factor_engine/integrity.py:136-148 | catalogues of pairwise alike records match |
| Catalog.MatchingCatalogsAgree | src/a1_factor_engine/integrity.py:124-150 | matching catalogues are accepted alike, with equal canonical records |
| Catalog.EqualCatalogsMatch | src/a1_factor_engine/integrity.py:124-150 | equal canonical records come only from matching catalogues |
| Catalog.MatchesIffSameRecords | src/a1_factor_engine/integrity.py:124-150 | catalogues match exactly when one is a rearrangement of records with equal identity and equivalent content, field by field |
| Catalog.IdentityMeans | src/a1_factor_engine/integrity.py:129-136 | a record is identified by its record id, else its source id, else its code, stripped, or not at all |
| Catalog.AlikeIff | src/a1_factor_engine/integrity.py:136-148 | records are alike exactly when verdict, identity and, field by field, equivalent content agree |
| Catalog.DigestFaithful | src/a1_factor_engine/integrity.py:153-157 | without collisions digests are equal exactly when the catalogues hold the same records, equivalent field by field |
| Catalog.RearrangedCatalogsAgree | src/a1_factor_engine/integrity.py:124-157 | permuting the records and rearranging each changes neither acceptance nor digest |
| JsonComplexity.Visitor.Visit | src/a1_factor_engine/connector_security.py:254-270 | the recursive visitor with its shared counter accepts exactly what fits at its depth and count |
| JsonComplexity.ValidateJsonComplexity | src/a1_factor_engine/connector_security.py:251-272 | the early-exit check accepts exactly the trees within all three limits |
| JsonComplexity.DepthLimitMeans | src/a1_factor_engine/connector_security.py:256-258 | the depth limit bounds every path from the root, leaves counted |
| JsonComplexity.RecordLimitMeans | src/a1_factor_engine/connector_security.py:259-262 | the record limit bounds how many different paths lead to mappings |
| JsonComplexity.WidthLimitMeans | src/a1_factor_engine/connector_security.py:265-268 | the document limit bounds every sequence, wherever it is |
| PublicScan.WalkFinds | tools/public_delivery_scan.py:45-54 | the walk emits exactly the leaves, each with a path that leads back to it |
| PublicScan.WalkOnce | tools/public_delivery_scan.py:45-54 | each leaf once: no two emitted paths are equal |
| PublicScan.PointerRoundTrip | tools/public_delivery_scan.py:31-33 | decoding a location by section 4 of RFC 6901 returns the path, exactly for non-empty paths |
| PublicScan.LocationsDistinct | tools/public_delivery_scan.py:31-54 | under a container root every leaf has its own location |

## Left out

- Pipeline.Collect: what a connector discovers and what an extractor makes of a document are given.
- Engine.System.Perform: executes one action of another caller; several engines in several processes sharing one store are not modelled.
- Records.EntryHashFixesHistory: assumes a collision-free hash; SHA-256 itself and the JSON encoding are not modelled.
- MaterialMatch.SelectMatches: takes the spans of each alias as given; the regular expressions and the rule tables are not modelled.
- NumericGrade.ParseNumericGrade: takes the matches of each pattern as given; evidence ids, reasons and specification operators of a grade are left out.
- Catalog.CanonicalCatalogRecords: the set of schema fields is a parameter, and the second sort key is omitted because identities are distinct.
- Floating-point rounding, the 28-digit decimal limit and the six-digit rounding of scores and strengths: arithmetic is over the reals.
- Number spelling, Unicode normalisation and the full set of Unicode blanks: texts are sequences of characters, numbers in texts come spelled.
- Evidence texts (reasons, lineage, questions, messages), link attempts, funnels and accounting assignments: they influence no decision.
- Unit parsing and the unit registry: a parsed unit is a canonical name, a dimension and a positive ratio.
- Retrieval, qualification, gap analysis and scoring dimensions: what they return is a parameter of the run.
- The debug resolve route, task cancellation and callers that mutate a trace they were handed.
- Authorization, request parsing, response models, readiness probes, benchmark routes and the remaining HTTP routes.
- The SQL-backed repositories, catalogue fetch, connectors, DNS and TLS policy, caches and the command line.
- The file loop of the public scan and its violation rules; only its walk and its locations are modelled.
