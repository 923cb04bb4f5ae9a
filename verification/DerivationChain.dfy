/** Chains of derivation steps: whatever steps the pipeline applies, in whatever order, factor, activity,
    kilograms and total stay consistent. */
module DerivationChain {
  import opened Prelude
  import opened Units
  import opened Models
  import opened Derivation
  import opened ProcessAdjustment
  import GradeResolution
  import ReferenceFlow

  /** One transformation of a candidate by a node of the graph. */
  datatype Step =
    | ScaleUnits
    | ConvertFlow(record: ReferenceFlow.FlowRecord)
    | ReplaceProcess(evidence: seq<Evidence>)
    | ResolveGrade(series: seq<Source>, target: Option<real>, spell: real -> string)
    | Regap(gaps: seq<Gap>)
    | Reevaluate(minScore: Option<real>)

  /** The process node: evidence the calculator refuses is dropped, the reason kept as a warning. */
  function ProcessNode(c: Candidate, evidence: seq<Evidence>): Result<Candidate> {
    match ResolveProcessVariant(c, evidence)
    case Ok(r) => Ok(r)
    case Err(e) =>
      match ResolveProcessVariant(c, [])
      case Ok(r) => Ok(r.(warnings := r.warnings + [e.what]))
      case Err(e2) => Err(e2)
  }

  function Apply(a: Activity, c: Candidate, step: Step): Result<Candidate> {
    match step
    case ScaleUnits => ResolveUnitScale(a, c)
    case ConvertFlow(record) => ReferenceFlow.Converted(a, c, record)
    case ReplaceProcess(evidence) => ProcessNode(c, evidence)
    case ResolveGrade(series, target, spell) => GradeResolution.ResolveGrade(c, series, target, spell)
    case Regap(gaps) => Ok(c.(gaps := gaps))
    case Reevaluate(minScore) => Ok(Finalize(c, minScore))
  }

  function ApplyAll(a: Activity, c: Candidate, steps: seq<Step>): Result<Candidate>
    decreases |steps|
  {
    if steps == [] then Ok(c)
    else
      match Apply(a, c, steps[0])
      case Err(e) => Err(e)
      case Ok(d) => ApplyAll(a, d, steps[1..])
  }

  lemma UnitScaleKeepsConsistency(a: Activity, c: Candidate)
    requires Consistent(c) && ResolveUnitScale(a, c).Ok?
    ensures Consistent(ResolveUnitScale(a, c).value)
  {
    var activityStep := if a.unit != c.factorUnit.activity then 1 else 0;
    var factorStep := if c.source.factorUnit != c.factorUnit then 1 else 0;
    var d := Derived(":unit-converted",
      if c.resolutionType in {DIRECT_EXACT, DIRECT_ALIAS, UNIT_CONVERTED} then UNIT_CONVERTED else c.resolutionType,
      None, activityStep + factorStep, [], [], None, None, None, c.totalKg);
    if ResolveUnitScale(a, c).value != c { DeriveKeepsConsistency(c, d, c); }
    hide Derive, Consistent, ActivityMultiplierWith;
  }

  lemma ProcessNodeKeepsConsistency(c: Candidate, evidence: seq<Evidence>)
    requires Consistent(c) && ProcessNode(c, evidence).Ok?
    ensures Consistent(ProcessNode(c, evidence).value)
  {
    hide ResolveProcessVariant;
    if ResolveProcessVariant(c, evidence).Ok? {
      ProcessKeepsConsistency(c, evidence);
    } else {
      ProcessKeepsConsistency(c, []);
    }
  }

  lemma StepKeepsConsistency(a: Activity, c: Candidate, step: Step)
    requires Consistent(c) && Apply(a, c, step).Ok?
    ensures Consistent(Apply(a, c, step).value)
  {
    hide ResolveUnitScale, ProcessNode, ReferenceFlow.Converted, GradeResolution.ResolveGrade;
    match step
    case ScaleUnits => UnitScaleKeepsConsistency(a, c);
    case ConvertFlow(record) => ReferenceFlow.ConvertedIsConsistent(a, c, record);
    case ReplaceProcess(evidence) => ProcessNodeKeepsConsistency(c, evidence);
    case ResolveGrade(series, target, spell) => GradeResolution.GradeKeepsConsistency(c, series, target, spell);
    case Regap(gaps) =>
    case Reevaluate(minScore) =>
  }

  lemma {:induction false} ChainConsistent(a: Activity, c: Candidate, steps: seq<Step>)
    requires Consistent(c) && ApplyAll(a, c, steps).Ok?
    ensures Consistent(ApplyAll(a, c, steps).value)
    decreases |steps|
  {
    hide Apply, Consistent;
    if steps != [] {
      StepKeepsConsistency(a, c, steps[0]);
      ChainConsistent(a, Apply(a, c, steps[0]).value, steps[1..]);
    }
  }

  /** Hence lock never rejects the total of a candidate that any chain of steps made from a fresh one. */
  lemma ChainPassesLock(a: Activity, source: Source, c: Candidate, steps: seq<Step>)
    requires FreshCandidate(a, source, c) && ApplyAll(a, c, steps).Ok?
    ensures LockTotalCheck(ApplyAll(a, c, steps).value).Ok?
  {
    FreshIsConsistent(a, source, c);
    ChainConsistent(a, c, steps);
    ConsistentPassesLock(ApplyAll(a, c, steps).value);
    hide ApplyAll, Consistent, LockTotalCheck;
  }
}
