/** Applying factors to activities and deriving candidates (derived_factor.py, unit_resolution.py, the
    candidate constructor of nodes.py), over the reals. */
module Derivation {
  import opened Prelude
  import opened Units
  import opened Models

  // ---- totals ----

  /** application_total_kgco2e */
  function ApplicationTotal(factor: real, unit: FactorUnit, activity: real, activityUnit: ActivityUnit): Result<real> {
    if activityUnit != unit.activity then Err(ValueError("resolved activity must be denominator-aligned"))
    else
      match ConvertFactor(factor, unit, FactorUnit(1.0, unit.activity))
      case Ok(f) => Ok(f * activity)
      case Err(e) => Err(e)
  }

  /** The compatibility total of a candidate that only knows kilograms. */
  function MassTotal(factor: real, unit: FactorUnit, kilograms: real): Result<real> {
    match ConvertFactor(factor, unit, KGCO2E_PER_KG)
    case Ok(f) => Ok(f * kilograms)
    case Err(e) => Err(e)
  }

  function Abs(x: real): real {
    if x < 0.0 then -x else x
  }

  function Max(x: real, y: real): real {
    if x < y then y else x
  }

  function Min(x: real, y: real): real {
    if x < y then x else y
  }

  /** validate_mass_quantity_kg */
  function ValidateMass(c: Candidate): Result<()> {
    if c.quantityKg.None? || c.activityValue.None? || c.activityUnit.None? then Ok(())
    else if c.factorUnit.activity.dimension != MASS then Err(ValueError("kilograms require mass activity"))
    else
      match ConvertActivity(c.activityValue.value, c.activityUnit.value, KG)
      case Err(e) => Err(e)
      case Ok(expected) =>
        if Abs(c.quantityKg.value - expected) > Abs(expected) * 0.000000001 then Err(ValueError("kilograms are inconsistent"))
        else Ok(())
  }

  /** expected_total_emissions */
  function ExpectedTotal(c: Candidate): Result<Option<real>> {
    match ValidateMass(c)
    case Err(e) => Err(e)
    case Ok(_) =>
      if c.activityValue.Some? then
        if c.activityUnit.None? then Err(ValueError("resolved activity unit is required"))
        else
          match ApplicationTotal(c.factorValue, c.factorUnit, c.activityValue.value, c.activityUnit.value)
          case Ok(total) => Ok(Some(total))
          case Err(e) => Err(e)
      else if c.quantityKg.None? then Ok(None)
      else if c.factorUnit.activity.dimension != MASS then Err(ValueError("kilogram fallback requires a mass factor"))
      else
        match MassTotal(c.factorValue, c.factorUnit, c.quantityKg.value)
        case Ok(total) => Ok(Some(total))
        case Err(e) => Err(e)
  }

  /** The consistency check the engine makes before locking. */
  function LockTotalCheck(c: Candidate): Result<()> {
    match ExpectedTotal(c)
    case Err(e) => Err(e)
    case Ok(None) => Ok(())
    case Ok(Some(expected)) =>
      if c.totalKg.None? || Abs(c.totalKg.value - expected) > Max(0.000000001, Abs(expected) * 0.000000001)
      then Err(ValueError("total emissions are inconsistent"))
      else Ok(())
  }

  predicate Yields(r: Result<real>, v: real) {
    r.Ok? && r.value == v
  }

  /** What every pipeline candidate satisfies exactly. */
  predicate Consistent(c: Candidate) {
    && (c.activityValue.Some? ==>
        && c.activityUnit == Some(c.factorUnit.activity)
        && c.totalKg.Some?
        && Yields(ApplicationTotal(c.factorValue, c.factorUnit, c.activityValue.value, c.factorUnit.activity), c.totalKg.value)
        && (c.quantityKg.Some? ==>
            && c.factorUnit.activity.dimension == MASS
            && Yields(ConvertActivity(c.activityValue.value, c.factorUnit.activity, KG), c.quantityKg.value)))
    && (c.activityValue.None? && c.quantityKg.Some? ==>
        && c.factorUnit.activity.dimension == MASS
        && c.totalKg.Some?
        && Yields(MassTotal(c.factorValue, c.factorUnit, c.quantityKg.value), c.totalKg.value))
  }

  /** A consistent candidate is never stopped by the lock check. */
  lemma ConsistentPassesLock(c: Candidate)
    requires Consistent(c)
    ensures LockTotalCheck(c).Ok?
  {
    if c.activityValue.Some? && c.quantityKg.Some? {
      var expected := ConvertActivity(c.activityValue.value, c.activityUnit.value, KG).value;
      assert Abs(c.quantityKg.value - expected) == 0.0;
      assert ValidateMass(c).Ok?;
    }
    if ExpectedTotal(c).Ok? && ExpectedTotal(c).value.Some? {
      assert c.totalKg == ExpectedTotal(c).value;
    }
  }

  // ---- tiers ----

  predicate RecommendableKind(k: FactorKind) {
    k in {LIFECYCLE_FACTOR, EPD_INDICATOR, DERIVED_PROXY_FACTOR, ENERGY_FACTOR, COMBUSTION_FACTOR, TRANSPORT_FACTOR}
  }

  function TierFor(c: Candidate): ResultTier {
    if AdmissionIncomplete(c) then REFERENCE_ONLY
    else if !RecommendableKind(c.source.factorKind) || c.source.indicator !in ["GWP-total", "gwp-total"] then REFERENCE_ONLY
    else if c.resolutionType in {DIRECT_EXACT, DIRECT_ALIAS, UNIT_CONVERTED} then
      if exists i :: 0 <= i < |c.gaps| && c.gaps[i].severity >= 0.5 then USABLE_WITH_ASSUMPTIONS else PRIMARY_RECOMMENDATION
    else if c.resolutionType == GRADE_EXACT_ANCHOR then PRIMARY_RECOMMENDATION
    else if c.resolutionType in {REFERENCE_FLOW_CONVERTED, PROCESS_ADJUSTED, GRADE_INTERPOLATED, GRADE_ADJUSTED, CLASS_TECHNICAL_PROXY}
    then USABLE_WITH_ASSUMPTIONS
    else REFERENCE_ONLY
  }

  function SeveritySum(gaps: seq<Gap>): real {
    if gaps == [] then 0.0 else gaps[0].severity + SeveritySum(gaps[1..])
  }

  function Strength(c: Candidate): (r: real)
    ensures 0.0 <= r <= 1.0
  {
    var derivation := Max(0.0, 1.0 - 0.12 * c.steps as real - 0.06 * |c.assumptions| as real);
    var penalty := Min(0.25, 0.05 * SeveritySum(c.gaps));
    Min(1.0, Max(0.0, 0.45 * c.score + 0.30 * c.evidenceCoverage + 0.15 * c.source.quality + 0.10 * derivation - penalty))
  }

  const TIER_CAP_NOTE := "source governance caps this candidate at REFERENCE_ONLY"

  /** finalize_candidate */
  function Finalize(c: Candidate, minScore: Option<real>): (r: Candidate)
    ensures r == c.(resultTier := r.resultTier, resolutionStrength := r.resolutionStrength, limitations := r.limitations)
    ensures AdmissionIncomplete(c) ==> r.resultTier == REFERENCE_ONLY
    ensures AdmissionIncomplete(r) <==> AdmissionIncomplete(c)
  {
    var tier := if minScore.Some? && c.score < minScore.value then REFERENCE_ONLY else TierFor(c);
    var capped := c.source.cappedAtReferenceOnly;
    var limitations := if capped then Dedup(c.limitations + [TIER_CAP_NOTE]) else c.limitations;
    CapNoteIsNotIncomplete();
    c.(resultTier := if capped then REFERENCE_ONLY else tier, resolutionStrength := Strength(c), limitations := limitations)
  }

  lemma CapNoteIsNotIncomplete()
    ensures !IncompleteNote(TIER_CAP_NOTE)
  {
    assert TIER_CAP_NOTE[27] == ' ' && FORMAL_ADMISSION_INCOMPLETE[27] == ':';
  }

  // ---- derive_candidate ----

  /** The keyword arguments of derive_candidate; None is the omitted argument. */
  datatype Derived = Derived(
    suffix: string,
    resolutionType: ResolutionType,
    factorValue: Option<real>,
    steps: nat,
    limitations: seq<string>,
    assumptions: seq<string>,
    activity: Option<(real, ActivityUnit)>,
    activityDimension: Option<Dimension>,
    quantityKg: Option<real>,
    totalKg: Option<real>)

  function OrElse<T>(a: Option<T>, b: Option<T>): Option<T> {
    if a.Some? then a else b
  }

  function EffectiveTotal(factor: real, unit: FactorUnit, activity: Option<real>, activityUnit: Option<ActivityUnit>,
                          quantityKg: Option<real>, totalKg: Option<real>): Result<Option<real>> {
    if totalKg.Some? then Ok(totalKg)
    else if activity.Some? then
      if activityUnit.None? then Err(ValueError("resolved activity unit is required"))
      else
        match ApplicationTotal(factor, unit, activity.value, activityUnit.value)
        case Ok(total) => Ok(Some(total))
        case Err(e) => Err(e)
    else if quantityKg.Some? then
      match MassTotal(factor, unit, quantityKg.value)
      case Ok(total) => Ok(Some(total))
      case Err(e) => Err(e)
    else Ok(None)
  }

  /** derive_candidate; the constructor's own checks are WellFormed. */
  function Derive(base: Candidate, d: Derived): Result<Candidate> {
    var factor := if d.factorValue.Some? then d.factorValue.value else base.factorValue;
    var activity := if d.activity.Some? then Some(d.activity.value.0) else base.activityValue;
    var activityUnit := if d.activity.Some? then Some(d.activity.value.1) else base.activityUnit;
    var quantityKg := OrElse(d.quantityKg, base.quantityKg);
    match EffectiveTotal(factor, base.factorUnit, activity, activityUnit, quantityKg, d.totalKg)
    case Err(e) => Err(e)
    case Ok(total) =>
      var c := base.(
        candidateId := base.candidateId + d.suffix,
        factorValue := factor,
        resolutionType := d.resolutionType,
        steps := base.steps + d.steps,
        limitations := Dedup(base.limitations + d.limitations),
        assumptions := Dedup(base.assumptions + d.assumptions),
        activityValue := activity,
        activityUnit := activityUnit,
        activityDimension := OrElse(d.activityDimension, base.activityDimension),
        quantityKg := quantityKg,
        totalKg := total);
      if WellFormed(c) then Ok(Finalize(c, None)) else Err(ValueError("candidate constructor rejected the derivation"))
  }

  /** A derivation that brings no activity, quantity or total of its own keeps a candidate consistent,
      whatever factor it installs: the total is recomputed from the installed factor. */
  lemma DeriveKeepsConsistency(base: Candidate, d: Derived, source: Candidate)
    requires Consistent(source)
    requires base.factorUnit == source.factorUnit && base.activityValue == source.activityValue
    requires base.activityUnit == source.activityUnit && base.quantityKg == source.quantityKg
    requires d.activity.None? && d.quantityKg.None?
    requires d.totalKg.Some? ==> d.totalKg == source.totalKg && base == source && d.factorValue.None?
    requires Derive(base, d).Ok?
    ensures Consistent(Derive(base, d).value)
  {
  }

  /** What a derivation does not decide stays as it was. */
  lemma DeriveFrame(base: Candidate, d: Derived)
    requires Derive(base, d).Ok?
    ensures var r := Derive(base, d).value;
            && r.gaps == base.gaps && r.source == base.source && r.origin == base.origin && r.score == base.score
            && r.processDimension == base.processDimension && r.evidenceCoverage == base.evidenceCoverage
            && r.factorUnit == base.factorUnit && r.warnings == base.warnings
            && r.resolutionType == d.resolutionType && r.candidateId == base.candidateId + d.suffix
            && r.factorValue == (if d.factorValue.Some? then d.factorValue.value else base.factorValue)
            && r.steps == base.steps + d.steps
  {}

  lemma ConvertKeepsSign(v: real, a: FactorUnit, b: FactorUnit)
    requires v >= 0.0 && ConvertFactor(v, a, b).Ok?
    ensures ConvertFactor(v, a, b).value >= 0.0
  {}

  lemma TotalsKeepSign(factor: real, unit: FactorUnit, quantity: real)
    requires factor >= 0.0 && quantity > 0.0
    ensures ApplicationTotal(factor, unit, quantity, unit.activity).Ok?
    ensures ApplicationTotal(factor, unit, quantity, unit.activity).value >= 0.0
    ensures unit.activity.dimension == MASS ==> MassTotal(factor, unit, quantity).Ok? && MassTotal(factor, unit, quantity).value >= 0.0
  {
    ConvertKeepsSign(factor, unit, FactorUnit(1.0, unit.activity));
    if unit.activity.dimension == MASS { ConvertKeepsSign(factor, unit, KGCO2E_PER_KG); }
  }

  /** Installing a non-negative factor in a consistent candidate is never refused, and the candidate stays
      one the constructor accepts. */
  lemma DeriveAccepts(base: Candidate, d: Derived)
    requires Consistent(base) && WellFormed(base)
    requires d.factorValue.Some? ==> d.factorValue.value >= 0.0
    requires d.activity.None? && d.activityDimension.None? && d.quantityKg.None? && d.totalKg.None?
    ensures Derive(base, d).Ok? && WellFormed(Derive(base, d).value)
  {
    DeriveAcceptsFrom(base, base, d);
  }

  /** Nor is it when the record and the factor were replaced first. */
  lemma DeriveAcceptsFrom(c: Candidate, base: Candidate, d: Derived)
    requires Consistent(c) && WellFormed(base) && base == c.(source := base.source, factorValue := base.factorValue)
    requires d.factorValue.Some? ==> d.factorValue.value >= 0.0
    requires d.activity.None? && d.activityDimension.None? && d.quantityKg.None? && d.totalKg.None?
    ensures Derive(base, d).Ok? && WellFormed(Derive(base, d).value)
  {
    var factor := if d.factorValue.Some? then d.factorValue.value else base.factorValue;
    if base.activityValue.Some? {
      TotalsKeepSign(factor, base.factorUnit, base.activityValue.value);
    } else if base.quantityKg.Some? {
      TotalsKeepSign(factor, base.factorUnit, base.quantityKg.value);
    }
    hide ApplicationTotal, MassTotal, ConvertFactor, ConvertActivity, Dedup, TierFor, Strength;
  }

  // ---- the steps that belong to no other module ----

  /** The normalized request, as far as candidate arithmetic reads it; quantities are positive. */
  datatype Activity = Activity(
    quantity: Positive,
    unit: ActivityUnit,
    target: FactorUnit,
    targetDerived: bool,
    hasProductForm: bool,
    evidence: Option<ConversionEvidence>)

  function QuantityKg(a: Activity): Option<real> {
    if a.unit.dimension != MASS then None
    else match ConvertActivity(a.quantity, a.unit, KG) case Ok(q) => Some(q) case Err(_) => None
  }

  /** The factor, its unit and the denominator-aligned activity a new candidate starts from. */
  function InitialApplication(a: Activity, source: Source): Result<(real, FactorUnit, Option<real>)> {
    if a.unit.dimension != a.target.activity.dimension || source.factorUnit.activity.dimension != a.target.activity.dimension then
      if source.factorUnit.activity.dimension != a.target.activity.dimension
         && a.targetDerived && (a.unit.dimension == COUNT || (a.unit.dimension == VOLUME && a.hasProductForm))
         && source.factorUnit.activity.dimension == MASS
      then Ok((source.factorValue, source.factorUnit, None))
      else Err(ValueError("UNIT_DIMENSION_MISMATCH"))
    else
      match (ActivityMultiplierWith(source.factorUnit.activity, a.target.activity, a.evidence),
             ActivityMultiplierWith(a.unit, a.target.activity, a.evidence))
      case (Ok(f), Ok(m)) =>
        Ok((source.factorValue * Quotient(Quotient(source.factorUnit.impact, a.target.impact), f), a.target, Some(a.quantity * m)))
      case (Err(e), _) => Err(e)
      case (_, Err(e)) => Err(e)
  }

  /** The numeric fields of a candidate fresh from a qualified record. */
  predicate FreshCandidate(a: Activity, source: Source, c: Candidate) {
    match InitialApplication(a, source)
    case Err(_) => false
    case Ok((factor, unit, activity)) =>
      && c.source == source && c.factorValue == factor && c.factorUnit == unit && c.activityValue == activity
      && c.activityUnit == (if activity.Some? then Some(unit.activity) else None)
      && c.activityDimension == Some(a.unit.dimension)
      && c.quantityKg == QuantityKg(a)
      && match activity
         case None => c.totalKg.None?
         case Some(v) => c.totalKg.Some? && Yields(ApplicationTotal(factor, unit, v, unit.activity), c.totalKg.value)
  }

  /** Fresh candidates are consistent: kilograms and denominator-aligned activity are the same mass. */
  lemma FreshIsConsistent(a: Activity, source: Source, c: Candidate)
    requires FreshCandidate(a, source, c)
    ensures Consistent(c)
  {
    if c.activityValue.Some? && c.quantityKg.Some? {
      FreshMassesAgree(a.quantity, a.unit, a.target.activity);
    }
  }

  lemma FreshMassesAgree(quantity: real, unit: ActivityUnit, denominator: ActivityUnit)
    requires unit.dimension == MASS && denominator.dimension == MASS
    ensures ConvertActivity(quantity, unit, denominator).Ok? && ConvertActivity(quantity, unit, KG).Ok?
    ensures ConvertActivity(ConvertActivity(quantity, unit, denominator).value, denominator, KG).Ok?
    ensures ConvertActivity(ConvertActivity(quantity, unit, denominator).value, denominator, KG).value
         == ConvertActivity(quantity, unit, KG).value
  {
    ActivityMultipliersCompose(unit, denominator, KG);
    var m, n := ActivityMultiplier(unit, denominator).value, ActivityMultiplier(denominator, KG).value;
    assert quantity * m * n == quantity * (m * n);
  }

  lemma ActivityMultipliersCompose(a: ActivityUnit, b: ActivityUnit, c: ActivityUnit)
    requires ActivityMultiplier(a, b).Ok? && ActivityMultiplier(b, c).Ok? && ActivityMultiplier(a, c).Ok?
    ensures ActivityMultiplier(a, b).value * ActivityMultiplier(b, c).value == ActivityMultiplier(a, c).value
  {
    if a == b || b == c {
    } else {
      var x, y := Quotient(a.ratio, b.ratio), Quotient(b.ratio, c.ratio);
      assert (x * y) * c.ratio == x * (y * c.ratio) == a.ratio;
      if a == c { CancelPositive(x * y, 1.0, c.ratio); }
      else { CancelPositive(x * y, Quotient(a.ratio, c.ratio), c.ratio); }
    }
  }

  /** resolve_unit_scale: it never touches the numbers, only records the scaling that was applied. */
  function ResolveUnitScale(a: Activity, c: Candidate): Result<Candidate> {
    if a.unit.dimension != c.factorUnit.activity.dimension then Ok(c)
    else
      var activityStep := if a.unit != c.factorUnit.activity then 1 else 0;
      var factorStep := if c.source.factorUnit != c.factorUnit then 1 else 0;
      if activityStep + factorStep == 0 then Ok(c)
      else if ActivityMultiplierWith(a.unit, c.factorUnit.activity, a.evidence).Err? then
        Err(ActivityMultiplierWith(a.unit, c.factorUnit.activity, a.evidence).error)
      else if ActivityMultiplierWith(c.source.factorUnit.activity, c.factorUnit.activity, a.evidence).Err? then
        Err(ActivityMultiplierWith(c.source.factorUnit.activity, c.factorUnit.activity, a.evidence).error)
      else
        Derive(c, Derived(":unit-converted",
          if c.resolutionType in {DIRECT_EXACT, DIRECT_ALIAS, UNIT_CONVERTED} then UNIT_CONVERTED else c.resolutionType,
          None, activityStep + factorStep, [], [], None, None, None, c.totalKg))
  }
}
