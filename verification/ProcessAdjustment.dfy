/** Replacing the production route inside a lifecycle factor (process_adjustment.py), over the reals. */
module ProcessAdjustment {
  import opened Prelude
  import opened Units
  import opened Models
  import opened Derivation

  datatype Side = REFERENCE | TARGET
  datatype Carrier = ELECTRICITY | NATURAL_GAS

  /** The parameter names the calculator reads; every other name is Unread. */
  datatype Parameter =
    | TotalEnergy(side: Side)
    | Share(side: Side, carrier: Carrier)
    | EnergyContent(carrier: Carrier)
    | EmissionFactor(carrier: Carrier)
    | AdditionalEmission(side: Side)
    | CalculationRequired(side: Side)
    | ConsumableMass(side: Side)
    | CarbonFraction(side: Side)
    | OxidationFraction(side: Side)
    | RemovedProcess
    | AddedProcess
    | DeltaOther
    | Unread(name: string)

  /** What a piece of evidence says about the policy under which it was admitted. */
  datatype Policy = ENERGY_PROFILE_UNDER_REVIEW | PROCESS_EMISSION_UNDER_REVIEW | GENERIC_CARRIER | INCLUSION_ASSUMED

  /** One ParameterEvidence; the unit is case-folded and free of spaces. */
  datatype Evidence = Evidence(
    parameterId: string,
    name: Parameter,
    value: real,
    unit: string,
    requiresCalculation: bool,
    includesProcess: bool,
    policies: set<Policy>)

  type Parameters = map<Parameter, Evidence>

  // ---- _by_name ----

  function Index(evidence: seq<Evidence>): Result<Parameters> {
    if evidence == [] then Ok(map[])
    else
      match Index(evidence[..|evidence| - 1])
      case Err(e) => Err(e)
      case Ok(m) =>
        var item := evidence[|evidence| - 1];
        if item.name in m then Err(ValueError("ambiguous duplicate process parameter")) else Ok(m[item.name := item])
  }

  predicate DistinctNames(evidence: seq<Evidence>) {
    forall i, j :: 0 <= i < j < |evidence| ==> evidence[i].name != evidence[j].name
  }

  /** An index holds just the evidence it was built from. */
  lemma {:induction false} IndexHolds(evidence: seq<Evidence>)
    requires Index(evidence).Ok?
    ensures forall e :: e in evidence ==> e.name in Index(evidence).value && Index(evidence).value[e.name] == e
    ensures forall p :: p in Index(evidence).value ==> Index(evidence).value[p] in evidence && Index(evidence).value[p].name == p
  {
    if evidence != [] {
      var front := evidence[..|evidence| - 1];
      IndexHolds(front);
      assert evidence == front + [evidence[|evidence| - 1]];
    }
  }

  lemma DistinctStep(evidence: seq<Evidence>)
    requires evidence != []
    ensures var front, last := evidence[..|evidence| - 1], evidence[|evidence| - 1];
            DistinctNames(evidence) <==> DistinctNames(front) && forall e :: e in front ==> e.name != last.name
  {
    var n := |evidence| - 1;
    var front := evidence[..n];
    assert forall i :: 0 <= i < n ==> front[i] == evidence[i];
    if DistinctNames(evidence) {
      forall e | e in front ensures e.name != evidence[n].name {
        var i :| 0 <= i < n && front[i] == e;
      }
    } else if DistinctNames(front) {
      var i, j :| 0 <= i < j <= n && evidence[i].name == evidence[j].name;
      assert j == n && front[i] in front;
    }
  }

  /** And there is one exactly when no name repeats. */
  lemma {:induction false} IndexedIffDistinct(evidence: seq<Evidence>)
    ensures Index(evidence).Ok? <==> DistinctNames(evidence)
  {
    if evidence != [] {
      var front, last := evidence[..|evidence| - 1], evidence[|evidence| - 1];
      assert Index(evidence).Ok? <==> Index(front).Ok? && last.name !in Index(front).value;
      hide Index, DistinctNames;
      IndexedIffDistinct(front);
      DistinctStep(evidence);
      if Index(front).Ok? {
        IndexHolds(front);
        if last.name in Index(front).value { assert Index(front).value[last.name] in front; }
      }
    }
  }

  method ByName(evidence: seq<Evidence>) returns (r: Result<Parameters>)
    ensures r == Index(evidence)
  {
    var m: Parameters, i := map[], 0;
    while i < |evidence|
      invariant 0 <= i <= |evidence|
      invariant Index(evidence[..i]) == Ok(m)
    {
      assert evidence[..i + 1][..i] == evidence[..i];
      if evidence[i].name in m {
        StuckIndex(evidence, i + 1);
        return Err(ValueError("ambiguous duplicate process parameter"));
      }
      m := m[evidence[i].name := evidence[i]];
      i := i + 1;
    }
    assert evidence[..i] == evidence;
    return Ok(m);
  }

  lemma {:induction false} StuckIndex(evidence: seq<Evidence>, n: nat)
    requires n <= |evidence| && Index(evidence[..n]).Err?
    ensures Index(evidence) == Index(evidence[..n])
    decreases |evidence|
  {
    if n == |evidence| {
      assert evidence[..n] == evidence;
    } else {
      assert evidence[..|evidence| - 1][..n] == evidence[..n];
      StuckIndex(evidence[..|evidence| - 1], n);
    }
  }

  // ---- direct process emissions ----

  /** m x C x oxidation x 44/12, per tonne of product, in kgCO2e per kilogram. */
  function Stoichiometric(mass: real, carbon: real, oxidation: real): (r: Result<real>)
    ensures r.Ok? <==> mass >= 0.0 && 0.0 <= carbon <= 1.0 && 0.0 <= oxidation <= 1.0
    ensures r.Ok? ==> 0.0 <= r.value <= mass * (44.0 / 12.0) / 1000.0
  {
    if mass < 0.0 then Err(ValueError("carbonaceous consumable mass must be non-negative"))
    else if !(0.0 <= carbon <= 1.0) || !(0.0 <= oxidation <= 1.0) then Err(ValueError("fractions must be between zero and one"))
    else
      assert 0.0 <= mass * carbon <= mass;
      assert 0.0 <= (mass * carbon) * oxidation <= mass * carbon;
      Ok(mass * carbon * oxidation * (44.0 / 12.0) / 1000.0)
  }

  /** _additional_process_value */
  function AdditionalValue(ps: Parameters, side: Side): Result<Option<real>> {
    var explicit := AdditionalEmission(side);
    if ConsumableMass(side) in ps && CarbonFraction(side) in ps && OxidationFraction(side) in ps then
      if ps[ConsumableMass(side)].unit != "kg/t" || ps[CarbonFraction(side)].unit != "fraction" || ps[OxidationFraction(side)].unit != "fraction"
      then Err(ValueError("stoichiometric unit"))
      else
        match Stoichiometric(ps[ConsumableMass(side)].value, ps[CarbonFraction(side)].value, ps[OxidationFraction(side)].value)
        case Ok(v) => Ok(Some(v))
        case Err(e) => Err(e)
    else if CalculationRequired(side) in ps || (explicit in ps && ps[explicit].requiresCalculation) then
      Err(ValueError("process-emission trigger requires stoichiometric evidence"))
    else if explicit in ps then Ok(Some(ps[explicit].value))
    else Ok(None)
  }

  // ---- the full route ----

  predicate FullRequired(ps: Parameters) {
    && TotalEnergy(REFERENCE) in ps && TotalEnergy(TARGET) in ps
    && Share(REFERENCE, ELECTRICITY) in ps && Share(REFERENCE, NATURAL_GAS) in ps && Share(TARGET, ELECTRICITY) in ps
    && EnergyContent(ELECTRICITY) in ps && EnergyContent(NATURAL_GAS) in ps
    && EmissionFactor(ELECTRICITY) in ps && EmissionFactor(NATURAL_GAS) in ps
  }

  function ExpectedUnit(p: Parameter): Option<string> {
    match p
    case TotalEnergy(_) => Some("kgce/t")
    case Share(_, _) => Some("fraction")
    case EnergyContent(c) => Some(if c == ELECTRICITY then "kgce/kwh" else "kgce/nm3")
    case EmissionFactor(c) => Some(if c == ELECTRICITY then "kgco2e/kwh" else "kgco2e/nm3")
    case AdditionalEmission(_) => Some("kgco2e/kg")
    case _ => None
  }

  predicate UnitsAsExpected(ps: Parameters) {
    forall p :: p in ps && ExpectedUnit(p).Some? ==> ps[p].unit == ExpectedUnit(p).value
  }

  datatype Route = Route(energy: real, electricity: real, gas: real, additional: real)

  datatype Carriers = Carriers(electricityContent: real, gasContent: real, electricityFactor: real, gasFactor: real)

  function GasShare(ps: Parameters, side: Side): real {
    if Share(side, NATURAL_GAS) in ps then ps[Share(side, NATURAL_GAS)].value else 0.0
  }

  function ReadRoute(ps: Parameters, side: Side, additional: Option<real>): Route
    requires FullRequired(ps)
  {
    assert side == REFERENCE || side == TARGET;
    Route(ps[TotalEnergy(side)].value, ps[Share(side, ELECTRICITY)].value, GasShare(ps, side),
      if additional.Some? then additional.value else 0.0)
  }

  function ReadCarriers(ps: Parameters): Carriers
    requires FullRequired(ps)
  {
    Carriers(ps[EnergyContent(ELECTRICITY)].value, ps[EnergyContent(NATURAL_GAS)].value,
      ps[EmissionFactor(ELECTRICITY)].value, ps[EmissionFactor(NATURAL_GAS)].value)
  }

  predicate ShareInRange(share: real) {
    0.0 <= share <= 1.0
  }

  predicate RouteOk(r: Route) {
    && ShareInRange(r.electricity) && ShareInRange(r.gas)
    && r.energy > 0.0
    && Abs(r.electricity + r.gas - 1.0) <= 0.000001
    && r.additional >= 0.0
  }

  predicate CarriersOk(k: Carriers) {
    k.electricityContent > 0.0 && k.gasContent > 0.0 && k.electricityFactor > 0.0 && k.gasFactor > 0.0
  }

  function CarrierEmission(energy: real, share: real, content: Positive, factor: real): real {
    Quotient(energy * share, content) * factor / 1000.0
  }

  /** Energy and additional process emissions of one route, in kgCO2e per kilogram of product. */
  function RouteEmission(r: Route, k: Carriers): (e: real)
    requires RouteOk(r) && CarriersOk(k)
    ensures e >= 0.0
  {
    assert r.energy * r.electricity >= 0.0 && r.energy * r.gas >= 0.0;
    CarrierEmission(r.energy, r.electricity, k.electricityContent, k.electricityFactor)
    + CarrierEmission(r.energy, r.gas, k.gasContent, k.gasFactor)
    + r.additional
  }

  /** The two routes and the carriers, once every check on the evidence has passed. */
  datatype Replacement = Replacement(reference: Route, target: Route, carriers: Carriers)

  function ReadReplacement(ps: Parameters, includes: bool): (r: Result<Replacement>)
    requires FullRequired(ps)
    ensures r.Ok? ==> RouteOk(r.value.reference) && RouteOk(r.value.target) && CarriersOk(r.value.carriers)
  {
    if !UnitsAsExpected(ps) then Err(ValueError("parameter unit"))
    else
      match (AdditionalValue(ps, REFERENCE), AdditionalValue(ps, TARGET))
      case (Err(e), _) => Err(e)
      case (_, Err(e)) => Err(e)
      case (Ok(ra), Ok(ta)) =>
        var reference, target, carriers := ReadRoute(ps, REFERENCE, ra), ReadRoute(ps, TARGET, ta), ReadCarriers(ps);
        if ra.Some? != ta.Some? then Err(ValueError("additional emissions need records for both routes"))
        else if !CarriersOk(carriers) || !RouteOk(reference) || !RouteOk(target) then Err(ValueError("process parameters out of range"))
        else if !includes then Err(ValueError("reference factor must include the removed process"))
        else Ok(Replacement(reference, target, carriers))
  }

  const CLAMP := 0.000000000001

  /** Swap the process share of a factor per kilogram. */
  function SwapProcess(base: real, removed: real, added: real): Result<real> {
    if base - removed < -CLAMP then Err(ValueError("negative common upstream factor")) else Ok(Max(0.0, base - removed) + added)
  }

  /** The same, for a factor in its own unit. */
  function SwapProcessIn(factor: real, unit: FactorUnit, removed: real, added: real): Result<real> {
    match ConvertFactor(factor, unit, KGCO2E_PER_KG)
    case Err(e) => Err(e)
    case Ok(base) =>
      match SwapProcess(base, removed, added)
      case Err(e) => Err(e)
      case Ok(output) => ConvertFactor(output, KGCO2E_PER_KG, unit)
  }

  /** The factor of the target route, in the unit of the reference factor. */
  function ReplaceEnergy(factor: real, unit: FactorUnit, ps: Parameters, includes: bool): Result<real>
    requires FullRequired(ps)
  {
    match ReadReplacement(ps, includes)
    case Err(e) => Err(e)
    case Ok(r) => SwapProcessIn(factor, unit, RouteEmission(r.reference, r.carriers), RouteEmission(r.target, r.carriers))
  }

  // ---- the delta route ----

  predicate DeltaRequired(ps: Parameters) {
    RemovedProcess in ps && AddedProcess in ps
  }

  predicate DeltaUnit(unit: string) {
    unit == "kgco2e/kg" || unit == "tco2e/t"
  }

  function OtherDelta(ps: Parameters): real {
    if DeltaOther in ps then ps[DeltaOther].value else 0.0
  }

  function DeltaOutput(base: real, removed: real, added: real, delta: real): Result<real> {
    if removed < 0.0 || added < 0.0 || base - removed < -CLAMP || base - removed + added + delta < 0.0 then
      Err(ValueError("delta process adjustment requires non-negative components and output"))
    else Ok(Max(0.0, base - removed) + added + delta)
  }

  function DeltaAdjust(factor: real, unit: FactorUnit, ps: Parameters, includes: bool): Result<real>
    requires DeltaRequired(ps)
  {
    if !DeltaUnit(ps[RemovedProcess].unit) || !DeltaUnit(ps[AddedProcess].unit) || (DeltaOther in ps && !DeltaUnit(ps[DeltaOther].unit)) then
      Err(ValueError("delta parameter unit"))
    else if !includes then Err(ValueError("reference factor must include the removed process"))
    else
      match ConvertFactor(factor, unit, KGCO2E_PER_KG)
      case Err(e) => Err(e)
      case Ok(base) =>
        match DeltaOutput(base, ps[RemovedProcess].value, ps[AddedProcess].value, OtherDelta(ps))
        case Err(e) => Err(e)
        case Ok(output) => ConvertFactor(output, KGCO2E_PER_KG, unit)
  }

  // ---- resolve_process_variant ----

  predicate IncludesProcess(c: Candidate, evidence: seq<Evidence>) {
    c.source.includesProcess || exists i :: 0 <= i < |evidence| && evidence[i].includesProcess
  }

  predicate Under(evidence: seq<Evidence>, policy: Policy) {
    exists i :: 0 <= i < |evidence| && policy in evidence[i].policies
  }

  function PolicyAssumptions(evidence: seq<Evidence>): seq<string> {
    (if Under(evidence, ENERGY_PROFILE_UNDER_REVIEW) then ["enterprise energy profiles under review are used"] else [])
    + (if Under(evidence, PROCESS_EMISSION_UNDER_REVIEW) then ["enterprise process-emission records under review are used"] else [])
    + (if Under(evidence, GENERIC_CARRIER) then ["energy-carrier parameters are reused across material routes"] else [])
    + (if Under(evidence, INCLUSION_ASSUMED) then ["the lifecycle reference is assumed to include route energy"] else [])
  }

  const REPLACEMENT_ASSUMPTIONS := [
    "common raw-material upstream is equivalent",
    "raw-material losses and product yield are equivalent",
    "the reference factor includes the removed process energy",
    "target and reference process-energy boundaries are compatible",
    "m3 and Nm3 are the same quantity basis"]

  /** _mark_process_dimension_resolved */
  function MarkProcessResolved(c: Candidate): Candidate {
    var weight := if c.origin == PROXY then 0.25 else 0.20;
    c.(processDimension := 1.0, score := Min(1.0, c.score + weight * (1.0 - c.processDimension)))
  }

  function Adjusted(c: Candidate, suffix: string, factor: Result<real>, assumptions: seq<string>): Result<Candidate> {
    match factor
    case Err(e) => Err(e)
    case Ok(f) =>
      match Derive(c, Derived(suffix, PROCESS_ADJUSTED, Some(f), 1, [], assumptions, None, None, None, None))
      case Err(e) => Err(e)
      case Ok(r) =>
        if WellFormed(MarkProcessResolved(r)) then Ok(MarkProcessResolved(r))
        else Err(ValueError("candidate constructor rejected the new score"))
  }

  function ResolveIndexed(c: Candidate, evidence: seq<Evidence>, ps: Parameters): Result<Candidate> {
    var includes := IncludesProcess(c, evidence);
    if FullRequired(ps) then
      Adjusted(c, ":process-adjusted", ReplaceEnergy(c.factorValue, c.factorUnit, ps, includes),
        REPLACEMENT_ASSUMPTIONS + PolicyAssumptions(evidence))
    else if DeltaRequired(ps) then
      Adjusted(c, ":process-delta", DeltaAdjust(c.factorValue, c.factorUnit, ps, includes),
        ["unadjusted contributions are shared between process variants"])
    else
      Derive(c, Derived(":unadjusted-process-proxy", UNADJUSTED_PROCESS_PROXY, None, 0,
        ["no supported process decomposition; source factor is unchanged"],
        ["reference process is used as an unadjusted proxy"], None, None, None, None))
  }

  function ResolveProcessVariant(c: Candidate, evidence: seq<Evidence>): Result<Candidate> {
    match Index(evidence)
    case Err(e) => Err(e)
    case Ok(ps) => ResolveIndexed(c, evidence, ps)
  }

  method Resolve(c: Candidate, evidence: seq<Evidence>) returns (r: Result<Candidate>)
    ensures r == ResolveProcessVariant(c, evidence)
  {
    var parameters := ByName(evidence);
    match parameters
    case Err(e) => r := Err(e);
    case Ok(ps) => r := ResolveIndexed(c, evidence, ps);
  }

  // ---- what a replacement conserves ----

  /** Swapping processes moves a factor by exactly their difference, unless the removed one exceeds it by
      less than the tolerance; then the added one alone is left. */
  lemma SwapConserves(factor: real, unit: FactorUnit, removed: real, added: real)
    requires SwapProcessIn(factor, unit, removed, added).Ok?
    ensures ConvertFactor(factor, unit, KGCO2E_PER_KG).Ok?
    ensures var base := ConvertFactor(factor, unit, KGCO2E_PER_KG).value;
            var output := ConvertFactor(SwapProcessIn(factor, unit, removed, added).value, unit, KGCO2E_PER_KG);
            && output.Ok? && base >= removed - CLAMP
            && (base >= removed ==> output.value - base == added - removed)
            && (base < removed ==> output.value == added)
  {
    hide ConvertFactor;
    var base := ConvertFactor(factor, unit, KGCO2E_PER_KG).value;
    FactorRoundTrip(SwapProcess(base, removed, added).value, KGCO2E_PER_KG, unit);
  }

  lemma ReplacementConserves(factor: real, unit: FactorUnit, ps: Parameters, includes: bool)
    requires FullRequired(ps) && ReplaceEnergy(factor, unit, ps, includes).Ok?
    ensures ReadReplacement(ps, includes).Ok? && ConvertFactor(factor, unit, KGCO2E_PER_KG).Ok?
    ensures var output := ConvertFactor(ReplaceEnergy(factor, unit, ps, includes).value, unit, KGCO2E_PER_KG);
            var r := ReadReplacement(ps, includes).value;
            var base := ConvertFactor(factor, unit, KGCO2E_PER_KG).value;
            var reference, target := RouteEmission(r.reference, r.carriers), RouteEmission(r.target, r.carriers);
            && output.Ok? && base >= reference - CLAMP
            && (base >= reference ==> output.value - base == target - reference)
            && (base < reference ==> output.value == target)
  {
    hide ReadReplacement, RouteEmission, ConvertFactor, SwapProcessIn, FullRequired;
    var r := ReadReplacement(ps, includes).value;
    SwapConserves(factor, unit, RouteEmission(r.reference, r.carriers), RouteEmission(r.target, r.carriers));
  }

  /** Replacing a route by itself changes nothing, up to the tolerance. */
  lemma EqualRoutesIdentity(factor: real, unit: FactorUnit, ps: Parameters, includes: bool)
    requires FullRequired(ps) && ReplaceEnergy(factor, unit, ps, includes).Ok?
    requires ReadReplacement(ps, includes).Ok?
    requires ReadReplacement(ps, includes).value.reference == ReadReplacement(ps, includes).value.target
    ensures ConvertFactor(factor, unit, KGCO2E_PER_KG).Ok?
    ensures var r := ReadReplacement(ps, includes).value;
            var base := ConvertFactor(factor, unit, KGCO2E_PER_KG).value;
            var output := ReplaceEnergy(factor, unit, ps, includes).value;
            && (base >= RouteEmission(r.reference, r.carriers) ==> output == factor)
            && WithinClamp(output, factor, unit)
  {
    hide ReadReplacement, RouteEmission, ConvertFactor, FullRequired;
    FactorRoundTrip(factor, unit, KGCO2E_PER_KG);
    ReplacementConserves(factor, unit, ps, includes);
  }

  /** Two factors of one unit that differ by at most the tolerance in kgCO2e per kilogram. */
  predicate WithinClamp(x: real, y: real, unit: FactorUnit) {
    var a, b := ConvertFactor(x, unit, KGCO2E_PER_KG), ConvertFactor(y, unit, KGCO2E_PER_KG);
    a.Ok? && b.Ok? && Abs(a.value - b.value) <= CLAMP
  }

  // ---- the same, on the values of the evidence ----

  /** The two parts of a process emission, in kgCO2e per kilogram of product. */
  datatype Emission = Emission(energy: real, direct: real)

  predicate Stoichiometry(ps: Parameters, side: Side) {
    ConsumableMass(side) in ps && CarbonFraction(side) in ps && OxidationFraction(side) in ps
  }

  /** What a unit of energy emits on a side: the shares, each weighted by its factor and the other carrier's content. */
  function EnergyMix(ps: Parameters, side: Side): real
    requires FullRequired(ps)
  {
    assert side == REFERENCE || side == TARGET;
    var gasShare := if Share(side, NATURAL_GAS) in ps then ps[Share(side, NATURAL_GAS)].value else 0.0;
    ps[Share(side, ELECTRICITY)].value * ps[EmissionFactor(ELECTRICITY)].value * ps[EnergyContent(NATURAL_GAS)].value
    + gasShare * ps[EmissionFactor(NATURAL_GAS)].value * ps[EnergyContent(ELECTRICITY)].value
  }

  function ContentScale(ps: Parameters): real
    requires FullRequired(ps)
  {
    ps[EnergyContent(ELECTRICITY)].value * ps[EnergyContent(NATURAL_GAS)].value
  }

  /** x is what a side's energy causes: its total split by shares, each part converted by its content and factor. */
  predicate EnergyCauses(ps: Parameters, side: Side, x: real)
    requires FullRequired(ps)
  {
    assert side == REFERENCE || side == TARGET;
    x * 1000.0 * ContentScale(ps) == ps[TotalEnergy(side)].value * EnergyMix(ps, side)
  }

  /** d is what a side emits directly: by the oxidation of its carbon, or as recorded, or nothing. */
  predicate EmitsDirectly(ps: Parameters, side: Side, d: real) {
    if Stoichiometry(ps, side) then
      d * 12000.0 == 44.0 * (ps[ConsumableMass(side)].value * ps[CarbonFraction(side)].value * ps[OxidationFraction(side)].value)
    else if AdditionalEmission(side) in ps then d == ps[AdditionalEmission(side)].value
    else d == 0.0
  }

  predicate Emits(ps: Parameters, side: Side, e: Emission)
    requires FullRequired(ps)
  {
    EnergyCauses(ps, side, e.energy) && EmitsDirectly(ps, side, e.direct)
  }

  /** Direct evidence of a side that can be used. */
  predicate DirectAdmissible(ps: Parameters, side: Side) {
    if Stoichiometry(ps, side) then
      && ps[ConsumableMass(side)].unit == "kg/t" && ps[ConsumableMass(side)].value >= 0.0
      && ps[CarbonFraction(side)].unit == "fraction" && 0.0 <= ps[CarbonFraction(side)].value <= 1.0
      && ps[OxidationFraction(side)].unit == "fraction" && 0.0 <= ps[OxidationFraction(side)].value <= 1.0
    else
      && CalculationRequired(side) !in ps
      && (AdditionalEmission(side) in ps ==> !ps[AdditionalEmission(side)].requiresCalculation && ps[AdditionalEmission(side)].value >= 0.0)
  }

  /** The evidence of one route: its units, its ranges, shares that sum to one. */
  predicate RouteAdmissible(ps: Parameters, side: Side)
    requires FullRequired(ps)
  {
    assert side == REFERENCE || side == TARGET;
    var electric := ps[Share(side, ELECTRICITY)];
    var gas := if Share(side, NATURAL_GAS) in ps then ps[Share(side, NATURAL_GAS)].value else 0.0;
    && ps[TotalEnergy(side)].unit == "kgce/t" && ps[TotalEnergy(side)].value > 0.0
    && electric.unit == "fraction" && 0.0 <= electric.value <= 1.0 && 0.0 <= gas <= 1.0
    && (Share(side, NATURAL_GAS) in ps ==> ps[Share(side, NATURAL_GAS)].unit == "fraction")
    && -0.000001 <= electric.value + gas - 1.0 <= 0.000001
    && (AdditionalEmission(side) in ps ==> ps[AdditionalEmission(side)].unit == "kgco2e/kg")
    && DirectAdmissible(ps, side)
  }

  predicate CarriersAdmissible(ps: Parameters)
    requires FullRequired(ps)
  {
    && ps[EnergyContent(ELECTRICITY)].unit == "kgce/kwh" && ps[EnergyContent(ELECTRICITY)].value > 0.0
    && ps[EnergyContent(NATURAL_GAS)].unit == "kgce/nm3" && ps[EnergyContent(NATURAL_GAS)].value > 0.0
    && ps[EmissionFactor(ELECTRICITY)].unit == "kgco2e/kwh" && ps[EmissionFactor(ELECTRICITY)].value > 0.0
    && ps[EmissionFactor(NATURAL_GAS)].unit == "kgco2e/nm3" && ps[EmissionFactor(NATURAL_GAS)].value > 0.0
  }

  predicate HasDirect(ps: Parameters, side: Side) {
    Stoichiometry(ps, side) || AdditionalEmission(side) in ps
  }

  predicate Admissible(ps: Parameters)
    requires FullRequired(ps)
  {
    && RouteAdmissible(ps, REFERENCE) && RouteAdmissible(ps, TARGET) && CarriersAdmissible(ps)
    && (HasDirect(ps, REFERENCE) <==> HasDirect(ps, TARGET))
  }

  lemma StoichiometricMeans(mass: real, carbon: real, oxidation: real)
    requires Stoichiometric(mass, carbon, oxidation).Ok?
    ensures Stoichiometric(mass, carbon, oxidation).value * 12000.0 == 44.0 * (mass * carbon * oxidation)
  {
    var x := mass * carbon * oxidation;
    assert Stoichiometric(mass, carbon, oxidation).value == x * (44.0 / 12.0) / 1000.0;
  }

  /** What _additional_process_value reads of a side. */
  lemma AdditionalMeans(ps: Parameters, side: Side)
    requires AdditionalEmission(side) in ps ==> ps[AdditionalEmission(side)].unit == "kgco2e/kg"
    ensures var v := AdditionalValue(ps, side);
            DirectAdmissible(ps, side) <==> (v.Ok? && (v.value.Some? ==> v.value.value >= 0.0))
    ensures AdditionalValue(ps, side).Ok? ==>
      var v := AdditionalValue(ps, side).value;
      (v.Some? <==> HasDirect(ps, side)) && EmitsDirectly(ps, side, if v.Some? then v.value else 0.0)
  {
    if Stoichiometry(ps, side) {
      var m, c, o := ps[ConsumableMass(side)].value, ps[CarbonFraction(side)].value, ps[OxidationFraction(side)].value;
      if Stoichiometric(m, c, o).Ok? { StoichiometricMeans(m, c, o); }
    }
    hide Stoichiometric;
  }

  lemma UnitsMean(ps: Parameters)
    requires FullRequired(ps)
    ensures UnitsAsExpected(ps) ==> CarriersOk(ReadCarriers(ps)) ==> CarriersAdmissible(ps)
    ensures Admissible(ps) ==> UnitsAsExpected(ps) && CarriersOk(ReadCarriers(ps))
    ensures UnitsAsExpected(ps) ==> forall side :: AdditionalEmission(side) in ps ==> ps[AdditionalEmission(side)].unit == "kgco2e/kg"
  {
    hide DirectAdmissible, HasDirect;
    if Admissible(ps) {
      forall p | p in ps && ExpectedUnit(p).Some? ensures ps[p].unit == ExpectedUnit(p).value { UnitOf(ps, p); }
    }
  }

  lemma UnitOf(ps: Parameters, p: Parameter)
    requires FullRequired(ps) && Admissible(ps) && p in ps && ExpectedUnit(p).Some?
    ensures ps[p].unit == ExpectedUnit(p).value
  {
    hide DirectAdmissible, HasDirect;
    match p
    case TotalEnergy(side) => assert side == REFERENCE || side == TARGET;
    case Share(side, carrier) =>
      assert side == REFERENCE || side == TARGET;
      assert carrier == ELECTRICITY || carrier == NATURAL_GAS;
    case EnergyContent(carrier) => assert carrier == ELECTRICITY || carrier == NATURAL_GAS;
    case EmissionFactor(carrier) => assert carrier == ELECTRICITY || carrier == NATURAL_GAS;
    case AdditionalEmission(side) => assert side == REFERENCE || side == TARGET;
    case _ =>
  }

  lemma RouteMeans(ps: Parameters, side: Side)
    requires FullRequired(ps) && (AdditionalEmission(side) in ps ==> ps[AdditionalEmission(side)].unit == "kgco2e/kg")
    ensures RouteAdmissible(ps, side) ==>
      AdditionalValue(ps, side).Ok? && RouteOk(ReadRoute(ps, side, AdditionalValue(ps, side).value))
    ensures UnitsAsExpected(ps) && AdditionalValue(ps, side).Ok? && RouteOk(ReadRoute(ps, side, AdditionalValue(ps, side).value)) ==>
      RouteAdmissible(ps, side)
  {
    assert side == REFERENCE || side == TARGET;
    AdditionalMeans(ps, side);
    hide AdditionalValue, DirectAdmissible, EmitsDirectly, HasDirect;
  }

  /** Evidence is accepted exactly when it is admissible and the factor includes the process. */
  lemma AcceptedIffAdmissible(ps: Parameters, includes: bool)
    requires FullRequired(ps)
    ensures ReadReplacement(ps, includes).Ok? <==> includes && Admissible(ps)
  {
    hide AdditionalValue, ReadRoute, RouteOk, CarriersOk, ReadCarriers, RouteAdmissible, CarriersAdmissible, UnitsAsExpected, HasDirect, FullRequired;
    UnitsMean(ps);
    if UnitsAsExpected(ps) {
      assert forall side :: AdditionalEmission(side) in ps ==> ps[AdditionalEmission(side)].unit == "kgco2e/kg";
      RouteMeans(ps, REFERENCE);
      RouteMeans(ps, TARGET);
      AdditionalMeans(ps, REFERENCE);
      AdditionalMeans(ps, TARGET);
    }
  }

  lemma CarrierLaw(energy: real, share: real, content: Positive, factor: real, other: real)
    ensures CarrierEmission(energy, share, content, factor) * 1000.0 * (content * other) == energy * (share * factor * other)
  {
    var q := Quotient(energy * share, content);
    assert CarrierEmission(energy, share, content, factor) * 1000.0 == q * factor;
    assert (q * factor) * (content * other) == (q * content) * (factor * other);
    assert (energy * share) * (factor * other) == energy * (share * factor * other);
  }

  lemma EmissionLaw(r: Route, k: Carriers)
    requires RouteOk(r) && CarriersOk(k)
    ensures (RouteEmission(r, k) - r.additional) * 1000.0 * (k.electricityContent * k.gasContent) ==
      r.energy * (r.electricity * k.electricityFactor * k.gasContent + r.gas * k.gasFactor * k.electricityContent)
  {
    hide CarrierEmission;
    var x, y := CarrierEmission(r.energy, r.electricity, k.electricityContent, k.electricityFactor),
                CarrierEmission(r.energy, r.gas, k.gasContent, k.gasFactor);
    CarrierLaw(r.energy, r.electricity, k.electricityContent, k.electricityFactor, k.gasContent);
    CarrierLaw(r.energy, r.gas, k.gasContent, k.gasFactor, k.electricityContent);
    SplitLaw(x, y, k.electricityContent, k.gasContent, r.energy, r.electricity * k.electricityFactor * k.gasContent,
      r.gas * k.gasFactor * k.electricityContent);
    assert RouteEmission(r, k) - r.additional == x + y;
  }

  lemma RouteLaw(ps: Parameters, side: Side, additional: Option<real>)
    requires FullRequired(ps) && CarriersOk(ReadCarriers(ps)) && RouteOk(ReadRoute(ps, side, additional))
    ensures var r := ReadRoute(ps, side, additional);
            EnergyCauses(ps, side, RouteEmission(r, ReadCarriers(ps)) - r.additional)
  {
    hide RouteEmission, RouteOk, CarriersOk;
    assert side == REFERENCE || side == TARGET;
    EmissionLaw(ReadRoute(ps, side, additional), ReadCarriers(ps));
  }

  lemma SplitLaw(x: real, y: real, a: real, b: real, energy: real, p: real, q: real)
    requires x * 1000.0 * (a * b) == energy * p && y * 1000.0 * (b * a) == energy * q
    ensures (x + y) * 1000.0 * (a * b) == energy * (p + q)
  {
    assert a * b == b * a;
    assert (x + y) * 1000.0 * (a * b) == x * 1000.0 * (a * b) + y * 1000.0 * (a * b);
  }

  /** An accepted replacement takes the emission of the reference evidence out of the factor and puts that of the
      target evidence in; where the factor does not quite cover the removed part, the added one alone is left. */
  lemma ReplacementLaw(factor: real, unit: FactorUnit, ps: Parameters, includes: bool) returns (removed: Emission, added: Emission)
    requires FullRequired(ps) && ReplaceEnergy(factor, unit, ps, includes).Ok?
    ensures Admissible(ps) && includes && Emits(ps, REFERENCE, removed) && Emits(ps, TARGET, added)
    ensures ConvertFactor(factor, unit, KGCO2E_PER_KG).Ok?
    ensures var base := ConvertFactor(factor, unit, KGCO2E_PER_KG).value;
            var output := ConvertFactor(ReplaceEnergy(factor, unit, ps, includes).value, unit, KGCO2E_PER_KG);
            var out, into := removed.energy + removed.direct, added.energy + added.direct;
            && output.Ok? && base >= out - CLAMP
            && output.value == (if base >= out then base - out + into else into)
  {
    hide ConvertFactor, RouteEmission, SwapProcessIn, Admissible, EnergyCauses, EmitsDirectly;
    AcceptedIffAdmissible(ps, includes);
    ReplacementConserves(factor, unit, ps, includes);
    removed := SideEmission(ps, REFERENCE, includes);
    added := SideEmission(ps, TARGET, includes);
  }

  lemma SideEmission(ps: Parameters, side: Side, includes: bool) returns (e: Emission)
    requires FullRequired(ps) && ReadReplacement(ps, includes).Ok?
    ensures Emits(ps, side, e)
    ensures var r := ReadReplacement(ps, includes).value;
            e.energy + e.direct == RouteEmission(if side == REFERENCE then r.reference else r.target, r.carriers)
  {
    hide AdditionalValue, RouteEmission, EnergyCauses, EmitsDirectly;
    var r := ReadReplacement(ps, includes).value;
    var route := if side == REFERENCE then r.reference else r.target;
    assert route == ReadRoute(ps, side, AdditionalValue(ps, side).value);
    AdditionalMeans(ps, side);
    RouteLaw(ps, side, AdditionalValue(ps, side).value);
    e := Emission(RouteEmission(route, r.carriers) - route.additional, route.additional);
  }

  /** There is only one such emission. */
  lemma EmitsOnce(ps: Parameters, side: Side, e: Emission, f: Emission)
    requires FullRequired(ps) && Admissible(ps) && Emits(ps, side, e) && Emits(ps, side, f)
    ensures e == f
  {
    hide EmitsDirectly, EnergyMix, ContentScale, Admissible;
    MixNonNegative(ps, side);
    DirectOnce(ps, side, e.direct, f.direct);
    CancelPositive(e.energy * 1000.0, f.energy * 1000.0, ContentScale(ps));
  }

  /** A replacement is accepted exactly when the evidence is admissible, the factor includes the process, converts
      to kilograms and covers the removed emission up to the tolerance. */
  lemma ReplacementAcceptedIff(factor: real, unit: FactorUnit, ps: Parameters, includes: bool, removed: Emission)
    requires FullRequired(ps) && (Admissible(ps) ==> Emits(ps, REFERENCE, removed))
    ensures ReplaceEnergy(factor, unit, ps, includes).Ok? <==>
      && Admissible(ps) && includes && ConvertFactor(factor, unit, KGCO2E_PER_KG).Ok?
      && ConvertFactor(factor, unit, KGCO2E_PER_KG).value >= removed.energy + removed.direct - CLAMP
  {
    hide ConvertFactor, RouteEmission, Admissible, Emits, ReadReplacement, RouteOk, CarriersOk;
    AcceptedIffAdmissible(ps, includes);
    if ReadReplacement(ps, includes).Ok? {
      var r := ReadReplacement(ps, includes).value;
      var e := SideEmission(ps, REFERENCE, includes);
      EmitsOnce(ps, REFERENCE, e, removed);
      FactorRoundTrip(factor, unit, KGCO2E_PER_KG);
      var base := ConvertFactor(factor, unit, KGCO2E_PER_KG);
      if base.Ok? {
        var added := RouteEmission(r.target, r.carriers);
        var output := SwapProcess(base.value, e.energy + e.direct, added);
        if output.Ok? {
          ConvertibilityIgnoresValue(base.value, output.value, KGCO2E_PER_KG, unit);
        }
      }
    }
  }

  lemma MixNonNegative(ps: Parameters, side: Side)
    requires FullRequired(ps) && Admissible(ps)
    ensures EnergyMix(ps, side) >= 0.0 && ContentScale(ps) > 0.0
  {
    hide DirectAdmissible, HasDirect;
    assert side == REFERENCE || side == TARGET;
    var gas := if Share(side, NATURAL_GAS) in ps then ps[Share(side, NATURAL_GAS)].value else 0.0;
    NonNegativeProduct(ps[Share(side, ELECTRICITY)].value, ps[EmissionFactor(ELECTRICITY)].value, ps[EnergyContent(NATURAL_GAS)].value);
    NonNegativeProduct(gas, ps[EmissionFactor(NATURAL_GAS)].value, ps[EnergyContent(ELECTRICITY)].value);
  }

  function WithEnergy(ps: Parameters, side: Side, energy: real): (qs: Parameters)
    requires FullRequired(ps)
    ensures FullRequired(qs) && TotalEnergy(side) in ps && qs == ps[TotalEnergy(side) := ps[TotalEnergy(side)].(value := energy)]
  {
    assert side == REFERENCE || side == TARGET;
    ps[TotalEnergy(side) := ps[TotalEnergy(side)].(value := energy)]
  }

  lemma MixKept(ps: Parameters, side: Side, energy: real, other: Side)
    requires FullRequired(ps)
    ensures EnergyMix(WithEnergy(ps, side, energy), other) == EnergyMix(ps, other)
    ensures ContentScale(WithEnergy(ps, side, energy)) == ContentScale(ps)
    ensures forall d :: EmitsDirectly(WithEnergy(ps, side, energy), other, d) <==> EmitsDirectly(ps, other, d)
  {
    assert other == REFERENCE || other == TARGET;
  }

  lemma DirectOnce(ps: Parameters, side: Side, d: real, e: real)
    requires EmitsDirectly(ps, side, d) && EmitsDirectly(ps, side, e)
    ensures d == e
  {}

  /** Evidence that differs only in a greater total energy of one side causes more there and the same elsewhere. */
  lemma MoreEnergyCausesMore(ps: Parameters, side: Side, more: real, other: Side, e: Emission, f: Emission)
    requires FullRequired(ps) && Admissible(ps) && TotalEnergy(side) in ps && more >= ps[TotalEnergy(side)].value
    requires Emits(ps, other, e) && Emits(WithEnergy(ps, side, more), other, f)
    ensures e.direct == f.direct && e.energy <= f.energy && (other != side ==> e.energy == f.energy)
  {
    hide Admissible, EnergyMix, ContentScale, EmitsDirectly;
    assert other == REFERENCE || other == TARGET;
    var k := ContentScale(ps);
    MixNonNegative(ps, other);
    MixKept(ps, side, more, other);
    DirectOnce(ps, other, e.direct, f.direct);
    assert e.energy * (1000.0 * k) == e.energy * 1000.0 * k && f.energy * (1000.0 * k) == f.energy * 1000.0 * k;
    MixedEnergy(e.energy, f.energy, 1000.0 * k, EnergyMix(ps, other), ps[TotalEnergy(other)].value,
      if other == side then more else ps[TotalEnergy(other)].value);
  }

  lemma NonNegativeProduct(a: real, b: real, c: real)
    requires a >= 0.0 && b >= 0.0 && c >= 0.0
    ensures a * b * c >= 0.0
  {
    assert a * b >= 0.0;
  }

  lemma ScaledOrder(x: real, y: real, k: real)
    requires k > 0.0 && x * k <= y * k
    ensures x <= y
  {
    assert (y - x) * k >= 0.0;
  }

  lemma MixedEnergy(x: real, y: real, k: real, mix: real, less: real, more: real)
    requires k > 0.0 && mix >= 0.0 && less <= more && x * k == less * mix && y * k == more * mix
    ensures x <= y && (less == more ==> x == y)
  {
    assert (more - less) * mix >= 0.0;
    ScaledOrder(x, y, k);
    if less == more { CancelPositive(x, y, k); }
  }

  lemma ConvertMonotone(x: real, y: real, unit: FactorUnit)
    requires ConvertFactor(x, unit, KGCO2E_PER_KG).Ok? && ConvertFactor(y, unit, KGCO2E_PER_KG).Ok?
    requires ConvertFactor(x, unit, KGCO2E_PER_KG).value <= ConvertFactor(y, unit, KGCO2E_PER_KG).value
    ensures x <= y
  {
    ScaledOrder(x, y, FactorMultiplier(unit, KGCO2E_PER_KG).value);
  }

  /** More energy on the target route never lowers the resulting factor; more on the reference route never raises it. */
  lemma EnergyMonotone(factor: real, unit: FactorUnit, ps: Parameters, side: Side, more: real, includes: bool)
    requires FullRequired(ps) && TotalEnergy(side) in ps && more >= ps[TotalEnergy(side)].value
    requires ReplaceEnergy(factor, unit, ps, includes).Ok? && ReplaceEnergy(factor, unit, WithEnergy(ps, side, more), includes).Ok?
    ensures var before, after := ReplaceEnergy(factor, unit, ps, includes).value,
                                 ReplaceEnergy(factor, unit, WithEnergy(ps, side, more), includes).value;
            if side == TARGET then before <= after else after <= before
  {
    hide ConvertFactor, ReplaceEnergy, Admissible, Emits, FullRequired;
    var qs := WithEnergy(ps, side, more);
    var removed, added := ReplacementLaw(factor, unit, ps, includes);
    var removed', added' := ReplacementLaw(factor, unit, qs, includes);
    MoreEnergyCausesMore(ps, side, more, REFERENCE, removed, removed');
    MoreEnergyCausesMore(ps, side, more, TARGET, added, added');
    var before, after := ReplaceEnergy(factor, unit, ps, includes).value, ReplaceEnergy(factor, unit, qs, includes).value;
    if side == TARGET { ConvertMonotone(before, after, unit); } else { ConvertMonotone(after, before, unit); }
  }

  // ---- replacing back ----

  function Opposite(side: Side): Side {
    if side == REFERENCE then TARGET else REFERENCE
  }

  function SwapSides(p: Parameter): (q: Parameter)
    ensures ExpectedUnit(q) == ExpectedUnit(p)
  {
    match p
    case TotalEnergy(s) => TotalEnergy(Opposite(s))
    case Share(s, c) => Share(Opposite(s), c)
    case AdditionalEmission(s) => AdditionalEmission(Opposite(s))
    case CalculationRequired(s) => CalculationRequired(Opposite(s))
    case ConsumableMass(s) => ConsumableMass(Opposite(s))
    case CarbonFraction(s) => CarbonFraction(Opposite(s))
    case OxidationFraction(s) => OxidationFraction(Opposite(s))
    case _ => p
  }

  predicate SameReading(a: Evidence, b: Evidence) {
    a.value == b.value && a.unit == b.unit && a.requiresCalculation == b.requiresCalculation
  }

  /** qs is ps with the routes exchanged; an omitted target gas share becomes an explicit reference share of zero. */
  ghost predicate IsSwap(ps: Parameters, qs: Parameters) {
    && (forall p :: SwapSides(p) in ps ==> p in qs && SameReading(qs[p], ps[SwapSides(p)]))
    && (forall p :: p in qs ==> SwapSides(p) in ps || (p == Share(REFERENCE, NATURAL_GAS) && qs[p].value == 0.0 && qs[p].unit == "fraction"))
    && Share(REFERENCE, NATURAL_GAS) in qs
  }

  function Swapped(ps: Parameters): (qs: Parameters)
    ensures IsSwap(ps, qs)
  {
    var gas := Share(REFERENCE, NATURAL_GAS);
    var keys := set p | p in ps.Keys :: SwapSides(p);
    assert forall p :: SwapSides(SwapSides(p)) == p;
    assert forall p :: SwapSides(p) in ps ==> SwapSides(SwapSides(p)) in keys;
    map p | p in keys + {gas} ::
      if SwapSides(p) in ps then ps[SwapSides(p)] else Evidence("explicit zero", gas, 0.0, "fraction", false, false, {})
  }

  lemma SwapAt(ps: Parameters, qs: Parameters, p: Parameter)
    requires IsSwap(ps, qs) && p != Share(REFERENCE, NATURAL_GAS)
    ensures p in qs <==> SwapSides(p) in ps
    ensures p in qs ==> SameReading(qs[p], ps[SwapSides(p)])
  {}

  lemma SwapAdditional(ps: Parameters, qs: Parameters, side: Side)
    requires IsSwap(ps, qs)
    ensures AdditionalValue(qs, side) == AdditionalValue(ps, Opposite(side))
  {
    hide IsSwap, Stoichiometric, Opposite;
    SidesExchange(side);
    SwapAt(ps, qs, ConsumableMass(side));
    SwapAt(ps, qs, CarbonFraction(side));
    SwapAt(ps, qs, OxidationFraction(side));
    SwapAt(ps, qs, CalculationRequired(side));
    SwapAt(ps, qs, AdditionalEmission(side));
  }

  lemma SidesExchange(side: Side)
    ensures SwapSides(ConsumableMass(side)) == ConsumableMass(Opposite(side))
    ensures SwapSides(CarbonFraction(side)) == CarbonFraction(Opposite(side))
    ensures SwapSides(OxidationFraction(side)) == OxidationFraction(Opposite(side))
    ensures SwapSides(CalculationRequired(side)) == CalculationRequired(Opposite(side))
    ensures SwapSides(AdditionalEmission(side)) == AdditionalEmission(Opposite(side))
  {}

  lemma SwapGas(ps: Parameters, qs: Parameters, side: Side)
    requires IsSwap(ps, qs)
    ensures GasShare(qs, side) == GasShare(ps, Opposite(side))
  {
    assert SwapSides(Share(side, NATURAL_GAS)) == Share(Opposite(side), NATURAL_GAS);
  }

  lemma SwapCarriers(ps: Parameters, qs: Parameters)
    requires FullRequired(ps) && IsSwap(ps, qs)
    ensures FullRequired(qs) && ReadCarriers(qs) == ReadCarriers(ps)
  {
    SwapAt(ps, qs, TotalEnergy(REFERENCE));
    SwapAt(ps, qs, TotalEnergy(TARGET));
    SwapAt(ps, qs, Share(REFERENCE, ELECTRICITY));
    SwapAt(ps, qs, Share(TARGET, ELECTRICITY));
    SwapAt(ps, qs, EnergyContent(ELECTRICITY));
    SwapAt(ps, qs, EnergyContent(NATURAL_GAS));
    SwapAt(ps, qs, EmissionFactor(ELECTRICITY));
    SwapAt(ps, qs, EmissionFactor(NATURAL_GAS));
    assert Share(REFERENCE, NATURAL_GAS) in qs;
    hide IsSwap;
  }

  lemma SwapRoute(ps: Parameters, qs: Parameters, side: Side, additional: Option<real>)
    requires FullRequired(ps) && IsSwap(ps, qs) && FullRequired(qs)
    ensures ReadRoute(qs, side, additional) == ReadRoute(ps, Opposite(side), additional)
  {
    assert side == REFERENCE || side == TARGET;
    SwapGas(ps, qs, side);
    SwapAt(ps, qs, TotalEnergy(side));
    SwapAt(ps, qs, Share(side, ELECTRICITY));
    hide IsSwap, GasShare;
  }

  lemma SwapUnits(ps: Parameters, qs: Parameters)
    requires IsSwap(ps, qs) && UnitsAsExpected(ps)
    ensures UnitsAsExpected(qs)
  {
    forall p | p in qs && ExpectedUnit(p).Some? ensures qs[p].unit == ExpectedUnit(p).value {
      if SwapSides(p) in ps { assert SameReading(qs[p], ps[SwapSides(p)]); }
    }
  }

  /** Exchanged evidence passes the same checks and reads as the exchanged routes. */
  lemma SwapReadsExchanged(ps: Parameters, qs: Parameters)
    requires FullRequired(ps) && IsSwap(ps, qs) && ReadReplacement(ps, true).Ok?
    ensures FullRequired(qs)
    ensures var r := ReadReplacement(ps, true).value;
            ReadReplacement(qs, true) == Ok(Replacement(r.target, r.reference, r.carriers))
  {
    SwapCarriers(ps, qs);
    SwapUnits(ps, qs);
    SwapAdditional(ps, qs, REFERENCE);
    SwapAdditional(ps, qs, TARGET);
    SwapRoute(ps, qs, REFERENCE, AdditionalValue(qs, REFERENCE).value);
    SwapRoute(ps, qs, TARGET, AdditionalValue(qs, TARGET).value);
    hide AdditionalValue, UnitsAsExpected, IsSwap, ReadRoute, RouteOk, CarriersOk, ReadCarriers, FullRequired;
  }

  lemma SwapBack(factor: real, unit: FactorUnit, removed: real, added: real)
    requires SwapProcessIn(factor, unit, removed, added).Ok? && removed >= 0.0 && added >= 0.0
    ensures ConvertFactor(factor, unit, KGCO2E_PER_KG).Ok?
    ensures var back := SwapProcessIn(SwapProcessIn(factor, unit, removed, added).value, unit, added, removed);
            && back.Ok?
            && (ConvertFactor(factor, unit, KGCO2E_PER_KG).value >= removed ==> back.value == factor)
            && WithinClamp(back.value, factor, unit)
  {
    hide ConvertFactor;
    var base := ConvertFactor(factor, unit, KGCO2E_PER_KG).value;
    var output := SwapProcess(base, removed, added).value;
    FactorRoundTrip(factor, unit, KGCO2E_PER_KG);
    FactorRoundTrip(output, KGCO2E_PER_KG, unit);
    ConvertibilityIgnoresValue(output, SwapProcess(output, added, removed).value, KGCO2E_PER_KG, unit);
    FactorRoundTrip(SwapProcess(output, added, removed).value, KGCO2E_PER_KG, unit);
  }

  /** Replacing back with exchanged evidence is accepted and restores the factor: exactly when the factor
      covered the reference route, within the tolerance when the clamp fired. */
  lemma ReplacementReversible(factor: real, unit: FactorUnit, ps: Parameters, qs: Parameters)
    requires FullRequired(ps) && IsSwap(ps, qs) && ReplaceEnergy(factor, unit, ps, true).Ok?
    ensures FullRequired(qs) && ReadReplacement(ps, true).Ok? && ConvertFactor(factor, unit, KGCO2E_PER_KG).Ok?
    ensures var back := ReplaceEnergy(ReplaceEnergy(factor, unit, ps, true).value, unit, qs, true);
            var r := ReadReplacement(ps, true).value;
            && back.Ok?
            && (ConvertFactor(factor, unit, KGCO2E_PER_KG).value >= RouteEmission(r.reference, r.carriers) ==> back.value == factor)
            && WithinClamp(back.value, factor, unit)
  {
    SwapReadsExchanged(ps, qs);
    hide ReadReplacement, RouteEmission, ConvertFactor, IsSwap, FullRequired, SwapProcessIn, WithinClamp, RouteOk, CarriersOk;
    var r := ReadReplacement(ps, true).value;
    SwapBack(factor, unit, RouteEmission(r.reference, r.carriers), RouteEmission(r.target, r.carriers));
  }

  // ---- the delta route is not always reversible ----

  /** A delta adjustment moves the factor by what the evidence adds, removes and names otherwise, once the parts and
      the result are not negative and the factor covers the removed part up to the tolerance. */
  lemma DeltaLaw(factor: real, unit: FactorUnit, ps: Parameters, includes: bool)
    requires DeltaRequired(ps)
    ensures var other := if DeltaOther in ps then ps[DeltaOther].value else 0.0;
            var removed, added := ps[RemovedProcess].value, ps[AddedProcess].value;
            var base, output := ConvertFactor(factor, unit, KGCO2E_PER_KG), DeltaAdjust(factor, unit, ps, includes);
            && (output.Ok? <==>
                && includes && base.Ok? && removed >= 0.0 && added >= 0.0
                && base.value - removed >= -CLAMP && base.value - removed + added + other >= 0.0
                && (forall p :: p in {RemovedProcess, AddedProcess, DeltaOther} && p in ps ==> ps[p].unit in {"kgco2e/kg", "tco2e/t"}))
            && (output.Ok? ==>
                && ConvertFactor(output.value, unit, KGCO2E_PER_KG).Ok?
                && ConvertFactor(output.value, unit, KGCO2E_PER_KG).value ==
                   (if base.value >= removed then base.value - removed + added + other else added + other))
  {
    hide ConvertFactor;
    FactorRoundTrip(factor, unit, KGCO2E_PER_KG);
    var base := ConvertFactor(factor, unit, KGCO2E_PER_KG);
    assert RemovedProcess in ps && AddedProcess in ps;
    if base.Ok? {
      var output := DeltaOutput(base.value, ps[RemovedProcess].value, ps[AddedProcess].value, OtherDelta(ps));
      if output.Ok? {
        ConvertibilityIgnoresValue(base.value, output.value, KGCO2E_PER_KG, unit);
        FactorRoundTrip(output.value, KGCO2E_PER_KG, unit);
      }
    }
  }

  lemma DeltaOutputReversible(base: real, removed: real, added: real, delta: real)
    requires DeltaOutput(base, removed, added, delta).Ok?
    ensures var back := DeltaOutput(DeltaOutput(base, removed, added, delta).value, added, removed, -delta);
            && (back.Ok? <==> Max(0.0, base - removed) + delta >= -CLAMP)
            && (base >= removed && base - removed + delta >= 0.0 ==> back == Ok(base))
            && (back.Ok? ==> Abs(back.value - base) <= 2.0 * CLAMP)
  {}

  /** qs is ps with removed and added process exchanged and the other delta negated. */
  predicate IsDeltaSwap(ps: Parameters, qs: Parameters) {
    && DeltaRequired(ps) && DeltaRequired(qs) && (DeltaOther in ps <==> DeltaOther in qs)
    && qs[RemovedProcess].value == ps[AddedProcess].value && qs[RemovedProcess].unit == ps[AddedProcess].unit
    && qs[AddedProcess].value == ps[RemovedProcess].value && qs[AddedProcess].unit == ps[RemovedProcess].unit
    && (DeltaOther in ps ==> qs[DeltaOther].value == -ps[DeltaOther].value && qs[DeltaOther].unit == ps[DeltaOther].unit)
  }

  /** What the removed process and the other delta leave of a factor per kilogram. */
  function DeltaRemainder(base: real, ps: Parameters): real
    requires DeltaRequired(ps)
  {
    Max(0.0, base - ps[RemovedProcess].value) + OtherDelta(ps)
  }

  /** Two factors of one unit that differ by at most twice the tolerance in kgCO2e per kilogram. */
  predicate WithinTwoClamps(x: real, y: real, unit: FactorUnit) {
    var a, b := ConvertFactor(x, unit, KGCO2E_PER_KG), ConvertFactor(y, unit, KGCO2E_PER_KG);
    a.Ok? && b.Ok? && Abs(a.value - b.value) <= 2.0 * CLAMP
  }

  /** An accepted delta adjustment can be taken back exactly when the common upstream part outweighs the other
      delta; then it restores the factor, up to the clamps. */
  lemma DeltaReversible(factor: real, unit: FactorUnit, ps: Parameters, qs: Parameters)
    requires IsDeltaSwap(ps, qs) && DeltaAdjust(factor, unit, ps, true).Ok?
    ensures ConvertFactor(factor, unit, KGCO2E_PER_KG).Ok?
    ensures var base := ConvertFactor(factor, unit, KGCO2E_PER_KG).value;
            var back := DeltaAdjust(DeltaAdjust(factor, unit, ps, true).value, unit, qs, true);
            && (back.Ok? <==> DeltaRemainder(base, ps) >= -CLAMP)
            && (base >= ps[RemovedProcess].value && DeltaRemainder(base, ps) >= 0.0 ==> back == Ok(factor))
            && (back.Ok? ==> WithinTwoClamps(back.value, factor, unit))
  {
    hide ConvertFactor, DeltaOutput;
    var base, removed, added, delta :=
      ConvertFactor(factor, unit, KGCO2E_PER_KG).value, ps[RemovedProcess].value, ps[AddedProcess].value, OtherDelta(ps);
    var output := DeltaOutput(base, removed, added, delta).value;
    var back := DeltaOutput(output, added, removed, -delta);
    assert OtherDelta(qs) == -delta;
    DeltaOutputReversible(base, removed, added, delta);
    FactorRoundTrip(factor, unit, KGCO2E_PER_KG);
    FactorRoundTrip(output, KGCO2E_PER_KG, unit);
    if back.Ok? {
      ConvertibilityIgnoresValue(output, back.value, KGCO2E_PER_KG, unit);
      FactorRoundTrip(back.value, KGCO2E_PER_KG, unit);
    }
  }

  // ---- at the level of candidates ----

  /** The process route never settles a gap itself, and keeps the record it started from. */
  lemma ProcessKeepsGaps(c: Candidate, evidence: seq<Evidence>)
    requires ResolveProcessVariant(c, evidence).Ok?
    ensures ResolveProcessVariant(c, evidence).value.gaps == c.gaps && ResolveProcessVariant(c, evidence).value.source == c.source
  {
    hide ReplaceEnergy, DeltaAdjust, Index, IncludesProcess, PolicyAssumptions, Derive, FullRequired, DeltaRequired, WellFormed;
    var ps, includes := Index(evidence).value, IncludesProcess(c, evidence);
    if FullRequired(ps) {
      var factor := ReplaceEnergy(c.factorValue, c.factorUnit, ps, includes);
      DeriveFrame(c, Derived(":process-adjusted", PROCESS_ADJUSTED, Some(factor.value), 1, [],
        REPLACEMENT_ASSUMPTIONS + PolicyAssumptions(evidence), None, None, None, None));
    } else if DeltaRequired(ps) {
      var factor := DeltaAdjust(c.factorValue, c.factorUnit, ps, includes);
      DeriveFrame(c, Derived(":process-delta", PROCESS_ADJUSTED, Some(factor.value), 1, [],
        ["unadjusted contributions are shared between process variants"], None, None, None, None));
    } else {
      DeriveFrame(c, Derived(":unadjusted-process-proxy", UNADJUSTED_PROCESS_PROXY, None, 0,
        ["no supported process decomposition; source factor is unchanged"],
        ["reference process is used as an unadjusted proxy"], None, None, None, None));
    }
  }

  /** Whatever the evidence, the result is consistent if the candidate was. */
  lemma ProcessKeepsConsistency(c: Candidate, evidence: seq<Evidence>)
    requires Consistent(c) && ResolveProcessVariant(c, evidence).Ok?
    ensures Consistent(ResolveProcessVariant(c, evidence).value)
  {
    hide ReplaceEnergy, DeltaAdjust, Index, IncludesProcess, PolicyAssumptions, Derive, Consistent, FullRequired, DeltaRequired, Adjusted;
    var ps, includes := Index(evidence).value, IncludesProcess(c, evidence);
    if FullRequired(ps) {
      AdjustedKeeps(c, ":process-adjusted", ReplaceEnergy(c.factorValue, c.factorUnit, ps, includes),
        REPLACEMENT_ASSUMPTIONS + PolicyAssumptions(evidence));
    } else if DeltaRequired(ps) {
      AdjustedKeeps(c, ":process-delta", DeltaAdjust(c.factorValue, c.factorUnit, ps, includes),
        ["unadjusted contributions are shared between process variants"]);
    } else {
      DeriveKeepsConsistency(c, Derived(":unadjusted-process-proxy", UNADJUSTED_PROCESS_PROXY, None, 0,
        ["no supported process decomposition; source factor is unchanged"],
        ["reference process is used as an unadjusted proxy"], None, None, None, None), c);
    }
  }

  lemma AdjustedKeeps(c: Candidate, suffix: string, factor: Result<real>, assumptions: seq<string>)
    requires Consistent(c)
    ensures Adjusted(c, suffix, factor, assumptions).Ok? ==> Consistent(Adjusted(c, suffix, factor, assumptions).value)
  {
    if Adjusted(c, suffix, factor, assumptions).Ok? {
      DeriveKeepsConsistency(c, Derived(suffix, PROCESS_ADJUSTED, Some(factor.value), 1, [], assumptions, None, None, None, None), c);
    }
    hide Derive;
  }

  lemma ReplacementKeepsSign(factor: real, unit: FactorUnit, ps: Parameters, includes: bool)
    requires FullRequired(ps) && ReplaceEnergy(factor, unit, ps, includes).Ok?
    ensures ReplaceEnergy(factor, unit, ps, includes).value >= 0.0
  {
    hide ReadReplacement, RouteEmission, ConvertFactor, FullRequired;
    var r := ReadReplacement(ps, includes).value;
    var base := ConvertFactor(factor, unit, KGCO2E_PER_KG).value;
    ConvertKeepsSign(SwapProcess(base, RouteEmission(r.reference, r.carriers), RouteEmission(r.target, r.carriers)).value,
      KGCO2E_PER_KG, unit);
  }

  /** Once the process dimension is resolved, resolving it again does not raise the score again. */
  lemma ScoreRaisedOnce(c: Candidate, suffix: string, factor: Result<real>, assumptions: seq<string>)
    requires Consistent(c) && WellFormed(c) && c.processDimension == 1.0
    requires factor.Ok? && factor.value >= 0.0
    ensures Adjusted(c, suffix, factor, assumptions).Ok?
    ensures var r := Adjusted(c, suffix, factor, assumptions).value;
            r.score == c.score && r.factorValue == factor.value && r.factorUnit == c.factorUnit
            && r.activityValue == c.activityValue && r.quantityKg == c.quantityKg
  {
    DeriveAccepts(c, Derived(suffix, PROCESS_ADJUSTED, Some(factor.value), 1, [], assumptions, None, None, None, None));
  }

  /** Replacing a candidate's route and replacing it back with exchanged evidence is accepted, and gives
      the candidate its factor and its total back. */
  lemma CandidateReversible(c: Candidate, evidence: seq<Evidence>, exchanged: seq<Evidence>)
    requires Consistent(c) && WellFormed(c)
    requires Index(evidence).Ok? && Index(exchanged).Ok? && IncludesProcess(c, evidence) && IncludesProcess(c, exchanged)
    requires FullRequired(Index(evidence).value) && IsSwap(Index(evidence).value, Index(exchanged).value)
    requires ResolveProcessVariant(c, evidence).Ok?
    ensures ReadReplacement(Index(evidence).value, true).Ok? && ConvertFactor(c.factorValue, c.factorUnit, KGCO2E_PER_KG).Ok?
    ensures var there := ResolveProcessVariant(c, evidence).value;
            var back := ResolveProcessVariant(there, exchanged);
            var r := ReadReplacement(Index(evidence).value, true).value;
            && back.Ok? && back.value.score == there.score
            && WithinClamp(back.value.factorValue, c.factorValue, c.factorUnit)
            && (ConvertFactor(c.factorValue, c.factorUnit, KGCO2E_PER_KG).value >= RouteEmission(r.reference, r.carriers) ==>
                && back.value.factorValue == c.factorValue
                && (c.activityValue.Some? || c.quantityKg.Some? ==> back.value.totalKg == c.totalKg))
  {
    hide Index, FullRequired, IsSwap, IncludesProcess, Consistent, WellFormed, ReplaceEnergy, ReadReplacement, RouteEmission,
         WithinClamp, Adjusted, PolicyAssumptions, ConvertFactor, ResolveProcessVariant;
    var ps, qs := Index(evidence).value, Index(exchanged).value;
    var factor := ReplaceEnergy(c.factorValue, c.factorUnit, ps, true);
    FullRouteResolution(c, evidence);
    AdjustedFields(c, ":process-adjusted", factor, REPLACEMENT_ASSUMPTIONS + PolicyAssumptions(evidence));
    ReplacementReversible(c.factorValue, c.factorUnit, ps, qs);
    var again := ReplaceEnergy(factor.value, c.factorUnit, qs, true);
    ReplacementKeepsSign(factor.value, c.factorUnit, qs, true);
    ProcessKeepsConsistency(c, evidence);
    var there := ResolveProcessVariant(c, evidence).value;
    SameSourceIncludes(c, there, exchanged);
    FullRouteResolution(there, exchanged);
    var assumptions := REPLACEMENT_ASSUMPTIONS + PolicyAssumptions(exchanged);
    ScoreRaisedOnce(there, ":process-adjusted", again, assumptions);
    AdjustedKeeps(there, ":process-adjusted", again, assumptions);
    if again.value == c.factorValue && (c.activityValue.Some? || c.quantityKg.Some?) {
      SameFactorSameTotal(c, ResolveProcessVariant(there, exchanged).value);
    }
  }

  lemma FullRouteResolution(c: Candidate, evidence: seq<Evidence>)
    requires Index(evidence).Ok? && FullRequired(Index(evidence).value)
    ensures ResolveProcessVariant(c, evidence) ==
      Adjusted(c, ":process-adjusted", ReplaceEnergy(c.factorValue, c.factorUnit, Index(evidence).value, IncludesProcess(c, evidence)),
        REPLACEMENT_ASSUMPTIONS + PolicyAssumptions(evidence))
  {
    hide Index, FullRequired, IncludesProcess, ReplaceEnergy, Adjusted, PolicyAssumptions;
  }

  lemma SameSourceIncludes(c: Candidate, d: Candidate, evidence: seq<Evidence>)
    requires c.source == d.source
    ensures IncludesProcess(c, evidence) == IncludesProcess(d, evidence)
  {}

  lemma AdjustedFields(c: Candidate, suffix: string, factor: Result<real>, assumptions: seq<string>)
    requires Adjusted(c, suffix, factor, assumptions).Ok?
    ensures var r := Adjusted(c, suffix, factor, assumptions).value;
            && WellFormed(r) && r.processDimension == 1.0 && factor.Ok? && r.factorValue == factor.value
            && r.source == c.source && r.factorUnit == c.factorUnit && r.activityValue == c.activityValue && r.quantityKg == c.quantityKg
  {}

  lemma SameFactorSameTotal(c: Candidate, d: Candidate)
    requires Consistent(c) && Consistent(d)
    requires d.factorValue == c.factorValue && d.factorUnit == c.factorUnit && d.activityValue == c.activityValue && d.quantityKg == c.quantityKg
    requires c.activityValue.Some? || c.quantityKg.Some?
    ensures d.totalKg == c.totalKg
  {}

  lemma DeltaRouteResolution(c: Candidate, evidence: seq<Evidence>)
    requires Index(evidence).Ok? && !FullRequired(Index(evidence).value) && DeltaRequired(Index(evidence).value)
    ensures ResolveProcessVariant(c, evidence) ==
      Adjusted(c, ":process-delta", DeltaAdjust(c.factorValue, c.factorUnit, Index(evidence).value, IncludesProcess(c, evidence)),
        ["unadjusted contributions are shared between process variants"])
  {
    hide Index, FullRequired, IncludesProcess, DeltaAdjust, Adjusted;
  }

  lemma DeltaKeepsSign(factor: real, unit: FactorUnit, ps: Parameters, includes: bool)
    requires DeltaRequired(ps) && DeltaAdjust(factor, unit, ps, includes).Ok?
    ensures DeltaAdjust(factor, unit, ps, includes).value >= 0.0
  {
    hide ConvertFactor;
    var base := ConvertFactor(factor, unit, KGCO2E_PER_KG).value;
    ConvertKeepsSign(DeltaOutput(base, ps[RemovedProcess].value, ps[AddedProcess].value, OtherDelta(ps)).value, KGCO2E_PER_KG, unit);
  }

  /** A candidate's delta adjustment can be taken back with exchanged evidence exactly when the common upstream
      part outweighs the other delta; without a clamp that restores factor and total. */
  lemma DeltaCandidateReversible(c: Candidate, evidence: seq<Evidence>, exchanged: seq<Evidence>)
    requires Consistent(c) && WellFormed(c)
    requires Index(evidence).Ok? && Index(exchanged).Ok? && IncludesProcess(c, evidence) && IncludesProcess(c, exchanged)
    requires !FullRequired(Index(evidence).value) && !FullRequired(Index(exchanged).value)
    requires IsDeltaSwap(Index(evidence).value, Index(exchanged).value)
    requires ResolveProcessVariant(c, evidence).Ok?
    ensures ConvertFactor(c.factorValue, c.factorUnit, KGCO2E_PER_KG).Ok?
    ensures var ps := Index(evidence).value;
            var base := ConvertFactor(c.factorValue, c.factorUnit, KGCO2E_PER_KG).value;
            var there := ResolveProcessVariant(c, evidence).value;
            var back := ResolveProcessVariant(there, exchanged);
            && (back.Ok? <==> DeltaRemainder(base, ps) >= -CLAMP)
            && (back.Ok? ==> back.value.score == there.score && WithinTwoClamps(back.value.factorValue, c.factorValue, c.factorUnit))
            && (base >= ps[RemovedProcess].value && DeltaRemainder(base, ps) >= 0.0 ==>
                && back.value.factorValue == c.factorValue
                && (c.activityValue.Some? || c.quantityKg.Some? ==> back.value.totalKg == c.totalKg))
  {
    hide Index, FullRequired, IncludesProcess, Consistent, WellFormed, DeltaAdjust, DeltaRemainder, WithinTwoClamps, Adjusted, ConvertFactor,
         ResolveProcessVariant;
    var ps, qs := Index(evidence).value, Index(exchanged).value;
    var shared := ["unadjusted contributions are shared between process variants"];
    var factor := DeltaAdjust(c.factorValue, c.factorUnit, ps, true);
    DeltaRouteResolution(c, evidence);
    AdjustedFields(c, ":process-delta", factor, shared);
    DeltaReversible(c.factorValue, c.factorUnit, ps, qs);
    ProcessKeepsConsistency(c, evidence);
    var there := ResolveProcessVariant(c, evidence).value;
    SameSourceIncludes(c, there, exchanged);
    DeltaRouteResolution(there, exchanged);
    var again := DeltaAdjust(factor.value, c.factorUnit, qs, true);
    RefusedFactor(there, ":process-delta", again, shared);
    if again.Ok? {
      DeltaKeepsSign(factor.value, c.factorUnit, qs, true);
      ScoreRaisedOnce(there, ":process-delta", again, shared);
      AdjustedKeeps(there, ":process-delta", again, shared);
      if again.value == c.factorValue && (c.activityValue.Some? || c.quantityKg.Some?) {
        SameFactorSameTotal(c, ResolveProcessVariant(there, exchanged).value);
      }
    }
  }

  lemma RefusedFactor(c: Candidate, suffix: string, factor: Result<real>, assumptions: seq<string>)
    ensures factor.Err? ==> Adjusted(c, suffix, factor, assumptions).Err?
  {}

  // ---- an adjustment that cannot be taken back ----

  const DELTA_SOURCE :=
    Source("delta", 1.0, KGCO2E_PER_KG, LIFECYCLE_FACTOR, "GWP-total", "", "", "", None, None, true, false, 100, 0.9, 0)
  const DELTA_CANDIDATE :=
    Candidate("delta", LOCAL, DELTA_SOURCE, 1.0, KGCO2E_PER_KG, 1.0, 1.0, [], 1.0, DIRECT_EXACT, PRIMARY_RECOMMENDATION, 1.0,
      [Gap("process", PROCESS_VARIANT_GAP, "", 1.0)], 0, [], [], None, None, None, None, None, 0)

  /** Evidence for the delta route, in kgCO2e per kilogram. */
  function DeltaEvidence(removed: real, added: real, other: real): seq<Evidence> {
    [Evidence("removed", RemovedProcess, removed, "kgco2e/kg", false, false, {}),
     Evidence("added", AddedProcess, added, "kgco2e/kg", false, false, {}),
     Evidence("other", DeltaOther, other, "kgco2e/kg", false, false, {})]
  }

  lemma DeltaEvidenceIndexed(removed: real, added: real, other: real)
    ensures Index(DeltaEvidence(removed, added, other)).Ok?
    ensures var e, ps := DeltaEvidence(removed, added, other), Index(DeltaEvidence(removed, added, other)).value;
            && (forall p :: p in ps ==> p in {RemovedProcess, AddedProcess, DeltaOther})
            && DeltaRequired(ps) && DeltaOther in ps
            && ps[RemovedProcess] == e[0] && ps[AddedProcess] == e[1] && ps[DeltaOther] == e[2]
  {
    hide Index;
    var e := DeltaEvidence(removed, added, other);
    IndexedIffDistinct(e);
    IndexHolds(e);
    assert e[0] in e && e[1] in e && e[2] in e;
  }

  /** With a factor of 1, a removed process of 1, an added one of 2 and another delta of -1, the adjustment is
      accepted and its exchange is refused: nothing upstream is left to outweigh the delta. */
  lemma DeltaIrreversibleExample()
    ensures var there := ResolveProcessVariant(DELTA_CANDIDATE, DeltaEvidence(1.0, 2.0, -1.0));
            there.Ok? && there.value.factorValue == 1.0 && ResolveProcessVariant(there.value, DeltaEvidence(2.0, 1.0, 1.0)).Err?
  {
    hide Index, Adjusted, ResolveProcessVariant;
    var evidence, exchanged := DeltaEvidence(1.0, 2.0, -1.0), DeltaEvidence(2.0, 1.0, 1.0);
    DeltaEvidenceIndexed(1.0, 2.0, -1.0);
    DeltaEvidenceIndexed(2.0, 1.0, 1.0);
    var factor := DeltaAdjust(1.0, KGCO2E_PER_KG, Index(evidence).value, true);
    assert ConvertFactor(1.0, KGCO2E_PER_KG, KGCO2E_PER_KG) == Ok(1.0) && factor == Ok(1.0);
    DeltaRouteResolution(DELTA_CANDIDATE, evidence);
    ScoreRaisedOnce(DELTA_CANDIDATE, ":process-delta", factor, ["unadjusted contributions are shared between process variants"]);
    DeltaCandidateReversible(DELTA_CANDIDATE, evidence, exchanged);
  }

  /** Without a supported decomposition the factor is kept, but the candidate can never pass an approval gate. */
  lemma UnadjustedIsBlocked(c: Candidate, evidence: seq<Evidence>)
    requires Index(evidence).Ok? && !FullRequired(Index(evidence).value) && !DeltaRequired(Index(evidence).value)
    requires ResolveProcessVariant(c, evidence).Ok?
    ensures var r := ResolveProcessVariant(c, evidence).value;
            r.factorValue == c.factorValue && r.resultTier == REFERENCE_ONLY && HardRejected(r)
  {
  }
}
