/** Turning counts, areas or volumes into mass with mass-per-unit evidence (reference_flow_resolution.py). */
module ReferenceFlow {
  import opened Prelude
  import opened Units
  import opened Models
  import opened Derivation
  import DerivationLaws

  /** A mass-per-unit record; every text is normalized, absent ones are empty. unit is None if it cannot be parsed. */
  datatype FlowRecord = FlowRecord(
    recordId: string,
    materialName: string,
    unit: Option<ActivityUnit>,
    unitText: string,
    massPerUnit: Positive,
    declaredProduct: string,
    productForm: string,
    specification: string,
    conflicted: bool,
    qualityNote: string)

  /** What the request and the candidate's source say about the product, in normalized texts. */
  datatype Product = Product(
    unitText: string,
    names: set<string>,
    declaredOrName: string,
    productForm: string,
    composition: string)

  /** _record_is_compatible */
  predicate Compatible(a: Activity, p: Product, r: FlowRecord) {
    && r.unit.Some? && r.unit.value.canonicalUnit == a.unit.canonicalUnit
    && (r.unit.value.dimension == COUNT ==> r.unitText == p.unitText)
    && r.materialName in p.names && r.materialName != ""
    && (r.declaredProduct != "" ==> r.declaredProduct == p.declaredOrName)
    && (r.productForm != "" ==> r.productForm == p.productForm)
    && (r.specification != "" ==> r.specification == p.composition)
    && !r.conflicted
  }

  function MassOf(a: Activity, r: FlowRecord): real {
    a.quantity * r.massPerUnit
  }

  /** One converted candidate. */
  function Converted(a: Activity, c: Candidate, r: FlowRecord): Result<Candidate> {
    ConvertedMass(c, r, MassOf(a, r))
  }

  function ConvertedMass(c: Candidate, r: FlowRecord, mass: real): Result<Candidate> {
    match (ConvertActivity(mass, KG, c.factorUnit.activity), ConvertFactor(c.factorValue, c.factorUnit, KGCO2E_PER_KG))
    case (Err(e), _) => Err(e)
    case (_, Err(e)) => Err(e)
    case (Ok(aligned), Ok(factor)) =>
      Derive(c, Derived(":reference-flow:" + r.recordId, REFERENCE_FLOW_CONVERTED, None, 1,
        if r.qualityNote != "" then [r.qualityNote] else [], [],
        Some((aligned, c.factorUnit.activity)), Some(MASS), Some(mass), Some(mass * factor)))
  }

  function ConvertAll(a: Activity, p: Product, c: Candidate, records: seq<FlowRecord>): Result<seq<Candidate>> {
    if records == [] then Ok([])
    else
      match ConvertAll(a, p, c, records[..|records| - 1])
      case Err(e) => Err(e)
      case Ok(front) =>
        var r := records[|records| - 1];
        if !Compatible(a, p, r) then Ok(front)
        else
          match Converted(a, c, r)
          case Err(e) => Err(e)
          case Ok(next) => Ok(front + [next])
  }

  /** resolve_reference_flow */
  method ResolveReferenceFlow(a: Activity, p: Product, c: Candidate, records: seq<FlowRecord>) returns (r: Result<seq<Candidate>>)
    ensures r == ConvertAll(a, p, c, records)
  {
    hide Compatible, Converted;
    var resolved: seq<Candidate>, i := [], 0;
    while i < |records|
      invariant 0 <= i <= |records|
      invariant ConvertAll(a, p, c, records[..i]) == Ok(resolved)
    {
      assert records[..i + 1][..i] == records[..i];
      if Compatible(a, p, records[i]) {
        var next := Converted(a, c, records[i]);
        if next.Err? {
          StuckConversion(a, p, c, records, i + 1);
          return Err(next.error);
        }
        resolved := resolved + [next.value];
      }
      i := i + 1;
    }
    assert records[..i] == records;
    return Ok(resolved);
  }

  lemma {:induction false} StuckConversion(a: Activity, p: Product, c: Candidate, records: seq<FlowRecord>, n: nat)
    requires n <= |records| && ConvertAll(a, p, c, records[..n]).Err?
    ensures ConvertAll(a, p, c, records) == ConvertAll(a, p, c, records[..n])
    decreases |records|
  {
    hide Compatible, Converted;
    if n == |records| {
      assert records[..n] == records;
    } else {
      assert records[..|records| - 1][..n] == records[..n];
      StuckConversion(a, p, c, records[..|records| - 1], n);
    }
  }

  /** The total is stated through kilograms, the application through the factor's own denominator: whatever
      the candidate was before, the two agree on what comes out. */
  lemma ConvertedIsConsistent(a: Activity, c: Candidate, r: FlowRecord)
    requires Converted(a, c, r).Ok?
    ensures var d := Converted(a, c, r).value;
            && Consistent(d)
            && d.quantityKg == Some(MassOf(a, r)) && d.source == c.source
            && d.activityDimension == Some(MASS)
            && d.factorValue == c.factorValue && d.factorUnit == c.factorUnit && d.resolutionType == REFERENCE_FLOW_CONVERTED
  {
    hide ConvertedMass, MassOf, Consistent, ApplicationTotal, ConvertActivity, ConvertFactor;
    ConvertedFields(c, r, MassOf(a, r));
    MassApplication(c.factorValue, c.factorUnit, MassOf(a, r));
    AlignedIsConsistent(Converted(a, c, r).value);
  }

  /** Applying a factor to a mass in its own denominator is applying it per kilogram to kilograms. */
  lemma MassApplication(factor: real, unit: FactorUnit, mass: real)
    requires ConvertActivity(mass, KG, unit.activity).Ok?
    ensures var aligned := ConvertActivity(mass, KG, unit.activity).value;
            && ConvertFactor(factor, unit, KGCO2E_PER_KG).Ok?
            && Yields(ApplicationTotal(factor, unit, aligned, unit.activity), mass * ConvertFactor(factor, unit, KGCO2E_PER_KG).value)
            && Yields(ConvertActivity(aligned, unit.activity, KG), mass)
    ensures unit.activity.dimension == MASS
  {
    DenominatorAlignment(factor, unit, mass);
    ActivityMultipliersInvert(KG, unit.activity);
    CancelScales(mass, ActivityMultiplier(KG, unit.activity).value, ActivityMultiplier(unit.activity, KG).value);
    hide Quotient;
  }

  lemma AlignedIsConsistent(d: Candidate)
    requires d.activityValue.Some? && d.quantityKg.Some? && d.totalKg.Some? && d.factorUnit.activity.dimension == MASS
    requires d.activityUnit == Some(d.factorUnit.activity)
    requires Yields(ApplicationTotal(d.factorValue, d.factorUnit, d.activityValue.value, d.factorUnit.activity), d.totalKg.value)
    requires Yields(ConvertActivity(d.activityValue.value, d.factorUnit.activity, KG), d.quantityKg.value)
    ensures Consistent(d)
  {}

  lemma ConvertedFields(c: Candidate, r: FlowRecord, mass: real)
    requires ConvertedMass(c, r, mass).Ok?
    ensures var d := ConvertedMass(c, r, mass).value;
            && ConvertActivity(mass, KG, c.factorUnit.activity).Ok? && ConvertFactor(c.factorValue, c.factorUnit, KGCO2E_PER_KG).Ok?
            && d.activityValue == Some(ConvertActivity(mass, KG, c.factorUnit.activity).value)
            && d.activityUnit == Some(c.factorUnit.activity)
            && d.quantityKg == Some(mass) && d.activityDimension == Some(MASS)
            && d.totalKg.Some? && d.totalKg.value == mass * ConvertFactor(c.factorValue, c.factorUnit, KGCO2E_PER_KG).value
            && d.factorValue == c.factorValue && d.factorUnit == c.factorUnit && d.resolutionType == REFERENCE_FLOW_CONVERTED
            && d.source == c.source
  {
    hide ConvertActivity, ConvertFactor, WellFormed, Dedup;
  }

  /** One candidate per compatible record, in the records' order, each converted by its own record. */
  lemma {:induction false} OnePerCompatible(a: Activity, p: Product, c: Candidate, records: seq<FlowRecord>)
    requires ConvertAll(a, p, c, records).Ok?
    ensures var used := Filter(records, (r: FlowRecord) => Compatible(a, p, r));
            var out := ConvertAll(a, p, c, records).value;
            && |out| == |used|
            && forall i :: 0 <= i < |out| ==> Converted(a, c, used[i]) == Ok(out[i])
  {
    hide Compatible, Converted;
    if records != [] { OnePerCompatible(a, p, c, records[..|records| - 1]); }
  }

  lemma AllConsistent(a: Activity, p: Product, c: Candidate, records: seq<FlowRecord>)
    requires ConvertAll(a, p, c, records).Ok?
    ensures forall d :: d in ConvertAll(a, p, c, records).value ==> Consistent(d)
    ensures forall d :: d in ConvertAll(a, p, c, records).value ==> d.source == c.source
  {
    OnePerCompatible(a, p, c, records);
    hide Converted, Compatible, Consistent, ConvertAll;
    var used := Filter(records, (r: FlowRecord) => Compatible(a, p, r));
    var out := ConvertAll(a, p, c, records).value;
    forall i | 0 <= i < |out| ensures Consistent(out[i]) && out[i].source == c.source {
      ConvertedIsConsistent(a, c, used[i]);
    }
  }

  // ---- the same, on the values of records and request ----

  /** An absent text of the record excludes nothing. */
  predicate AgreesWith(text: string, stated: string) {
    text == "" || text == stated
  }

  /** d is c brought to kilograms by r: so many units weigh so much, and emit what the factor says for that mass. */
  predicate WeighedBy(a: Activity, c: Candidate, r: FlowRecord, d: Candidate) {
    && d.quantityKg.Some? && d.quantityKg.value == a.quantity * r.massPerUnit
    && d.factorUnit == c.factorUnit && d.factorValue == c.factorValue && c.factorUnit.activity.dimension == MASS
    && d.activityUnit == Some(c.factorUnit.activity) && d.activityValue.Some?
    && d.activityValue.value * c.factorUnit.activity.ratio == d.quantityKg.value
    && d.totalKg.Some?
    && d.totalKg.value * c.factorUnit.activity.ratio == c.factorValue * c.factorUnit.impact * (a.quantity * r.massPerUnit)
  }

  lemma WeighedLaw(a: Activity, c: Candidate, r: FlowRecord)
    requires Converted(a, c, r).Ok?
    ensures WeighedBy(a, c, r, Converted(a, c, r).value)
  {
    hide ConvertedMass, MassOf, ConvertActivity, ConvertFactor;
    var mass := MassOf(a, r);
    ConvertedFields(c, r, mass);
    MassApplication(c.factorValue, c.factorUnit, mass);
    DerivationLaws.ActivityLaw(mass, KG, c.factorUnit.activity);
    DerivationLaws.FactorLaw(c.factorValue, c.factorUnit, KGCO2E_PER_KG);
    MassIs(a, r);
    var f := ConvertFactor(c.factorValue, c.factorUnit, KGCO2E_PER_KG).value;
    TotalScales(mass, f, c.factorUnit.activity.ratio, c.factorValue * c.factorUnit.impact);
  }

  lemma MassIs(a: Activity, r: FlowRecord)
    ensures MassOf(a, r) == a.quantity * r.massPerUnit
  {}

  lemma TotalScales(mass: real, f: real, ratio: real, emission: real)
    requires f * ratio == emission
    ensures (mass * f) * ratio == emission * mass
  {
    assert (mass * f) * ratio == mass * (f * ratio);
  }

  /** The evidence speaks about this product: the same counting unit, the same material, nothing stated that differs,
      and no conflict. */
  predicate Applies(a: Activity, p: Product, r: FlowRecord) {
    && r.unit.Some? && r.unit.value.canonicalUnit == a.unit.canonicalUnit && !r.conflicted
    && (r.unit.value.dimension != COUNT || r.unitText == p.unitText)
    && r.materialName != "" && r.materialName in p.names
    && AgreesWith(r.declaredProduct, p.declaredOrName) && AgreesWith(r.productForm, p.productForm)
    && AgreesWith(r.specification, p.composition)
  }

  lemma {:induction false} AppliesIff(a: Activity, p: Product, c: Candidate, records: seq<FlowRecord>)
    requires ConvertAll(a, p, c, records).Ok?
    ensures forall r :: r in records && Applies(a, p, r) ==> Converted(a, c, r).Ok? && Converted(a, c, r).value in ConvertAll(a, p, c, records).value
    ensures forall d :: d in ConvertAll(a, p, c, records).value ==>
      exists r :: r in records && Applies(a, p, r) && Converted(a, c, r) == Ok(d)
  {
    hide Compatible, Converted, Applies;
    if records != [] {
      var front, last := records[..|records| - 1], records[|records| - 1];
      assert records == front + [last];
      AppliesIff(a, p, c, front);
      CompatibleApplies(a, p, last);
      var out := ConvertAll(a, p, c, front).value;
      forall d | d in ConvertAll(a, p, c, records).value ensures exists r :: r in records && Applies(a, p, r) && Converted(a, c, r) == Ok(d) {
        if d in out {
          var r :| r in front && Applies(a, p, r) && Converted(a, c, r) == Ok(d);
          assert r in records;
        } else {
          assert last in records;
        }
      }
    }
  }

  lemma CompatibleApplies(a: Activity, p: Product, r: FlowRecord)
    ensures Compatible(a, p, r) <==> Applies(a, p, r)
  {}

  /** Exactly the applicable records are used: each gives a candidate it weighs, and no other candidate comes out. */
  lemma FlowLaw(a: Activity, p: Product, c: Candidate, records: seq<FlowRecord>)
    requires ConvertAll(a, p, c, records).Ok?
    ensures forall r :: r in records && Applies(a, p, r) ==> exists d :: d in ConvertAll(a, p, c, records).value && WeighedBy(a, c, r, d)
    ensures forall d :: d in ConvertAll(a, p, c, records).value ==> exists r :: r in records && Applies(a, p, r) && WeighedBy(a, c, r, d)
  {
    hide Converted, Applies, WeighedBy, ConvertAll;
    AppliesIff(a, p, c, records);
    var out := ConvertAll(a, p, c, records).value;
    forall r | r in records && Applies(a, p, r) ensures exists d :: d in out && WeighedBy(a, c, r, d) {
      WeighedLaw(a, c, r);
      assert Converted(a, c, r).value in out;
    }
    forall d | d in out ensures exists r :: r in records && Applies(a, p, r) && WeighedBy(a, c, r, d) {
      var r :| r in records && Applies(a, p, r) && Converted(a, c, r) == Ok(d);
      WeighedLaw(a, c, r);
    }
  }
}
