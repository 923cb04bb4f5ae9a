/** Deterministic unit conversion (units.py) over the reals: parsed unit specs, every scale positive. */
module Units {
  import opened Prelude

  type Positive = x: real | x > 0.0 witness 1.0

  datatype Dimension = MASS | ENERGY | VOLUME | TRANSPORT_WORK | COUNT | AREA

  /** One registry entry: canonical unit, dimension, ratio to the base unit of that dimension, and whether
      relating it to other units of the dimension needs external evidence (normal cubic metres). */
  datatype ActivityUnit = ActivityUnit(canonicalUnit: string, dimension: Dimension, ratio: Positive, conditioned: bool)

  /** A parsed factor unit: kgCO2e per impact unit, over an activity unit. */
  datatype FactorUnit = FactorUnit(impact: Positive, activity: ActivityUnit)

  const KG := ActivityUnit("kg", MASS, 1.0, false)
  const KGCO2E_PER_KG := FactorUnit(1.0, KG)

  predicate ConditionedVolumePair(a: ActivityUnit, b: ActivityUnit) {
    a.dimension == VOLUME && b.dimension == VOLUME && a.conditioned != b.conditioned
  }

  /** The exact quotient; division is kept behind this contract so that proofs use products only. */
  function Quotient(a: real, b: Positive): (q: real)
    ensures q * b == a
    ensures a > 0.0 ==> q > 0.0
    ensures a >= 0.0 ==> q >= 0.0
  {
    var q := a / b;
    assert q * b == a;
    assert a >= 0.0 ==> q >= 0.0 by {
      if q < 0.0 { assert q * b < 0.0; }
    }
    q
  }

  /** The multiplier of an evidence-free activity conversion plan, or the reason there is none. */
  function ActivityMultiplier(a: ActivityUnit, b: ActivityUnit): (r: Result<Positive>)
    ensures r.Ok? <==> a.dimension == b.dimension && (a == b || !ConditionedVolumePair(a, b))
  {
    if a.dimension != b.dimension then Err(ValueError("UNIT_DIMENSION_MISMATCH"))
    else if a == b then Ok(1.0)
    else if ConditionedVolumePair(a, b) then Err(ValueError("UNIT_CONVERSION_EVIDENCE_REQUIRED"))
    else Ok(Quotient(a.ratio, b.ratio))
  }

  /** Reviewed evidence that relates a conditioned volume to a plain one, in one direction. */
  datatype ConversionEvidence = ConversionEvidence(from: ActivityUnit, to: ActivityUnit, multiplier: Positive)

  function ActivityMultiplierWith(a: ActivityUnit, b: ActivityUnit, evidence: Option<ConversionEvidence>): Result<Positive> {
    if a.dimension == b.dimension && a != b && ConditionedVolumePair(a, b) && evidence.Some? then
      if evidence.value.from == a && evidence.value.to == b then Ok(evidence.value.multiplier)
      else Err(ValueError("unit conversion evidence direction does not match"))
    else ActivityMultiplier(a, b)
  }

  function FactorMultiplier(a: FactorUnit, b: FactorUnit): (r: Result<Positive>)
    ensures r.Ok? <==> ActivityMultiplier(a.activity, b.activity).Ok?
  {
    match ActivityMultiplier(a.activity, b.activity)
    case Ok(m) => Ok(Quotient(Quotient(a.impact, b.impact), m))
    case Err(e) => Err(e)
  }

  function ConvertActivity(v: real, a: ActivityUnit, b: ActivityUnit): Result<real> {
    match ActivityMultiplier(a, b)
    case Ok(m) => Ok(v * m)
    case Err(e) => Err(e)
  }

  function ConvertFactor(v: real, a: FactorUnit, b: FactorUnit): Result<real> {
    match FactorMultiplier(a, b)
    case Ok(m) => Ok(v * m)
    case Err(e) => Err(e)
  }

  lemma CancelPositive(x: real, y: real, b: real)
    requires b > 0.0 && x * b == y * b
    ensures x == y
  {
    assert (x - y) * b == 0.0;
  }

  lemma QuotientsInvert(a: Positive, b: Positive)
    ensures Quotient(a, b) * Quotient(b, a) == 1.0
  {
    var q, r := Quotient(a, b), Quotient(b, a);
    assert (q * r) * b == (q * b) * r == a * r == b;
    CancelPositive(q * r, 1.0, b);
  }

  lemma ActivityMultipliersInvert(a: ActivityUnit, b: ActivityUnit)
    requires ActivityMultiplier(a, b).Ok?
    ensures ActivityMultiplier(b, a).Ok?
    ensures ActivityMultiplier(a, b).value * ActivityMultiplier(b, a).value == 1.0
  {
    if a != b { QuotientsInvert(a.ratio, b.ratio); }
  }

  lemma NestedQuotientsInvert(p: Positive, q: Positive, x: Positive, y: Positive)
    requires x * y == 1.0
    ensures Quotient(Quotient(p, q), x) * Quotient(Quotient(q, p), y) == 1.0
  {
    QuotientsInvert(p, q);
    var s, t := Quotient(p, q), Quotient(q, p);
    var m, n := Quotient(s, x), Quotient(t, y);
    Regroup(m, x, n, y);
  }

  lemma Regroup(m: real, x: real, n: real, y: real)
    requires x * y == 1.0
    ensures (m * x) * (n * y) == m * n
  {
    assert (m * x) * (n * y) == (m * n) * (x * y);
  }

  lemma MultipliersInvert(a: FactorUnit, b: FactorUnit)
    requires FactorMultiplier(a, b).Ok?
    ensures FactorMultiplier(b, a).Ok?
    ensures FactorMultiplier(a, b).value * FactorMultiplier(b, a).value == 1.0
  {
    ActivityMultipliersInvert(a.activity, b.activity);
    NestedQuotientsInvert(a.impact, b.impact,
      ActivityMultiplier(a.activity, b.activity).value, ActivityMultiplier(b.activity, a.activity).value);
  }

  lemma CancelScales(v: real, m: real, n: real)
    requires m * n == 1.0
    ensures (v * m) * n == v
  {
    assert (v * m) * n == v * (m * n);
  }

  lemma ConvertibilityIgnoresValue(v: real, w: real, a: FactorUnit, b: FactorUnit)
    ensures ConvertFactor(v, a, b).Ok? <==> ConvertFactor(w, a, b).Ok?
  {}

  /** Any factor conversion the registry accepts is undone, exactly, by the opposite conversion. */
  lemma FactorRoundTrip(v: real, a: FactorUnit, b: FactorUnit)
    ensures ConvertFactor(v, a, b).Ok? <==> ConvertFactor(v, b, a).Ok?
    ensures ConvertFactor(v, a, b).Ok? ==>
      var w := ConvertFactor(ConvertFactor(v, a, b).value, b, a); w.Ok? && w.value == v
  {
    if FactorMultiplier(a, b).Ok? {
      MultipliersInvert(a, b);
      CancelScales(v, FactorMultiplier(a, b).value, FactorMultiplier(b, a).value);
    }
  }

  /** The relation every derivation step rests on: a factor per kilogram applied to kilograms equals
      the same factor applied to the mass expressed in its own denominator. */
  lemma DenominatorAlignment(factor: real, unit: FactorUnit, kilograms: real)
    requires unit.activity.dimension == MASS
    ensures ConvertFactor(factor, unit, KGCO2E_PER_KG).Ok? && ConvertActivity(kilograms, KG, unit.activity).Ok?
    ensures ConvertFactor(factor, unit, FactorUnit(1.0, unit.activity)).Ok?
    ensures kilograms * ConvertFactor(factor, unit, KGCO2E_PER_KG).value
         == ConvertFactor(factor, unit, FactorUnit(1.0, unit.activity)).value
            * ConvertActivity(kilograms, KG, unit.activity).value
  {
    ActivityMultipliersInvert(unit.activity, KG);
    AlignScales(factor, unit.impact, kilograms,
      ActivityMultiplier(unit.activity, KG).value, ActivityMultiplier(KG, unit.activity).value);
  }

  lemma AlignScales(factor: real, i: Positive, kilograms: real, x: Positive, y: Positive)
    requires x * y == 1.0
    ensures kilograms * (factor * Quotient(Quotient(i, 1.0), x)) == (factor * Quotient(Quotient(i, 1.0), 1.0)) * (kilograms * y)
  {
    var j := Quotient(i, 1.0);
    assert j == i && Quotient(j, 1.0) == j;
    var toKg := Quotient(j, x);
    assert toKg == i * y by { assert toKg == toKg * (x * y) == (toKg * x) * y; }
    assert kilograms * (factor * (i * y)) == (factor * i) * (kilograms * y);
  }
}
