/** What the derivation arithmetic amounts to on the values of units, records and candidates: every law is stated with
    products and ratios, without the conversion functions it is about. */
module DerivationLaws {
  import opened Prelude
  import opened Units
  import opened Models
  import opened Derivation

  // ---- conversions ----

  predicate VolumesApart(a: ActivityUnit, b: ActivityUnit) {
    a.dimension == VOLUME && a.conditioned != b.conditioned
  }

  /** A converted quantity is the same amount in base units; only normal and plain volumes need evidence. */
  lemma ActivityLaw(v: real, a: ActivityUnit, b: ActivityUnit)
    ensures ConvertActivity(v, a, b).Ok? <==> a.dimension == b.dimension && (a == b || !VolumesApart(a, b))
    ensures ConvertActivity(v, a, b).Ok? ==> ConvertActivity(v, a, b).value * b.ratio == v * a.ratio
  {
    if ActivityMultiplier(a, b).Ok? {
      var m := ActivityMultiplier(a, b).value;
      assert m * b.ratio == a.ratio;
      assert (v * m) * b.ratio == v * (m * b.ratio);
    }
  }

  /** A converted factor emits the same per base unit of activity. */
  lemma FactorLaw(v: real, a: FactorUnit, b: FactorUnit)
    ensures ConvertFactor(v, a, b).Ok? <==>
      a.activity.dimension == b.activity.dimension && (a.activity == b.activity || !VolumesApart(a.activity, b.activity))
    ensures ConvertFactor(v, a, b).Ok? ==>
      (ConvertFactor(v, a, b).value * b.impact) * a.activity.ratio == (v * a.impact) * b.activity.ratio
  {
    if ActivityMultiplier(a.activity, b.activity).Ok? {
      var m := ActivityMultiplier(a.activity, b.activity).value;
      var q := Quotient(a.impact, b.impact);
      var f := Quotient(q, m);
      assert m * b.activity.ratio == a.activity.ratio;
      FactorScales(v, f, q, m, a.impact, b.impact, a.activity.ratio, b.activity.ratio);
    }
  }

  lemma FactorScales(v: real, f: real, q: real, m: real, ai: real, bi: real, ar: real, br: real)
    requires q * bi == ai && f * m == q && m * br == ar
    ensures ((v * f) * bi) * ar == (v * ai) * br
  {
    assert ((v * f) * bi) * (m * br) == (v * (f * m) * bi) * br;
    assert (v * q) * bi == v * (q * bi);
  }

  /** Evidence relates a normal and a plain volume in its own direction only, and changes no other conversion. */
  lemma EvidenceLaw(a: ActivityUnit, b: ActivityUnit, evidence: Option<ConversionEvidence>)
    ensures a.dimension == b.dimension && a != b && VolumesApart(a, b) ==>
      ActivityMultiplierWith(a, b, evidence) ==
        (if evidence.None? then Err(ValueError("UNIT_CONVERSION_EVIDENCE_REQUIRED"))
         else if (evidence.value.from, evidence.value.to) == (a, b) then Ok(evidence.value.multiplier)
         else Err(ValueError("unit conversion evidence direction does not match")))
    ensures !(a.dimension == b.dimension && a != b && VolumesApart(a, b)) ==>
      ActivityMultiplierWith(a, b, evidence) == ActivityMultiplier(a, b)
  {}

  // ---- totals ----

  /** Applying a factor to its own denominator multiplies factor, impact and activity; nothing else is accepted. */
  lemma ApplicationLaw(factor: real, unit: FactorUnit, activity: real, activityUnit: ActivityUnit)
    ensures ApplicationTotal(factor, unit, activity, activityUnit).Ok? <==> activityUnit == unit.activity
    ensures activityUnit == unit.activity ==>
      ApplicationTotal(factor, unit, activity, activityUnit).value == factor * unit.impact * activity
  {
    hide ConvertFactor;
    FactorLaw(factor, unit, FactorUnit(1.0, unit.activity));
    if activityUnit == unit.activity {
      var f := ConvertFactor(factor, unit, FactorUnit(1.0, unit.activity)).value;
      CancelPositive(f * 1.0, factor * unit.impact, unit.activity.ratio);
      assert f == factor * unit.impact;
      SameProduct(f, factor * unit.impact, activity);
      assert ApplicationTotal(factor, unit, activity, activityUnit).value == f * activity;
    }
  }

  lemma SameProduct(x: real, y: real, z: real)
    requires x == y
    ensures x * z == y * z
  {}

  /** A total from kilograms needs a mass factor, and counts the kilograms in the factor's denominator. */
  lemma MassLaw(factor: real, unit: FactorUnit, kilograms: real)
    ensures MassTotal(factor, unit, kilograms).Ok? <==> unit.activity.dimension == MASS
    ensures MassTotal(factor, unit, kilograms).Ok? ==>
      MassTotal(factor, unit, kilograms).value * unit.activity.ratio == factor * unit.impact * kilograms
  {
    FactorLaw(factor, unit, KGCO2E_PER_KG);
    if unit.activity.dimension == MASS {
      var f := ConvertFactor(factor, unit, KGCO2E_PER_KG).value;
      assert f * unit.activity.ratio == factor * unit.impact;
      assert (f * kilograms) * unit.activity.ratio == (f * unit.activity.ratio) * kilograms;
    }
  }

  /** A fresh candidate's total is the record's factor times the requested quantity, brought to one denominator. */
  lemma FreshLaw(a: Activity, source: Source, c: Candidate)
    requires FreshCandidate(a, source, c)
    ensures c.activityValue.Some? ==>
      && c.factorUnit == a.target && c.activityUnit == Some(a.target.activity) && c.totalKg.Some?
      && ActivityMultiplierWith(source.factorUnit.activity, a.target.activity, a.evidence).Ok?
      && ActivityMultiplierWith(a.unit, a.target.activity, a.evidence).Ok?
      && c.activityValue.value == a.quantity * ActivityMultiplierWith(a.unit, a.target.activity, a.evidence).value
      && c.totalKg.value * ActivityMultiplierWith(source.factorUnit.activity, a.target.activity, a.evidence).value
         == source.factorValue * source.factorUnit.impact * c.activityValue.value
    ensures c.activityValue.None? ==>
      && c.factorValue == source.factorValue && c.factorUnit == source.factorUnit && source.factorUnit.activity.dimension == MASS
      && c.totalKg.None? && a.targetDerived && (a.unit.dimension == COUNT || (a.unit.dimension == VOLUME && a.hasProductForm))
      && a.target.activity.dimension != MASS
    ensures c.source == source && c.activityDimension == Some(a.unit.dimension)
    ensures c.quantityKg.Some? <==> a.unit.dimension == MASS
    ensures c.quantityKg.Some? ==> c.quantityKg.value == a.quantity * a.unit.ratio
  {
    hide ActivityMultiplierWith, ApplicationTotal, ConvertActivity;
    ActivityLaw(a.quantity, a.unit, KG);
    if c.activityValue.Some? {
      var f := ActivityMultiplierWith(source.factorUnit.activity, a.target.activity, a.evidence).value;
      var q := Quotient(source.factorUnit.impact, a.target.impact);
      var g := Quotient(q, f);
      ApplicationLaw(c.factorValue, a.target, c.activityValue.value, a.target.activity);
      FreshScales(source.factorValue, g, q, f, source.factorUnit.impact, a.target.impact, c.activityValue.value);
    }
  }

  lemma FreshScales(s: real, g: real, q: real, f: real, si: real, ti: real, v: real)
    requires q * ti == si && g * f == q
    ensures ((s * g) * ti * v) * f == s * si * v
  {
    assert ((s * g) * ti * v) * f == s * ((g * f) * ti) * v;
  }

  /** Without conditioned volumes that is the same amount of activity in base units. */
  lemma FreshBaseLaw(a: Activity, source: Source, c: Candidate)
    requires FreshCandidate(a, source, c) && c.activityValue.Some?
    requires !VolumesApart(source.factorUnit.activity, a.target.activity) && !VolumesApart(a.unit, a.target.activity)
    ensures c.totalKg.value * source.factorUnit.activity.ratio == source.factorValue * source.factorUnit.impact * (a.quantity * a.unit.ratio)
  {
    hide ActivityMultiplierWith, ActivityMultiplier, FreshCandidate;
    FreshLaw(a, source, c);
    EvidenceLaw(source.factorUnit.activity, a.target.activity, a.evidence);
    EvidenceLaw(a.unit, a.target.activity, a.evidence);
    MultiplierRatio(source.factorUnit.activity, a.target.activity);
    MultiplierRatio(a.unit, a.target.activity);
    var f, m := ActivityMultiplier(source.factorUnit.activity, a.target.activity).value, ActivityMultiplier(a.unit, a.target.activity).value;
    BaseScales(c.totalKg.value, f, source.factorValue * source.factorUnit.impact, a.quantity, m, a.target.activity.ratio,
      source.factorUnit.activity.ratio, a.unit.ratio);
  }

  lemma MultiplierRatio(a: ActivityUnit, b: ActivityUnit)
    ensures ActivityMultiplier(a, b).Ok? ==> ActivityMultiplier(a, b).value * b.ratio == a.ratio
  {}

  lemma BaseScales(total: real, f: real, emission: real, quantity: real, m: real, r: real, fr: real, mr: real)
    requires total * f == emission * (quantity * m) && f * r == fr && m * r == mr
    ensures total * fr == emission * (quantity * mr)
  {
    assert total * (f * r) == (total * f) * r;
    assert emission * (quantity * m) * r == emission * (quantity * (m * r));
  }

  // ---- the check of lock ----

  /** x is within a relative tolerance of a billionth, or within an absolute one of a billionth. */
  predicate Near(x: real, y: real) {
    -0.000000001 <= x - y <= 0.000000001 || -Abs(y) * 0.000000001 <= x - y <= Abs(y) * 0.000000001
  }

  /** The kilograms, if stated beside an activity, are that activity. */
  predicate KilogramsAgree(c: Candidate) {
    c.quantityKg.Some? && c.activityValue.Some? && c.activityUnit.Some? ==>
      && c.factorUnit.activity.dimension == MASS && c.activityUnit.value.dimension == MASS
      && var kg := c.activityValue.value * c.activityUnit.value.ratio;
         -Abs(kg) * 0.000000001 <= c.quantityKg.value - kg <= Abs(kg) * 0.000000001
  }

  /** What an amount, counted in the factor's own denominator, emits. */
  function Emitted(c: Candidate, amount: real): real {
    c.factorValue * c.factorUnit.impact * amount
  }

  /** The total, if the candidate can be applied at all, is the application. */
  predicate TotalAgrees(c: Candidate) {
    if c.activityValue.Some? then
      && c.activityUnit == Some(c.factorUnit.activity) && c.totalKg.Some?
      && Near(c.totalKg.value, Emitted(c, c.activityValue.value))
    else if c.quantityKg.Some? then
      && c.factorUnit.activity.dimension == MASS && c.totalKg.Some?
      && Near(c.totalKg.value, Quotient(Emitted(c, c.quantityKg.value), c.factorUnit.activity.ratio))
    else true
  }

  lemma KilogramsIff(c: Candidate)
    ensures ValidateMass(c).Ok? <==> KilogramsAgree(c)
  {
    if c.quantityKg.Some? && c.activityValue.Some? && c.activityUnit.Some? {
      ActivityLaw(c.activityValue.value, c.activityUnit.value, KG);
      hide ConvertActivity;
    }
  }

  lemma NearIff(x: real, y: real)
    ensures Near(x, y) <==> Abs(x - y) <= Max(0.000000001, Abs(y) * 0.000000001)
  {}

  lemma MassQuotient(c: Candidate, total: real)
    requires c.quantityKg.Some? && total * c.factorUnit.activity.ratio == Emitted(c, c.quantityKg.value)
    ensures total == Quotient(Emitted(c, c.quantityKg.value), c.factorUnit.activity.ratio)
  {
    var e := Emitted(c, c.quantityKg.value);
    CancelPositive(total, Quotient(e, c.factorUnit.activity.ratio), c.factorUnit.activity.ratio);
  }

  lemma MassTotalIff(c: Candidate)
    requires c.activityValue.None? && c.quantityKg.Some? && ValidateMass(c).Ok?
    ensures LockTotalCheck(c).Ok? <==> TotalAgrees(c)
  {
    hide MassTotal, ApplicationTotal, ValidateMass, Near, Quotient, Abs, Max;
    MassLaw(c.factorValue, c.factorUnit, c.quantityKg.value);
    if c.factorUnit.activity.dimension == MASS {
      var total := MassTotal(c.factorValue, c.factorUnit, c.quantityKg.value).value;
      MassQuotient(c, total);
      if c.totalKg.Some? { NearIff(c.totalKg.value, total); }
    }
  }

  lemma AppliedTotalIff(c: Candidate)
    requires c.activityValue.Some? && ValidateMass(c).Ok?
    ensures LockTotalCheck(c).Ok? <==> TotalAgrees(c)
  {
    hide MassTotal, ApplicationTotal, ValidateMass, Near, Abs, Max, Emitted;
    if c.activityUnit == Some(c.factorUnit.activity) {
      AppliedTotal(c);
      if c.totalKg.Some? { NearIff(c.totalKg.value, Emitted(c, c.activityValue.value)); }
    } else if c.activityUnit.Some? {
      ApplicationLaw(c.factorValue, c.factorUnit, c.activityValue.value, c.activityUnit.value);
    }
  }

  lemma AppliedTotal(c: Candidate)
    requires c.activityValue.Some?
    ensures var total := ApplicationTotal(c.factorValue, c.factorUnit, c.activityValue.value, c.factorUnit.activity);
            total.Ok? && total.value == Emitted(c, c.activityValue.value)
  {
    ApplicationLaw(c.factorValue, c.factorUnit, c.activityValue.value, c.factorUnit.activity);
  }

  /** lock accepts a total exactly when kilograms and total agree with what the factor gives. */
  lemma LockTotalIff(c: Candidate)
    ensures LockTotalCheck(c).Ok? <==> KilogramsAgree(c) && TotalAgrees(c)
  {
    hide ApplicationTotal, MassTotal, ValidateMass, KilogramsAgree;
    KilogramsIff(c);
    if ValidateMass(c).Ok? {
      hide LockTotalCheck, TotalAgrees;
      if c.activityValue.Some? { AppliedTotalIff(c); }
      else if c.quantityKg.Some? { MassTotalIff(c); }
      else { NothingToCheck(c); }
    }
  }

  lemma NothingToCheck(c: Candidate)
    requires c.activityValue.None? && c.quantityKg.None?
    ensures LockTotalCheck(c).Ok? && TotalAgrees(c)
  {}

  // ---- tiers and strength ----

  predicate FormalCarbonFactor(s: Source) {
    && (s.factorKind == LIFECYCLE_FACTOR || s.factorKind == EPD_INDICATOR || s.factorKind == DERIVED_PROXY_FACTOR
        || s.factorKind == ENERGY_FACTOR || s.factorKind == COMBUSTION_FACTOR || s.factorKind == TRANSPORT_FACTOR)
    && (s.indicator == "GWP-total" || s.indicator == "gwp-total")
  }

  /** Formal admission is incomplete if some limitation says so, whatever it goes on to say. */
  lemma IncompleteIff(c: Candidate)
    ensures AdmissionIncomplete(c) <==> exists l, reason: string :: l in c.limitations && l == "formal_admission_incomplete:" + reason
  {
    var prefix := "formal_admission_incomplete:";
    if AdmissionIncomplete(c) {
      var l :| l in c.limitations && IncompleteNote(l);
      assert l == prefix + l[|prefix|..];
    }
    if l, reason: string :| l in c.limitations && l == prefix + reason { assert IncompleteNote(l); }
  }

  predicate DirectType(t: ResolutionType) {
    t == DIRECT_EXACT || t == DIRECT_ALIAS || t == UNIT_CONVERTED
  }

  /** A candidate is recommended outright only for a formal carbon factor with complete admission that is an exact
      grade anchor, or direct and without a serious gap. */
  lemma PrimaryIff(c: Candidate)
    ensures TierFor(c) == PRIMARY_RECOMMENDATION <==>
      && !AdmissionIncomplete(c) && FormalCarbonFactor(c.source)
      && (c.resolutionType == GRADE_EXACT_ANCHOR || (DirectType(c.resolutionType) && forall g :: g in c.gaps ==> g.severity < 0.5))
  {
    if exists i :: 0 <= i < |c.gaps| && c.gaps[i].severity >= 0.5 {
      var i :| 0 <= i < |c.gaps| && c.gaps[i].severity >= 0.5;
      assert c.gaps[i] in c.gaps;
    }
  }

  /** It is usable with assumptions only if it was derived with evidence, is a technical class proxy, or is direct with
      a serious gap; everything else is for reference. */
  lemma UsableIff(c: Candidate)
    ensures TierFor(c) == USABLE_WITH_ASSUMPTIONS <==>
      && !AdmissionIncomplete(c) && FormalCarbonFactor(c.source)
      && (c.resolutionType in {REFERENCE_FLOW_CONVERTED, PROCESS_ADJUSTED, GRADE_INTERPOLATED, GRADE_ADJUSTED, CLASS_TECHNICAL_PROXY}
          || (DirectType(c.resolutionType) && exists g :: g in c.gaps && g.severity >= 0.5))
  {
    if g :| g in c.gaps && g.severity >= 0.5 {
      var i :| 0 <= i < |c.gaps| && c.gaps[i] == g;
    }
    if exists i :: 0 <= i < |c.gaps| && c.gaps[i].severity >= 0.5 {
      var i :| 0 <= i < |c.gaps| && c.gaps[i].severity >= 0.5;
      assert c.gaps[i] in c.gaps;
    }
  }

  /** Re-tiering lowers a tier below the minimum score and under a governance cap, and does nothing else. */
  lemma FinalizeMeans(c: Candidate, minScore: Option<real>)
    ensures var r := Finalize(c, minScore);
            && r.resultTier == (if c.source.cappedAtReferenceOnly || (minScore.Some? && c.score < minScore.value) then REFERENCE_ONLY else TierFor(c))
            && (forall l :: l in r.limitations <==> l in c.limitations || (c.source.cappedAtReferenceOnly && l == TIER_CAP_NOTE))
            && (!c.source.cappedAtReferenceOnly ==> r.limitations == c.limitations)
  {
    hide TierFor, Strength;
  }

  function Clamped(x: real): real {
    if x < 0.0 then 0.0 else if x > 1.0 then 1.0 else x
  }

  /** The strength in hundredths: 45 points for the score, 30 for coverage, 15 for the source, up to 10 for a short
      derivation, minus 5 per unit of gap severity up to 25. */
  lemma StrengthLaw(c: Candidate)
    ensures var derivation := 10.0 - 1.2 * c.steps as real - 0.6 * |c.assumptions| as real;
            var severity := SeveritySum(c.gaps);
            Strength(c) == Clamped((45.0 * c.score + 30.0 * c.evidenceCoverage + 15.0 * c.source.quality
                                    + (if derivation < 0.0 then 0.0 else derivation)
                                    - (if 5.0 * severity < 25.0 then 5.0 * severity else 25.0)) / 100.0)
  {}

  lemma {:induction false} SeverityAdds(gaps: seq<Gap>, g: Gap)
    ensures SeveritySum(gaps + [g]) == SeveritySum(gaps) + g.severity
  {
    if gaps == [] {
      assert [] + [g] == [g] && [g][1..] == [];
    } else {
      assert (gaps + [g])[1..] == gaps[1..] + [g];
      SeverityAdds(gaps[1..], g);
    }
  }

  // ---- unit scaling ----

  /** Scaling records how many of the two units differ from the candidate's, marks a direct candidate as converted,
      and leaves every number alone. */
  lemma UnitScaleMeans(a: Activity, c: Candidate)
    requires ResolveUnitScale(a, c).Ok?
    ensures var r := ResolveUnitScale(a, c).value;
            var steps := (if a.unit != c.factorUnit.activity then 1 else 0) + (if c.source.factorUnit != c.factorUnit then 1 else 0);
            && r.factorValue == c.factorValue && r.factorUnit == c.factorUnit && r.activityValue == c.activityValue
            && r.quantityKg == c.quantityKg && (c.totalKg.Some? ==> r.totalKg == c.totalKg) && r.source == c.source && r.gaps == c.gaps
            && (a.unit.dimension != c.factorUnit.activity.dimension || steps == 0 ==> r == c)
            && (a.unit.dimension == c.factorUnit.activity.dimension && steps > 0 ==>
                && r.steps == c.steps + steps && r.candidateId == c.candidateId + ":unit-converted"
                && r.resolutionType == (if DirectType(c.resolutionType) then UNIT_CONVERTED else c.resolutionType))
  {
    if ResolveUnitScale(a, c).value != c {
      var activityStep := if a.unit != c.factorUnit.activity then 1 else 0;
      var factorStep := if c.source.factorUnit != c.factorUnit then 1 else 0;
      DeriveFrame(c, Derived(":unit-converted",
        if c.resolutionType in {DIRECT_EXACT, DIRECT_ALIAS, UNIT_CONVERTED} then UNIT_CONVERTED else c.resolutionType,
        None, activityStep + factorStep, [], [], None, None, None, c.totalKg));
      hide ActivityMultiplierWith;
    }
  }

  // ---- the gates of a candidate ----

  /** What can never be overridden: an unadjusted process, an open process gap, a grade conflict. */
  lemma HardRejectedIff(c: Candidate)
    ensures HardRejected(c) <==>
      || c.resolutionType == UNADJUSTED_PROCESS_PROXY
      || (exists g :: g in c.gaps && g.gapType == PROCESS_VARIANT_GAP)
      || (exists g :: g in c.gaps && g.gapType == GRADE_COMPOSITION_GAP
                      && (Contains(g.reason, "purity grade") || Contains(g.reason, "grades use different schema")))
  {
    if ProcessVariantBlocked(c) && c.resolutionType != UNADJUSTED_PROCESS_PROXY {
      var i :| 0 <= i < |c.gaps| && c.gaps[i].gapType == PROCESS_VARIANT_GAP;
      assert c.gaps[i] in c.gaps;
    }
    if GradeConflicted(c) {
      var i :| 0 <= i < |c.gaps| && GradeConflict(c.gaps[i]);
      assert c.gaps[i] in c.gaps;
    }
    if g :| g in c.gaps && (g.gapType == PROCESS_VARIANT_GAP || GradeConflict(g)) {
      var i :| 0 <= i < |c.gaps| && c.gaps[i] == g;
    }
    hide Contains;
  }
}
