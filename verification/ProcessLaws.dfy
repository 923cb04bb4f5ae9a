/** What the process node makes of a candidate: when its factor is replaced, by what, at what score, and what is
    left behind when the evidence does not suffice. */
module ProcessLaws {
  import opened Prelude
  import opened Units
  import opened Models
  import opened Derivation
  import opened ProcessAdjustment
  import opened DerivationChain

  // ---- which decomposition the evidence supports ----

  /** Total energy and electricity share of both routes, the gas share of the reference route (that of the target may
      be omitted), and content and factor of both carriers. */
  predicate FullDecomposition(ps: Parameters) {
    && (forall side :: TotalEnergy(side) in ps && Share(side, ELECTRICITY) in ps) && Share(REFERENCE, NATURAL_GAS) in ps
    && (forall carrier :: EnergyContent(carrier) in ps && EmissionFactor(carrier) in ps)
  }

  lemma FullIff(ps: Parameters)
    ensures FullRequired(ps) <==> FullDecomposition(ps)
  {
    if FullRequired(ps) {
      forall side ensures TotalEnergy(side) in ps && Share(side, ELECTRICITY) in ps { assert side == REFERENCE || side == TARGET; }
      forall carrier ensures EnergyContent(carrier) in ps && EmissionFactor(carrier) in ps {
        assert carrier == ELECTRICITY || carrier == NATURAL_GAS;
      }
    }
  }

  /** The record itself or some piece of evidence says that its factor includes the reference process. */
  ghost predicate Includes(c: Candidate, evidence: seq<Evidence>) {
    c.source.includesProcess || exists e :: e in evidence && e.includesProcess
  }

  lemma IncludesIff(c: Candidate, evidence: seq<Evidence>)
    ensures IncludesProcess(c, evidence) <==> Includes(c, evidence)
  {
    if e :| e in evidence && e.includesProcess {
      var i :| 0 <= i < |evidence| && evidence[i] == e;
    }
  }

  /** The factor the evidence gives: the replaced energy if it decomposes both routes, else the delta. */
  ghost predicate Yielding(c: Candidate, evidence: seq<Evidence>, factor: real) {
    && DistinctNames(evidence)
    && var ps := Index(evidence);
       && ps.Ok?
       && if FullDecomposition(ps.value) then
            FullRequired(ps.value) && Yields(ReplaceEnergy(c.factorValue, c.factorUnit, ps.value, Includes(c, evidence)), factor)
          else
            RemovedProcess in ps.value && AddedProcess in ps.value
            && Yields(DeltaAdjust(c.factorValue, c.factorUnit, ps.value, Includes(c, evidence)), factor)
  }

  /** The score moves by a quarter for stand-ins and a fifth for others of what the process dimension lacked, up to one. */
  function RaisedScore(c: Candidate): real {
    var raised := c.score + (if c.origin == PROXY then 0.25 else 0.2) * (1.0 - c.processDimension);
    if raised < 1.0 then raised else 1.0
  }

  /** c with its process variant resolved at that factor. */
  predicate ProcessResolved(c: Candidate, r: Candidate, factor: real) {
    && r.resolutionType == PROCESS_ADJUSTED && r.factorValue == factor && r.factorUnit == c.factorUnit
    && r.processDimension == 1.0 && r.score == RaisedScore(c) && r.steps == c.steps + 1
    && r.source == c.source && r.gaps == c.gaps && r.warnings == c.warnings
  }

  /** c as an unadjusted stand-in for the process asked for. */
  predicate ProcessOpen(c: Candidate, r: Candidate) {
    && r.resolutionType == UNADJUSTED_PROCESS_PROXY && r.factorValue == c.factorValue && r.factorUnit == c.factorUnit
    && r.processDimension == c.processDimension && r.score == c.score && r.steps == c.steps
    && r.source == c.source && r.gaps == c.gaps
  }

  lemma AdjustedLaw(c: Candidate, suffix: string, factor: Result<real>, assumptions: seq<string>)
    requires Consistent(c) && WellFormed(c) && 0.0 <= c.processDimension <= 1.0 && (factor.Ok? ==> factor.value >= 0.0)
    ensures Adjusted(c, suffix, factor, assumptions).Ok? <==> factor.Ok?
    ensures factor.Ok? ==>
      && ProcessResolved(c, Adjusted(c, suffix, factor, assumptions).value, factor.value)
      && forall s :: s in assumptions ==> s in Adjusted(c, suffix, factor, assumptions).value.assumptions
  {
    if factor.Ok? {
      var d := Derived(suffix, PROCESS_ADJUSTED, Some(factor.value), 1, [], assumptions, None, None, None, None);
      DeriveAccepts(c, d);
      DeriveFrame(c, d);
      DerivedAssumptions(c, d);
      MarkLaw(c, Derive(c, d).value);
      hide Derive, Consistent, WellFormed;
    }
  }

  lemma DerivedAssumptions(c: Candidate, d: Derived)
    requires Derive(c, d).Ok?
    ensures forall s :: s in d.assumptions ==> s in Derive(c, d).value.assumptions
  {
    hide EffectiveTotal, WellFormed;
  }

  lemma MarkLaw(c: Candidate, r: Candidate)
    requires WellFormed(r) && r.score == c.score && r.origin == c.origin && r.processDimension == c.processDimension
    requires 0.0 <= c.processDimension <= 1.0
    ensures var m := MarkProcessResolved(r);
            WellFormed(m) && m == r.(processDimension := 1.0, score := RaisedScore(c))
  {
    var weight := if c.origin == PROXY then 0.25 else 0.20;
    assert weight * (1.0 - c.processDimension) >= 0.0;
  }

  lemma UnadjustedLaw(c: Candidate, evidence: seq<Evidence>)
    requires Consistent(c) && WellFormed(c)
    requires Index(evidence).Ok? && !FullRequired(Index(evidence).value) && !DeltaRequired(Index(evidence).value)
    ensures ResolveProcessVariant(c, evidence).Ok? && ProcessOpen(c, ResolveProcessVariant(c, evidence).value)
    ensures ResolveProcessVariant(c, evidence).value.warnings == c.warnings
  {
    hide Derive, Consistent, WellFormed, Index, FullRequired, DeltaRequired;
    var d := Derived(":unadjusted-process-proxy", UNADJUSTED_PROCESS_PROXY, None, 0,
      ["no supported process decomposition; source factor is unchanged"],
      ["reference process is used as an unadjusted proxy"], None, None, None, None);
    DeriveAccepts(c, d);
    DeriveFrame(c, d);
  }

  /** What resolving with that evidence comes to. */
  lemma VariantLaw(c: Candidate, evidence: seq<Evidence>)
    requires Consistent(c) && WellFormed(c) && 0.0 <= c.processDimension <= 1.0
    ensures var r := ResolveProcessVariant(c, evidence);
            && (r.Ok? && r.value.resolutionType == PROCESS_ADJUSTED <==> exists f :: Yielding(c, evidence, f))
            && (forall f :: Yielding(c, evidence, f) ==> r.Ok? && ProcessResolved(c, r.value, f))
            && (r.Ok? && !(exists f :: Yielding(c, evidence, f)) ==> ProcessOpen(c, r.value) && r.value.warnings == c.warnings)
  {
    hide Consistent, WellFormed, Adjusted, ReplaceEnergy, DeltaAdjust, Index, IncludesProcess, Includes, FullRequired, FullDecomposition,
         PolicyAssumptions, ProcessResolved, ProcessOpen, ResolveProcessVariant, DistinctNames;
    IndexedIffDistinct(evidence);
    IncludesIff(c, evidence);
    if Index(evidence).Ok? {
      var ps, includes := Index(evidence).value, IncludesProcess(c, evidence);
      FullIff(ps);
      if FullRequired(ps) {
        var factor := ReplaceEnergy(c.factorValue, c.factorUnit, ps, includes);
        if factor.Ok? { ReplacementKeepsSign(c.factorValue, c.factorUnit, ps, includes); }
        FullRouteResolution(c, evidence);
        AdjustedLaw(c, ":process-adjusted", factor, REPLACEMENT_ASSUMPTIONS + PolicyAssumptions(evidence));
        YieldingIff(c, evidence, factor);
      } else if DeltaRequired(ps) {
        var factor := DeltaAdjust(c.factorValue, c.factorUnit, ps, includes);
        if factor.Ok? { DeltaKeepsSign(c.factorValue, c.factorUnit, ps, includes); }
        DeltaRouteResolution(c, evidence);
        AdjustedLaw(c, ":process-delta", factor, ["unadjusted contributions are shared between process variants"]);
        YieldingIff(c, evidence, factor);
      } else {
        UnadjustedLaw(c, evidence);
        OpenIsNotAdjusted(c, ResolveProcessVariant(c, evidence).value);
      }
    } else {
      RefusedIndex(c, evidence);
    }
    ResolvedIsAdjusted(c);
  }

  lemma RefusedIndex(c: Candidate, evidence: seq<Evidence>)
    requires Index(evidence).Err?
    ensures ResolveProcessVariant(c, evidence).Err?
  {}

  lemma OpenIsNotAdjusted(c: Candidate, r: Candidate)
    requires ProcessOpen(c, r)
    ensures r.resolutionType != PROCESS_ADJUSTED
  {}

  lemma ResolvedIsAdjusted(c: Candidate)
    ensures forall r, f :: ProcessResolved(c, r, f) ==> r.resolutionType == PROCESS_ADJUSTED
  {}

  lemma YieldingIff(c: Candidate, evidence: seq<Evidence>, factor: Result<real>)
    requires DistinctNames(evidence) && Index(evidence).Ok? && (FullRequired(Index(evidence).value) <==> FullDecomposition(Index(evidence).value))
    requires FullRequired(Index(evidence).value) || DeltaRequired(Index(evidence).value)
    requires factor == if FullRequired(Index(evidence).value)
                       then ReplaceEnergy(c.factorValue, c.factorUnit, Index(evidence).value, Includes(c, evidence))
                       else DeltaAdjust(c.factorValue, c.factorUnit, Index(evidence).value, Includes(c, evidence))
    ensures forall f :: Yielding(c, evidence, f) <==> factor.Ok? && factor.value == f
    ensures factor.Ok? ==> Yielding(c, evidence, factor.value)
  {
    hide Index, FullRequired, FullDecomposition, ReplaceEnergy, DeltaAdjust, Includes, DistinctNames;
  }

  /** The process node always answers. The process is resolved exactly when the evidence gives a factor, and then with
      that factor; otherwise factor and score stay, and refused evidence leaves one warning. */
  lemma NodeLaw(c: Candidate, evidence: seq<Evidence>)
    requires Consistent(c) && WellFormed(c) && 0.0 <= c.processDimension <= 1.0
    ensures ProcessNode(c, evidence).Ok?
    ensures var r := ProcessNode(c, evidence).value;
            && (r.resolutionType == PROCESS_ADJUSTED <==> exists f :: Yielding(c, evidence, f))
            && (forall f :: Yielding(c, evidence, f) ==> ProcessResolved(c, r, f))
            && (r.resolutionType != PROCESS_ADJUSTED ==>
                && ProcessOpen(c, r)
                && (ResolveProcessVariant(c, evidence).Ok? ==> r.warnings == c.warnings)
                && (ResolveProcessVariant(c, evidence).Err? ==>
                    r.warnings == c.warnings + [ResolveProcessVariant(c, evidence).error.what]))
  {
    hide Consistent, WellFormed, ResolveProcessVariant, Yielding;
    VariantLaw(c, evidence);
    NoEvidence();
    UnadjustedLaw(c, []);
  }

  lemma NoEvidence()
    ensures Index([]) == Ok(map[]) && !FullRequired(map[]) && !DeltaRequired(map[])
  {}
}
