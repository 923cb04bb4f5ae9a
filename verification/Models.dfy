/** Candidates, gaps and sources (models.py), and the approval gates every consumer shares (graph.py). */
module Models {
  import opened Prelude
  import opened Units

  datatype Origin = LOCAL | EXTERNAL | PROXY

  datatype FactorKind =
    | LIFECYCLE_FACTOR | EPD_INDICATOR | EMISSION_LIMIT | COMBUSTION_FACTOR | ENERGY_FACTOR
    | TRANSPORT_FACTOR | STOICHIOMETRIC_FACTOR | DERIVED_PROXY_FACTOR | OTHER_FACTOR

  datatype GapType =
    | UNIT_SCALE_GAP | REFERENCE_FLOW_GAP | PROCESS_VARIANT_GAP | GRADE_COMPOSITION_GAP | MATERIAL_ABSENT_GAP
    | BOUNDARY_GAP | GEOGRAPHY_GAP | TEMPORAL_GAP | FORM_GAP

  datatype ResolutionType =
    | DIRECT_EXACT | DIRECT_ALIAS | UNIT_CONVERTED | REFERENCE_FLOW_CONVERTED | PROCESS_ADJUSTED
    | UNADJUSTED_PROCESS_PROXY | GRADE_INTERPOLATED | GRADE_EXACT_ANCHOR | GRADE_ADJUSTED | GRADE_PROXY
    | CLASS_TECHNICAL_PROXY | CLASS_GENERIC_PROXY

  datatype ResultTier = PRIMARY_RECOMMENDATION | USABLE_WITH_ASSUMPTIONS | REFERENCE_ONLY

  datatype ResolutionStatus =
    | RECOMMENDATION_READY | UNRESOLVED | PROCESS_MODEL_REQUIRED | SUPPLIER_DATA_REQUIRED | LOCKED_STATUS
    | ERROR_STATUS | MORE_INPUT_NEEDED | REFERENCE_REVIEW_REQUIRED

  datatype ApprovalStatus = PENDING | APPROVED | REJECTED | LOCKED

  datatype ApprovalMode = STANDARD | ASSUMPTION_ACCEPTANCE | REFERENCE_OVERRIDE

  datatype Gap = Gap(gapId: string, gapType: GapType, reason: string, severity: real)

  /** A catalogue record. Absent texts are the empty string; content stands for the fields no rule reads. */
  datatype Source = Source(
    sourceId: string,
    factorValue: real,
    factorUnit: FactorUnit,
    factorKind: FactorKind,
    indicator: string,
    productionProcess: string,
    productForm: string,
    geography: string,
    year: Option<int>,
    grade: Option<real>,
    includesProcess: bool,
    cappedAtReferenceOnly: bool,
    priorityRank: int,
    quality: real,
    content: int)

  datatype Candidate = Candidate(
    candidateId: string,
    origin: Origin,
    source: Source,
    factorValue: real,
    factorUnit: FactorUnit,
    score: real,
    processDimension: real,
    limitations: seq<string>,
    evidenceCoverage: real,
    resolutionType: ResolutionType,
    resultTier: ResultTier,
    resolutionStrength: real,
    gaps: seq<Gap>,
    steps: nat,
    assumptions: seq<string>,
    warnings: seq<string>,
    activityValue: Option<real>,
    activityUnit: Option<ActivityUnit>,
    activityDimension: Option<Dimension>,
    quantityKg: Option<real>,
    totalKg: Option<real>,
    content: int)

  /** What the Candidate constructor accepts. */
  predicate WellFormed(c: Candidate) {
    && c.factorValue >= 0.0
    && 0.0 <= c.score <= 1.0
    && 0.0 <= c.evidenceCoverage <= 1.0
    && 0.0 <= c.resolutionStrength <= 1.0
    && (c.quantityKg.Some? ==> c.quantityKg.value > 0.0)
    && (c.quantityKg.Some? && c.activityDimension.Some? ==> c.activityDimension.value == MASS)
    && (c.activityValue.Some? ==> c.activityValue.value > 0.0 && c.activityUnit.Some?)
    && (c.totalKg.Some? ==> c.totalKg.value >= 0.0)
  }

  /** next((c for c in candidates if c.candidate_id == id), None) */
  function Find(candidates: seq<Candidate>, id: string): (r: Option<Candidate>)
    ensures r.Some? ==> r.value in candidates && r.value.candidateId == id
    ensures r.None? ==> forall c :: c in candidates ==> c.candidateId != id
  {
    if candidates == [] then None
    else if candidates[0].candidateId == id then Some(candidates[0])
    else Find(candidates[1..], id)
  }

  const FORMAL_ADMISSION_INCOMPLETE := "formal_admission_incomplete:"

  predicate IncompleteNote(limitation: string) {
    FORMAL_ADMISSION_INCOMPLETE <= limitation
  }

  predicate AdmissionIncomplete(c: Candidate) {
    exists l :: l in c.limitations && IncompleteNote(l)
  }

  predicate ProcessVariantBlocked(c: Candidate) {
    || c.resolutionType == UNADJUSTED_PROCESS_PROXY
    || exists i :: 0 <= i < |c.gaps| && c.gaps[i].gapType == PROCESS_VARIANT_GAP
  }

  predicate GradeConflict(g: Gap) {
    g.gapType == GRADE_COMPOSITION_GAP
    && (Contains(g.reason, "purity grade") || Contains(g.reason, "grades use different schema"))
  }

  predicate GradeConflicted(c: Candidate) {
    exists i :: 0 <= i < |c.gaps| && GradeConflict(c.gaps[i])
  }

  /** candidate_hard_rejection_reasons(candidate) is non-empty */
  predicate HardRejected(c: Candidate) {
    ProcessVariantBlocked(c) || GradeConflicted(c)
  }

  /** candidate_is_sufficient */
  predicate Sufficient(c: Candidate) {
    !HardRejected(c) && c.resultTier != REFERENCE_ONLY
  }
}
