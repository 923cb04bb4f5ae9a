/** What a finished graph recommends (TopKNode of nodes.py). */
module TopK {
  import opened Prelude
  import opened Models
  import opened Ranking
  import opened Units
  import Derivation

  datatype UnitCode = UNIT_SYNTAX_UNSUPPORTED | CATALOG_FACTOR_UNIT_INVALID | UNIT_DIMENSION_MISMATCH | UNIT_CONVERSION_EVIDENCE_REQUIRED

  /** The attributes whose absence from the request can leave several records in play. */
  datatype Field = PRODUCTION_PROCESS | PRODUCT_FORM | GEOGRAPHY | YEAR
  datatype Value = Text(text: string) | Year(year: int)
  type Decisive = map<Field, Value>

  const FIELDS := [PRODUCTION_PROCESS, PRODUCT_FORM, GEOGRAPHY, YEAR]

  function FieldName(f: Field): string {
    match f
    case PRODUCTION_PROCESS => "production_process"
    case PRODUCT_FORM => "product_form"
    case GEOGRAPHY => "geography"
    case YEAR => "year"
  }

  /** The graph state the node reads; unit codes of records come from their qualification. */
  datatype Inputs = Inputs(
    ranked: seq<Candidate>,
    topK: nat,
    requestGaps: seq<string>,
    requiredFields: seq<string>,
    requestUnitCodes: set<UnitCode>,
    recordUnitCodes: set<UnitCode>,
    conflictingExternalId: bool,
    admissionRejected: bool,
    decisive: Decisive)

  datatype Selection = Selection(
    status: ResolutionStatus,
    candidates: seq<Candidate>,
    reviewable: seq<Candidate>,
    diagnostics: seq<Candidate>,
    requiredFields: seq<string>)

  predicate Reviewable(c: Candidate) {
    !HardRejected(c) && c.resultTier == REFERENCE_ONLY
  }

  // ---- ambiguity ----

  function TextValue(s: string): Option<Value> {
    if s == "" then None else Some(Text(s))
  }

  function SourceValue(s: Source, f: Field): Option<Value> {
    match f
    case PRODUCTION_PROCESS => TextValue(s.productionProcess)
    case PRODUCT_FORM => TextValue(s.productForm)
    case GEOGRAPHY => TextValue(s.geography)
    case YEAR => if s.year.Some? then Some(Year(s.year.value)) else None
  }

  /** The request leaves f open and the candidates disagree about it. */
  predicate Ambiguous(cs: seq<Candidate>, decisive: Decisive, f: Field) {
    f !in decisive && exists i, j :: 0 <= i < j < |cs| && Disagree(cs[i].source, cs[j].source, f)
  }

  predicate Disagree(s: Source, t: Source, f: Field) {
    SourceValue(s, f).Some? && SourceValue(t, f).Some? && SourceValue(s, f) != SourceValue(t, f)
  }

  function AmbiguousFields(cs: seq<Candidate>, decisive: Decisive): seq<string> {
    var open := Filter(FIELDS, (f: Field) => Ambiguous(cs, decisive, f));
    seq(|open|, i requires 0 <= i < |open| => FieldName(open[i]))
  }

  const AMBIGUITY_NOTE := "candidate requires a decisive request attribute before selection"

  /** replace(candidate, result_tier=REFERENCE_ONLY, limitations=...) */
  function Capped(c: Candidate, note: string): Candidate {
    c.(resultTier := REFERENCE_ONLY, limitations := Dedup(c.limitations + [note]))
  }

  function CapAll(cs: seq<Candidate>, note: string): (r: seq<Candidate>)
    ensures |r| == |cs|
    ensures forall i :: 0 <= i < |r| ==> r[i] == Capped(cs[i], note)
  {
    seq(|cs|, i requires 0 <= i < |cs| => Capped(cs[i], note))
  }

  // ---- the decision ----

  function Eligible(x: Inputs): seq<Candidate> {
    Filter(x.ranked, Sufficient)
  }

  function ReviewableOf(x: Inputs): seq<Candidate> {
    Filter(x.ranked, Reviewable)
  }

  function Ambiguities(x: Inputs): seq<string> {
    if x.requestGaps != [] then [] else AmbiguousFields(Eligible(x) + ReviewableOf(x), x.decisive)
  }

  function Codes(x: Inputs): set<UnitCode> {
    x.requestUnitCodes + x.recordUnitCodes
  }

  /** required_fields as the node leaves it. */
  function Required(x: Inputs): seq<string> {
    var evidence := if UNIT_CONVERSION_EVIDENCE_REQUIRED in Codes(x) then Dedup(x.requiredFields + ["unit_conversion_evidence"]) else x.requiredFields;
    if Ambiguities(x) != [] then Dedup(evidence + Ambiguities(x)) else evidence
  }

  function Selectable(x: Inputs): seq<Candidate> {
    if Ambiguities(x) != [] || x.requestGaps != [] || x.requestUnitCodes != {} then [] else Eligible(x)
  }

  function ForReview(x: Inputs): seq<Candidate> {
    if x.requestUnitCodes != {} then []
    else if Ambiguities(x) != [] then CapAll(Eligible(x) + ReviewableOf(x), AMBIGUITY_NOTE)
    else ReviewableOf(x)
  }

  function OpenStatus(x: Inputs, reviewable: seq<Candidate>): ResolutionStatus {
    var codes := Codes(x);
    if UNIT_CONVERSION_EVIDENCE_REQUIRED in codes then MORE_INPUT_NEEDED
    else if UNIT_SYNTAX_UNSUPPORTED in codes || UNIT_DIMENSION_MISMATCH in codes then UNRESOLVED
    else if CATALOG_FACTOR_UNIT_INVALID in codes then UNRESOLVED
    else if x.conflictingExternalId then UNRESOLVED
    else if Required(x) != [] then MORE_INPUT_NEEDED
    else if reviewable != [] then REFERENCE_REVIEW_REQUIRED
    else if exists c :: c in x.ranked && ProcessVariantBlocked(c) then PROCESS_MODEL_REQUIRED
    else if exists c :: c in x.ranked && GradeConflicted(c) then UNRESOLVED
    else if x.admissionRejected then UNRESOLVED
    else SUPPLIER_DATA_REQUIRED
  }

  /** TopKNode.run */
  function Select(x: Inputs): Selection {
    var selected, reviewable := Selectable(x), Take(ForReview(x), x.topK);
    var diagnostics := Take(Filter(x.ranked, HardRejected), x.topK);
    if selected != [] then Selection(RECOMMENDATION_READY, Take(selected, x.topK), reviewable, diagnostics, Required(x))
    else Selection(OpenStatus(x, reviewable), [], reviewable, diagnostics, Required(x))
  }

  // ---- what may be selected at all ----

  /** An incomplete request ends without a selection and with a status approve refuses. */
  lemma IncompleteNeverSelectable(x: Inputs)
    requires x.requestGaps != [] && x.requiredFields != []
    ensures Select(x).candidates == []
    ensures Select(x).status == MORE_INPUT_NEEDED || Select(x).status == UNRESOLVED
  {
    assert x.requiredFields[0] in x.requiredFields + ["unit_conversion_evidence"];
    assert Ambiguities(x) == [];
    assert Required(x) != [];
  }

  /** The status says exactly which lists a reviewer may choose from. */
  lemma StatusMeansLists(x: Inputs)
    requires x.topK > 0
    ensures Select(x).status == RECOMMENDATION_READY <==> Select(x).candidates != []
    ensures Select(x).status == REFERENCE_REVIEW_REQUIRED ==> Select(x).candidates == [] && Select(x).reviewable != [] && Select(x).requiredFields == []
  {}

  /** Each list passes its own gate. */
  lemma ListsPassGates(x: Inputs)
    ensures forall c :: c in Select(x).candidates ==> Sufficient(c) && c in x.ranked
    ensures forall c :: c in Select(x).reviewable ==> !HardRejected(c) && c.resultTier == REFERENCE_ONLY
    ensures forall c :: c in Select(x).diagnostics ==> HardRejected(c) && c in x.ranked
  {
    var e, r := Eligible(x), ReviewableOf(x);
    forall i | 0 <= i < |CapAll(e + r, AMBIGUITY_NOTE)|
      ensures !HardRejected(CapAll(e + r, AMBIGUITY_NOTE)[i])
    {
      assert (e + r)[i] in e || (e + r)[i] in r;
      CappedKeepsGates((e + r)[i], AMBIGUITY_NOTE);
    }
  }

  lemma CappedKeepsGates(c: Candidate, note: string)
    ensures HardRejected(Capped(c, note)) == HardRejected(c)
    ensures Capped(c, note).candidateId == c.candidateId
  {}

  /** Where a reviewed candidate comes from. */
  lemma ReviewableOrigin(x: Inputs, c: Candidate)
    requires c in Select(x).reviewable
    ensures exists d :: d in x.ranked && !HardRejected(d) && c.candidateId == d.candidateId && (c == d || c == Capped(d, AMBIGUITY_NOTE))
  {
    var e, r := Eligible(x), ReviewableOf(x);
    if Ambiguities(x) != [] {
      var capped := CapAll(e + r, AMBIGUITY_NOTE);
      var i :| 0 <= i < |capped| && capped[i] == c;
      assert (e + r)[i] in e || (e + r)[i] in r;
    }
  }

  predicate DisjointIds(xs: seq<Candidate>, ys: seq<Candidate>) {
    forall c, d :: c in xs && d in ys ==> c.candidateId != d.candidateId
  }

  /** No candidate is offered in two lists. */
  lemma ListsDisjoint(x: Inputs)
    requires DistinctIds(x.ranked)
    ensures DisjointIds(Select(x).candidates, Select(x).reviewable)
    ensures DisjointIds(Select(x).candidates, Select(x).diagnostics)
    ensures DisjointIds(Select(x).reviewable, Select(x).diagnostics)
  {
    ListsPassGates(x);
    hide HardRejected, OpenStatus, Required, Select, AmbiguousFields;
    forall c, d | c in Select(x).candidates && d in Select(x).diagnostics ensures c.candidateId != d.candidateId {
      if c.candidateId == d.candidateId { OneOfEachId(x.ranked, c, d); }
    }
    forall c, d | c in Select(x).reviewable && d in Select(x).diagnostics ensures c.candidateId != d.candidateId {
      ReviewableOrigin(x, c);
      var o :| o in x.ranked && !HardRejected(o) && c.candidateId == o.candidateId;
      if c.candidateId == d.candidateId { OneOfEachId(x.ranked, o, d); }
    }
    forall c, d | c in Select(x).candidates && d in Select(x).reviewable ensures c.candidateId != d.candidateId {
      SelectedMeansUnambiguous(x);
      if c.candidateId == d.candidateId { OneOfEachId(x.ranked, c, d); }
    }
  }

  lemma SelectedMeansUnambiguous(x: Inputs)
    requires Select(x).candidates != []
    ensures forall d :: d in Select(x).reviewable ==> d in x.ranked
  {}

  // ---- the lists and the ranking ----

  predicate InOrder(cs: seq<Candidate>) {
    forall i, j :: 0 <= i < j < |cs| ==> Before(cs[i], cs[j])
  }

  /** xs is what a reader expects of the best k behind a gate: ranked candidates that pass it, best first;
      whatever passes and is left out ranks after all of them, and is left out for lack of room only. */
  ghost predicate Leading(ranked: seq<Candidate>, gate: Candidate -> bool, xs: seq<Candidate>, k: nat) {
    && |xs| <= k && InOrder(xs)
    && (forall c :: c in xs ==> c in ranked && gate(c))
    && (forall d :: d in ranked && gate(d) && d !in xs ==> |xs| == k && forall c :: c in xs ==> Before(c, d))
  }

  lemma {:induction false} FilterInOrder(cs: seq<Candidate>, p: Candidate -> bool)
    requires InOrder(cs)
    ensures InOrder(Filter(cs, p))
  {
    hide Before;
    if cs != [] {
      var front, last := cs[..|cs| - 1], cs[|cs| - 1];
      FilterInOrder(front, p);
      assert forall c :: c in front ==> Before(c, last);
      assert forall i :: 0 <= i < |Filter(front, p)| ==> Filter(front, p)[i] in front;
    }
  }

  lemma TakeLeads(ranked: seq<Candidate>, p: Candidate -> bool, k: nat)
    requires InOrder(ranked)
    ensures Leading(ranked, p, Take(Filter(ranked, p), k), k)
  {
    hide Before;
    FilterInOrder(ranked, p);
    var passing := Filter(ranked, p);
    var xs := Take(passing, k);
    forall d | d in ranked && p(d) && d !in xs ensures |xs| == k && forall c :: c in xs ==> Before(c, d) {
      assert d in passing;
      var m :| 0 <= m < |passing| && passing[m] == d;
      assert m >= |xs|;
    }
  }

  /** Each list is the leading part of the ranking behind its gate. Nothing is selected while the request is
      incomplete, its unit refused or a decisive attribute missing; a missing attribute also reorders the
      reviewable list, as stated below. */
  lemma ListsFollowRanking(x: Inputs)
    requires InOrder(x.ranked)
    ensures Leading(x.ranked, HardRejected, Select(x).diagnostics, x.topK)
    ensures Select(x).candidates == [] || Leading(x.ranked, Sufficient, Select(x).candidates, x.topK)
    ensures x.requestUnitCodes == {} && Ambiguities(x) == [] ==> Leading(x.ranked, Reviewable, Select(x).reviewable, x.topK)
    ensures x.requestUnitCodes == {} && Ambiguities(x) == [] && x.requestGaps == [] ==>
      Leading(x.ranked, Sufficient, Select(x).candidates, x.topK)
  {
    hide Leading, InOrder, Filter, Before, HardRejected, Sufficient, Reviewable, Ambiguities, OpenStatus, Required, CapAll;
    TakeLeads(x.ranked, HardRejected, x.topK);
    TakeLeads(x.ranked, Sufficient, x.topK);
    TakeLeads(x.ranked, Reviewable, x.topK);
  }

  predicate NotBlocked(c: Candidate) {
    !HardRejected(c)
  }

  lemma {:induction false} FilterAnd<T(!new)>(xs: seq<T>, p: T -> bool, q: T -> bool)
    requires forall x :: q(x) ==> p(x)
    ensures Filter(Filter(xs, p), q) == Filter(xs, q)
  {
    if xs != [] {
      var front, last := xs[..|xs| - 1], xs[|xs| - 1];
      FilterAnd(front, p, q);
      if p(last) {
        var f := Filter(front, p);
        assert Filter(xs, p) == f + [last];
        assert (f + [last])[..|f|] == f;
      }
    }
  }

  lemma {:induction false} FilterConcat<T(!new)>(xs: seq<T>, ys: seq<T>, p: T -> bool)
    ensures Filter(xs + ys, p) == Filter(xs, p) + Filter(ys, p)
  {
    if ys == [] {
      assert xs + ys == xs;
    } else {
      var n := |ys| - 1;
      assert (xs + ys)[..|xs + ys| - 1] == xs + ys[..n];
      FilterConcat(xs, ys[..n], p);
    }
  }

  lemma {:induction false} FilterAll<T(!new)>(xs: seq<T>, p: T -> bool)
    requires forall x :: x in xs ==> p(x)
    ensures Filter(xs, p) == xs
  {
    if xs != [] {
      FilterAll(xs[..|xs| - 1], p);
      assert xs == xs[..|xs| - 1] + [xs[|xs| - 1]];
    }
  }

  lemma {:induction false} FilterNone<T(!new)>(xs: seq<T>, p: T -> bool)
    requires forall x :: x in xs ==> !p(x)
    ensures Filter(xs, p) == []
  {
    if xs != [] { FilterNone(xs[..|xs| - 1], p); }
  }

  /** The part of an ambiguous selection that holds sufficient candidates. */
  function SufficientPart(x: Inputs): (m: nat)
    ensures m <= |Eligible(x)| && m <= x.topK
  {
    if x.topK <= |Eligible(x)| then x.topK else |Eligible(x)|
  }

  /** If the first m elements satisfy p, and either that is all that is taken or all that satisfies p,
      putting the p elements before the q elements changes nothing in what is taken. */
  lemma PartFirst<T(!new)>(order: seq<T>, p: T -> bool, q: T -> bool, m: nat, k: nat)
    requires forall c :: c in order ==> (p(c) <==> !q(c))
    requires m <= |order| && forall c :: c in order[..m] ==> p(c)
    requires m == k || (m < k && m == |Filter(order, p)|)
    ensures Take(Filter(order, p) + Filter(order, q), k) == Take(order, k)
  {
    hide Filter;
    var head, tail := order[..m], order[m..];
    assert order == head + tail;
    FilterConcat(head, tail, p);
    FilterAll(head, p);
    var fp, fq := Filter(order, p), Filter(order, q);
    assert fp == head + Filter(tail, p);
    if m == k {
      assert (fp + fq)[..k] == head;
    } else {
      FilterConcat(head, tail, q);
      FilterNone(head, q);
      RestSatisfies(tail, p, q);
      FilterAll(tail, q);
      assert fp + fq == order;
    }
  }

  lemma RestSatisfies<T(!new)>(tail: seq<T>, p: T -> bool, q: T -> bool)
    requires |Filter(tail, p)| == 0 && forall c :: c in tail ==> (p(c) <==> !q(c))
    ensures forall c :: c in tail ==> q(c)
  {
    hide Filter;
    forall c | c in tail ensures q(c) {
      assert c !in Filter(tail, p);
    }
  }

  /** If the ranking behind the gate starts with the whole sufficient part, both orders agree. */
  lemma SufficientFirst(x: Inputs, order: seq<Candidate>)
    requires order == Filter(x.ranked, NotBlocked) && |order| >= SufficientPart(x)
    requires forall i :: 0 <= i < SufficientPart(x) ==> Sufficient(order[i])
    ensures Take(Eligible(x) + ReviewableOf(x), x.topK) == Take(order, x.topK)
  {
    FilterAnd(x.ranked, NotBlocked, Sufficient);
    FilterAnd(x.ranked, NotBlocked, Reviewable);
    hide HardRejected, Filter;
    PartFirst(order, Sufficient, Reviewable, SufficientPart(x), x.topK);
  }

  lemma FilterPair<T(!new)>(a: T, b: T, p: T -> bool)
    ensures Filter([a, b], p) == (if p(a) then [a] else []) + (if p(b) then [b] else [])
  {
    assert [a, b][..1] == [a] && [a][..0] == [];
    assert Filter([a], p) == if p(a) then [a] else [];
  }

  lemma SameCappedSame(x: Inputs, xs: seq<Candidate>, ys: seq<Candidate>, i: nat)
    requires DistinctIds(x.ranked) && i < |xs| && i < |ys| && xs[i] in x.ranked && ys[i] in x.ranked
    requires Capped(xs[i], AMBIGUITY_NOTE) == Capped(ys[i], AMBIGUITY_NOTE)
    ensures xs[i] == ys[i]
  {
    assert xs[i].candidateId == Capped(xs[i], AMBIGUITY_NOTE).candidateId == ys[i].candidateId;
    OneOfEachId(x.ranked, xs[i], ys[i]);
  }

  /** An ambiguous selection lists sufficient candidates before reference-only ones, not in ranking order:
      the returned list is the leading part of the ranking (of what is not blocked) exactly when that part
      of the ranking starts with the sufficient candidates that are returned. */
  lemma AmbiguityFollowsRankingIff(x: Inputs)
    requires DistinctIds(x.ranked) && Ambiguities(x) != [] && x.requestUnitCodes == {}
    ensures var order := Filter(x.ranked, NotBlocked);
            && |order| >= SufficientPart(x)
            && (Select(x).reviewable == CapAll(Take(order, x.topK), AMBIGUITY_NOTE)
                <==> forall i :: 0 <= i < SufficientPart(x) ==> Sufficient(order[i]))
  {
    hide HardRejected, Capped, OpenStatus, Required, Ambiguities;
    var order := Filter(x.ranked, NotBlocked);
    FilterAnd(x.ranked, NotBlocked, Sufficient);
    var both := Eligible(x) + ReviewableOf(x);
    assert Select(x).reviewable == Take(CapAll(both, AMBIGUITY_NOTE), x.topK) == CapAll(Take(both, x.topK), AMBIGUITY_NOTE);
    if forall i :: 0 <= i < SufficientPart(x) ==> Sufficient(order[i]) {
      SufficientFirst(x, order);
    }
    if CapAll(Take(both, x.topK), AMBIGUITY_NOTE) == CapAll(Take(order, x.topK), AMBIGUITY_NOTE) {
      forall i | 0 <= i < SufficientPart(x) ensures Sufficient(order[i]) {
        assert Take(both, x.topK)[i] == both[i] == Eligible(x)[i] && Take(order, x.topK)[i] == order[i];
        assert CapAll(Take(both, x.topK), AMBIGUITY_NOTE)[i] == CapAll(Take(order, x.topK), AMBIGUITY_NOTE)[i];
        SameCappedSame(x, Eligible(x), order, i);
      }
    }
  }

  /** A record and a candidate that differ from their siblings only in what is given here. */
  function ExampleCandidate(id: string, kind: ResolutionType, score: real, tier: ResultTier, year: int): Candidate {
    var source := Source(id, 1.0, KGCO2E_PER_KG, LIFECYCLE_FACTOR, "GWP-total", "", "", "", Some(year), None, false, false, 100, 0.9, 0);
    Candidate(id, LOCAL, source, 1.0, KGCO2E_PER_KG, score, 1.0, [], 1.0, kind, tier, 1.0, [], 0, [], [], None, None, None, None, None, 0)
  }

  /** A direct match ranks before an alias match, but its score is below the default minimum of 0.65. */
  const DIRECT_EXAMPLE := ExampleCandidate("a", DIRECT_EXACT, 0.5, REFERENCE_ONLY, 2020)
  const ALIAS_EXAMPLE := ExampleCandidate("b", DIRECT_ALIAS, 0.9, PRIMARY_RECOMMENDATION, 2021)
  const EXAMPLE := Inputs([DIRECT_EXAMPLE, ALIAS_EXAMPLE], 3, [], [], {}, {}, false, false, map[])

  /** A ranking the ambiguous selection does not follow: two records of different years, no year requested.
      The tiers are those that re-evaluation gives. */
  lemma AmbiguityReordersExample()
    ensures Before(DIRECT_EXAMPLE, ALIAS_EXAMPLE) && EXAMPLE.ranked == [DIRECT_EXAMPLE, ALIAS_EXAMPLE]
    ensures Derivation.Finalize(DIRECT_EXAMPLE, Some(0.65)).resultTier == DIRECT_EXAMPLE.resultTier
    ensures Derivation.Finalize(ALIAS_EXAMPLE, Some(0.65)).resultTier == ALIAS_EXAMPLE.resultTier
    ensures Select(EXAMPLE).reviewable == [Capped(ALIAS_EXAMPLE, AMBIGUITY_NOTE), Capped(DIRECT_EXAMPLE, AMBIGUITY_NOTE)]
  {
    hide Filter, HardRejected, Ambiguities, OpenStatus, Required, Capped, Before, Derivation.Finalize;
    ExampleOrder();
    ExampleTiers();
    ExampleLists();
    ExampleAmbiguous();
    assert CapAll([ALIAS_EXAMPLE] + [DIRECT_EXAMPLE], AMBIGUITY_NOTE) ==
      [Capped(ALIAS_EXAMPLE, AMBIGUITY_NOTE), Capped(DIRECT_EXAMPLE, AMBIGUITY_NOTE)];
  }

  lemma ExampleTiers()
    ensures Derivation.Finalize(DIRECT_EXAMPLE, Some(0.65)).resultTier == DIRECT_EXAMPLE.resultTier
    ensures Derivation.Finalize(ALIAS_EXAMPLE, Some(0.65)).resultTier == ALIAS_EXAMPLE.resultTier
  {
    assert !AdmissionIncomplete(ALIAS_EXAMPLE);
    hide Derivation.Strength;
  }

  lemma ExampleOrder()
    ensures Before(DIRECT_EXAMPLE, ALIAS_EXAMPLE)
  {
    assert TypePriority(DIRECT_EXACT) < TypePriority(DIRECT_ALIAS);
    hide StrLess, WorstApplicability;
  }

  lemma ExampleLists()
    ensures Eligible(EXAMPLE) == [ALIAS_EXAMPLE] && ReviewableOf(EXAMPLE) == [DIRECT_EXAMPLE]
  {
    hide Filter;
    FilterPair(DIRECT_EXAMPLE, ALIAS_EXAMPLE, Sufficient);
    FilterPair(DIRECT_EXAMPLE, ALIAS_EXAMPLE, Reviewable);
    assert !HardRejected(DIRECT_EXAMPLE) && !HardRejected(ALIAS_EXAMPLE);
  }

  lemma ExampleAmbiguous()
    requires Eligible(EXAMPLE) == [ALIAS_EXAMPLE] && ReviewableOf(EXAMPLE) == [DIRECT_EXAMPLE]
    ensures Ambiguities(EXAMPLE) != []
  {
    hide Filter;
    var cs: seq<Candidate> := [ALIAS_EXAMPLE] + [DIRECT_EXAMPLE];
    assert Disagree(cs[0].source, cs[1].source, YEAR);
    assert Ambiguous(cs, map[], YEAR) && YEAR in FIELDS;
    assert YEAR in Filter(FIELDS, (f: Field) => Ambiguous(cs, map[], f));
  }

  // ---- the same, on the candidates and the request ----

  /** The two records name different values of the attribute. */
  predicate Differ(s: Source, t: Source, f: Field) {
    match f
    case PRODUCTION_PROCESS => s.productionProcess != "" && t.productionProcess != "" && s.productionProcess != t.productionProcess
    case PRODUCT_FORM => s.productForm != "" && t.productForm != "" && s.productForm != t.productForm
    case GEOGRAPHY => s.geography != "" && t.geography != "" && s.geography != t.geography
    case YEAR => s.year.Some? && t.year.Some? && s.year != t.year
  }

  /** c may end up in a list a reviewer chooses from. */
  predicate InPlay(c: Candidate) {
    Sufficient(c) || (!HardRejected(c) && c.resultTier == REFERENCE_ONLY)
  }

  lemma DifferIff(s: Source, t: Source, f: Field)
    ensures Disagree(s, t, f) <==> Differ(s, t, f)
    ensures Disagree(s, t, f) <==> Disagree(t, s, f)
    ensures !Disagree(s, s, f)
  {}

  ghost predicate LeftOpen(x: Inputs, f: Field) {
    && x.requestGaps == [] && f !in x.decisive
    && exists c, d :: c in x.ranked && d in x.ranked && InPlay(c) && InPlay(d) && Differ(c.source, d.source, f)
  }

  lemma PairAmbiguous(pool: seq<Candidate>, f: Field)
    ensures (exists i, j :: 0 <= i < j < |pool| && Disagree(pool[i].source, pool[j].source, f))
       <==> (exists c, d :: c in pool && d in pool && Differ(c.source, d.source, f))
  {
    hide Disagree, Differ;
    forall s: Source, t: Source ensures (Disagree(s, t, f) <==> Differ(s, t, f)) && (Disagree(s, t, f) <==> Disagree(t, s, f)) && !Disagree(s, s, f) {
      DifferIff(s, t, f);
    }
    if c, d :| c in pool && d in pool && Differ(c.source, d.source, f) {
      var i :| 0 <= i < |pool| && pool[i] == c;
      var j :| 0 <= j < |pool| && pool[j] == d;
      assert Disagree(pool[i].source, pool[j].source, f) && Disagree(pool[j].source, pool[i].source, f);
    }
  }

  lemma AmbiguousIff(x: Inputs, f: Field)
    requires x.requestGaps == []
    ensures Ambiguous(Eligible(x) + ReviewableOf(x), x.decisive, f) <==> LeftOpen(x, f)
  {
    hide Filter, Differ, Disagree, HardRejected, Sufficient;
    var pool := Eligible(x) + ReviewableOf(x);
    assert forall c :: c in pool <==> c in x.ranked && InPlay(c);
    PairAmbiguous(pool, f);
  }

  lemma NameOnce(f: Field, g: Field)
    requires FieldName(f) == FieldName(g)
    ensures f == g
  {
    assert FieldName(PRODUCTION_PROCESS)[7] == 'i' && FieldName(PRODUCT_FORM)[7] == '_';
    assert FieldName(GEOGRAPHY)[0] == 'g' && FieldName(YEAR)[0] == 'y';
  }

  /** The attributes asked for are those the request leaves open while candidates in play differ about them. */
  lemma AskedIff(x: Inputs, f: Field)
    ensures FieldName(f) in Ambiguities(x) <==> LeftOpen(x, f)
  {
    hide Filter, Ambiguous, LeftOpen, FieldName, Eligible, ReviewableOf;
    if x.requestGaps == [] {
      var cs := Eligible(x) + ReviewableOf(x);
      var open := Filter(FIELDS, (g: Field) => Ambiguous(cs, x.decisive, g));
      var names := AmbiguousFields(cs, x.decisive);
      AmbiguousIff(x, f);
      assert f in FIELDS;
      if FieldName(f) in names {
        var i :| 0 <= i < |names| && names[i] == FieldName(f);
        NameOnce(open[i], f);
      }
      if f in open {
        var i :| 0 <= i < |open| && open[i] == f;
        assert names[i] == FieldName(f);
      }
    } else {
      NotLeftOpen(x, f);
    }
  }

  lemma NotLeftOpen(x: Inputs, f: Field)
    requires x.requestGaps != []
    ensures !LeftOpen(x, f)
  {}

  lemma AnyAmbiguity(x: Inputs)
    ensures Ambiguities(x) != [] <==> exists f :: LeftOpen(x, f)
  {
    hide LeftOpen, Filter, Ambiguous, Eligible, ReviewableOf;
    if f :| LeftOpen(x, f) { AskedIff(x, f); }
    if Ambiguities(x) != [] {
      var cs := Eligible(x) + ReviewableOf(x);
      var f := Filter(FIELDS, (g: Field) => Ambiguous(cs, x.decisive, g))[0];
      assert FieldName(f) == Ambiguities(x)[0];
      AskedIff(x, f);
    }
  }

  /** The fields asked for: those of the gaps, conversion evidence if a unit lacks it, and the open attributes. */
  lemma RequiredIff(x: Inputs, name: string)
    ensures name in Select(x).requiredFields <==>
      || name in x.requiredFields
      || (name == "unit_conversion_evidence" && (UNIT_CONVERSION_EVIDENCE_REQUIRED in x.requestUnitCodes || UNIT_CONVERSION_EVIDENCE_REQUIRED in x.recordUnitCodes))
      || exists f :: FieldName(f) == name && LeftOpen(x, f)
  {
    hide LeftOpen, FieldName, Ambiguities, OpenStatus, ForReview, Selectable;
    if f :| FieldName(f) == name && LeftOpen(x, f) { AskedIff(x, f); }
    if name in Ambiguities(x) {
      var f := NamedField(x, name);
      AskedIff(x, f);
    }
  }

  lemma NamedField(x: Inputs, name: string) returns (f: Field)
    requires name in Ambiguities(x)
    ensures FieldName(f) == name
  {
    hide Filter, Ambiguous, FieldName, Eligible, ReviewableOf;
    var cs := Eligible(x) + ReviewableOf(x);
    var open := Filter(FIELDS, (g: Field) => Ambiguous(cs, x.decisive, g));
    var i :| 0 <= i < |Ambiguities(x)| && Ambiguities(x)[i] == name;
    f := open[i];
  }

  /** Something is selected exactly when some ranked candidate is sufficient and nothing is missing: no request gap, no
      unit error of the request, no open attribute. */
  lemma SelectedIff(x: Inputs)
    requires x.topK > 0
    ensures Select(x).candidates != [] <==>
      && (exists c :: c in x.ranked && Sufficient(c))
      && x.requestGaps == [] && x.requestUnitCodes == {} && !(exists f :: LeftOpen(x, f))
  {
    hide Filter, LeftOpen, Ambiguities, OpenStatus, Required, Sufficient, HardRejected;
    AnyAmbiguity(x);
    if c :| c in x.ranked && Sufficient(c) { assert c in Eligible(x); }
    if Eligible(x) != [] { assert Eligible(x)[0] in Eligible(x); }
  }

  /** Why nothing was selected, in order of precedence. */
  lemma OpenStatusLaw(x: Inputs)
    requires Select(x).candidates == [] && x.topK > 0
    ensures var codes := x.requestUnitCodes + x.recordUnitCodes;
            Select(x).status ==
              if UNIT_CONVERSION_EVIDENCE_REQUIRED in codes then MORE_INPUT_NEEDED
              else if codes != {} || x.conflictingExternalId then UNRESOLVED
              else if Select(x).requiredFields != [] then MORE_INPUT_NEEDED
              else if Select(x).reviewable != [] then REFERENCE_REVIEW_REQUIRED
              else if exists c :: c in x.ranked && ProcessVariantBlocked(c) then PROCESS_MODEL_REQUIRED
              else if x.admissionRejected || exists c :: c in x.ranked && GradeConflicted(c) then UNRESOLVED
              else SUPPLIER_DATA_REQUIRED
  {
    hide Required, ForReview, Eligible, Ambiguities, ProcessVariantBlocked, GradeConflicted, Filter;
    var codes := Codes(x);
    if codes != {} {
      var code :| code in codes;
      assert code == UNIT_SYNTAX_UNSUPPORTED || code == CATALOG_FACTOR_UNIT_INVALID || code == UNIT_DIMENSION_MISMATCH
          || code == UNIT_CONVERSION_EVIDENCE_REQUIRED;
    }
  }

  lemma SomePass(xs: seq<Candidate>, p: Candidate -> bool)
    ensures Filter(xs, p) != [] <==> exists c :: c in xs && p(c)
  {
    hide Filter;
    if c :| c in xs && p(c) { assert c in Filter(xs, p); }
    if Filter(xs, p) != [] { assert Filter(xs, p)[0] in Filter(xs, p); }
  }

  /** There is something to review exactly when the request's unit is accepted and, behind an open attribute, anything is
      in play, or, with none open, anything is for reference only. */
  lemma ReviewableIff(x: Inputs)
    requires x.topK > 0
    ensures Select(x).reviewable != [] <==>
      && x.requestUnitCodes == {}
      && (if exists f :: LeftOpen(x, f) then exists c :: c in x.ranked && InPlay(c)
          else exists c :: c in x.ranked && !HardRejected(c) && c.resultTier == REFERENCE_ONLY)
  {
    hide Filter, LeftOpen, Ambiguities, OpenStatus, Required, HardRejected, Sufficient, Selectable;
    AnyAmbiguity(x);
    SomePass(x.ranked, Sufficient);
    SomePass(x.ranked, Reviewable);
  }

  /** Behind an open attribute every candidate is capped, and says why. */
  lemma OpenMeansCapped(x: Inputs)
    ensures (exists f :: LeftOpen(x, f)) ==>
      forall c :: c in Select(x).reviewable ==> c.resultTier == REFERENCE_ONLY && AMBIGUITY_NOTE in c.limitations
  {
    hide Filter, LeftOpen, Ambiguities, OpenStatus, Required, HardRejected, Sufficient, Selectable;
    AnyAmbiguity(x);
  }
}
