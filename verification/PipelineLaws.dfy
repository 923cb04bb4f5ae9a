/** Which candidates a run ends with, and what it asks for: local records answer first, external ones only where there
    are none and the request is complete, and stand-ins only where neither answers. */
module PipelineLaws {
  import opened Prelude
  import opened Models
  import opened Derivation
  import DerivationLaws
  import opened TopK
  import opened Ranking
  import opened Pipeline
  import ReferenceFlow

  // ---- missing masses ----

  /** No mass-per-unit record applies to the candidate. */
  ghost predicate Unweighable(env: Environment, c: Candidate) {
    HasGap(c, REFERENCE_FLOW_GAP) && forall r :: r in env.flows ==> !ReferenceFlow.Applies(env.activity, env.product(c), r)
  }

  lemma UnconvertibleIff(env: Environment, c: Candidate)
    requires Transform(env, REFERENCE_FLOW, c).Ok?
    ensures Unconvertible(env, c) <==> Unweighable(env, c)
  {
    hide ReferenceFlow.ConvertAll, ReferenceFlow.Applies, ReferenceFlow.Converted, HasGap, WithoutGap;
    if HasGap(c, REFERENCE_FLOW_GAP) {
      var p := env.product(c);
      var out := ReferenceFlow.ConvertAll(env.activity, p, c, env.flows).value;
      ReferenceFlow.AppliesIff(env.activity, p, c, env.flows);
      assert Transform(env, REFERENCE_FLOW, c) == Ok(WithoutGaps(out, REFERENCE_FLOW_GAP));
      if out != [] { assert out[0] in out; }
    }
  }

  lemma {:induction false} TransformedEach(env: Environment, node: Node, cs: seq<Candidate>, i: nat)
    requires TransformAll(env, node, cs).Ok? && i < |cs|
    ensures Transform(env, node, cs[i]).Ok?
  {
    hide Transform;
    if i < |cs| - 1 { TransformedEach(env, node, cs[..|cs| - 1], i); }
  }

  lemma {:induction false} ScaledEach(env: Environment, cs: seq<Candidate>)
    requires TransformAll(env, UNIT_SCALE, cs).Ok?
    ensures |TransformAll(env, UNIT_SCALE, cs).value| == |cs|
    ensures forall i :: 0 <= i < |cs| ==> ResolveUnitScale(env.activity, cs[i]) == Ok(TransformAll(env, UNIT_SCALE, cs).value[i])
  {
    hide ResolveUnitScale;
    if cs != [] { ScaledEach(env, cs[..|cs| - 1]); }
  }

  /** The candidate, brought to the requested unit, lacks a mass nobody knows. */
  ghost predicate LacksMass(env: Environment, c: Candidate) {
    ResolveUnitScale(env.activity, c).Ok? && Unweighable(env, ResolveUnitScale(env.activity, c).value)
  }

  lemma SomeLacks(env: Environment, cs: seq<Candidate>, scaled: seq<Candidate>)
    requires |scaled| == |cs|
    requires forall i :: 0 <= i < |cs| ==> (Unconvertible(env, scaled[i]) <==> LacksMass(env, cs[i]))
    ensures SomeUnconvertible(env, scaled) <==> exists c :: c in cs && LacksMass(env, c)
  {
    hide Unconvertible, LacksMass;
    if c :| c in cs && LacksMass(env, c) {
      var i :| 0 <= i < |cs| && cs[i] == c;
      assert Unconvertible(env, scaled[i]);
    }
    if i :| 0 <= i < |scaled| && Unconvertible(env, scaled[i]) {
      assert cs[i] in cs && LacksMass(env, cs[i]);
    }
  }

  lemma LacksEach(env: Environment, cs: seq<Candidate>, i: nat)
    requires i < |cs| && TransformAll(env, UNIT_SCALE, cs).Ok? && TransformAll(env, REFERENCE_FLOW, TransformAll(env, UNIT_SCALE, cs).value).Ok?
    ensures |TransformAll(env, UNIT_SCALE, cs).value| == |cs|
    ensures Unconvertible(env, TransformAll(env, UNIT_SCALE, cs).value[i]) <==> LacksMass(env, cs[i])
  {
    hide Transform, TransformAll, ResolveUnitScale, Unweighable, Unconvertible;
    ScaledEach(env, cs);
    TransformedEach(env, REFERENCE_FLOW, TransformAll(env, UNIT_SCALE, cs).value, i);
    UnconvertibleIff(env, TransformAll(env, UNIT_SCALE, cs).value[i]);
  }

  /** Resolving asks for the missing mass of the requested unit exactly when some candidate lacks it. */
  lemma MassAskedIff(env: Environment, g: Graph)
    requires ResolveGraph(env, g).Ok?
    ensures ResolveGraph(env, g).value.requiredFields ==
      if exists c :: c in g.resolution && LacksMass(env, c) then FlowFields(env.unitText) else g.requiredFields
  {
    hide Transform, TransformAll, TechnicalAll, LacksMass, Unconvertible, SomeUnconvertible, FlowFields;
    var scaled := TransformAll(env, UNIT_SCALE, g.resolution).value;
    ScaledEach(env, g.resolution);
    forall i | 0 <= i < |g.resolution| ensures Unconvertible(env, scaled[i]) <==> LacksMass(env, g.resolution[i]) {
      LacksEach(env, g.resolution, i);
    }
    SomeLacks(env, g.resolution, scaled);
  }

  // ---- external evidence ----

  /** The records that reach evaluation: everything the connectors return, conflicting ids left out. */
  function External(env: Environment): seq<Extracted> {
    if env.discoveryConfigured then Survivors(Collected(env.connectors)) else []
  }

  ghost predicate TwoRoutes(env: Environment, cs: seq<Candidate>) {
    exists c, d :: c in cs && d in cs && env.variant(c) != "" && env.variant(d) != "" && env.variant(c) != env.variant(d)
  }

  lemma VariantsIff(env: Environment, cs: seq<Candidate>)
    ensures |Variants(env, cs)| > 1 <==> TwoRoutes(env, cs)
  {
    var names := seq(|cs|, i requires 0 <= i < |cs| => env.variant(cs[i]));
    var vs := Variants(env, cs);
    forall v ensures v in vs <==> v != "" && exists c :: c in cs && env.variant(c) == v {
      if v in vs {
        assert v in names;
        var i :| 0 <= i < |names| && names[i] == v;
        assert cs[i] in cs;
      }
      if c :| c in cs && env.variant(c) == v {
        var i :| 0 <= i < |cs| && cs[i] == c;
        assert names[i] == v;
      }
    }
    hide Variants;
    if |vs| > 1 {
      assert vs[0] in vs && vs[1] in vs;
      assert vs[0] != vs[1];
    }
    if c, d :| c in cs && d in cs && env.variant(c) != "" && env.variant(d) != "" && env.variant(c) != env.variant(d) {
      assert env.variant(c) in vs && env.variant(d) in vs;
    }
  }

  /** Discovery asks for the subject exactly when the request leaves it open and an evaluated record names one, and for
      the route exactly when it is open and the external candidates name two. Nothing else is asked. */
  lemma DiscoveryAsksIff(env: Environment, g: Graph, f: string)
    requires External(env) != []
    ensures f in Discover(env, g).requestGaps <==>
      || f in g.requestGaps
      || (f == "subject_type" && env.subjectUnknown && exists r :: r in External(env) && r.subject != "")
      || (f == "route" && env.routeOpen && TwoRoutes(env, env.evaluate(External(env))))
  {
    hide Survivors, Collected, SeenAll, Variants, TwoRoutes, NamesSubject;
    var records := External(env);
    NothingCollected();
    VariantsIff(env, env.evaluate(records));
    SubjectIff(records);
    FieldIff(g.requestGaps, "subject_type");
    FieldIff(g.requestGaps, "route");
    FieldIff(g.requestGaps + ["subject_type"], "route");
    assert "subject_type" != "route";
  }

  lemma NothingCollected()
    ensures Survivors(Collected([])) == []
  {}

  lemma SubjectIff(records: seq<Extracted>)
    ensures NamesSubject(records) <==> exists r :: r in records && r.subject != ""
  {
    if NamesSubject(records) {
      var i :| 0 <= i < |records| && records[i].subject != "";
      assert records[i] in records;
    }
    if r :| r in records && r.subject != "" {
      var i :| 0 <= i < |records| && records[i] == r;
    }
  }

  lemma FieldIff(fields: seq<string>, f: string)
    ensures HasField(fields, f) <==> f in fields
  {}

  ghost predicate Returns(connectors: seq<Connector>, i: int, j: int, r: Extracted) {
    && 0 <= i < |connectors| && connectors[i].References? && 0 <= j < |connectors[i].replies|
    && connectors[i].replies[j].Extracts? && r in connectors[i].replies[j].records
  }

  lemma {:induction false} AnsweredIff(replies: seq<Reply>, r: Extracted)
    ensures r in Answered(replies) <==> exists j :: 0 <= j < |replies| && replies[j].Extracts? && r in replies[j].records
  {
    if replies != [] {
      var n := |replies| - 1;
      AnsweredIff(replies[..n], r);
      if j :| 0 <= j < n && replies[..n][j].Extracts? && r in replies[..n][j].records { assert replies[j] == replies[..n][j]; }
      if j :| 0 <= j < |replies| && replies[j].Extracts? && r in replies[j].records {
        if j < n { assert replies[..n][j] == replies[j]; }
      }
    }
  }

  /** What is collected is what some reference of some connector returned. */
  lemma {:induction false} CollectedIff(connectors: seq<Connector>, r: Extracted)
    ensures r in Collected(connectors) <==> exists i, j :: Returns(connectors, i, j, r)
  {
    hide Answered;
    if connectors != [] {
      var n := |connectors| - 1;
      var front, last := connectors[..n], connectors[n];
      CollectedIff(front, r);
      if last.References? { AnsweredIff(last.replies, r); }
      if i, j :| Returns(front, i, j, r) { assert Returns(connectors, i, j, r); }
      if last.References? && r in Answered(last.replies) {
        var j :| 0 <= j < |last.replies| && last.replies[j].Extracts? && r in last.replies[j].records;
        assert Returns(connectors, n, j, r);
      }
      if i, j :| Returns(connectors, i, j, r) {
        if i < n { assert Returns(front, i, j, r); }
      }
    }
  }

  // ---- the stages of a run ----

  /** r is c with its tier, strength and notes brought up to date; below the minimum score it is for reference only. */
  predicate Retiered(c: Candidate, r: Candidate, minScore: Option<real>) {
    && r == c.(resultTier := r.resultTier, resolutionStrength := Strength(c), limitations := r.limitations)
    && r.resultTier == (if c.source.cappedAtReferenceOnly || (minScore.Some? && c.score < minScore.value) then REFERENCE_ONLY else TierFor(c))
  }

  /** r is c with the gaps the analysis finds, and its tier to match. */
  predicate GapsFound(env: Environment, c: Candidate, r: Candidate) {
    Retiered(c.(gaps := env.analyze(c)), r, None)
  }

  lemma AnalyzedMeans(env: Environment, cs: seq<Candidate>)
    ensures |Analyzed(env, cs)| == |cs| && forall i :: 0 <= i < |cs| ==> GapsFound(env, cs[i], Analyzed(env, cs)[i])
  {
    hide TierFor, Strength;
    forall i | 0 <= i < |cs| ensures GapsFound(env, cs[i], Analyzed(env, cs)[i]) {
      DerivationLaws.FinalizeMeans(cs[i].(gaps := env.analyze(cs[i])), None);
    }
  }

  /** What gap analysis and the resolution nodes make of candidates. */
  ghost predicate Became(env: Environment, cs: seq<Candidate>, rs: seq<Candidate>) {
    exists gapped :: |gapped| == |cs| && (forall i :: 0 <= i < |cs| ==> GapsFound(env, cs[i], gapped[i])) && Resolved(env, gapped) == Ok(rs)
  }

  lemma BecameAnalyzed(env: Environment, cs: seq<Candidate>, rs: seq<Candidate>)
    requires Resolved(env, Analyzed(env, cs)) == Ok(rs)
    ensures Became(env, cs, rs)
  {
    hide Resolved, GapsFound;
    AnalyzedMeans(env, cs);
  }

  /** Each candidate re-evaluated against the minimum score, in order. */
  ghost predicate Reevaluations(env: Environment, cs: seq<Candidate>, rs: seq<Candidate>) {
    |rs| == |cs| && forall i :: 0 <= i < |cs| ==> Retiered(cs[i], rs[i], Some(env.minScore))
  }

  lemma ReevaluatedMeans(env: Environment, cs: seq<Candidate>)
    ensures Reevaluations(env, cs, Reevaluated(cs, env.minScore))
  {
    hide TierFor, Strength;
    forall i | 0 <= i < |cs| ensures Retiered(cs[i], Reevaluated(cs, env.minScore)[i], Some(env.minScore)) {
      DerivationLaws.FinalizeMeans(cs[i], Some(env.minScore));
    }
  }

  /** Each candidate for reference only, with the note that says why. */
  ghost predicate CappedAsIncomplete(cs: seq<Candidate>, rs: seq<Candidate>) {
    |rs| == |cs| && forall i :: 0 <= i < |cs| ==>
      && rs[i] == cs[i].(resultTier := REFERENCE_ONLY, limitations := rs[i].limitations)
      && forall l :: l in rs[i].limitations <==> l in cs[i].limitations || l == INCOMPLETE_NOTE
  }

  lemma CapMeans(cs: seq<Candidate>)
    ensures CappedAsIncomplete(cs, CapAll(cs, INCOMPLETE_NOTE))
  {}

  function Found(env: Environment): seq<Candidate> {
    if External(env) == [] then [] else env.evaluate(External(env))
  }

  predicate MaterialAbsent(cs: seq<Candidate>) {
    exists i :: 0 <= i < |cs| && HasGap(cs[i], MATERIAL_ABSENT_GAP)
  }

  lemma NothingBecomesNothing(env: Environment)
    ensures Became(env, [], [])
  {
    var none: seq<Candidate> := [];
    assert Resolved(env, none) == Ok(none) && |none| == 0;
  }

  lemma ResolvedIs(env: Environment, g: Graph)
    requires ResolveGraph(env, g).Ok?
    ensures Resolved(env, g.resolution) == Ok(ResolveGraph(env, g).value.resolution)
  {
    hide Resolved, TransformAll, FieldsAfterFlow;
  }

  lemma LocalStage(env: Environment, g: Graph)
    requires LocalResolved(env, g).Ok?
    ensures var l := LocalResolved(env, g).value;
            Became(env, g.resolution, l.resolution) && l == g.(resolution := l.resolution, requiredFields := l.requiredFields)
  {
    hide ResolveGraph, Resolved;
    var analyzed := g.(resolution := Analyzed(env, g.resolution));
    if analyzed.resolution == [] {
      NothingBecomesNothing(env);
    } else {
      ResolvedIs(env, analyzed);
      ResolveKeeps(env, analyzed);
      BecameAnalyzed(env, g.resolution, ResolveGraph(env, analyzed).value.resolution);
    }
  }

  lemma DiscoverFinds(env: Environment, g: Graph)
    requires g.external == []
    ensures Discover(env, g).external == Found(env) && Discover(env, g).resolution == g.resolution && Discover(env, g).proxies == g.proxies
  {
    hide Survivors, Collected, WithExternalGaps;
    NothingCollected();
    var records := External(env);
    var noted := g.(conflicting := g.conflicting || SeenAll(Collected(env.connectors)).conflicting != {});
    ExternalGapsAsk(env, noted.(external := env.evaluate(records)), records);
  }

  lemma ExternalStage(env: Environment, l: Graph)
    requires ExternalResolved(env, l).Ok?
    ensures var x := ExternalResolved(env, l).value;
            if l.resolution == [] && l.requestGaps == [] && l.external == []
            then Became(env, Found(env), x.resolution) && x.external == Found(env) && x.proxies == l.proxies
            else l.resolution != [] || l.requestGaps != [] ==> x == l
  {
    hide ResolveGraph, Resolved, Discover, Found;
    if l.resolution == [] && l.requestGaps == [] && l.external == [] {
      var d := Discover(env, l);
      DiscoverFinds(env, l);
      if d.external == [] {
        NothingBecomesNothing(env);
      } else {
        ResolvedIs(env, d.(resolution := Analyzed(env, d.external)));
        ResolveKeeps(env, d.(resolution := Analyzed(env, d.external)));
        BecameAnalyzed(env, d.external, ResolveGraph(env, d.(resolution := Analyzed(env, d.external))).value.resolution);
      }
    }
  }

  /** The gaps of stand-ins are analyzed once more when they enter the resolution. */
  ghost predicate BecameTwice(env: Environment, cs: seq<Candidate>, rs: seq<Candidate>) {
    exists gapped :: |gapped| == |cs| && (forall i :: 0 <= i < |cs| ==> GapsFound(env, cs[i], gapped[i])) && Became(env, gapped, rs)
  }

  lemma ProxyStage(env: Environment, x: Graph)
    requires ProxiesResolved(env, x).Ok?
    ensures var p := ProxiesResolved(env, x).value;
            && p == x.(proxies := p.proxies, requiredFields := p.requiredFields)
            && (if NeedsProxy(x) then BecameTwice(env, env.proxies, p.proxies) else p == x)
            && (p.requiredFields == [] ==> x.requiredFields == [])
  {
    hide ResolveGraph, Resolved, NeedsProxy;
    if NeedsProxy(x) {
      var proxies := Analyzed(env, env.proxies);
      if proxies == [] {
        NothingBecomesNothing(env);
      } else {
        var g := x.(resolution := Analyzed(env, proxies), proxies := []);
        ResolvedIs(env, g);
        ResolveKeeps(env, g);
        BecameAnalyzed(env, proxies, ResolveGraph(env, g).value.resolution);
      }
      AnalyzedMeans(env, env.proxies);
    }
  }

  /** The candidates of a finished run, re-evaluated, and capped if the request is incomplete: what became of the local
      ones; where there are none left and the request is complete, what became of the external ones; and, where no
      external record was found, nothing is asked and either nothing is left or a material is absent, what became of
      the stand-ins. */
  lemma StagesMean(env: Environment) returns (local: seq<Candidate>, found: seq<Candidate>, standIns: seq<Candidate>)
    requires Finished(env).Ok?
    ensures Became(env, env.localCandidates, local)
    ensures if local == [] && env.requestGaps + env.localGaps == [] then Became(env, Found(env), found) else found == []
    ensures var g := Finished(env).value;
            && (exists rs :: Reevaluations(env, local + found, rs) && if g.requestGaps != [] then CappedAsIncomplete(rs, g.resolution) else g.resolution == rs)
            && g.external == (if env.requestGaps + env.localGaps != [] || local == [] then Found(env) else [])
            && Reevaluations(env, standIns, g.proxies)
            && (standIns != [] ==> g.requestGaps == [] && g.external == [] && (local + found == [] || MaterialAbsent(local + found))
                                   && BecameTwice(env, env.proxies, standIns))
            && (g.requiredFields == [] && g.external == [] && (local + found == [] || MaterialAbsent(local + found)) ==>
                BecameTwice(env, env.proxies, standIns))
  {
    hide Resolved, Discover, LocalResolved, ExternalResolved, ProxiesResolved, Became, BecameTwice, Reevaluated, Reevaluations, CapAll, CappedAsIncomplete,
         Found, MaterialAbsent, NeedsProxy;
    var gaps := env.requestGaps + env.localGaps;
    var p := Prepared(env, env.localCandidates, gaps);
    PreparedKeeps(env, env.localCandidates, gaps);
    PreparedFinds(env, gaps);
    var l := LocalResolved(env, p).value;
    LocalStage(env, p);
    LocalKeeps(env, p);
    var x := ExternalResolved(env, l).value;
    ExternalStage(env, l);
    ExternalAsks(env, l);
    var r := ProxiesResolved(env, x).value;
    ProxyStage(env, x);
    local := l.resolution;
    found := if l.resolution == [] && l.requestGaps == [] then x.resolution else [];
    standIns := r.proxies;
    assert local + found == x.resolution;
    NeedsProxyIff(x);
    ReevaluatedMeans(env, r.resolution);
    ReevaluatedMeans(env, r.proxies);
    CapMeans(Reevaluated(r.resolution, env.minScore));
  }

  lemma PreparedFinds(env: Environment, gaps: seq<string>)
    ensures var p := Prepared(env, env.localCandidates, gaps);
            && p.external == (if gaps != [] then Found(env) else [])
            && p.requestGaps == (if gaps != [] then Discover(env, Graph(gaps, [], env.localCandidates, [], [], false)).requestGaps else [])
  {
    hide Discover, Found;
    DiscoverFinds(env, Graph(gaps, [], env.localCandidates, [], [], false));
  }

  /** The gap is one external evidence opens. */
  ghost predicate OpenedOutside(env: Environment, f: string) {
    External(env) != []
    && ((f == "subject_type" && env.subjectUnknown && exists r :: r in External(env) && r.subject != "")
        || (f == "route" && env.routeOpen && TwoRoutes(env, Found(env))))
  }

  lemma NothingDiscovered(env: Environment, g: Graph)
    requires External(env) == []
    ensures Discover(env, g).requestGaps == g.requestGaps
  {
    hide Survivors, Collected;
    NothingCollected();
  }

  lemma DiscoveryOpens(env: Environment, g: Graph, f: string)
    ensures f in Discover(env, g).requestGaps <==> f in g.requestGaps || OpenedOutside(env, f)
  {
    hide Discover, External, TwoRoutes;
    if External(env) == [] { NothingDiscovered(env, g); } else { DiscoveryAsksIff(env, g, f); }
  }

  /** The gaps a run ends with: those of the request and of its local evaluation, and, where external evidence is looked
      for, those it opens. It is looked for if the request is incomplete, or if no local candidate is left. */
  lemma RunGapsIff(env: Environment, f: string) returns (local: seq<Candidate>)
    requires Finished(env).Ok?
    ensures Became(env, env.localCandidates, local)
    ensures var gaps := env.requestGaps + env.localGaps;
            f in Finished(env).value.requestGaps <==> f in gaps || ((gaps != [] || local == []) && OpenedOutside(env, f))
  {
    hide Resolved, Discover, LocalResolved, ExternalResolved, ProxiesResolved, Became, BecameTwice, Reevaluated, CapAll, Found, NeedsProxy, OpenedOutside;
    var gaps := env.requestGaps + env.localGaps;
    var p := Prepared(env, env.localCandidates, gaps);
    PreparedKeeps(env, env.localCandidates, gaps);
    PreparedFinds(env, gaps);
    DiscoveryOpens(env, Graph(gaps, [], env.localCandidates, [], [], false), f);
    var l := LocalResolved(env, p).value;
    LocalStage(env, p);
    LocalKeeps(env, p);
    local := l.resolution;
    var x := ExternalResolved(env, l).value;
    ExternalStage(env, l);
    if l.resolution == [] && l.requestGaps == [] { ExternalGaps(env, l); }
    DiscoveryOpens(env, l, f);
    ProxyStage(env, x);
  }

  lemma ExternalGaps(env: Environment, l: Graph)
    requires ExternalResolved(env, l).Ok? && l.resolution == [] && l.requestGaps == []
    ensures ExternalResolved(env, l).value.requestGaps == Discover(env, l).requestGaps
  {
    hide ResolveGraph, Discover;
    var d := Discover(env, l);
    if d.external != [] { ResolveKeeps(env, d.(resolution := Analyzed(env, d.external))); }
  }

  lemma ExternalAsks(env: Environment, l: Graph)
    requires ExternalResolved(env, l).Ok? && GapsAsk(l) && (l.requestGaps == [] ==> l.external == [])
    ensures GapsAsk(ExternalResolved(env, l).value) && l.requestGaps <= ExternalResolved(env, l).value.requestGaps
  {
    ExternalKeeps(env, l);
  }

  lemma NeedsProxyIff(x: Graph)
    ensures NeedsProxy(x) <==> x.requiredFields == [] && x.external == [] && (x.resolution == [] || MaterialAbsent(x.resolution))
  {}

  // ---- the recommendation of a run ----

  /** The candidates of the finished run that compete: of every id the first of the strongest. */
  function Competing(g: Graph): seq<Candidate> {
    Ranked(g.resolution + g.proxies)
  }

  /** The request leaves the attribute open, and competing candidates that could be offered disagree about it. */
  ghost predicate OpenIn(env: Environment, g: Graph, f: Field) {
    && g.requestGaps == [] && f !in env.decisive
    && exists c, d :: c in Competing(g) && d in Competing(g) && InPlay(c) && InPlay(d) && Differ(c.source, d.source, f)
  }

  lemma OpenInIff(env: Environment, g: Graph)
    ensures forall f :: LeftOpen(TopKInputs(env, g), f) <==> OpenIn(env, g, f)
  {
    hide Ranked, InPlay, Differ;
  }

  /** A run recommends something exactly when a competing candidate is sufficient and nothing is missing: no gap of the
      request, no error in its unit, no open attribute. Everything offered competes. */
  lemma RunRecommendsIff(env: Environment)
    requires env.normalized && env.topK > 0 && Finished(env).Ok?
    ensures var g := Finished(env).value;
            Recommended(env).value.candidates != [] <==>
              && (exists c :: c in Competing(g) && Sufficient(c))
              && g.requestGaps == [] && env.requestUnitCodes == {} && !(exists f :: OpenIn(env, g, f))
    ensures forall c :: c in Recommended(env).value.candidates ==> c in Competing(Finished(env).value) && Sufficient(c)
  {
    hide Finished, Ranked, Select, OpenIn, LeftOpen, Sufficient;
    var g := Finished(env).value;
    SelectedIff(TopKInputs(env, g));
    ListsPassGates(TopKInputs(env, g));
    OpenInIff(env, g);
  }

  /** Why a run recommends nothing, in order of precedence. */
  lemma RunStatusLaw(env: Environment)
    requires env.normalized && env.topK > 0 && Finished(env).Ok? && Recommended(env).value.candidates == []
    ensures var g, codes := Finished(env).value, env.requestUnitCodes + env.recordUnitCodes;
            Recommended(env).value.status ==
              if UNIT_CONVERSION_EVIDENCE_REQUIRED in codes then MORE_INPUT_NEEDED
              else if codes != {} || g.conflicting then UNRESOLVED
              else if Recommended(env).value.requiredFields != [] then MORE_INPUT_NEEDED
              else if Recommended(env).value.reviewable != [] then REFERENCE_REVIEW_REQUIRED
              else if exists c :: c in Competing(g) && ProcessVariantBlocked(c) then PROCESS_MODEL_REQUIRED
              else if env.admissionRejected || exists c :: c in Competing(g) && GradeConflicted(c) then UNRESOLVED
              else SUPPLIER_DATA_REQUIRED
  {
    hide Finished, Ranked, Select, ProcessVariantBlocked, GradeConflicted;
    OpenStatusLaw(TopKInputs(env, Finished(env).value));
  }

  /** What a run asks for. */
  lemma RunAsksIff(env: Environment, name: string)
    requires env.normalized && Finished(env).Ok?
    ensures var g := Finished(env).value;
            name in Recommended(env).value.requiredFields <==>
              || name in g.requiredFields
              || (name == "unit_conversion_evidence" && UNIT_CONVERSION_EVIDENCE_REQUIRED in env.requestUnitCodes + env.recordUnitCodes)
              || exists f :: FieldName(f) == name && OpenIn(env, g, f)
  {
    hide Finished, Ranked, Select, OpenIn, LeftOpen, FieldName;
    var g := Finished(env).value;
    RequiredIff(TopKInputs(env, g), name);
    OpenInIff(env, g);
  }
}
