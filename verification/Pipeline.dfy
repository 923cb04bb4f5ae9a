/** The resolution graph from local evaluation to its recommendation (A1ResolutionGraph.run in engine.py and
    the resolution nodes of nodes.py). Retrieval, qualification and gap analysis are what the environment says. */
module Pipeline {
  import opened Prelude
  import opened Units
  import opened Models
  import opened Derivation
  import opened DerivationChain
  import opened Ranking
  import Sorting
  import opened TopK
  import ProcessAdjustment
  import GradeResolution
  import ReferenceFlow
  import ReviewTheorems

  datatype Router = PROCESS_VARIANT | GRADE_COMPOSITION

  /** A record an external extractor returned: its decision digest and, when it is not a material, its subject. */
  datatype Extracted = Extracted(sourceId: string, digest: string, subject: string, source: Source)

  /** What fetching and extracting one reference comes to. */
  datatype Reply = Failed | Extracts(records: seq<Extracted>)

  /** A connector whose discovery raised, one that cannot fetch, or one that found references. */
  datatype Connector = Unavailable | DiscoveryOnly | References(replies: seq<Reply>)

  /** Everything a run asks of its ports, its policy and the request. */
  datatype Environment = Environment(
    normalized: bool,
    activity: Activity,
    unitText: string,
    topK: nat,
    minScore: real,
    decisive: Decisive,
    requestGaps: seq<string>,
    requestUnitCodes: set<UnitCode>,
    recordUnitCodes: set<UnitCode>,
    admissionRejected: bool,
    localCandidates: seq<Candidate>,
    localGaps: seq<string>,
    discoveryConfigured: bool,
    connectors: seq<Connector>,
    evaluate: seq<Extracted> -> seq<Candidate>,
    subjectUnknown: bool,
    routeOpen: bool,
    variant: Candidate -> string,
    analyze: Candidate -> seq<Gap>,
    preferred: Source -> seq<Router>,
    flows: seq<ReferenceFlow.FlowRecord>,
    product: Candidate -> ReferenceFlow.Product,
    evidence: Source -> seq<ProcessAdjustment.Evidence>,
    series: Candidate -> seq<Source>,
    target: Option<real>,
    spell: real -> string,
    proxies: seq<Candidate>)

  ghost predicate AllConsistent(cs: seq<Candidate>) {
    forall c :: c in cs ==> Consistent(c)
  }

  /** Candidates enter the graph fresh from a qualified record. */
  ghost predicate FreshFrom(a: Activity, cs: seq<Candidate>) {
    forall c :: c in cs ==> FreshCandidate(a, c.source, c)
  }

  ghost predicate EntersFresh(env: Environment) {
    FreshFrom(env.activity, env.localCandidates) && FreshFrom(env.activity, env.proxies)
    && forall xs: seq<Extracted> :: FreshFrom(env.activity, env.evaluate(xs))
  }

  lemma FreshConsistent(a: Activity, cs: seq<Candidate>)
    requires FreshFrom(a, cs)
    ensures AllConsistent(cs)
  {
    forall c | c in cs ensures Consistent(c) { FreshIsConsistent(a, c.source, c); }
  }

  // ---- what each node makes of one candidate ----

  predicate HasGap(c: Candidate, t: GapType) {
    exists i :: 0 <= i < |c.gaps| && c.gaps[i].gapType == t
  }

  function WithoutGap(c: Candidate, t: GapType): Candidate {
    c.(gaps := Filter(c.gaps, (g: Gap) => g.gapType != t))
  }

  function WithoutGaps(cs: seq<Candidate>, t: GapType): (r: seq<Candidate>)
    ensures |r| == |cs| && forall i :: 0 <= i < |r| ==> r[i] == WithoutGap(cs[i], t)
  {
    seq(|cs|, i requires 0 <= i < |cs| => WithoutGap(cs[i], t))
  }

  datatype Node = UNIT_SCALE | REFERENCE_FLOW | PROCESS_NODE | GRADE_NODE

  function One(r: Result<Candidate>): Result<seq<Candidate>> {
    match r case Ok(c) => Ok([c]) case Err(e) => Err(e)
  }

  /** The candidates a node puts in the place of one. */
  function Transform(env: Environment, node: Node, c: Candidate): Result<seq<Candidate>> {
    match node
    case UNIT_SCALE => One(ResolveUnitScale(env.activity, c))
    case REFERENCE_FLOW =>
      if !HasGap(c, REFERENCE_FLOW_GAP) then Ok([c])
      else
        (match ReferenceFlow.ConvertAll(env.activity, env.product(c), c, env.flows)
         case Err(e) => Err(e)
         case Ok(cs) => Ok(WithoutGaps(cs, REFERENCE_FLOW_GAP)))
    case PROCESS_NODE =>
      if !HasGap(c, PROCESS_VARIANT_GAP) then Ok([c])
      else
        (match ProcessNode(c, env.evidence(c.source))
         case Err(e) => Err(e)
         case Ok(d) => Ok([if d.resolutionType == PROCESS_ADJUSTED then WithoutGap(d, PROCESS_VARIANT_GAP) else d]))
    case GRADE_NODE =>
      if !HasGap(c, GRADE_COMPOSITION_GAP) then Ok([c])
      else
        (match GradeResolution.ResolveGrade(c, env.series(c), env.target, env.spell)
         case Err(e) => Err(e)
         case Ok(d) =>
           Ok([if d.resolutionType in {GRADE_EXACT_ANCHOR, GRADE_INTERPOLATED, GRADE_ADJUSTED} then WithoutGap(d, GRADE_COMPOSITION_GAP) else d]))
  }

  /** A node over all candidates, in order; the first error ends the run. */
  function TransformAll(env: Environment, node: Node, cs: seq<Candidate>): Result<seq<Candidate>> {
    if cs == [] then Ok([])
    else
      match TransformAll(env, node, cs[..|cs| - 1])
      case Err(e) => Err(e)
      case Ok(front) =>
        match Transform(env, node, cs[|cs| - 1])
        case Err(e) => Err(e)
        case Ok(next) => Ok(front + next)
  }

  lemma NotesKeepConsistency(c: Candidate, d: Candidate)
    requires Consistent(c)
    requires d.factorValue == c.factorValue && d.factorUnit == c.factorUnit && d.activityValue == c.activityValue
    requires d.activityUnit == c.activityUnit && d.quantityKg == c.quantityKg && d.totalKg == c.totalKg
    ensures Consistent(d)
  {}

  lemma TransformKeepsConsistency(env: Environment, node: Node, c: Candidate)
    requires Consistent(c) && Transform(env, node, c).Ok?
    ensures AllConsistent(Transform(env, node, c).value)
  {
    hide Consistent, ResolveUnitScale, ProcessNode, ReferenceFlow.ConvertAll, GradeResolution.ResolveGrade, HasGap;
    match node
    case UNIT_SCALE => UnitScaleKeepsConsistency(env.activity, c);
    case REFERENCE_FLOW =>
      if HasGap(c, REFERENCE_FLOW_GAP) {
        ReferenceFlow.AllConsistent(env.activity, env.product(c), c, env.flows);
        var cs := ReferenceFlow.ConvertAll(env.activity, env.product(c), c, env.flows).value;
        forall i | 0 <= i < |cs| ensures Consistent(WithoutGap(cs[i], REFERENCE_FLOW_GAP)) {
          NotesKeepConsistency(cs[i], WithoutGap(cs[i], REFERENCE_FLOW_GAP));
        }
      }
    case PROCESS_NODE =>
      if HasGap(c, PROCESS_VARIANT_GAP) {
        ProcessNodeKeepsConsistency(c, env.evidence(c.source));
        var d := ProcessNode(c, env.evidence(c.source)).value;
        NotesKeepConsistency(d, WithoutGap(d, PROCESS_VARIANT_GAP));
      }
    case GRADE_NODE =>
      if HasGap(c, GRADE_COMPOSITION_GAP) {
        GradeResolution.GradeKeepsConsistency(c, env.series(c), env.target, env.spell);
        var d := GradeResolution.ResolveGrade(c, env.series(c), env.target, env.spell).value;
        NotesKeepConsistency(d, WithoutGap(d, GRADE_COMPOSITION_GAP));
      }
  }

  lemma {:induction false} TransformAllConsistent(env: Environment, node: Node, cs: seq<Candidate>)
    requires AllConsistent(cs) && TransformAll(env, node, cs).Ok?
    ensures AllConsistent(TransformAll(env, node, cs).value)
  {
    hide Transform, Consistent;
    if cs != [] {
      assert cs[|cs| - 1] in cs;
      TransformAllConsistent(env, node, cs[..|cs| - 1]);
      TransformKeepsConsistency(env, node, cs[|cs| - 1]);
    }
  }

  lemma {:induction false} StuckTransform(env: Environment, node: Node, cs: seq<Candidate>, n: nat)
    requires n <= |cs| && TransformAll(env, node, cs[..n]).Err?
    ensures TransformAll(env, node, cs) == TransformAll(env, node, cs[..n])
    decreases |cs|
  {
    hide Transform;
    if n == |cs| {
      assert cs[..n] == cs;
    } else {
      assert cs[..|cs| - 1][..n] == cs[..n];
      StuckTransform(env, node, cs[..|cs| - 1], n);
    }
  }

  /** _technical_order */
  function TechnicalOrder(env: Environment, c: Candidate): seq<Router> {
    Dedup(env.preferred(c.source) + [PROCESS_VARIANT, GRADE_COMPOSITION])
  }

  /** Both technical routers are visited exactly once, whatever order the record prefers. */
  lemma EachRouterOnce(env: Environment, c: Candidate)
    ensures var order := TechnicalOrder(env, c);
            |order| == 2 && (order == [PROCESS_VARIANT, GRADE_COMPOSITION] || order == [GRADE_COMPOSITION, PROCESS_VARIANT])
  {
    var order := TechnicalOrder(env, c);
    var all := env.preferred(c.source) + [PROCESS_VARIANT, GRADE_COMPOSITION];
    assert all[|all| - 2] == PROCESS_VARIANT && all[|all| - 1] == GRADE_COMPOSITION;
    assert PROCESS_VARIANT in order && GRADE_COMPOSITION in order;
    assert |order| > 2 ==> order[0] != order[1] && order[1] != order[2] && order[0] != order[2];
  }

  /** _reference_flow_required_fields */
  function FlowFields(unit: string): (r: seq<string>)
    ensures r != []
  {
    if unit in ["piece", "pieces", "count", "unit", "个", "件"] then ["mass_per_piece", "dimensions+density"]
    else if unit in ["m3", "m³", "cubic metre", "cubic meter"] then ["density"]
    else if unit in ["m2", "m²", "square metre", "square meter"] then ["thickness", "density"]
    else if unit == "bag" || unit == "袋" then ["mass_per_bag"]
    else if unit == "roll" || unit == "卷" then ["mass_per_roll"]
    else ["mass_per_" + (if unit == "" then "reference_unit" else unit)]
  }

  // ---- external records ----

  /** The records of the references that could be fetched and extracted. */
  function Answered(replies: seq<Reply>): seq<Extracted> {
    if replies == [] then []
    else Answered(replies[..|replies| - 1]) + (match replies[|replies| - 1] case Failed => [] case Extracts(records) => records)
  }

  /** All records, connector by connector. */
  function Collected(connectors: seq<Connector>): seq<Extracted> {
    if connectors == [] then []
    else
      Collected(connectors[..|connectors| - 1])
      + (match connectors[|connectors| - 1] case References(replies) => Answered(replies) case _ => [])
  }

  lemma {:induction false} AnsweredConcat(xs: seq<Reply>, ys: seq<Reply>)
    ensures Answered(xs + ys) == Answered(xs) + Answered(ys)
  {
    if ys == [] {
      assert xs + ys == xs;
    } else {
      assert (xs + ys)[..|xs + ys| - 1] == xs + ys[..|ys| - 1];
      AnsweredConcat(xs, ys[..|ys| - 1]);
    }
  }

  lemma {:induction false} CollectedConcat(xs: seq<Connector>, ys: seq<Connector>)
    ensures Collected(xs + ys) == Collected(xs) + Collected(ys)
  {
    hide Answered;
    if ys == [] {
      assert xs + ys == xs;
    } else {
      assert (xs + ys)[..|xs + ys| - 1] == xs + ys[..|ys| - 1];
      CollectedConcat(xs, ys[..|ys| - 1]);
    }
  }

  lemma CollectedOne(c: Connector)
    ensures Collected([c]) == match c case References(replies) => Answered(replies) case _ => []
  {
    hide Answered;
    assert [c][..0] == [];
  }

  lemma CollectedAround(xs: seq<Connector>, c: Connector, ys: seq<Connector>)
    ensures Collected(xs + [c] + ys) == Collected(xs) + Collected([c]) + Collected(ys)
  {
    hide Collected;
    CollectedConcat(xs + [c], ys);
    CollectedConcat(xs, [c]);
  }

  /** A connector that is unavailable, or a reference that cannot be fetched, takes nothing from the others. */
  lemma FailuresStayLocal(xs: seq<Connector>, ys: seq<Connector>, rs: seq<Reply>, qs: seq<Reply>)
    ensures Collected(xs + [Unavailable] + ys) == Collected(xs + ys)
    ensures Collected(xs + [References(rs + [Failed] + qs)] + ys) == Collected(xs + [References(rs + qs)] + ys)
  {
    CollectedOne(Unavailable);
    CollectedAround(xs, Unavailable, ys);
    CollectedConcat(xs, ys);
    hide Collected;
    FailedReply(rs, qs);
    CollectedOne(References(rs + [Failed] + qs));
    CollectedOne(References(rs + qs));
    CollectedAround(xs, References(rs + [Failed] + qs), ys);
    CollectedAround(xs, References(rs + qs), ys);
  }

  lemma FailedReply(rs: seq<Reply>, qs: seq<Reply>)
    ensures Answered(rs + [Failed] + qs) == Answered(rs + qs)
  {
    AnsweredConcat(rs + [Failed], qs);
    AnsweredConcat(rs, [Failed]);
    AnsweredConcat(rs, qs);
    assert [Failed][..0] == [];
  }

  /** The loop over connectors. */
  method Collect(connectors: seq<Connector>) returns (records: seq<Extracted>)
    ensures records == Collected(connectors)
  {
    hide Answered;
    records := [];
    var i := 0;
    while i < |connectors|
      invariant 0 <= i <= |connectors| && records == Collected(connectors[..i])
    {
      assert connectors[..i + 1][..i] == connectors[..i];
      if connectors[i].References? {
        var answered := FetchAll(connectors[i].replies);
        records := records + answered;
      }
      i := i + 1;
    }
    assert connectors[..i] == connectors;
  }

  /** The loop over the references of one connector. */
  method FetchAll(replies: seq<Reply>) returns (records: seq<Extracted>)
    ensures records == Answered(replies)
  {
    records := [];
    var i := 0;
    while i < |replies|
      invariant 0 <= i <= |replies| && records == Answered(replies[..i])
    {
      assert replies[..i + 1][..i] == replies[..i];
      if replies[i].Extracts? {
        records := records + replies[i].records;
      }
      i := i + 1;
    }
    assert replies[..i] == replies;
  }

  /** Some record shares the id of records[i] but decides differently. */
  predicate Conflicting(records: seq<Extracted>, id: string) {
    exists i, j :: 0 <= i < |records| && 0 <= j < |records| && Conflict(records[i], records[j], id)
  }

  predicate Conflict(x: Extracted, y: Extracted, id: string) {
    x.sourceId == id && y.sourceId == id && x.digest != y.digest
  }

  predicate FirstOfId(records: seq<Extracted>, r: Extracted) {
    exists k :: 0 <= k < |records| && records[k] == r && forall i :: 0 <= i < k ==> records[i].sourceId != r.sourceId
  }

  /** The loop's dictionaries: the first record of every id, in order of appearance, and the ids found to conflict. */
  datatype Seen = Seen(first: map<string, Extracted>, order: seq<Extracted>, conflicting: set<string>)

  ghost predicate FirstsInv(records: seq<Extracted>, s: Seen) {
    && (forall i :: 0 <= i < |records| ==> records[i].sourceId in s.first)
    && (forall id :: id in s.first ==> s.first[id].sourceId == id && FirstOfId(records, s.first[id]))
    && (forall r :: r in s.order <==> r.sourceId in s.first && s.first[r.sourceId] == r)
  }

  ghost predicate ConflictsInv(records: seq<Extracted>, s: Seen)
    requires FirstsInv(records, s)
  {
    forall id :: id in s.conflicting <==> exists i :: 0 <= i < |records| && records[i].sourceId == id && records[i].digest != s.first[id].digest
  }

  function See(s: Seen, r: Extracted): Seen {
    if r.sourceId !in s.first then Seen(s.first[r.sourceId := r], s.order + [r], s.conflicting)
    else if s.first[r.sourceId].digest != r.digest then s.(conflicting := s.conflicting + {r.sourceId})
    else s
  }

  lemma FirstExtends(front: seq<Extracted>, r: Extracted, x: Extracted)
    requires FirstOfId(front, x)
    ensures FirstOfId(front + [r], x)
  {
    var k :| 0 <= k < |front| && front[k] == x && forall i :: 0 <= i < k ==> front[i].sourceId != x.sourceId;
    assert (front + [r])[k] == x;
  }

  lemma SeeFirsts(front: seq<Extracted>, s: Seen, r: Extracted)
    requires FirstsInv(front, s)
    ensures FirstsInv(front + [r], See(s, r))
  {
    var longer, t := front + [r], See(s, r);
    forall id | id in t.first ensures t.first[id].sourceId == id && FirstOfId(longer, t.first[id]) {
      if id in s.first { FirstExtends(front, r, s.first[id]); } else { assert longer[|front|] == r; }
    }
    hide FirstOfId;
  }

  lemma SeeConflicts(front: seq<Extracted>, s: Seen, r: Extracted)
    requires FirstsInv(front, s) && ConflictsInv(front, s) && FirstsInv(front + [r], See(s, r))
    ensures ConflictsInv(front + [r], See(s, r))
  {
    hide FirstOfId;
    var longer, t := front + [r], See(s, r);
    forall id ensures id in t.conflicting <==> exists i :: 0 <= i < |longer| && longer[i].sourceId == id && longer[i].digest != t.first[id].digest {
      if i :| 0 <= i < |front| && front[i].sourceId == id && front[i].digest != s.first[id].digest { assert longer[i] == front[i]; }
      assert longer[|front|] == r;
    }
  }

  function SeenAll(records: seq<Extracted>): Seen {
    if records == [] then Seen(map[], [], {}) else See(SeenAll(records[..|records| - 1]), records[|records| - 1])
  }

  lemma {:induction false} SeenAllInv(records: seq<Extracted>)
    ensures FirstsInv(records, SeenAll(records)) && ConflictsInv(records, SeenAll(records))
  {
    if records != [] {
      var front, last := records[..|records| - 1], records[|records| - 1];
      assert records == front + [last];
      SeenAllInv(front);
      SeeFirsts(front, SeenAll(front), last);
      SeeConflicts(front, SeenAll(front), last);
    }
  }

  function Without(records: seq<Extracted>, ids: set<string>): seq<Extracted> {
    Filter(records, (r: Extracted) => r.sourceId !in ids)
  }

  /** The records that enter the graph: the first of every id, unless the id has a conflict. */
  function Survivors(records: seq<Extracted>): seq<Extracted> {
    Without(SeenAll(records).order, SeenAll(records).conflicting)
  }

  /** Comparing later records with the first of their id only is enough to find every conflict. */
  lemma ConflictsFound(records: seq<Extracted>)
    ensures forall id :: id in SeenAll(records).conflicting <==> Conflicting(records, id)
    ensures forall r :: r in Survivors(records) <==> FirstOfId(records, r) && !Conflicting(records, r.sourceId)
  {
    SeenAllInv(records);
    ConflictsSeen(records, SeenAll(records));
    FirstsAreIndexed(records, SeenAll(records));
    hide FirstsInv, ConflictsInv, Conflicting, FirstOfId, SeenAll;
  }

  /** The dedup loop of _discover_external. */
  method Deduplicate(records: seq<Extracted>) returns (unique: seq<Extracted>, conflicting: set<string>)
    ensures unique == Survivors(records) && conflicting == SeenAll(records).conflicting
  {
    var first: map<string, Extracted>, order: seq<Extracted>, n := map[], [], 0;
    conflicting := {};
    while n < |records|
      invariant 0 <= n <= |records|
      invariant SeenAll(records[..n]) == Seen(first, order, conflicting)
    {
      var r := records[n];
      assert records[..n + 1][..n] == records[..n];
      if r.sourceId !in first {
        first := first[r.sourceId := r];
        order := order + [r];
      } else if first[r.sourceId].digest != r.digest {
        conflicting := conflicting + {r.sourceId};
      }
      n := n + 1;
    }
    assert records[..n] == records;
    unique := Without(order, conflicting);
  }

  lemma ConflictsSeen(records: seq<Extracted>, s: Seen)
    requires FirstsInv(records, s) && ConflictsInv(records, s)
    ensures forall id :: id in s.conflicting <==> Conflicting(records, id)
  {
    forall id ensures id in s.conflicting <==> Conflicting(records, id) {
      if id in s.conflicting {
        var i :| 0 <= i < |records| && records[i].sourceId == id && records[i].digest != s.first[id].digest;
        var k :| 0 <= k < |records| && records[k] == s.first[id];
        assert Conflict(records[i], records[k], id);
      }
      if Conflicting(records, id) {
        var i, j :| 0 <= i < |records| && 0 <= j < |records| && Conflict(records[i], records[j], id);
        assert records[i].digest != s.first[id].digest || records[j].digest != s.first[id].digest;
      }
    }
  }

  lemma FirstsAreIndexed(records: seq<Extracted>, s: Seen)
    requires FirstsInv(records, s)
    ensures forall r :: FirstOfId(records, r) <==> r in s.order
  {
    forall r | FirstOfId(records, r) ensures r in s.order {
      var k :| 0 <= k < |records| && records[k] == r && forall i :: 0 <= i < k ==> records[i].sourceId != r.sourceId;
      var m :| 0 <= m < |records| && records[m] == s.first[r.sourceId] && forall i :: 0 <= i < m ==> records[i].sourceId != r.sourceId;
      assert k == m;
    }
  }

  // ---- the graph state ----

  const INCOMPLETE_NOTE := "request identity is incomplete; subtype evidence is required before selection"

  function Analyzed(env: Environment, cs: seq<Candidate>): (r: seq<Candidate>)
    ensures |r| == |cs| && forall i :: 0 <= i < |r| ==> r[i] == Finalize(cs[i].(gaps := env.analyze(cs[i])), None)
  {
    seq(|cs|, i requires 0 <= i < |cs| => Finalize(cs[i].(gaps := env.analyze(cs[i])), None))
  }

  function Reevaluated(cs: seq<Candidate>, minScore: real): (r: seq<Candidate>)
    ensures |r| == |cs| && forall i :: 0 <= i < |r| ==> r[i] == Finalize(cs[i], Some(minScore))
  {
    seq(|cs|, i requires 0 <= i < |cs| => Finalize(cs[i], Some(minScore)))
  }

  lemma NodesKeepConsistency(env: Environment, cs: seq<Candidate>, note: string)
    requires AllConsistent(cs)
    ensures AllConsistent(Analyzed(env, cs)) && AllConsistent(Reevaluated(cs, env.minScore)) && AllConsistent(CapAll(cs, note))
  {
    hide Consistent;
    forall i | 0 <= i < |cs|
      ensures Consistent(Analyzed(env, cs)[i]) && Consistent(Reevaluated(cs, env.minScore)[i]) && Consistent(CapAll(cs, note)[i])
    {
      assert cs[i] in cs;
      NotesKeepConsistency(cs[i], Analyzed(env, cs)[i]);
      NotesKeepConsistency(cs[i], Reevaluated(cs, env.minScore)[i]);
      NotesKeepConsistency(cs[i], CapAll(cs, note)[i]);
    }
  }

  lemma RankingKeepsConsistency(cs: seq<Candidate>)
    requires AllConsistent(cs)
    ensures AllConsistent(Ranked(cs))
  {
    hide Consistent;
    PoolKeeps(cs);
    RankHolds(cs);
    forall c | c in Ranked(cs) ensures c in cs {
      assert Kept(cs, c);
    }
  }

  lemma CappedKeepsConsistency(c: Candidate, note: string)
    requires Consistent(c)
    ensures Consistent(Capped(c, note))
  {
    hide Consistent;
    NotesKeepConsistency(c, Capped(c, note));
  }

  /** Nothing that Top-K returns can fail the total check of lock. */
  lemma SelectionPassesLock(x: Inputs)
    requires AllConsistent(x.ranked)
    ensures forall c :: c in Select(x).candidates + Select(x).reviewable ==> LockTotalCheck(c).Ok?
  {
    ListsPassGates(x);
    hide Consistent, Select, LockTotalCheck;
    forall c | c in Select(x).candidates + Select(x).reviewable ensures LockTotalCheck(c).Ok? {
      if c in Select(x).candidates {
        ConsistentPassesLock(c);
      } else {
        ReviewableOrigin(x, c);
        var d :| d in x.ranked && (c == d || c == Capped(d, AMBIGUITY_NOTE));
        CappedKeepsConsistency(d, AMBIGUITY_NOTE);
        ConsistentPassesLock(c);
      }
    }
  }

  lemma SelectionFacts(x: Inputs, cs: seq<Candidate>)
    requires x.ranked == Ranked(cs)
    ensures x.requestGaps != [] && x.requiredFields != [] ==>
      Select(x).candidates == [] && (Select(x).status == MORE_INPUT_NEEDED || Select(x).status == UNRESOLVED)
    ensures forall c :: c in Select(x).candidates ==> Sufficient(c)
    ensures forall c :: c in Select(x).reviewable ==> !HardRejected(c) && c.resultTier == REFERENCE_ONLY
    ensures DisjointIds(Select(x).candidates, Select(x).reviewable)
    ensures AllConsistent(cs) ==> forall c :: c in Select(x).candidates + Select(x).reviewable ==> LockTotalCheck(c).Ok?
  {
    hide Consistent, LockTotalCheck, HardRejected, Sufficient, DisjointIds, Select;
    RankingSorted(cs);
    ListsPassGates(x);
    ListsDisjoint(x);
    if x.requestGaps != [] && x.requiredFields != [] { IncompleteNeverSelectable(x); }
    if AllConsistent(cs) {
      RankingKeepsConsistency(cs);
      SelectionPassesLock(x);
    }
  }

  /** The product routes the external candidates name. */
  function Variants(env: Environment, cs: seq<Candidate>): seq<string> {
    Dedup(Filter(seq(|cs|, i requires 0 <= i < |cs| => env.variant(cs[i])), (v: string) => v != ""))
  }

  predicate HasField(fields: seq<string>, f: string) {
    exists i :: 0 <= i < |fields| && fields[i] == f
  }

  // ---- the run, as a function of its environment ----

  /** GraphState, as far as the recommendation depends on it. */
  datatype Graph = Graph(
    requestGaps: seq<string>,
    requiredFields: seq<string>,
    resolution: seq<Candidate>,
    proxies: seq<Candidate>,
    external: seq<Candidate>,
    conflicting: bool)

  ghost predicate GraphConsistent(g: Graph) {
    AllConsistent(g.resolution) && AllConsistent(g.proxies)
  }

  function RouterNode(r: Router): Node {
    if r == PROCESS_VARIANT then PROCESS_NODE else GRADE_NODE
  }

  /** The routers of one candidate, in its order. */
  function Technical(env: Environment, order: seq<Router>, cs: seq<Candidate>): Result<seq<Candidate>> {
    if order == [] then Ok(cs)
    else
      match Technical(env, order[..|order| - 1], cs)
      case Err(e) => Err(e)
      case Ok(routed) => TransformAll(env, RouterNode(order[|order| - 1]), routed)
  }

  function TechnicalAll(env: Environment, cs: seq<Candidate>): Result<seq<Candidate>> {
    if cs == [] then Ok([])
    else
      match TechnicalAll(env, cs[..|cs| - 1])
      case Err(e) => Err(e)
      case Ok(front) =>
        match Technical(env, TechnicalOrder(env, cs[|cs| - 1]), [cs[|cs| - 1]])
        case Err(e) => Err(e)
        case Ok(next) => Ok(front + next)
  }

  /** What _resolve_current_candidates makes of the candidates. */
  function Resolved(env: Environment, cs: seq<Candidate>): Result<seq<Candidate>> {
    match TransformAll(env, UNIT_SCALE, cs)
    case Err(e) => Err(e)
    case Ok(scaled) =>
      match TransformAll(env, REFERENCE_FLOW, scaled)
      case Err(e) => Err(e)
      case Ok(flowed) => TechnicalAll(env, flowed)
  }

  predicate Unconvertible(env: Environment, c: Candidate) {
    HasGap(c, REFERENCE_FLOW_GAP) && Transform(env, REFERENCE_FLOW, c) == Ok([])
  }

  predicate SomeUnconvertible(env: Environment, cs: seq<Candidate>) {
    exists i :: 0 <= i < |cs| && Unconvertible(env, cs[i])
  }

  /** The missing mass of a candidate no record can convert replaces the required fields; nothing empties them. */
  function FieldsAfterFlow(env: Environment, cs: seq<Candidate>, fields: seq<string>): (r: seq<string>)
    ensures fields != [] ==> r != []
  {
    if SomeUnconvertible(env, cs) then FlowFields(env.unitText) else fields
  }

  function ResolveGraph(env: Environment, g: Graph): Result<Graph> {
    match Resolved(env, g.resolution)
    case Err(e) => Err(e)
    case Ok(cs) =>
      match TransformAll(env, UNIT_SCALE, g.resolution)
      case Err(e) => Err(e)
      case Ok(scaled) => Ok(g.(resolution := cs, requiredFields := FieldsAfterFlow(env, scaled, g.requiredFields)))
  }

  function WithField(g: Graph, f: string): Graph {
    g.(requestGaps := g.requestGaps + [f], requiredFields := Dedup(g.requiredFields + [f]))
  }

  predicate NamesSubject(records: seq<Extracted>) {
    exists i :: 0 <= i < |records| && records[i].subject != ""
  }

  /** The gaps external evidence opens. */
  function WithExternalGaps(env: Environment, g: Graph, records: seq<Extracted>): Graph {
    var asked := if env.subjectUnknown && NamesSubject(records) && !HasField(g.requestGaps, "subject_type") then WithField(g, "subject_type") else g;
    if env.routeOpen && |Variants(env, g.external)| > 1 && !HasField(asked.requestGaps, "route") then WithField(asked, "route") else asked
  }

  /** _discover_external */
  function Discover(env: Environment, g: Graph): Graph {
    if !env.discoveryConfigured || env.connectors == [] then g
    else
      var records := Survivors(Collected(env.connectors));
      var noted := g.(conflicting := g.conflicting || SeenAll(Collected(env.connectors)).conflicting != {});
      if records == [] then noted else WithExternalGaps(env, noted.(external := env.evaluate(records)), records)
  }

  /** Local candidates, request gaps, and external evidence for an incomplete request. */
  function Prepared(env: Environment, resolution: seq<Candidate>, gaps: seq<string>): Graph {
    var g := Graph(gaps, [], resolution, [], [], false);
    if gaps == [] then g
    else var d := Discover(env, g); d.(requiredFields := d.requestGaps)
  }

  function LocalResolved(env: Environment, g: Graph): Result<Graph> {
    var analyzed := g.(resolution := Analyzed(env, g.resolution));
    if analyzed.resolution == [] then Ok(analyzed) else ResolveGraph(env, analyzed)
  }

  /** External candidates take the place of missing local ones. */
  function ExternalResolved(env: Environment, g: Graph): Result<Graph> {
    if g.resolution != [] || g.requestGaps != [] then Ok(g)
    else
      var d := Discover(env, g);
      if d.external == [] then Ok(d) else ResolveGraph(env, d.(resolution := Analyzed(env, d.external)))
  }

  predicate NeedsProxy(g: Graph) {
    g.requiredFields == [] && g.external == []
    && (g.resolution == [] || exists i :: 0 <= i < |g.resolution| && HasGap(g.resolution[i], MATERIAL_ABSENT_GAP))
  }

  /** The class-aware proxies, resolved like every other candidate, when nothing else answers. */
  function ProxiesResolved(env: Environment, g: Graph): Result<Graph> {
    if !NeedsProxy(g) then Ok(g)
    else
      var proxies := Analyzed(env, env.proxies);
      if proxies == [] then Ok(g.(proxies := []))
      else
        match ResolveGraph(env, g.(resolution := Analyzed(env, proxies), proxies := []))
        case Err(e) => Err(e)
        case Ok(r) => Ok(r.(resolution := g.resolution, proxies := r.resolution))
  }

  function AllResolved(env: Environment, g: Graph): Result<Graph> {
    match LocalResolved(env, g)
    case Err(e) => Err(e)
    case Ok(l) =>
      match ExternalResolved(env, l)
      case Err(e) => Err(e)
      case Ok(x) => ProxiesResolved(env, x)
  }

  /** Re-evaluation, and the cap on every candidate of an incomplete request. */
  function Evaluated(env: Environment, g: Graph): Graph {
    var resolution := Reevaluated(g.resolution, env.minScore);
    g.(resolution := if g.requestGaps != [] then CapAll(resolution, INCOMPLETE_NOTE) else resolution,
       proxies := Reevaluated(g.proxies, env.minScore))
  }

  function TopKInputs(env: Environment, g: Graph): Inputs {
    Inputs(Ranked(g.resolution + g.proxies), env.topK, g.requestGaps, g.requiredFields, env.requestUnitCodes, env.recordUnitCodes,
      g.conflicting, env.admissionRejected, env.decisive)
  }

  const NOT_NORMALIZED := Selection(ERROR_STATUS, [], [], [], [])

  /** The graph as Top-K finds it. */
  function Finished(env: Environment): Result<Graph> {
    match AllResolved(env, Prepared(env, env.localCandidates, env.requestGaps + env.localGaps))
    case Err(e) => Err(e)
    case Ok(g) => Ok(Evaluated(env, g))
  }

  /** The recommendation of a run. */
  function Recommended(env: Environment): Result<Selection> {
    if !env.normalized then Ok(NOT_NORMALIZED)
    else
      match Finished(env)
      case Err(e) => Err(e)
      case Ok(g) => Ok(Select(TopKInputs(env, g)))
  }

  // ---- what every run guarantees ----

  lemma {:induction false} TechnicalConsistent(env: Environment, order: seq<Router>, cs: seq<Candidate>)
    requires AllConsistent(cs) && Technical(env, order, cs).Ok?
    ensures AllConsistent(Technical(env, order, cs).value)
  {
    hide AllConsistent, TransformAll;
    if order != [] {
      var front := order[..|order| - 1];
      TechnicalConsistent(env, front, cs);
      TransformAllConsistent(env, RouterNode(order[|order| - 1]), Technical(env, front, cs).value);
    }
  }

  lemma {:induction false} TechnicalAllConsistent(env: Environment, cs: seq<Candidate>)
    requires AllConsistent(cs) && TechnicalAll(env, cs).Ok?
    ensures AllConsistent(TechnicalAll(env, cs).value)
  {
    hide Consistent, Technical, TechnicalOrder;
    if cs != [] {
      var last := cs[|cs| - 1];
      assert last in cs;
      TechnicalAllConsistent(env, cs[..|cs| - 1]);
      TechnicalConsistent(env, TechnicalOrder(env, last), [last]);
    }
  }

  /** Resolving keeps candidates consistent and never clears the required fields. */
  lemma ResolveKeeps(env: Environment, g: Graph)
    requires ResolveGraph(env, g).Ok?
    ensures AllConsistent(g.resolution) ==> AllConsistent(ResolveGraph(env, g).value.resolution)
    ensures g.requiredFields != [] ==> ResolveGraph(env, g).value.requiredFields != []
    ensures var r := ResolveGraph(env, g).value; r == g.(resolution := r.resolution, requiredFields := r.requiredFields)
  {
    hide AllConsistent, TransformAll, TechnicalAll, FieldsAfterFlow;
    if AllConsistent(g.resolution) {
      var scaled := TransformAll(env, UNIT_SCALE, g.resolution).value;
      TransformAllConsistent(env, UNIT_SCALE, g.resolution);
      TransformAllConsistent(env, REFERENCE_FLOW, scaled);
      TechnicalAllConsistent(env, TransformAll(env, REFERENCE_FLOW, scaled).value);
    }
  }

  // ---- what becomes of one candidate ----

  /** Only the gaps of the type are gone, and nothing else. */
  lemma WithoutGapMeans(c: Candidate, t: GapType)
    ensures var r := WithoutGap(c, t);
            && r == c.(gaps := r.gaps) && !HasGap(r, t)
            && (forall g :: g in r.gaps <==> g in c.gaps && g.gapType != t)
            && (forall u :: u != t ==> (HasGap(r, u) <==> HasGap(c, u)))
            && (!HasGap(c, t) ==> r == c)
  {
    var r := WithoutGap(c, t);
    forall u | u != t ensures HasGap(r, u) <==> HasGap(c, u) {
      if i :| 0 <= i < |c.gaps| && c.gaps[i].gapType == u {
        assert c.gaps[i] in r.gaps;
        var j :| 0 <= j < |r.gaps| && r.gaps[j] == c.gaps[i];
      }
      if i :| 0 <= i < |r.gaps| && r.gaps[i].gapType == u {
        assert r.gaps[i] in c.gaps;
        var j :| 0 <= j < |c.gaps| && c.gaps[j] == r.gaps[i];
      }
    }
    forall j | 0 <= j < |r.gaps| ensures r.gaps[j].gapType != t { assert r.gaps[j] in r.gaps; }
    if !HasGap(c, t) { FilterAll(c.gaps, (g: Gap) => g.gapType != t); }
  }

  /** The process node, as its users know it: an adjusted candidate has its process gap settled. */
  function Processed(env: Environment, c: Candidate): Result<Candidate> {
    match ProcessNode(c, env.evidence(c.source))
    case Err(e) => Err(e)
    case Ok(d) => Ok(if d.resolutionType == PROCESS_ADJUSTED then WithoutGap(d, PROCESS_VARIANT_GAP) else d)
  }

  /** The grade node: an anchored or interpolated candidate has its grade gap settled, a proxy keeps it. */
  function Graded(env: Environment, c: Candidate): Result<Candidate> {
    match GradeResolution.ResolveGrade(c, env.series(c), env.target, env.spell)
    case Err(e) => Err(e)
    case Ok(d) => Ok(if d.resolutionType == GRADE_PROXY then d else WithoutGap(d, GRADE_COMPOSITION_GAP))
  }

  predicate PrefersGrade(env: Environment, c: Candidate) {
    env.preferred(c.source) != [] && env.preferred(c.source)[0] == GRADE_COMPOSITION
  }

  /** What the routers make of a candidate: only its gaps decide, and with both of them the record's preference. */
  function Routed(env: Environment, c: Candidate): Result<Candidate> {
    if HasGap(c, PROCESS_VARIANT_GAP) && HasGap(c, GRADE_COMPOSITION_GAP) then
      if PrefersGrade(env, c) then
        match Graded(env, c) case Err(e) => Err(e) case Ok(d) => Processed(env, d)
      else
        match Processed(env, c) case Err(e) => Err(e) case Ok(d) => Graded(env, d)
    else if HasGap(c, PROCESS_VARIANT_GAP) then Processed(env, c)
    else if HasGap(c, GRADE_COMPOSITION_GAP) then Graded(env, c)
    else Ok(c)
  }

  lemma NodeKeepsGaps(c: Candidate, evidence: seq<ProcessAdjustment.Evidence>)
    requires ProcessNode(c, evidence).Ok?
    ensures ProcessNode(c, evidence).value.gaps == c.gaps
  {
    hide ProcessAdjustment.ResolveProcessVariant;
    if ProcessAdjustment.ResolveProcessVariant(c, evidence).Ok? {
      ProcessAdjustment.ProcessKeepsGaps(c, evidence);
    } else {
      ProcessAdjustment.ProcessKeepsGaps(c, []);
    }
  }

  lemma ProcessStep(env: Environment, c: Candidate)
    ensures TransformAll(env, PROCESS_NODE, [c]) == One(if HasGap(c, PROCESS_VARIANT_GAP) then Processed(env, c) else Ok(c))
    ensures Processed(env, c).Ok? ==> (HasGap(Processed(env, c).value, GRADE_COMPOSITION_GAP) <==> HasGap(c, GRADE_COMPOSITION_GAP))
  {
    hide ProcessNode, HasGap, WithoutGap;
    TransformOne(env, PROCESS_NODE, c);
    if Processed(env, c).Ok? {
      NodeKeepsGaps(c, env.evidence(c.source));
      var d := ProcessNode(c, env.evidence(c.source)).value;
      WithoutGapMeans(d, PROCESS_VARIANT_GAP);
      SameGaps(c, d, GRADE_COMPOSITION_GAP);
    }
  }

  lemma GradeStep(env: Environment, c: Candidate)
    ensures TransformAll(env, GRADE_NODE, [c]) == One(if HasGap(c, GRADE_COMPOSITION_GAP) then Graded(env, c) else Ok(c))
    ensures Graded(env, c).Ok? ==> (HasGap(Graded(env, c).value, PROCESS_VARIANT_GAP) <==> HasGap(c, PROCESS_VARIANT_GAP))
  {
    hide GradeResolution.ResolveGrade, HasGap, WithoutGap;
    TransformOne(env, GRADE_NODE, c);
    if Graded(env, c).Ok? {
      GradeResolution.GradeKeepsGaps(c, env.series(c), env.target, env.spell);
      var d := GradeResolution.ResolveGrade(c, env.series(c), env.target, env.spell).value;
      WithoutGapMeans(d, GRADE_COMPOSITION_GAP);
      SameGaps(c, d, PROCESS_VARIANT_GAP);
    }
  }

  lemma SameGaps(c: Candidate, d: Candidate, t: GapType)
    requires c.gaps == d.gaps
    ensures HasGap(c, t) <==> HasGap(d, t)
  {}

  lemma TransformOne(env: Environment, node: Node, c: Candidate)
    ensures TransformAll(env, node, [c]) == Transform(env, node, c)
  {
    hide Transform;
    assert [c][..0] == [] && TransformAll(env, node, []) == Ok([]);
    if Transform(env, node, c).Ok? { assert [] + Transform(env, node, c).value == Transform(env, node, c).value; }
  }

  lemma PreferenceDecides(env: Environment, c: Candidate)
    ensures TechnicalOrder(env, c) == if PrefersGrade(env, c) then [GRADE_COMPOSITION, PROCESS_VARIANT] else [PROCESS_VARIANT, GRADE_COMPOSITION]
  {
    EachRouterOnce(env, c);
    var all := env.preferred(c.source) + [PROCESS_VARIANT, GRADE_COMPOSITION];
    DedupKeepsFirst(all);
  }

  lemma {:induction false} DedupKeepsFirst<T(!new)>(xs: seq<T>)
    requires xs != []
    ensures Dedup(xs) != [] && Dedup(xs)[0] == xs[0]
  {
    if |xs| > 1 { DedupKeepsFirst(xs[..|xs| - 1]); }
  }

  lemma TechnicalPair(env: Environment, a: Router, b: Router, cs: seq<Candidate>)
    ensures Technical(env, [a, b], cs) ==
      match TransformAll(env, RouterNode(a), cs) case Err(e) => Err(e) case Ok(ds) => TransformAll(env, RouterNode(b), ds)
  {
    hide TransformAll, RouterNode;
    assert [a, b][..1] == [a] && [a][..0] == [];
    assert Technical(env, [], cs) == Ok(cs);
    assert Technical(env, [a], cs) == TransformAll(env, RouterNode(a), cs);
  }

  /** The routers of a candidate do just that. */
  lemma RoutersRoute(env: Environment, c: Candidate)
    ensures Technical(env, TechnicalOrder(env, c), [c]) == One(Routed(env, c))
  {
    hide TransformAll, Technical, TechnicalOrder, Processed, Graded, HasGap;
    PreferenceDecides(env, c);
    ProcessStep(env, c);
    GradeStep(env, c);
    TechnicalPair(env, PROCESS_VARIANT, GRADE_COMPOSITION, [c]);
    TechnicalPair(env, GRADE_COMPOSITION, PROCESS_VARIANT, [c]);
    if Processed(env, c).Ok? { GradeStep(env, Processed(env, c).value); }
    if Graded(env, c).Ok? { ProcessStep(env, Graded(env, c).value); }
  }

  /** A candidate without a flow gap is scaled and routed; one with a flow gap is scaled, converted by every
      compatible record, and each conversion is routed without the gap. */
  lemma ResolvedOne(env: Environment, c: Candidate)
    ensures match ResolveUnitScale(env.activity, c)
            case Err(e) => Resolved(env, [c]) == Err(e)
            case Ok(u) =>
              if !HasGap(u, REFERENCE_FLOW_GAP) then Resolved(env, [c]) == One(Routed(env, u))
              else
                match ReferenceFlow.ConvertAll(env.activity, env.product(u), u, env.flows)
                case Err(e) => Resolved(env, [c]) == Err(e)
                case Ok(ds) => Resolved(env, [c]).Ok? ==>
                  && |Resolved(env, [c]).value| == |ds|
                  && forall i :: 0 <= i < |ds| ==> Routed(env, WithoutGap(ds[i], REFERENCE_FLOW_GAP)) == Ok(Resolved(env, [c]).value[i])
  {
    hide Technical, TechnicalAll, Routed, HasGap, ResolveUnitScale, ReferenceFlow.ConvertAll, TransformAll;
    TransformOne(env, UNIT_SCALE, c);
    if ResolveUnitScale(env.activity, c).Ok? {
      var u := ResolveUnitScale(env.activity, c).value;
      TransformOne(env, REFERENCE_FLOW, u);
      TechnicalOne(env, u);
      RoutersRoute(env, u);
      if TransformAll(env, REFERENCE_FLOW, [u]).Ok? { AllRouted(env, TransformAll(env, REFERENCE_FLOW, [u]).value); }
    }
  }

  lemma TechnicalOne(env: Environment, c: Candidate)
    ensures TechnicalAll(env, [c]) == Technical(env, TechnicalOrder(env, c), [c])
  {
    hide Technical, TechnicalOrder;
    assert [c][..0] == [] && TechnicalAll(env, []) == Ok([]);
    var routed := Technical(env, TechnicalOrder(env, c), [c]);
    if routed.Ok? { assert [] + routed.value == routed.value; }
  }

  lemma {:induction false} AllRouted(env: Environment, cs: seq<Candidate>)
    ensures TechnicalAll(env, cs).Ok? ==>
      && |TechnicalAll(env, cs).value| == |cs|
      && forall i :: 0 <= i < |cs| ==> Routed(env, cs[i]) == Ok(TechnicalAll(env, cs).value[i])
  {
    hide Technical, TechnicalOrder, Routed;
    if cs != [] {
      AllRouted(env, cs[..|cs| - 1]);
      RoutersRoute(env, cs[|cs| - 1]);
    }
  }

  lemma {:induction false} TransformConcat(env: Environment, node: Node, xs: seq<Candidate>, ys: seq<Candidate>)
    requires TransformAll(env, node, xs).Ok? && TransformAll(env, node, ys).Ok?
    ensures TransformAll(env, node, xs + ys) == Ok(TransformAll(env, node, xs).value + TransformAll(env, node, ys).value)
  {
    hide Transform;
    if ys == [] {
      assert xs + ys == xs;
      assert TransformAll(env, node, xs).value + [] == TransformAll(env, node, xs).value;
    } else {
      var front := ys[..|ys| - 1];
      assert (xs + ys)[..|xs + ys| - 1] == xs + front;
      TransformConcat(env, node, xs, front);
      var a, b, c := TransformAll(env, node, xs).value, TransformAll(env, node, front).value, Transform(env, node, ys[|ys| - 1]).value;
      assert (a + b) + c == a + (b + c);
    }
  }

  lemma {:induction false} TechnicalConcat(env: Environment, xs: seq<Candidate>, ys: seq<Candidate>)
    requires TechnicalAll(env, xs).Ok? && TechnicalAll(env, ys).Ok?
    ensures TechnicalAll(env, xs + ys) == Ok(TechnicalAll(env, xs).value + TechnicalAll(env, ys).value)
  {
    hide Technical, TechnicalOrder;
    if ys == [] {
      assert xs + ys == xs;
      assert TechnicalAll(env, xs).value + [] == TechnicalAll(env, xs).value;
    } else {
      var front, last := ys[..|ys| - 1], ys[|ys| - 1];
      assert (xs + ys)[..|xs + ys| - 1] == xs + front;
      TechnicalConcat(env, xs, front);
      var a, b, c := TechnicalAll(env, xs).value, TechnicalAll(env, front).value, Technical(env, TechnicalOrder(env, last), [last]).value;
      assert (a + b) + c == a + (b + c);
    }
  }

  /** Candidates do not influence each other. */
  lemma ResolvedConcat(env: Environment, xs: seq<Candidate>, ys: seq<Candidate>)
    requires Resolved(env, xs).Ok? && Resolved(env, ys).Ok?
    ensures Resolved(env, xs + ys) == Ok(Resolved(env, xs).value + Resolved(env, ys).value)
  {
    hide TransformAll, TechnicalAll;
    TransformConcat(env, UNIT_SCALE, xs, ys);
    var us, vs := TransformAll(env, UNIT_SCALE, xs).value, TransformAll(env, UNIT_SCALE, ys).value;
    TransformConcat(env, REFERENCE_FLOW, us, vs);
    TechnicalConcat(env, TransformAll(env, REFERENCE_FLOW, us).value, TransformAll(env, REFERENCE_FLOW, vs).value);
  }

  // ---- what every run guarantees about its stages ----

  lemma WithFieldAsks(g: Graph, f: string)
    ensures var r := WithField(g, f);
            && r == g.(requestGaps := r.requestGaps, requiredFields := r.requiredFields)
            && r.requiredFields != [] && g.requestGaps < r.requestGaps
  {
    assert f in g.requiredFields + [f];
  }

  lemma ExternalGapsAsk(env: Environment, g: Graph, records: seq<Extracted>)
    ensures var r := WithExternalGaps(env, g, records);
            && r == g.(requestGaps := r.requestGaps, requiredFields := r.requiredFields)
            && g.requestGaps <= r.requestGaps
            && (if r.requestGaps == g.requestGaps then r.requiredFields == g.requiredFields else r.requiredFields != [])
  {
    hide WithField, Variants, HasField, NamesSubject;
    WithFieldAsks(g, "subject_type");
    WithFieldAsks(WithField(g, "subject_type"), "route");
    WithFieldAsks(g, "route");
  }

  /** Discovery only adds gaps, each with a required field, and reports a conflict exactly when records disagree. */
  lemma DiscoverKeeps(env: Environment, g: Graph)
    ensures var d := Discover(env, g);
            && d.resolution == g.resolution && d.proxies == g.proxies
            && g.requestGaps <= d.requestGaps
            && (if d.requestGaps == g.requestGaps then d.requiredFields == g.requiredFields else d.requiredFields != [])
            && (d.external == g.external || d.external == env.evaluate(Survivors(Collected(env.connectors))))
            && (env.discoveryConfigured ==> (d.conflicting <==> g.conflicting || SomeConflict(Collected(env.connectors))))
  {
    hide Survivors, SeenAll, Collected, SomeConflict, WithExternalGaps;
    var extracted := Collected(env.connectors);
    var records := Survivors(extracted);
    ConflictReported(env.connectors);
    ExternalGapsAsk(env, g.(conflicting := g.conflicting || SeenAll(extracted).conflicting != {}, external := env.evaluate(records)), records);
  }

  ghost predicate SomeConflict(records: seq<Extracted>) {
    exists id :: Conflicting(records, id)
  }

  lemma ConflictReported(connectors: seq<Connector>)
    ensures SeenAll(Collected(connectors)).conflicting != {} <==> SomeConflict(Collected(connectors))
    ensures connectors == [] ==> !SomeConflict(Collected(connectors))
  {
    var extracted := Collected(connectors);
    ConflictsFound(extracted);
    hide SeenAll;
    if SeenAll(extracted).conflicting != {} {
      var id :| id in SeenAll(extracted).conflicting;
      assert Conflicting(extracted, id);
    }
  }

  /** Gaps come with required fields. */
  predicate GapsAsk(g: Graph) {
    g.requestGaps != [] ==> g.requiredFields != []
  }

  lemma PreparedKeeps(env: Environment, resolution: seq<Candidate>, gaps: seq<string>)
    ensures var g := Prepared(env, resolution, gaps);
            && GapsAsk(g) && gaps <= g.requestGaps && g.resolution == resolution && g.proxies == []
            && (gaps == [] ==> g == Graph([], [], resolution, [], [], false))
  {
    hide Discover;
    DiscoverKeeps(env, Graph(gaps, [], resolution, [], [], false));
  }

  lemma LocalKeeps(env: Environment, g: Graph)
    requires GapsAsk(g) && LocalResolved(env, g).Ok?
    ensures var r := LocalResolved(env, g).value;
            && GapsAsk(r) && r.requestGaps == g.requestGaps && r.external == g.external && r.conflicting == g.conflicting
            && (GraphConsistent(g) ==> GraphConsistent(r))
  {
    hide AllConsistent, ResolveGraph, Analyzed;
    var analyzed := g.(resolution := Analyzed(env, g.resolution));
    if AllConsistent(g.resolution) { NodesKeepConsistency(env, g.resolution, ""); }
    if ResolveGraph(env, analyzed).Ok? { ResolveKeeps(env, analyzed); }
  }

  lemma ExternalKeeps(env: Environment, g: Graph)
    requires GapsAsk(g) && ExternalResolved(env, g).Ok? && (g.requestGaps == [] ==> g.external == [])
    ensures var r := ExternalResolved(env, g).value;
            && GapsAsk(r) && g.requestGaps <= r.requestGaps
            && (GraphConsistent(g) && EntersFresh(env) ==> GraphConsistent(r))
  {
    hide Consistent, FreshCandidate, ResolveGraph, Analyzed, Discover, Survivors, Conflicting;
    if g.resolution == [] && g.requestGaps == [] {
      var d := Discover(env, g);
      DiscoverKeeps(env, g);
      if d.external != [] {
        if EntersFresh(env) {
          FreshConsistent(env.activity, d.external);
          NodesKeepConsistency(env, d.external, "");
        }
        ResolveKeeps(env, d.(resolution := Analyzed(env, d.external)));
      }
    }
  }

  lemma ProxiesKeep(env: Environment, g: Graph)
    requires GapsAsk(g) && ProxiesResolved(env, g).Ok?
    ensures var r := ProxiesResolved(env, g).value;
            && GapsAsk(r) && g.requestGaps == r.requestGaps
            && (GraphConsistent(g) && EntersFresh(env) ==> GraphConsistent(r))
  {
    hide Consistent, FreshCandidate, ResolveGraph, Analyzed, NeedsProxy;
    if NeedsProxy(g) {
      var proxies := Analyzed(env, env.proxies);
      if EntersFresh(env) {
        FreshConsistent(env.activity, env.proxies);
        NodesKeepConsistency(env, env.proxies, "");
        NodesKeepConsistency(env, proxies, "");
      }
      if proxies != [] { ResolveKeeps(env, g.(resolution := Analyzed(env, proxies), proxies := [])); }
    }
  }

  /** From the local candidates to Top-K: no gap is lost, every gap asks for a field, and candidates that enter
      fresh stay consistent. */
  lemma FinishedKeeps(env: Environment)
    requires Finished(env).Ok?
    ensures var g := Finished(env).value;
            && env.requestGaps + env.localGaps <= g.requestGaps && GapsAsk(g)
            && (EntersFresh(env) ==> AllConsistent(g.resolution + g.proxies))
  {
    hide Consistent, FreshCandidate, Prepared, LocalResolved, ExternalResolved, ProxiesResolved, Reevaluated, CapAll;
    var p := Prepared(env, env.localCandidates, env.requestGaps + env.localGaps);
    PreparedKeeps(env, env.localCandidates, env.requestGaps + env.localGaps);
    if EntersFresh(env) { FreshConsistent(env.activity, env.localCandidates); }
    LocalKeeps(env, p);
    var l := LocalResolved(env, p).value;
    ExternalKeeps(env, l);
    var x := ExternalResolved(env, l).value;
    ProxiesKeep(env, x);
    var r := ProxiesResolved(env, x).value;
    if GraphConsistent(r) {
      NodesKeepConsistency(env, r.resolution, "");
      NodesKeepConsistency(env, r.proxies, "");
      NodesKeepConsistency(env, Reevaluated(r.resolution, env.minScore), INCOMPLETE_NOTE);
    }
  }

  /** An incomplete request is never selectable: whatever gaps a run ends with, among them those of the request
      and of its local evaluation, keep the required fields non-empty, and Top-K selects nothing. */
  lemma IncompleteNeverSelected(env: Environment)
    requires env.normalized && Finished(env).Ok?
    ensures env.requestGaps + env.localGaps <= Finished(env).value.requestGaps
    ensures Finished(env).value.requestGaps != [] ==>
      Recommended(env).value.candidates == [] && !ReviewTheorems.Approvable(Recommended(env).value.status)
  {
    hide Finished, Select, AllConsistent;
    FinishedKeeps(env);
    var g := Finished(env).value;
    SelectionFacts(TopKInputs(env, g), g.resolution + g.proxies);
  }

  /** Whatever a run offers passed the gate of its list, and, entering fresh, the total check of lock. */
  lemma OfferedPassGates(env: Environment)
    requires Recommended(env).Ok?
    ensures var r := Recommended(env).value;
            && (forall c :: c in r.candidates ==> Sufficient(c))
            && (forall c :: c in r.reviewable ==> !HardRejected(c) && c.resultTier == REFERENCE_ONLY)
            && DisjointIds(r.candidates, r.reviewable)
            && (EntersFresh(env) ==> forall c :: c in r.candidates + r.reviewable ==> LockTotalCheck(c).Ok?)
  {
    hide Finished, Select, AllConsistent, EntersFresh, Sufficient, HardRejected, LockTotalCheck, DisjointIds;
    if env.normalized {
      FinishedKeeps(env);
      var g := Finished(env).value;
      SelectionFacts(TopKInputs(env, g), g.resolution + g.proxies);
    } else {
      NothingOffered();
    }
  }

  lemma NothingOffered()
    ensures NOT_NORMALIZED.candidates == [] && NOT_NORMALIZED.reviewable == [] && DisjointIds([], [])
  {}

  // ---- the graph as the nodes update it ----

  class GraphState {
    var requestGaps: seq<string>
    var requiredFields: seq<string>
    var resolution: seq<Candidate>
    var proxies: seq<Candidate>
    var external: seq<Candidate>
    var conflicting: bool
    var recommendation: Option<Selection>

    constructor ()
      ensures Value() == Graph([], [], [], [], [], false) && recommendation == None
    {
      requestGaps, requiredFields, resolution, proxies, external := [], [], [], [], [];
      conflicting, recommendation := false, None;
    }

    function Value(): Graph
      reads this
    {
      Graph(requestGaps, requiredFields, resolution, proxies, external, conflicting)
    }

    /** The state is what the function says, unless both end with the same error. */
    ghost predicate Ends(result: Result<()>, expected: Result<Graph>)
      reads this
    {
      match expected
      case Ok(g) => result.Ok? && Value() == g
      case Err(e) => result == Err(e)
    }

    /** Unit-scale, process and grade nodes: the loop over the current candidates. */
    method RunNode(env: Environment, node: Node) returns (result: Result<()>)
      modifies this`resolution
      ensures match TransformAll(env, node, old(resolution))
              case Ok(cs) => result.Ok? && resolution == cs
              case Err(e) => result == Err(e)
    {
      hide Transform;
      var output: seq<Candidate>, i := [], 0;
      while i < |resolution|
        invariant 0 <= i <= |resolution| && resolution == old(resolution)
        invariant TransformAll(env, node, resolution[..i]) == Ok(output)
      {
        assert resolution[..i + 1][..i] == resolution[..i];
        var next := Transform(env, node, resolution[i]);
        if next.Err? {
          StuckTransform(env, node, resolution, i + 1);
          return Err(next.error);
        }
        output := output + next.value;
        i := i + 1;
      }
      assert resolution[..i] == resolution;
      resolution := output;
      result := Ok(());
    }

    /** The reference-flow node also names the missing mass of the candidates it drops. */
    method RunReferenceFlow(env: Environment) returns (result: Result<()>)
      modifies this`resolution, this`requiredFields
      ensures match TransformAll(env, REFERENCE_FLOW, old(resolution))
              case Ok(cs) =>
                result.Ok? && resolution == cs && requiredFields == FieldsAfterFlow(env, old(resolution), old(requiredFields))
              case Err(e) => result == Err(e)
    {
      hide Transform, FlowFields;
      var output: seq<Candidate>, i := [], 0;
      while i < |resolution|
        invariant 0 <= i <= |resolution| && resolution == old(resolution)
        invariant TransformAll(env, REFERENCE_FLOW, resolution[..i]) == Ok(output)
        invariant requiredFields == FieldsAfterFlow(env, resolution[..i], old(requiredFields))
      {
        assert resolution[..i + 1][..i] == resolution[..i];
        var next := Transform(env, REFERENCE_FLOW, resolution[i]);
        if next.Err? {
          StuckTransform(env, REFERENCE_FLOW, resolution, i + 1);
          return Err(next.error);
        }
        ghost var longer := resolution[..i + 1];
        assert longer[i] == resolution[i] && forall j :: 0 <= j < i ==> longer[j] == resolution[..i][j];
        if HasGap(resolution[i], REFERENCE_FLOW_GAP) && next.value == [] {
          requiredFields := FlowFields(env.unitText);
          assert Unconvertible(env, longer[i]);
        }
        output := output + next.value;
        i := i + 1;
      }
      assert resolution[..i] == resolution;
      resolution := output;
      result := Ok(());
    }

    /** _resolve_current_candidates */
    method ResolveCurrent(env: Environment) returns (result: Result<()>)
      modifies this`resolution, this`requiredFields
      ensures Ends(result, ResolveGraph(env, old(Value())))
    {
      hide TransformAll, FieldsAfterFlow, TechnicalOrder, Technical;
      var step := RunNode(env, UNIT_SCALE);
      if step.Err? { return step; }
      step := RunReferenceFlow(env);
      if step.Err? { return step; }
      var pending: seq<Candidate>, resolved: seq<Candidate>, i := resolution, [], 0;
      while i < |pending|
        invariant 0 <= i <= |pending|
        invariant requiredFields == FieldsAfterFlow(env, TransformAll(env, UNIT_SCALE, old(resolution)).value, old(requiredFields))
        invariant TechnicalAll(env, pending[..i]) == Ok(resolved)
      {
        assert pending[..i + 1][..i] == pending[..i];
        resolution := [pending[i]];
        step := RunTechnical(env, TechnicalOrder(env, pending[i]));
        if step.Err? {
          StuckTechnical(env, pending, i + 1);
          return step;
        }
        resolved := resolved + resolution;
        i := i + 1;
      }
      assert pending[..i] == pending;
      resolution := resolved;
      result := Ok(());
    }

    /** The process and grade routers of one candidate, in its order. */
    method RunTechnical(env: Environment, order: seq<Router>) returns (result: Result<()>)
      modifies this`resolution
      ensures match Technical(env, order, old(resolution))
              case Ok(cs) => result.Ok? && resolution == cs
              case Err(e) => result == Err(e)
    {
      hide TransformAll;
      var i := 0;
      while i < |order|
        invariant 0 <= i <= |order|
        invariant Technical(env, order[..i], old(resolution)) == Ok(resolution)
      {
        assert order[..i + 1][..i] == order[..i];
        var step := RunNode(env, RouterNode(order[i]));
        if step.Err? {
          StuckRouter(env, order, old(resolution), i + 1);
          return step;
        }
        i := i + 1;
      }
      assert order[..i] == order;
      result := Ok(());
    }

    /** _discover_external */
    method DiscoverExternal(env: Environment)
      modifies this`external, this`conflicting, this`requestGaps, this`requiredFields
      ensures Value() == Discover(env, old(Value()))
    {
      hide Survivors, SeenAll, HasField, Variants, Collected;
      if !env.discoveryConfigured || env.connectors == [] {
        return;
      }
      var extracted := Collect(env.connectors);
      var records, ids := Deduplicate(extracted);
      if ids != {} {
        conflicting := true;
      }
      if records != [] {
        external := env.evaluate(records);
        if env.subjectUnknown && (exists i :: 0 <= i < |records| && records[i].subject != "") && !HasField(requestGaps, "subject_type") {
          AddGap("subject_type");
        }
        var variants := Variants(env, external);
        if env.routeOpen && |variants| > 1 && !HasField(requestGaps, "route") {
          AddGap("route");
        }
      }
    }

    method AddGap(f: string)
      modifies this`requestGaps, this`requiredFields
      ensures Value() == WithField(old(Value()), f)
    {
      requestGaps := requestGaps + [f];
      requiredFields := Dedup(requiredFields + [f]);
    }

    /** Local candidates, request gaps, and external discovery for an incomplete request. */
    method Prepare(env: Environment)
      requires Value() == Graph([], [], [], [], [], false)
      modifies this`requestGaps, this`requiredFields, this`resolution, this`external, this`conflicting
      ensures Value() == Prepared(env, env.localCandidates, env.requestGaps + env.localGaps)
    {
      hide Discover;
      requestGaps := env.requestGaps + env.localGaps;
      resolution := env.localCandidates;
      if requestGaps != [] {
        DiscoverKeeps(env, Value());
        DiscoverExternal(env);
        if requestGaps != [] {
          requiredFields := requestGaps;
        }
      }
    }

    /** Local candidates first, external ones in their place, class-aware proxies last. */
    method ResolveAll(env: Environment) returns (result: Result<()>)
      modifies this`resolution, this`proxies, this`external, this`conflicting, this`requestGaps, this`requiredFields
      ensures Ends(result, AllResolved(env, old(Value())))
    {
      hide ResolveGraph, Analyzed, Discover, ProxiesResolved, HasGap;
      resolution := Analyzed(env, resolution);
      if resolution != [] {
        var step := ResolveCurrent(env);
        if step.Err? { return step; }
      }
      if resolution == [] && requestGaps == [] {
        DiscoverExternal(env);
        if external != [] {
          resolution := Analyzed(env, external);
          var step := ResolveCurrent(env);
          if step.Err? { return step; }
        }
      }
      result := ResolveProxies(env);
    }

    method ResolveProxies(env: Environment) returns (result: Result<()>)
      modifies this`resolution, this`proxies, this`requiredFields
      ensures Ends(result, ProxiesResolved(env, old(Value())))
    {
      hide ResolveGraph, Analyzed, HasGap;
      if requiredFields == [] && external == []
         && (resolution == [] || exists i :: 0 <= i < |resolution| && HasGap(resolution[i], MATERIAL_ABSENT_GAP)) {
        proxies := Analyzed(env, env.proxies);
        if proxies != [] {
          var local := resolution;
          resolution := Analyzed(env, proxies);
          proxies := [];
          result := ResolveCurrent(env);
          if result.Err? { return; }
          proxies := resolution;
          resolution := local;
        }
      }
      result := Ok(());
    }

    /** Re-evaluation, pool, ranking and Top-K. */
    method Recommend(env: Environment) returns (selection: Selection)
      modifies this`resolution, this`proxies, this`requiredFields, this`recommendation
      ensures selection == Select(TopKInputs(env, Evaluated(env, old(Value()))))
      ensures recommendation == Some(selection)
      ensures requestGaps == old(requestGaps) && requiredFields == selection.requiredFields
    {
      hide Select, Pool, Sorting.Sort, Reevaluated, CapAll;
      resolution, proxies := Reevaluated(resolution, env.minScore), Reevaluated(proxies, env.minScore);
      if requestGaps != [] {
        resolution := CapAll(resolution, INCOMPLETE_NOTE);
      }
      var pool := BuildPool(resolution, proxies);
      selection := Select(Inputs(Rank(pool), env.topK, requestGaps, requiredFields, env.requestUnitCodes, env.recordUnitCodes,
        conflicting, env.admissionRejected, env.decisive));
      requiredFields := selection.requiredFields;
      recommendation := Some(selection);
    }

    /** run, once normalization has answered. */
    method Run(env: Environment) returns (result: Result<Selection>)
      requires Value() == Graph([], [], [], [], [], false)
      modifies this
      ensures result == Recommended(env)
      ensures result.Ok? ==> recommendation == Some(result.value)
      ensures result.Ok? && env.normalized ==> Finished(env).Ok? && requestGaps == Finished(env).value.requestGaps
    {
      hide Prepared, AllResolved, Select;
      if !env.normalized {
        recommendation := Some(NOT_NORMALIZED);
        return Ok(NOT_NORMALIZED);
      }
      Prepare(env);
      var step := ResolveAll(env);
      if step.Err? { return Err(step.error); }
      var selection := Recommend(env);
      result := Ok(selection);
    }
  }

  lemma {:induction false} StuckTechnical(env: Environment, cs: seq<Candidate>, n: nat)
    requires n <= |cs| && TechnicalAll(env, cs[..n]).Err?
    ensures TechnicalAll(env, cs) == TechnicalAll(env, cs[..n])
    decreases |cs|
  {
    hide Technical, TechnicalOrder;
    if n == |cs| {
      assert cs[..n] == cs;
    } else {
      assert cs[..|cs| - 1][..n] == cs[..n];
      StuckTechnical(env, cs[..|cs| - 1], n);
    }
  }

  lemma {:induction false} StuckRouter(env: Environment, order: seq<Router>, cs: seq<Candidate>, n: nat)
    requires n <= |order| && Technical(env, order[..n], cs).Err?
    ensures Technical(env, order, cs) == Technical(env, order[..n], cs)
    decreases |order|
  {
    hide TransformAll;
    if n == |order| {
      assert order[..n] == order;
    } else {
      assert order[..|order| - 1][..n] == order[..n];
      StuckRouter(env, order[..|order| - 1], cs, n);
    }
  }
}
