/** The candidate pool and its ranking (CandidatePoolNode and RankNode of nodes.py). */
module Ranking {
  import opened Prelude
  import opened Models
  import opened Sorting
  import Derivation

  // ---- the pool ----

  function IndexOf(pool: seq<Candidate>, id: string): (r: Option<nat>)
    ensures r.Some? ==> r.value < |pool| && pool[r.value].candidateId == id
    ensures r.None? ==> forall c :: c in pool ==> c.candidateId != id
  {
    if pool == [] then None
    else if pool[0].candidateId == id then Some(0)
    else match IndexOf(pool[1..], id) case Some(i) => Some(i + 1) case None => None
  }

  /** by_id[candidate_id] = candidate: a dictionary keeps the position of a key it already has. */
  function Admit(pool: seq<Candidate>, c: Candidate): seq<Candidate> {
    match IndexOf(pool, c.candidateId)
    case None => pool + [c]
    case Some(i) => if c.resolutionStrength > pool[i].resolutionStrength then pool[i := c] else pool
  }

  function Pool(cs: seq<Candidate>): seq<Candidate> {
    if cs == [] then [] else Admit(Pool(cs[..|cs| - 1]), cs[|cs| - 1])
  }

  method BuildPool(resolution: seq<Candidate>, proxies: seq<Candidate>) returns (pool: seq<Candidate>)
    ensures pool == Pool(resolution + proxies)
  {
    var all, i := resolution + proxies, 0;
    pool := [];
    while i < |all|
      invariant 0 <= i <= |all| && pool == Pool(all[..i])
    {
      assert all[..i + 1][..i] == all[..i];
      var previous := IndexOf(pool, all[i].candidateId);
      if previous.None? {
        pool := pool + [all[i]];
      } else if all[i].resolutionStrength > pool[previous.value].resolutionStrength {
        pool := pool[previous.value := all[i]];
      }
      i := i + 1;
    }
    assert all[..i] == all;
  }

  predicate DistinctIds(cs: seq<Candidate>) {
    forall i, j :: 0 <= i < j < |cs| ==> cs[i].candidateId != cs[j].candidateId
  }

  /** c is the first of the strongest candidates that share its id. */
  predicate Kept(cs: seq<Candidate>, c: Candidate) {
    exists k :: 0 <= k < |cs| && KeptAt(cs, c, k)
  }

  predicate KeptAt(cs: seq<Candidate>, c: Candidate, k: nat)
    requires k < |cs|
  {
    && cs[k] == c
    && (forall i :: 0 <= i < k && cs[i].candidateId == c.candidateId ==> cs[i].resolutionStrength < c.resolutionStrength)
    && (forall i :: k < i < |cs| && cs[i].candidateId == c.candidateId ==> cs[i].resolutionStrength <= c.resolutionStrength)
  }

  /** The pool holds, for every id, exactly the first of its strongest candidates. */
  lemma {:induction false} PoolKeeps(cs: seq<Candidate>)
    ensures DistinctIds(Pool(cs))
    ensures forall c :: c in Pool(cs) <==> Kept(cs, c)
  {
    if cs != [] {
      var n := |cs| - 1;
      PoolKeeps(cs[..n]);
      assert cs == cs[..n] + [cs[n]];
      AdmitDistinct(Pool(cs[..n]), cs[n]);
      forall c ensures c in Pool(cs) <==> Kept(cs, c) {
        AdmitKeeps(cs[..n], Pool(cs[..n]), cs[n], c);
      }
    }
  }

  lemma AdmitDistinct(pool: seq<Candidate>, c: Candidate)
    requires DistinctIds(pool)
    ensures DistinctIds(Admit(pool, c))
  {}

  lemma AdmitKeeps(front: seq<Candidate>, pool: seq<Candidate>, last: Candidate, c: Candidate)
    requires DistinctIds(pool) && (forall d :: d in pool <==> Kept(front, d))
    ensures c in Admit(pool, last) <==> Kept(front + [last], c)
  {
    if c.candidateId != last.candidateId {
      AdmitOthers(pool, last, c);
      KeptOthers(front, last, c);
    } else {
      match IndexOf(pool, last.candidateId) {
        case None =>
          NoneWithId(front, pool, last.candidateId);
          KeptNew(front, last, c);
          assert pool + [last] == Admit(pool, last);
        case Some(i) =>
          assert pool[i] in pool;
          AdmitSame(pool, last, c, i);
          KeptSame(front, pool[i], last, c);
      }
    }
  }

  lemma AdmitOthers(pool: seq<Candidate>, last: Candidate, c: Candidate)
    requires c.candidateId != last.candidateId
    ensures c in Admit(pool, last) <==> c in pool
  {
    match IndexOf(pool, last.candidateId)
    case None =>
    case Some(i) =>
      if c in pool {
        var j :| 0 <= j < |pool| && pool[j] == c;
        assert pool[i := last][j] == c;
      }
  }

  lemma AdmitSame(pool: seq<Candidate>, last: Candidate, c: Candidate, i: nat)
    requires DistinctIds(pool) && c.candidateId == last.candidateId && IndexOf(pool, last.candidateId) == Some(i)
    ensures c in Admit(pool, last) <==> c == (if last.resolutionStrength > pool[i].resolutionStrength then last else pool[i])
  {
    var r := Admit(pool, last);
    assert r[i].candidateId == last.candidateId;
    AdmitDistinct(pool, last);
    if c in r { var j :| 0 <= j < |r| && r[j] == c; }
  }

  lemma KeptOthers(front: seq<Candidate>, last: Candidate, c: Candidate)
    requires c.candidateId != last.candidateId
    ensures Kept(front + [last], c) <==> Kept(front, c)
  {
    var all := front + [last];
    if k :| 0 <= k < |front| && KeptAt(front, c, k) { assert KeptAt(all, c, k); }
    if k :| 0 <= k < |all| && KeptAt(all, c, k) {
      assert all[..|front|] == front;
      forall i | k < i < |front| && front[i].candidateId == c.candidateId
        ensures front[i].resolutionStrength <= c.resolutionStrength { assert all[i] == front[i]; }
      forall i | 0 <= i < k && front[i].candidateId == c.candidateId
        ensures front[i].resolutionStrength < c.resolutionStrength { assert all[i] == front[i]; }
      assert KeptAt(front, c, k);
    }
  }

  /** Every id of a list has a kept candidate, and no candidate with that id is stronger. */
  lemma {:induction false} SomeKept(cs: seq<Candidate>, k: nat) returns (c: Candidate)
    requires k < |cs|
    ensures Kept(cs, c) && c.candidateId == cs[k].candidateId && cs[k].resolutionStrength <= c.resolutionStrength
    decreases |cs|
  {
    var n := |cs| - 1;
    var front, last := cs[..n], cs[n];
    assert cs == front + [last];
    if k < n {
      var d := SomeKept(front, k);
      c := KeptLonger(front, last, d);
    } else if i :| 0 <= i < n && front[i].candidateId == last.candidateId {
      var d := SomeKept(front, i);
      c := KeptLonger(front, last, d);
    } else {
      c := last;
      KeptNew(front, last, c);
    }
  }

  lemma KeptLonger(front: seq<Candidate>, last: Candidate, d: Candidate) returns (c: Candidate)
    requires Kept(front, d)
    ensures Kept(front + [last], c) && c.candidateId == d.candidateId && d.resolutionStrength <= c.resolutionStrength
    ensures last.candidateId == d.candidateId ==> last.resolutionStrength <= c.resolutionStrength
  {
    if last.candidateId == d.candidateId {
      c := if last.resolutionStrength > d.resolutionStrength then last else d;
      KeptSame(front, d, last, c);
    } else {
      c := d;
      KeptOthers(front, last, d);
    }
  }

  lemma NoneWithId(front: seq<Candidate>, pool: seq<Candidate>, id: string)
    requires (forall d :: d in pool <==> Kept(front, d)) && forall d :: d in pool ==> d.candidateId != id
    ensures forall i :: 0 <= i < |front| ==> front[i].candidateId != id
  {
    forall i | 0 <= i < |front| ensures front[i].candidateId != id { var c := SomeKept(front, i); }
  }

  lemma KeptNew(front: seq<Candidate>, last: Candidate, c: Candidate)
    requires c.candidateId == last.candidateId && forall i :: 0 <= i < |front| ==> front[i].candidateId != c.candidateId
    ensures Kept(front + [last], c) <==> c == last
  {
    var all := front + [last];
    if c == last { assert KeptAt(all, c, |front|); }
  }

  lemma KeptSame(front: seq<Candidate>, best: Candidate, last: Candidate, c: Candidate)
    requires Kept(front, best) && best.candidateId == last.candidateId == c.candidateId
    ensures Kept(front + [last], c) <==> c == (if last.resolutionStrength > best.resolutionStrength then last else best)
  {
    var all := front + [last];
    var b :| 0 <= b < |front| && KeptAt(front, best, b);
    assert forall i :: 0 <= i < |front| ==> all[i] == front[i];
    assert forall i :: 0 <= i < |front| && front[i].candidateId == c.candidateId ==> front[i].resolutionStrength <= best.resolutionStrength;
    if last.resolutionStrength > best.resolutionStrength {
      assert KeptAt(all, last, |front|);
      if k :| 0 <= k < |all| && KeptAt(all, c, k) { assert all[|front|] == last && c == last; }
    } else {
      assert KeptAt(all, best, b);
      if k :| 0 <= k < |all| && KeptAt(all, c, k) { assert all[b] == best && c == best; }
    }
  }

  // ---- the ranking ----

  /** TYPE_PRIORITY */
  function TypePriority(t: ResolutionType): int {
    match t
    case DIRECT_EXACT => 0
    case DIRECT_ALIAS => 1
    case UNIT_CONVERTED => 2
    case REFERENCE_FLOW_CONVERTED => 3
    case PROCESS_ADJUSTED => 4
    case GRADE_EXACT_ANCHOR => 4
    case GRADE_INTERPOLATED => 5
    case GRADE_ADJUSTED => 5
    case GRADE_PROXY => 6
    case UNADJUSTED_PROCESS_PROXY => 7
    case CLASS_TECHNICAL_PROXY => 8
    case CLASS_GENERIC_PROXY => 9
  }

  predicate ApplicabilityGap(g: Gap) {
    g.gapType == GEOGRAPHY_GAP || g.gapType == TEMPORAL_GAP
  }

  /** The greatest severity of the geography and year gaps; None if there is none of them. */
  function WorstApplicability(gaps: seq<Gap>): Option<real> {
    if gaps == [] then None
    else
      var rest := WorstApplicability(gaps[1..]);
      if !ApplicabilityGap(gaps[0]) then rest
      else Some(if rest.Some? then Derivation.Max(gaps[0].severity, rest.value) else gaps[0].severity)
  }

  /** max(gap.severity for the geography and year gaps) */
  lemma {:induction false} WorstIsGreatest(gaps: seq<Gap>)
    ensures WorstApplicability(gaps).None? <==> forall g :: g in gaps ==> !ApplicabilityGap(g)
    ensures WorstApplicability(gaps).Some? ==>
      && (exists g :: g in gaps && ApplicabilityGap(g) && g.severity == WorstApplicability(gaps).value)
      && (forall g :: g in gaps && ApplicabilityGap(g) ==> g.severity <= WorstApplicability(gaps).value)
  {
    if gaps != [] {
      WorstIsGreatest(gaps[1..]);
      assert gaps == [gaps[0]] + gaps[1..];
    }
  }

  /** The numeric part of the key, smaller is better. */
  datatype Numbers = Numbers(
    kind: int, applicability: int, severity: real, priority: int,
    strength: real, score: real, coverage: real, assumptions: int)

  function NumbersOf(c: Candidate): Numbers {
    var worst := WorstApplicability(c.gaps);
    Numbers(
      TypePriority(c.resolutionType),
      if worst.None? then 0 else if worst.value >= 0.5 then 2 else 1,
      if worst.None? then 0.0 else worst.value,
      c.source.priorityRank,
      -c.resolutionStrength, -c.score, -c.evidenceCoverage, |c.assumptions|)
  }

  predicate NumbersBefore(a: Numbers, b: Numbers) {
    if a.kind != b.kind then a.kind < b.kind
    else if a.applicability != b.applicability then a.applicability < b.applicability
    else if a.severity != b.severity then a.severity < b.severity
    else if a.priority != b.priority then a.priority < b.priority
    else if a.strength != b.strength then a.strength < b.strength
    else if a.score != b.score then a.score < b.score
    else if a.coverage != b.coverage then a.coverage < b.coverage
    else a.assumptions < b.assumptions
  }

  /** The nine-part key: the numbers, then the source id, then the candidate id. */
  predicate Before(a: Candidate, b: Candidate) {
    var x, y := NumbersOf(a), NumbersOf(b);
    if x != y then NumbersBefore(x, y)
    else if a.source.sourceId != b.source.sourceId then StrLess(a.source.sourceId, b.source.sourceId)
    else StrLess(a.candidateId, b.candidateId)
  }

  function Rank(pool: seq<Candidate>): seq<Candidate> {
    Sort(Before, pool)
  }

  lemma NumbersTransitive(a: Numbers, b: Numbers, c: Numbers)
    requires NumbersBefore(a, b) && NumbersBefore(b, c)
    ensures NumbersBefore(a, c) && a != c
  {}

  lemma NumbersTotal(a: Numbers, b: Numbers)
    ensures a == b || NumbersBefore(a, b) || NumbersBefore(b, a)
  {}

  lemma BeforeTransitive(a: Candidate, b: Candidate, c: Candidate)
    requires Before(a, b) && Before(b, c)
    ensures Before(a, c)
  {
    hide NumbersBefore, NumbersOf, StrLess;
    var x, y, z := NumbersOf(a), NumbersOf(b), NumbersOf(c);
    if x != y && y != z { NumbersTransitive(x, y, z); }
    if x == y == z {
      if a.source.sourceId != b.source.sourceId && b.source.sourceId != c.source.sourceId {
        StrTransitive(a.source.sourceId, b.source.sourceId, c.source.sourceId);
        StrIrreflexive(a.source.sourceId);
      } else if a.source.sourceId == b.source.sourceId == c.source.sourceId {
        StrTransitive(a.candidateId, b.candidateId, c.candidateId);
      }
    }
  }

  lemma BeforeIrreflexive(a: Candidate)
    ensures !Before(a, a)
  {
    StrIrreflexive(a.candidateId);
  }

  lemma BeforeTotal(a: Candidate, b: Candidate)
    requires a.candidateId != b.candidateId
    ensures Before(a, b) || Before(b, a)
  {
    hide NumbersBefore, NumbersOf;
    NumbersTotal(NumbersOf(a), NumbersOf(b));
    StrTotal(a.source.sourceId, b.source.sourceId);
    StrTotal(a.candidateId, b.candidateId);
  }

  /** On candidates with distinct ids the nine-part key is a strict total order. */
  lemma BeforeStrictTotal(pool: seq<Candidate>)
    requires DistinctIds(pool)
    ensures StrictTotal(Before, pool)
  {
    hide Before;
    forall a ensures !Before(a, a) { BeforeIrreflexive(a); }
    forall a, b, c | Before(a, b) && Before(b, c) ensures Before(a, c) { BeforeTransitive(a, b, c); }
    forall a, b | a in pool && b in pool && a != b ensures Before(a, b) || Before(b, a) {
      var i, j :| 0 <= i < |pool| && 0 <= j < |pool| && pool[i] == a && pool[j] == b;
      assert i < j || j < i;
      BeforeTotal(a, b);
    }
  }

  // ---- what the order prefers ----

  /** The resolution types, best first; types in one set are equally good. */
  const TYPE_ORDER: seq<set<ResolutionType>> := [
    {DIRECT_EXACT}, {DIRECT_ALIAS}, {UNIT_CONVERTED}, {REFERENCE_FLOW_CONVERTED}, {PROCESS_ADJUSTED, GRADE_EXACT_ANCHOR},
    {GRADE_INTERPOLATED, GRADE_ADJUSTED}, {GRADE_PROXY}, {UNADJUSTED_PROCESS_PROXY}, {CLASS_TECHNICAL_PROXY}, {CLASS_GENERIC_PROXY}]

  predicate BetterType(a: ResolutionType, b: ResolutionType) {
    exists i, j :: 0 <= i < j < |TYPE_ORDER| && a in TYPE_ORDER[i] && b in TYPE_ORDER[j]
  }

  /** Some geography or year gap of b is worse than every one of a; so it is if only b has any. */
  predicate Milder(a: Candidate, b: Candidate) {
    exists h :: h in b.gaps && (h.gapType == GEOGRAPHY_GAP || h.gapType == TEMPORAL_GAP)
      && forall g :: g in a.gaps && (g.gapType == GEOGRAPHY_GAP || g.gapType == TEMPORAL_GAP) ==> g.severity < h.severity
  }

  /** The criteria of the ranking, in order: the first one on which two candidates differ decides. */
  predicate Preferred(a: Candidate, b: Candidate) {
    if BetterType(a.resolutionType, b.resolutionType) || BetterType(b.resolutionType, a.resolutionType) then
      BetterType(a.resolutionType, b.resolutionType)
    else if Milder(a, b) || Milder(b, a) then Milder(a, b)
    else if a.source.priorityRank != b.source.priorityRank then a.source.priorityRank < b.source.priorityRank
    else if a.resolutionStrength != b.resolutionStrength then a.resolutionStrength > b.resolutionStrength
    else if a.score != b.score then a.score > b.score
    else if a.evidenceCoverage != b.evidenceCoverage then a.evidenceCoverage > b.evidenceCoverage
    else if |a.assumptions| != |b.assumptions| then |a.assumptions| < |b.assumptions|
    else if a.source.sourceId != b.source.sourceId then StrLess(a.source.sourceId, b.source.sourceId)
    else StrLess(a.candidateId, b.candidateId)
  }

  lemma PriorityIsPosition(t: ResolutionType)
    ensures 0 <= TypePriority(t) < |TYPE_ORDER| && forall i :: 0 <= i < |TYPE_ORDER| ==> (t in TYPE_ORDER[i] <==> i == TypePriority(t))
  {}

  lemma BetterTypeMeans(a: ResolutionType, b: ResolutionType)
    ensures BetterType(a, b) <==> TypePriority(a) < TypePriority(b)
  {
    PriorityIsPosition(a);
    PriorityIsPosition(b);
    hide TypePriority;
    assert a in TYPE_ORDER[TypePriority(a)] && b in TYPE_ORDER[TypePriority(b)];
  }

  lemma MilderMeans(a: Candidate, b: Candidate)
    ensures var v, w := WorstApplicability(a.gaps), WorstApplicability(b.gaps);
            Milder(a, b) <==> w.Some? && (v.Some? ==> v.value < w.value)
  {
    WorstIsGreatest(a.gaps);
    WorstIsGreatest(b.gaps);
    hide WorstApplicability;
  }

  /** The nine-part key orders candidates by just these criteria. */
  lemma BeforeIsPreferred(a: Candidate, b: Candidate)
    ensures Before(a, b) <==> Preferred(a, b)
  {
    hide BetterType, Milder, TypePriority, WorstApplicability, StrLess;
    BetterTypeMeans(a.resolutionType, b.resolutionType);
    BetterTypeMeans(b.resolutionType, a.resolutionType);
    MilderMeans(a, b);
    MilderMeans(b, a);
  }

  /** Of two ranked candidates the preferred one is listed first. */
  lemma PreferredIsListedFirst(cs: seq<Candidate>, i: nat, j: nat)
    requires i < |Ranked(cs)| && j < |Ranked(cs)| && i != j
    ensures Preferred(Ranked(cs)[i], Ranked(cs)[j]) <==> i < j
  {
    hide Before, Preferred, Ranked;
    RankingSorted(cs);
    BeforeIsPreferred(Ranked(cs)[i], Ranked(cs)[j]);
    if j < i {
      assert Before(Ranked(cs)[j], Ranked(cs)[i]);
      if Before(Ranked(cs)[i], Ranked(cs)[j]) {
        BeforeTransitive(Ranked(cs)[i], Ranked(cs)[j], Ranked(cs)[i]);
        BeforeIrreflexive(Ranked(cs)[i]);
      }
    }
  }

  // ---- one answer for every order of the input ----

  function Ranked(cs: seq<Candidate>): seq<Candidate> {
    Rank(Pool(cs))
  }

  /** c is among the strongest candidates with its id. */
  predicate Strongest(cs: seq<Candidate>, c: Candidate) {
    c in cs && forall d :: d in cs && d.candidateId == c.candidateId ==> d.resolutionStrength <= c.resolutionStrength
  }

  /** No id has two different strongest candidates. */
  predicate Unambiguous(cs: seq<Candidate>) {
    forall c, d :: c in cs && d in cs && c.candidateId == d.candidateId && Strongest(cs, c) && Strongest(cs, d) ==> c == d
  }

  lemma KeptIsStrongest(cs: seq<Candidate>, c: Candidate)
    requires Kept(cs, c)
    ensures Strongest(cs, c)
  {
    var k :| 0 <= k < |cs| && KeptAt(cs, c, k);
    forall d | d in cs && d.candidateId == c.candidateId ensures d.resolutionStrength <= c.resolutionStrength {
      var i :| 0 <= i < |cs| && cs[i] == d;
    }
  }

  lemma StrongestIsKept(cs: seq<Candidate>, c: Candidate)
    requires Unambiguous(cs) && Strongest(cs, c)
    ensures Kept(cs, c)
  {
    var i :| 0 <= i < |cs| && cs[i] == c;
    var d := SomeKept(cs, i);
    KeptIsStrongest(cs, d);
    assert Strongest(cs, c) && c in cs && d in cs;
  }

  lemma {:induction false} DistinctSameElements(xs: seq<Candidate>, ys: seq<Candidate>)
    requires DistinctIds(xs) && DistinctIds(ys) && forall c :: c in xs <==> c in ys
    ensures multiset(xs) == multiset(ys)
  {
    forall c ensures multiset(xs)[c] == multiset(ys)[c] {
      DistinctOnce(xs, c);
      DistinctOnce(ys, c);
    }
  }

  lemma {:induction false} DistinctOnce(xs: seq<Candidate>, c: Candidate)
    requires DistinctIds(xs)
    ensures multiset(xs)[c] == if c in xs then 1 else 0
  {
    if xs != [] {
      var n := |xs| - 1;
      DistinctOnce(xs[..n], c);
      assert xs == xs[..n] + [xs[n]];
      assert multiset(xs) == multiset(xs[..n]) + multiset{xs[n]};
      assert xs[n] !in xs[..n];
    }
  }

  /** If every id has only one strongest candidate, the ranking is the same for every order of the input. */
  lemma RankingForgetsOrder(xs: seq<Candidate>, ys: seq<Candidate>)
    requires Unambiguous(xs) && multiset(xs) == multiset(ys)
    ensures Ranked(xs) == Ranked(ys)
  {
    SameElements(xs, ys);
    PoolKeeps(xs);
    PoolKeeps(ys);
    assert Unambiguous(ys) by {
      forall c, d | c in ys && d in ys && c.candidateId == d.candidateId && Strongest(ys, c) && Strongest(ys, d) ensures c == d {
        assert Strongest(xs, c) && Strongest(xs, d);
      }
    }
    forall c ensures c in Pool(xs) <==> c in Pool(ys) {
      if Kept(xs, c) { KeptIsStrongest(xs, c); assert Strongest(ys, c); StrongestIsKept(ys, c); }
      if Kept(ys, c) { KeptIsStrongest(ys, c); assert Strongest(xs, c); StrongestIsKept(xs, c); }
    }
    DistinctSameElements(Pool(xs), Pool(ys));
    BeforeStrictTotal(Pool(xs));
    SortForgetsOrder(Before, Pool(xs), Pool(ys));
  }

  /** xs with its element k moved to the front. */
  function Promote(xs: seq<Candidate>, k: nat): (r: seq<Candidate>)
    requires k < |xs|
    ensures multiset(r) == multiset(xs)
  {
    assert xs == xs[..k] + ([xs[k]] + xs[k + 1..]);
    [xs[k]] + xs[..k] + xs[k + 1..]
  }

  lemma PromotedIsKept(xs: seq<Candidate>, k: nat)
    requires k < |xs| && Strongest(xs, xs[k])
    ensures Kept(Promote(xs, k), xs[k])
  {
    var r := Promote(xs, k);
    SameElements(r, xs);
    forall i | 0 < i < |r| && r[i].candidateId == xs[k].candidateId ensures r[i].resolutionStrength <= xs[k].resolutionStrength {
      assert r[i] in r;
    }
    assert KeptAt(r, xs[k], 0);
  }

  /** And only then: two different strongest candidates with one id give two different rankings. */
  lemma AmbiguousRankings(xs: seq<Candidate>)
    requires !Unambiguous(xs)
    ensures exists ys, zs :: multiset(ys) == multiset(xs) && multiset(zs) == multiset(xs) && Ranked(ys) != Ranked(zs)
  {
    var c, d :| c in xs && d in xs && c.candidateId == d.candidateId && Strongest(xs, c) && Strongest(xs, d) && c != d;
    var i, j :| 0 <= i < |xs| && 0 <= j < |xs| && xs[i] == c && xs[j] == d;
    var ys, zs := Promote(xs, i), Promote(xs, j);
    PromotedIsKept(xs, i);
    PromotedIsKept(xs, j);
    PoolKeeps(ys);
    PoolKeeps(zs);
    RankHolds(ys);
    RankHolds(zs);
    if Ranked(ys) == Ranked(zs) {
      OneOfEachId(Pool(ys), c, d);
    }
  }

  lemma RankHolds(cs: seq<Candidate>)
    ensures forall c :: c in Ranked(cs) <==> c in Pool(cs)
  {
    SameElements(Ranked(cs), Pool(cs));
  }

  lemma OneOfEachId(pool: seq<Candidate>, c: Candidate, d: Candidate)
    requires DistinctIds(pool) && c in pool && d in pool && c.candidateId == d.candidateId
    ensures c == d
  {
    var i, j :| 0 <= i < |pool| && 0 <= j < |pool| && pool[i] == c && pool[j] == d;
    assert !(i < j) && !(j < i);
  }

  lemma OneRankingIffUnambiguous(xs: seq<Candidate>)
    ensures Unambiguous(xs) <==>
      forall ys, zs :: multiset(ys) == multiset(xs) && multiset(zs) == multiset(xs) ==> Ranked(ys) == Ranked(zs)
  {
    if Unambiguous(xs) {
      forall ys, zs | multiset(ys) == multiset(xs) && multiset(zs) == multiset(xs) ensures Ranked(ys) == Ranked(zs) {
        RankingForgetsOrder(xs, ys);
        RankingForgetsOrder(xs, zs);
      }
    } else {
      AmbiguousRankings(xs);
    }
  }

  /** The ranking is strictly increasing in the key and holds every pooled candidate once. */
  lemma RankingSorted(cs: seq<Candidate>)
    ensures DistinctIds(Ranked(cs)) && multiset(Ranked(cs)) == multiset(Pool(cs))
    ensures forall i, j :: 0 <= i < j < |Ranked(cs)| ==> Before(Ranked(cs)[i], Ranked(cs)[j])
  {
    var pool, ranked := Pool(cs), Ranked(cs);
    PoolKeeps(cs);
    BeforeStrictTotal(pool);
    SortSorted(Before, pool);
    SameElements(ranked, pool);
    hide Before;
    forall i, j | 0 <= i < j < |ranked| ensures ranked[i].candidateId != ranked[j].candidateId && Before(ranked[i], ranked[j]) {
      assert ranked[i] in pool && ranked[j] in pool;
      if ranked[i].candidateId == ranked[j].candidateId {
        OneOfEachId(pool, ranked[i], ranked[j]);
        TwiceMeansTwo(ranked, i, j);
        DistinctOnce(pool, ranked[i]);
        assert false;
      }
    }
  }
}
