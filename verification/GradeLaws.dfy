/** What a grade resolution does, on the records of the series themselves: which record is chosen, ties included, and
    what the resulting factor is, without the functions that choose and convert. */
module GradeLaws {
  import opened Prelude
  import opened Units
  import opened Models
  import opened Derivation
  import opened DerivationLaws
  import opened GradeResolution

  // ---- anchors are positions of the series ----

  /** A graded record whose source id no earlier record has. */
  predicate AnchorAt(series: seq<Source>, i: int) {
    0 <= i < |series| && series[i].grade.Some? && forall j :: 0 <= j < i ==> series[j].sourceId != series[i].sourceId
  }

  function GradeAt(series: seq<Source>, i: int): real
    requires AnchorAt(series, i)
  {
    series[i].grade.value
  }

  function AnchorOf(series: seq<Source>, i: int): Anchor
    requires AnchorAt(series, i)
  {
    Anchor(GradeAt(series, i), series[i])
  }

  lemma PrefixAnchors(series: seq<Source>, n: nat, i: int)
    requires n <= |series|
    ensures AnchorAt(series[..n], i) <==> AnchorAt(series, i) && i < n
    ensures AnchorAt(series[..n], i) ==> AnchorOf(series[..n], i) == AnchorOf(series, i)
  {
    if AnchorAt(series[..n], i) {
      forall j | 0 <= j < i ensures series[j].sourceId != series[i].sourceId {
        assert series[..n][j] == series[j];
      }
    }
  }

  lemma LastAnchor(series: seq<Source>)
    requires series != []
    ensures var n := |series| - 1;
            Anchors(series) == (if AnchorAt(series, n) then Anchors(series[..n]) + [AnchorOf(series, n)] else Anchors(series[..n]))
  {}

  lemma {:induction false} AnchorsAre(series: seq<Source>, i: int)
    requires AnchorAt(series, i)
    ensures AnchorOf(series, i) in Anchors(series)
  {
    var n := |series| - 1;
    LastAnchor(series);
    if i < n {
      PrefixAnchors(series, n, i);
      AnchorsAre(series[..n], i);
    }
  }

  lemma {:induction false} AnchorFrom(series: seq<Source>, a: Anchor) returns (i: int)
    requires a in Anchors(series)
    ensures AnchorAt(series, i) && a == AnchorOf(series, i)
  {
    var n := |series| - 1;
    LastAnchor(series);
    if AnchorAt(series, n) && a == AnchorOf(series, n) {
      i := n;
    } else {
      i := AnchorFrom(series[..n], a);
      PrefixAnchors(series, n, i);
    }
  }

  // ---- the choices ----

  predicate ExactAt(series: seq<Source>, t: real, i: int) {
    AnchorAt(series, i) && -0.000000001 <= GradeAt(series, i) - t <= 0.000000001
  }

  predicate BelowAt(series: seq<Source>, t: real, i: int) {
    AnchorAt(series, i) && GradeAt(series, i) <= t
  }

  predicate AboveAt(series: seq<Source>, t: real, i: int) {
    AnchorAt(series, i) && GradeAt(series, i) >= t
  }

  /** Of the exact anchors the one with the least source id. */
  ghost predicate ChosenExact(series: seq<Source>, t: real, i: int) {
    ExactAt(series, t, i) && forall j :: ExactAt(series, t, j) ==> !StrLess(series[j].sourceId, series[i].sourceId)
  }

  /** The greatest grade at or below the target, the earlier record on ties. */
  ghost predicate ChosenLower(series: seq<Source>, t: real, i: int) {
    && BelowAt(series, t, i)
    && forall j :: BelowAt(series, t, j) ==>
         GradeAt(series, j) < GradeAt(series, i) || (GradeAt(series, j) == GradeAt(series, i) && i <= j)
  }

  /** The least grade at or above the target, the earlier record on ties. */
  ghost predicate ChosenUpper(series: seq<Source>, t: real, i: int) {
    && AboveAt(series, t, i)
    && forall j :: AboveAt(series, t, j) ==>
         GradeAt(series, j) > GradeAt(series, i) || (GradeAt(series, j) == GradeAt(series, i) && i <= j)
  }

  function Distance(x: real, y: real): real {
    if x < y then y - x else x - y
  }

  /** The nearest grade on either side, the least source id on ties. */
  ghost predicate ChosenNearest(series: seq<Source>, t: real, i: int) {
    && AnchorAt(series, i)
    && forall j :: AnchorAt(series, j) ==>
         || Distance(GradeAt(series, i), t) < Distance(GradeAt(series, j), t)
         || (Distance(GradeAt(series, i), t) == Distance(GradeAt(series, j), t) && !StrLess(series[j].sourceId, series[i].sourceId))
  }

  lemma {:induction false} ExactIsLeast(anchors: seq<Anchor>, t: real, a: Anchor)
    requires ExactOf(anchors, t).Some? && a in anchors && IsExact(a, t)
    ensures !StrLess(a.record.sourceId, ExactOf(anchors, t).value.record.sourceId)
  {
    var n := |anchors| - 1;
    var last, front, id := anchors[n], ExactOf(anchors[..n], t), a.record.sourceId;
    assert anchors == anchors[..n] + [last];
    StrIrreflexive(id);
    if a in anchors[..n] {
      ExactIsLeast(anchors[..n], t, a);
      var least := front.value.record.sourceId;
      StrIrreflexive(least);
      if StrLess(id, last.record.sourceId) && StrLess(last.record.sourceId, least) { StrTransitive(id, last.record.sourceId, least); }
    }
  }

  lemma NearerTransitive(a: Anchor, b: Anchor, c: Anchor, t: real)
    requires Nearer(a, b, t) && Nearer(b, c, t)
    ensures Nearer(a, c, t)
  {
    if StrLess(a.record.sourceId, b.record.sourceId) && StrLess(b.record.sourceId, c.record.sourceId) {
      StrTransitive(a.record.sourceId, b.record.sourceId, c.record.sourceId);
    }
  }

  lemma {:induction false} NearestIsLeast(anchors: seq<Anchor>, t: real, a: Anchor)
    requires a in anchors
    ensures !Nearer(a, NearestOf(anchors, t).value, t)
  {
    hide Nearer;
    var n := |anchors| - 1;
    var last, front := anchors[n], NearestOf(anchors[..n], t);
    assert anchors == anchors[..n] + [last];
    NeverNearer(a, t);
    if a in anchors[..n] {
      NearestIsLeast(anchors[..n], t, a);
      if Nearer(last, front.value, t) && Nearer(a, last, t) { NearerTransitive(a, last, front.value, t); }
    }
  }

  lemma NeverNearer(a: Anchor, t: real)
    ensures !Nearer(a, a, t)
  {
    StrIrreflexive(a.record.sourceId);
  }

  lemma {:induction false} LowerAt(series: seq<Source>, t: real) returns (i: int)
    requires LowerOf(Anchors(series), t).Some?
    ensures ChosenLower(series, t, i) && LowerOf(Anchors(series), t).value == AnchorOf(series, i)
  {
    var n := |series| - 1;
    var front := LowerOf(Anchors(series[..n]), t);
    LowerStep(series, t);
    if LowerOf(Anchors(series), t) == front {
      i := LowerAt(series[..n], t);
      PrefixAnchors(series, n, i);
    } else {
      i := n;
    }
    forall j | BelowAt(series, t, j) && j != i
      ensures GradeAt(series, j) < GradeAt(series, i) || (GradeAt(series, j) == GradeAt(series, i) && i <= j)
    {
      if j < n {
        PrefixAnchors(series, n, j);
        AnchorsAre(series[..n], j);
        assert i < n ==> BelowAt(series[..n], t, j);
      }
    }
  }

  lemma LowerStep(series: seq<Source>, t: real)
    requires series != []
    ensures var n := |series| - 1;
            var front := LowerOf(Anchors(series[..n]), t);
            LowerOf(Anchors(series), t) ==
              (if AnchorAt(series, n) && GradeAt(series, n) <= t && (front.None? || GradeAt(series, n) > front.value.grade)
               then Some(AnchorOf(series, n)) else front)
  {
    var n := |series| - 1;
    LastAnchor(series);
    hide Anchors;
    if AnchorAt(series, n) {
      var anchors := Anchors(series[..n]) + [AnchorOf(series, n)];
      assert anchors[..|anchors| - 1] == Anchors(series[..n]);
    }
  }

  lemma {:induction false} UpperAt(series: seq<Source>, t: real) returns (i: int)
    requires UpperOf(Anchors(series), t).Some?
    ensures ChosenUpper(series, t, i) && UpperOf(Anchors(series), t).value == AnchorOf(series, i)
  {
    var n := |series| - 1;
    var front := UpperOf(Anchors(series[..n]), t);
    UpperStep(series, t);
    if UpperOf(Anchors(series), t) == front {
      i := UpperAt(series[..n], t);
      PrefixAnchors(series, n, i);
    } else {
      i := n;
    }
    forall j | AboveAt(series, t, j) && j != i
      ensures GradeAt(series, j) > GradeAt(series, i) || (GradeAt(series, j) == GradeAt(series, i) && i <= j)
    {
      if j < n {
        PrefixAnchors(series, n, j);
        AnchorsAre(series[..n], j);
        assert i < n ==> AboveAt(series[..n], t, j);
      }
    }
  }

  lemma UpperStep(series: seq<Source>, t: real)
    requires series != []
    ensures var n := |series| - 1;
            var front := UpperOf(Anchors(series[..n]), t);
            UpperOf(Anchors(series), t) ==
              (if AnchorAt(series, n) && GradeAt(series, n) >= t && (front.None? || GradeAt(series, n) < front.value.grade)
               then Some(AnchorOf(series, n)) else front)
  {
    var n := |series| - 1;
    LastAnchor(series);
    hide Anchors;
    if AnchorAt(series, n) {
      var anchors := Anchors(series[..n]) + [AnchorOf(series, n)];
      assert anchors[..|anchors| - 1] == Anchors(series[..n]);
    }
  }

  lemma ExactChosen(series: seq<Source>, t: real) returns (i: int)
    requires ExactOf(Anchors(series), t).Some?
    ensures ChosenExact(series, t, i) && ExactOf(Anchors(series), t).value == AnchorOf(series, i)
  {
    i := AnchorFrom(series, ExactOf(Anchors(series), t).value);
    forall j | ExactAt(series, t, j) ensures !StrLess(series[j].sourceId, series[i].sourceId) {
      AnchorsAre(series, j);
      ExactIsLeast(Anchors(series), t, AnchorOf(series, j));
    }
  }

  lemma NearestChosen(series: seq<Source>, t: real) returns (i: int)
    requires Anchors(series) != []
    ensures ChosenNearest(series, t, i) && NearestOf(Anchors(series), t).value == AnchorOf(series, i)
  {
    i := AnchorFrom(series, NearestOf(Anchors(series), t).value);
    forall j | AnchorAt(series, j) ensures !Nearer(AnchorOf(series, j), AnchorOf(series, i), t) {
      AnchorsAre(series, j);
      NearestIsLeast(Anchors(series), t, AnchorOf(series, j));
    }
  }

  // ---- the factor ----

  /** x, counted in the unit, is the factor of the record. */
  predicate Reads(s: Source, unit: FactorUnit, x: real) {
    && s.factorUnit.activity.dimension == unit.activity.dimension
    && (x * unit.impact) * s.factorUnit.activity.ratio == (s.factorValue * s.factorUnit.impact) * unit.activity.ratio
  }

  lemma FactorReads(a: Anchor, unit: FactorUnit)
    ensures FactorOf(a, unit).Ok? ==> Reads(a.record, unit, FactorOf(a, unit).value)
    ensures FactorOf(a, unit).Ok? <==>
      && a.record.factorUnit.activity.dimension == unit.activity.dimension
      && (a.record.factorUnit.activity == unit.activity || !VolumesApart(a.record.factorUnit.activity, unit.activity))
  {
    FactorLaw(a.record.factorValue, a.record.factorUnit, unit);
  }

  lemma InterpolateLaw(low: real, high: real, lowGrade: real, highGrade: real, t: real)
    requires lowGrade < highGrade
    ensures (Interpolate(low, high, lowGrade, highGrade, t) - low) * (highGrade - lowGrade) == (t - lowGrade) * (high - low)
  {
    var q := Quotient(t - lowGrade, highGrade - lowGrade);
    assert (q * (high - low)) * (highGrade - lowGrade) == (q * (highGrade - lowGrade)) * (high - low);
  }

  /** The record at i and its factor replace the candidate's. */
  predicate Installed(c: Candidate, r: Candidate, s: Source) {
    r.source == s && Reads(s, c.factorUnit, r.factorValue)
  }

  /** The factor lies on the line through two anchors; the candidate keeps its record. */
  ghost predicate OnTheLine(c: Candidate, r: Candidate, series: seq<Source>, t: real, i: int, j: int)
    requires AnchorAt(series, i) && AnchorAt(series, j)
  {
    r.source == c.source && exists low: real, high: real ::
      && Reads(series[i], c.factorUnit, low) && Reads(series[j], c.factorUnit, high)
      && (r.factorValue - low) * (GradeAt(series, j) - GradeAt(series, i)) == (t - GradeAt(series, i)) * (high - low)
  }

  predicate Retained(c: Candidate, r: Candidate) {
    r.source == c.source && r.factorValue == c.factorValue
  }

  ghost predicate Bracketed(series: seq<Source>, t: real) {
    (exists i :: BelowAt(series, t, i)) && (exists j :: AboveAt(series, t, j))
  }

  /** Which of the three outcomes it is, and with what factor, is decided by the graded records alone. */
  ghost predicate GradeOutcome(c: Candidate, series: seq<Source>, target: Option<real>, r: Candidate) {
    if target.Some? && exists i :: ExactAt(series, target.value, i) then
      r.resolutionType == GRADE_EXACT_ANCHOR
      && exists i :: ChosenExact(series, target.value, i) && Installed(c, r, series[i])
    else if target.Some? && Bracketed(series, target.value) then
      r.resolutionType == GRADE_INTERPOLATED
      && exists i, j :: ChosenLower(series, target.value, i) && ChosenUpper(series, target.value, j)
                        && GradeAt(series, i) < target.value < GradeAt(series, j)
                        && OnTheLine(c, r, series, target.value, i, j)
    else if target.Some? && exists i :: AnchorAt(series, i) then
      r.resolutionType == GRADE_PROXY
      && exists i :: ChosenNearest(series, target.value, i)
                     && (if series[i].sourceId == c.source.sourceId then Retained(c, r) else Installed(c, r, series[i]))
    else r.resolutionType == GRADE_PROXY && Retained(c, r)
  }

  lemma ExactPresent(series: seq<Source>, t: real)
    ensures (exists i :: ExactAt(series, t, i)) <==> ExactOf(Anchors(series), t).Some?
  {
    if ExactOf(Anchors(series), t).Some? {
      var i := ExactChosen(series, t);
    }
    if i :| ExactAt(series, t, i) {
      AnchorsAre(series, i);
      assert IsExact(AnchorOf(series, i), t);
    }
  }

  lemma BracketPresent(series: seq<Source>, t: real)
    ensures Bracketed(series, t) <==> LowerOf(Anchors(series), t).Some? && UpperOf(Anchors(series), t).Some?
  {
    if LowerOf(Anchors(series), t).Some? && UpperOf(Anchors(series), t).Some? {
      var i := LowerAt(series, t);
      var j := UpperAt(series, t);
    }
    if i :| BelowAt(series, t, i) { AnchorsAre(series, i); }
    if j :| AboveAt(series, t, j) { AnchorsAre(series, j); }
  }

  lemma AnchorPresent(series: seq<Source>)
    ensures (exists i :: AnchorAt(series, i)) <==> Anchors(series) != []
  {
    if Anchors(series) != [] {
      var i := AnchorFrom(series, Anchors(series)[0]);
    }
    if i :| AnchorAt(series, i) { AnchorsAre(series, i); }
  }

  /** A resolved grade is what the records of the series determine. */
  lemma GradeLaw(c: Candidate, series: seq<Source>, target: Option<real>, spell: real -> string)
    requires ResolveGrade(c, series, target, spell).Ok?
    ensures GradeOutcome(c, series, target, ResolveGrade(c, series, target, spell).value)
  {
    hide Anchors, GradeOutcome, Choose, ResolvedFactor, ResolveGrade;
    GradeKeepsGaps(c, series, target, spell);
    GradeInstallsFactor(c, series, target, spell);
    GradeSource(c, series, target, spell);
    OutcomeOf(c, series, target, ResolveGrade(c, series, target, spell).value);
  }

  lemma OutcomeOf(c: Candidate, series: seq<Source>, target: Option<real>, r: Candidate)
    requires ResolvedFactor(c, Anchors(series), target) == Ok(r.factorValue)
    requires r.source == ChosenSource(c, Choose(Anchors(series), target))
    requires r.resolutionType == (match Choose(Anchors(series), target)
                                  case ExactAnchor(_) => GRADE_EXACT_ANCHOR
                                  case Between(_, _) => GRADE_INTERPOLATED
                                  case Nearest(_) => GRADE_PROXY)
    ensures GradeOutcome(c, series, target, r)
  {
    hide Anchors, AnchorAt, ExactAt, ChosenExact, ChosenLower, ChosenUpper, ChosenNearest;
    if target.Some? {
      var t := target.value;
      ExactPresent(series, t);
      BracketPresent(series, t);
      BracketNeverDegenerate(Anchors(series), t);
      AnchorPresent(series);
      match Choose(Anchors(series), target)
      case ExactAnchor(a) => ExactOutcome(c, series, t, r);
      case Between(_, _) => LineOutcome(c, series, t, r);
      case Nearest(_) => NearestOutcome(c, series, t, r);
    }
  }

  function ChosenSource(c: Candidate, choice: Choice): Source {
    match choice
    case ExactAnchor(a) => a.record
    case Between(_, _) => c.source
    case Nearest(a) => if a.Some? && a.value.record.sourceId != c.source.sourceId then a.value.record else c.source
  }

  lemma GradeSource(c: Candidate, series: seq<Source>, target: Option<real>, spell: real -> string)
    requires ResolveGrade(c, series, target, spell).Ok?
    ensures ResolveGrade(c, series, target, spell).value.source == ChosenSource(c, Choose(Anchors(series), target))
  {
    hide Anchors, Choose, ResolvedFactor, EffectiveTotal, WellFormed, Dedup, Finalize;
  }

  lemma ExactOutcome(c: Candidate, series: seq<Source>, t: real, r: Candidate)
    requires ExactOf(Anchors(series), t).Some?
    requires r.source == ExactOf(Anchors(series), t).value.record
    requires FactorOf(ExactOf(Anchors(series), t).value, c.factorUnit) == Ok(r.factorValue)
    ensures exists i :: ChosenExact(series, t, i) && Installed(c, r, series[i])
  {
    hide Anchors, FactorOf, ExactOf;
    var i := ExactChosen(series, t);
    FactorReads(AnchorOf(series, i), c.factorUnit);
  }

  lemma NearestOutcome(c: Candidate, series: seq<Source>, t: real, r: Candidate)
    requires ExactOf(Anchors(series), t).None? && ResolvedFactor(c, Anchors(series), Some(t)) == Ok(r.factorValue)
    requires Choose(Anchors(series), Some(t)) == Nearest(NearestOf(Anchors(series), t))
    requires var a := NearestOf(Anchors(series), t);
             r.source == (if a.Some? && a.value.record.sourceId != c.source.sourceId then a.value.record else c.source)
    ensures Anchors(series) != [] ==>
      exists i :: ChosenNearest(series, t, i)
                  && (if series[i].sourceId == c.source.sourceId then Retained(c, r) else Installed(c, r, series[i]))
    ensures Anchors(series) == [] ==> Retained(c, r)
  {
    hide Anchors, FactorOf, Choose, NearestOf;
    if Anchors(series) != [] {
      var i := NearestChosen(series, t);
      FactorReads(AnchorOf(series, i), c.factorUnit);
      assert ChosenNearest(series, t, i);
      assert if series[i].sourceId == c.source.sourceId then Retained(c, r) else Installed(c, r, series[i]);
    }
  }

  lemma LineOutcome(c: Candidate, series: seq<Source>, t: real, r: Candidate)
    requires Choose(Anchors(series), Some(t)).Between? && ResolvedFactor(c, Anchors(series), Some(t)) == Ok(r.factorValue)
    requires r.source == c.source
    ensures exists i, j :: ChosenLower(series, t, i) && ChosenUpper(series, t, j)
                           && GradeAt(series, i) < t < GradeAt(series, j) && OnTheLine(c, r, series, t, i, j)
  {
    hide Anchors, FactorOf, LowerOf, UpperOf, ExactOf, NearestOf, Interpolate, Reads;
    BracketNeverDegenerate(Anchors(series), t);
    var i := LowerAt(series, t);
    var j := UpperAt(series, t);
    FactorReads(AnchorOf(series, i), c.factorUnit);
    FactorReads(AnchorOf(series, j), c.factorUnit);
    var low, high := FactorOf(AnchorOf(series, i), c.factorUnit).value, FactorOf(AnchorOf(series, j), c.factorUnit).value;
    InterpolateLaw(low, high, GradeAt(series, i), GradeAt(series, j), t);
    assert Reads(series[i], c.factorUnit, low) && Reads(series[j], c.factorUnit, high);
    assert OnTheLine(c, r, series, t, i, j);
  }

  // ---- acceptance ----

  /** The record has a factor the constructor accepts, in a unit the candidate's converts to without evidence. */
  predicate Usable(s: Source, unit: FactorUnit) {
    && s.factorValue >= 0.0 && s.factorUnit.activity.dimension == unit.activity.dimension
    && (s.factorUnit.activity == unit.activity || !VolumesApart(s.factorUnit.activity, unit.activity))
  }

  lemma UsableReads(a: Anchor, unit: FactorUnit)
    requires Usable(a.record, unit)
    ensures FactorOf(a, unit).Ok? && FactorOf(a, unit).value >= 0.0
  {
    FactorReads(a, unit);
    ConvertKeepsSign(a.record.factorValue, a.record.factorUnit, unit);
  }

  lemma LineKeepsSign(low: real, high: real, lowGrade: real, highGrade: real, t: real)
    requires low >= 0.0 && high >= 0.0 && lowGrade < t < highGrade
    ensures Interpolate(low, high, lowGrade, highGrade, t) >= 0.0
  {
    hide Quotient;
    var q, w := Quotient(t - lowGrade, highGrade - lowGrade), highGrade - lowGrade;
    assert q > 1.0 ==> (q - 1.0) * w > 0.0;
    assert (q - 1.0) * w == q * w - w;
    assert q * high >= 0.0 && (1.0 - q) * low >= 0.0;
    assert low + q * (high - low) == (1.0 - q) * low + q * high;
  }

  lemma ResolvedKeepsSign(c: Candidate, series: seq<Source>, target: Option<real>)
    requires WellFormed(c) && forall s :: s in series && s.grade.Some? ==> Usable(s, c.factorUnit)
    ensures ResolvedFactor(c, Anchors(series), target).Ok? && ResolvedFactor(c, Anchors(series), target).value >= 0.0
  {
    hide FactorOf, Usable, Interpolate;
    forall a | a in Anchors(series) ensures FactorOf(a, c.factorUnit).Ok? && FactorOf(a, c.factorUnit).value >= 0.0 {
      UsableReads(a, c.factorUnit);
    }
    ChosenBracket(Anchors(series), target);
    match Choose(Anchors(series), target)
    case Between(lower, upper) =>
      LineKeepsSign(FactorOf(lower, c.factorUnit).value, FactorOf(upper, c.factorUnit).value, lower.grade, upper.grade, target.value);
    case _ =>
  }

  /** If the graded records are usable, a consistent candidate's grade is always resolved. */
  lemma GradeAccepts(c: Candidate, series: seq<Source>, target: Option<real>, spell: real -> string)
    requires Consistent(c) && WellFormed(c) && forall s :: s in series && s.grade.Some? ==> Usable(s, c.factorUnit)
    ensures ResolveGrade(c, series, target, spell).Ok?
  {
    hide Usable, Anchors, ResolvedFactor, Choose, Consistent, Derive;
    ResolvedKeepsSign(c, series, target);
    var factor := ResolvedFactor(c, Anchors(series), target).value;
    match Choose(Anchors(series), target)
    case ExactAnchor(a) =>
      DeriveAcceptsFrom(c, c.(source := a.record, factorValue := factor),
        Derived(":grade-" + (if target.Some? then spell(target.value) else "") + "-exact", GRADE_EXACT_ANCHOR, None, 0, [], [], None, None, None, None));
    case Between(_, _) =>
      DeriveAcceptsFrom(c, c, Derived(":grade-" + (if target.Some? then spell(target.value) else "") + "-interpolated",
        GRADE_INTERPOLATED, Some(factor), 1, [],
        ["anchors passed the same-series Grade Anchor qualification policy"], None, None, None, None));
    case Nearest(a) =>
      DeriveAcceptsFrom(c, if a.Some? && a.value.record.sourceId != c.source.sourceId then c.(source := a.value.record, factorValue := factor) else c,
        Derived(":grade-proxy", GRADE_PROXY, None, 0, ["no supported adjustment basis for the grade difference"],
          ["nearest grade is used unchanged"], None, None, None, None));
  }
}
