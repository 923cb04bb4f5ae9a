/** Grade anchors: exact match, bounded interpolation, nearest fallback (grade_resolution.py). */
module GradeResolution {
  import opened Prelude
  import opened Units
  import opened Models
  import opened Derivation

  datatype Anchor = Anchor(grade: real, record: Source)

  const EXACT := 0.000000001

  // ---- collecting anchors ----

  predicate SeenBefore(series: seq<Source>, n: nat)
    requires n < |series|
  {
    exists i :: 0 <= i < n && series[i].sourceId == series[n].sourceId
  }

  /** The first record of every source id, if it has a grade. */
  function Anchors(series: seq<Source>): (r: seq<Anchor>)
    ensures forall a :: a in r ==> a.record in series && a.record.grade == Some(a.grade)
  {
    if series == [] then []
    else
      var n := |series| - 1;
      assert forall a :: a in Anchors(series[..n]) ==> a.record in series[..n] && a.record in series;
      if SeenBefore(series, n) || series[n].grade.None? then Anchors(series[..n])
      else Anchors(series[..n]) + [Anchor(series[n].grade.value, series[n])]
  }

  method CollectAnchors(series: seq<Source>) returns (anchors: seq<Anchor>)
    ensures anchors == Anchors(series)
  {
    anchors := [];
    var seen: set<string>, i := {}, 0;
    while i < |series|
      invariant 0 <= i <= |series|
      invariant seen == set j | 0 <= j < i :: series[j].sourceId
      invariant anchors == Anchors(series[..i])
    {
      var record := series[i];
      assert series[..i + 1][..i] == series[..i];
      assert SeenBefore(series[..i + 1], i) <==> record.sourceId in seen;
      if record.sourceId !in seen {
        seen := seen + {record.sourceId};
        if record.grade.Some? {
          anchors := anchors + [Anchor(record.grade.value, record)];
        }
      }
      i := i + 1;
    }
    assert series[..i] == series;
  }

  /** No two anchors share a source id. */
  lemma {:induction false} AnchorsDistinct(series: seq<Source>)
    ensures forall i, j :: 0 <= i < j < |Anchors(series)| ==> Anchors(series)[i].record.sourceId != Anchors(series)[j].record.sourceId
  {
    if series != [] {
      var n := |series| - 1;
      AnchorsDistinct(series[..n]);
      if !SeenBefore(series, n) && series[n].grade.Some? {
        var front := Anchors(series[..n]);
        forall i | 0 <= i < |front| ensures front[i].record.sourceId != series[n].sourceId {
          assert front[i] in front && front[i].record in series[..n];
        }
      }
    }
  }

  // ---- selecting anchors ----

  predicate IsExact(a: Anchor, t: real) {
    Abs(a.grade - t) <= EXACT
  }

  /** The exact anchor with the least source id. */
  function ExactOf(anchors: seq<Anchor>, t: real): (r: Option<Anchor>)
    ensures r.Some? ==> r.value in anchors && IsExact(r.value, t)
    ensures r.None? ==> forall a :: a in anchors ==> !IsExact(a, t)
  {
    if anchors == [] then None
    else
      var last, front := anchors[|anchors| - 1], ExactOf(anchors[..|anchors| - 1], t);
      assert anchors == anchors[..|anchors| - 1] + [last];
      if IsExact(last, t) && (front.None? || StrLess(last.record.sourceId, front.value.record.sourceId)) then Some(last) else front
  }

  /** max of the anchors at or below t; the first one on ties. */
  function LowerOf(anchors: seq<Anchor>, t: real): (r: Option<Anchor>)
    ensures r.Some? ==> r.value in anchors && r.value.grade <= t
    ensures r.Some? ==> forall a :: a in anchors && a.grade <= t ==> a.grade <= r.value.grade
    ensures r.None? ==> forall a :: a in anchors ==> a.grade > t
  {
    if anchors == [] then None
    else
      var last, front := anchors[|anchors| - 1], LowerOf(anchors[..|anchors| - 1], t);
      assert anchors == anchors[..|anchors| - 1] + [last];
      if last.grade <= t && (front.None? || last.grade > front.value.grade) then Some(last) else front
  }

  /** min of the anchors at or above t; the first one on ties. */
  function UpperOf(anchors: seq<Anchor>, t: real): (r: Option<Anchor>)
    ensures r.Some? ==> r.value in anchors && r.value.grade >= t
    ensures r.Some? ==> forall a :: a in anchors && a.grade >= t ==> a.grade >= r.value.grade
    ensures r.None? ==> forall a :: a in anchors ==> a.grade < t
  {
    if anchors == [] then None
    else
      var last, front := anchors[|anchors| - 1], UpperOf(anchors[..|anchors| - 1], t);
      assert anchors == anchors[..|anchors| - 1] + [last];
      if last.grade >= t && (front.None? || last.grade < front.value.grade) then Some(last) else front
  }

  predicate Nearer(a: Anchor, b: Anchor, t: real) {
    Abs(a.grade - t) < Abs(b.grade - t)
    || (Abs(a.grade - t) == Abs(b.grade - t) && StrLess(a.record.sourceId, b.record.sourceId))
  }

  function NearestOf(anchors: seq<Anchor>, t: real): (r: Option<Anchor>)
    ensures r.Some? <==> anchors != []
    ensures r.Some? ==> r.value in anchors
    ensures r.Some? ==> forall a :: a in anchors ==> Abs(r.value.grade - t) <= Abs(a.grade - t)
  {
    if anchors == [] then None
    else
      var last, front := anchors[|anchors| - 1], NearestOf(anchors[..|anchors| - 1], t);
      assert anchors == anchors[..|anchors| - 1] + [last];
      if front.None? || Nearer(last, front.value, t) then Some(last) else front
  }

  // ---- the decision ----

  datatype Choice = ExactAnchor(anchor: Anchor) | Between(lower: Anchor, upper: Anchor) | Nearest(fallback: Option<Anchor>)

  function Choose(anchors: seq<Anchor>, target: Option<real>): Choice {
    match target
    case None => Nearest(None)
    case Some(t) =>
      var exact, lower, upper := ExactOf(anchors, t), LowerOf(anchors, t), UpperOf(anchors, t);
      if exact.Some? then ExactAnchor(exact.value)
      else if lower.Some? && upper.Some? && lower.value.grade != upper.value.grade then Between(lower.value, upper.value)
      else Nearest(NearestOf(anchors, t))
  }

  /** The guard on equal grades never decides: without an exact anchor, two bracketing anchors differ. */
  lemma BracketNeverDegenerate(anchors: seq<Anchor>, t: real)
    ensures ExactOf(anchors, t).None? && LowerOf(anchors, t).Some? && UpperOf(anchors, t).Some? ==>
      LowerOf(anchors, t).value.grade < t < UpperOf(anchors, t).value.grade
  {
    if ExactOf(anchors, t).None? && LowerOf(anchors, t).Some? && UpperOf(anchors, t).Some? {
      assert !IsExact(LowerOf(anchors, t).value, t) && !IsExact(UpperOf(anchors, t).value, t);
    }
  }

  /** The factor of a record in the unit of the candidate. */
  function FactorOf(a: Anchor, unit: FactorUnit): Result<real> {
    ConvertFactor(a.record.factorValue, a.record.factorUnit, unit)
  }

  function Interpolate(low: real, high: real, lowGrade: real, highGrade: real, t: real): (r: real)
    requires lowGrade < highGrade
  {
    low + Quotient(t - lowGrade, highGrade - lowGrade) * (high - low)
  }

  /** The factor a choice leads to. */
  function ChosenFactor(c: Candidate, target: Option<real>, choice: Choice): Result<real>
    requires choice.Between? ==> target.Some? && choice.lower.grade < choice.upper.grade
  {
    match choice
    case ExactAnchor(a) => FactorOf(a, c.factorUnit)
    case Between(lower, upper) =>
      (match (FactorOf(lower, c.factorUnit), FactorOf(upper, c.factorUnit))
       case (Ok(low), Ok(high)) => Ok(Interpolate(low, high, lower.grade, upper.grade, target.value))
       case (Err(e), _) => Err(e)
       case (_, Err(e)) => Err(e))
    case Nearest(a) =>
      if a.Some? && a.value.record.sourceId != c.source.sourceId then FactorOf(a.value, c.factorUnit) else Ok(c.factorValue)
  }

  lemma ChosenBracket(anchors: seq<Anchor>, target: Option<real>)
    ensures var choice := Choose(anchors, target);
            (choice.Between? ==>
              && target.Some? && choice.lower.grade < target.value < choice.upper.grade
              && choice.lower in anchors && choice.upper in anchors)
  {
    if target.Some? { BracketNeverDegenerate(anchors, target.value); }
  }

  /** The factor resolve_grade arrives at. */
  function ResolvedFactor(c: Candidate, anchors: seq<Anchor>, target: Option<real>): Result<real> {
    ChosenBracket(anchors, target);
    ChosenFactor(c, target, Choose(anchors, target))
  }

  // ---- resolve_grade ----

  function ResolveGrade(c: Candidate, series: seq<Source>, target: Option<real>, spell: real -> string): Result<Candidate> {
    var anchors := Anchors(series);
    var choice := Choose(anchors, target);
    match ResolvedFactor(c, anchors, target)
    case Err(e) => Err(e)
    case Ok(factor) =>
      match choice
      case ExactAnchor(a) =>
        Rebased(c.(source := a.record, factorValue := factor),
          Derived(":grade-" + (if target.Some? then spell(target.value) else "") + "-exact", GRADE_EXACT_ANCHOR, None, 0, [], [], None, None, None, None))
      case Between(_, _) =>
        Derive(c, Derived(":grade-" + (if target.Some? then spell(target.value) else "") + "-interpolated", GRADE_INTERPOLATED, Some(factor), 1, [],
          ["anchors passed the same-series Grade Anchor qualification policy"], None, None, None, None))
      case Nearest(a) =>
        Rebased(if a.Some? && a.value.record.sourceId != c.source.sourceId then c.(source := a.value.record, factorValue := factor) else c,
          Derived(":grade-proxy", GRADE_PROXY, None, 0, ["no supported adjustment basis for the grade difference"],
            ["nearest grade is used unchanged"], None, None, None, None))
  }

  /** replace(candidate, ...) runs the constructor's checks before derive_candidate sees the result. */
  function Rebased(base: Candidate, d: Derived): Result<Candidate> {
    if WellFormed(base) then Derive(base, d) else Err(ValueError("candidate constructor rejected the anchor"))
  }

  /** resolve_grade, in the order of its branches. */
  method Resolve(c: Candidate, series: seq<Source>, target: Option<real>, spell: real -> string) returns (r: Result<Candidate>)
    ensures r == ResolveGrade(c, series, target, spell)
  {
    hide Anchors, Rebased, Derive, FactorOf;
    var anchors := CollectAnchors(series);
    var nearest := None;
    if target.Some? {
      var t := target.value;
      var exact := ExactOf(anchors, t);
      if exact.Some? {
        var factor := FactorOf(exact.value, c.factorUnit);
        if factor.Err? {
          return Err(factor.error);
        }
        return Rebased(c.(source := exact.value.record, factorValue := factor.value),
          Derived(":grade-" + spell(t) + "-exact", GRADE_EXACT_ANCHOR, None, 0, [], [], None, None, None, None));
      }
      var lower, upper := LowerOf(anchors, t), UpperOf(anchors, t);
      if lower.Some? && upper.Some? && lower.value.grade != upper.value.grade {
        BracketNeverDegenerate(anchors, t);
        var low := FactorOf(lower.value, c.factorUnit);
        if low.Err? {
          return Err(low.error);
        }
        var high := FactorOf(upper.value, c.factorUnit);
        if high.Err? {
          return Err(high.error);
        }
        var output := Interpolate(low.value, high.value, lower.value.grade, upper.value.grade, t);
        return Derive(c, Derived(":grade-" + spell(t) + "-interpolated", GRADE_INTERPOLATED, Some(output), 1, [],
          ["anchors passed the same-series Grade Anchor qualification policy"], None, None, None, None));
      }
      nearest := NearestOf(anchors, t);
    }
    var base := c;
    if nearest.Some? && nearest.value.record.sourceId != c.source.sourceId {
      var factor := FactorOf(nearest.value, c.factorUnit);
      if factor.Err? {
        return Err(factor.error);
      }
      base := c.(source := nearest.value.record, factorValue := factor.value);
    }
    r := Rebased(base, Derived(":grade-proxy", GRADE_PROXY, None, 0, ["no supported adjustment basis for the grade difference"],
      ["nearest grade is used unchanged"], None, None, None, None));
  }

  lemma GradeKeepsConsistency(c: Candidate, series: seq<Source>, target: Option<real>, spell: real -> string)
    requires Consistent(c) && ResolveGrade(c, series, target, spell).Ok?
    ensures Consistent(ResolveGrade(c, series, target, spell).value)
  {
    var anchors := Anchors(series);
    var factor := ResolvedFactor(c, anchors, target).value;
    hide Derive, Consistent, WellFormed, ResolvedFactor, Anchors;
    match Choose(anchors, target)
    case ExactAnchor(a) =>
      DeriveKeepsConsistency(c.(source := a.record, factorValue := factor),
        Derived(":grade-" + (if target.Some? then spell(target.value) else "") + "-exact", GRADE_EXACT_ANCHOR, None, 0, [], [], None, None, None, None), c);
    case Between(_, _) =>
      DeriveKeepsConsistency(c, Derived(":grade-" + (if target.Some? then spell(target.value) else "") + "-interpolated",
        GRADE_INTERPOLATED, Some(factor), 1, [],
        ["anchors passed the same-series Grade Anchor qualification policy"], None, None, None, None), c);
    case Nearest(a) =>
      var base := if a.Some? && a.value.record.sourceId != c.source.sourceId then c.(source := a.value.record, factorValue := factor) else c;
      DeriveKeepsConsistency(base, Derived(":grade-proxy", GRADE_PROXY, None, 0, ["no supported adjustment basis for the grade difference"],
            ["nearest grade is used unchanged"], None, None, None, None), c);
  }

  /** A grade resolution settles no gap itself, and says of which kind it is. */
  lemma GradeKeepsGaps(c: Candidate, series: seq<Source>, target: Option<real>, spell: real -> string)
    requires ResolveGrade(c, series, target, spell).Ok?
    ensures var d := ResolveGrade(c, series, target, spell).value;
            && d.gaps == c.gaps
            && d.resolutionType == (match Choose(Anchors(series), target)
                                    case ExactAnchor(_) => GRADE_EXACT_ANCHOR
                                    case Between(_, _) => GRADE_INTERPOLATED
                                    case Nearest(_) => GRADE_PROXY)
  {
    hide Anchors, Choose, ResolvedFactor, Derive, WellFormed;
    var factor := ResolvedFactor(c, Anchors(series), target).value;
    match Choose(Anchors(series), target)
    case ExactAnchor(a) =>
      DeriveFrame(c.(source := a.record, factorValue := factor),
        Derived(":grade-" + (if target.Some? then spell(target.value) else "") + "-exact", GRADE_EXACT_ANCHOR, None, 0, [], [], None, None, None, None));
    case Between(_, _) =>
      DeriveFrame(c, Derived(":grade-" + (if target.Some? then spell(target.value) else "") + "-interpolated",
        GRADE_INTERPOLATED, Some(factor), 1, [],
        ["anchors passed the same-series Grade Anchor qualification policy"], None, None, None, None));
    case Nearest(a) =>
      DeriveFrame(if a.Some? && a.value.record.sourceId != c.source.sourceId then c.(source := a.value.record, factorValue := factor) else c,
        Derived(":grade-proxy", GRADE_PROXY, None, 0, ["no supported adjustment basis for the grade difference"],
          ["nearest grade is used unchanged"], None, None, None, None));
  }

  /** The resolved candidate carries the resolved factor. */
  lemma GradeInstallsFactor(c: Candidate, series: seq<Source>, target: Option<real>, spell: real -> string)
    requires ResolveGrade(c, series, target, spell).Ok?
    ensures ResolvedFactor(c, Anchors(series), target) == Ok(ResolveGrade(c, series, target, spell).value.factorValue)
  {
    hide WellFormed, Anchors, ChosenFactor, Choose;
    var choice := Choose(Anchors(series), target);
    if choice.Nearest? && !(choice.fallback.Some? && choice.fallback.value.record.sourceId != c.source.sourceId) {
      NearestFactor(c, target, choice);
    }
  }

  lemma NearestFactor(c: Candidate, target: Option<real>, choice: Choice)
    requires choice.Nearest? && !(choice.fallback.Some? && choice.fallback.value.record.sourceId != c.source.sourceId)
    ensures ChosenFactor(c, target, choice) == Ok(c.factorValue)
  {}

  // ---- monotonicity ----

  predicate Separated(anchors: seq<Anchor>) {
    forall i, j :: 0 <= i < j < |anchors| ==> Abs(anchors[i].grade - anchors[j].grade) > 2.0 * EXACT
  }

  predicate Convertible(anchors: seq<Anchor>, unit: FactorUnit) {
    forall a :: a in anchors ==> FactorOf(a, unit).Ok?
  }

  predicate Nondecreasing(anchors: seq<Anchor>, unit: FactorUnit)
    requires Convertible(anchors, unit)
  {
    forall a, b :: a in anchors && b in anchors && a.grade <= b.grade ==> FactorOf(a, unit).value <= FactorOf(b, unit).value
  }

  /** The candidate still carries the factor of its own record. */
  predicate Unadjusted(c: Candidate, anchors: seq<Anchor>) {
    forall a :: a in anchors && a.record.sourceId == c.source.sourceId ==> FactorOf(a, c.factorUnit) == Ok(c.factorValue)
  }

  predicate Monotone(c: Candidate, anchors: seq<Anchor>) {
    anchors != [] && Separated(anchors) && Convertible(anchors, c.factorUnit) && Nondecreasing(anchors, c.factorUnit) && Unadjusted(c, anchors)
  }

  lemma SeparatedSame(anchors: seq<Anchor>, a: Anchor, b: Anchor)
    requires Separated(anchors) && a in anchors && b in anchors && Abs(a.grade - b.grade) <= 2.0 * EXACT
    ensures a == b
  {
    var i :| 0 <= i < |anchors| && anchors[i] == a;
    var j :| 0 <= j < |anchors| && anchors[j] == b;
  }

  lemma InterpolateBetween(low: real, high: real, lowGrade: real, highGrade: real, s: real, t: real)
    requires low <= high && lowGrade < highGrade && lowGrade <= s <= t <= highGrade
    ensures low <= Interpolate(low, high, lowGrade, highGrade, s) <= Interpolate(low, high, lowGrade, highGrade, t) <= high
  {
    hide Quotient;
    var w: Positive := highGrade - lowGrade;
    QuotientMonotone(0.0, s - lowGrade, w);
    QuotientMonotone(s - lowGrade, t - lowGrade, w);
    QuotientMonotone(t - lowGrade, w, w);
    CancelPositive(Quotient(0.0, w), 0.0, w);
    assert 1.0 * w == w && Quotient(w, w) * w == w;
    CancelPositive(Quotient(w, w), 1.0, w);
    ScaleMonotone(Quotient(s - lowGrade, w), Quotient(t - lowGrade, w), high - low);
  }

  lemma QuotientMonotone(a: real, b: real, w: Positive)
    requires a <= b
    ensures Quotient(a, w) <= Quotient(b, w)
  {
    var p, q := Quotient(a, w), Quotient(b, w);
    hide Quotient;
    assert (p - q) * w == p * w - q * w <= 0.0;
    assert p > q ==> (p - q) * w > 0.0;
  }

  lemma ScaleMonotone(p: real, q: real, d: real)
    requires 0.0 <= p <= q <= 1.0 && d >= 0.0
    ensures 0.0 <= p * d <= q * d <= d
  {
    assert (q - p) * d >= 0.0 && (1.0 - q) * d >= 0.0 && p * d >= 0.0;
  }

  /** An interpolated factor lies between the factors of its anchors, which are adjacent around the target. */
  lemma InterpolationBounded(c: Candidate, anchors: seq<Anchor>, t: real)
    requires Monotone(c, anchors) && Choose(anchors, Some(t)).Between?
    ensures var choice := Choose(anchors, Some(t));
            && choice.lower in anchors && choice.upper in anchors && choice.lower.grade < t < choice.upper.grade
            && (forall a :: a in anchors ==> a.grade <= choice.lower.grade || choice.upper.grade <= a.grade)
            && ResolvedFactor(c, anchors, Some(t)).Ok?
            && FactorOf(choice.lower, c.factorUnit).value <= ResolvedFactor(c, anchors, Some(t)).value <= FactorOf(choice.upper, c.factorUnit).value
  {
    ChosenBracket(anchors, Some(t));
    var choice := Choose(anchors, Some(t));
    InterpolateBetween(FactorOf(choice.lower, c.factorUnit).value, FactorOf(choice.upper, c.factorUnit).value,
      choice.lower.grade, choice.upper.grade, t, t);
    hide Interpolate, FactorOf;
  }

  /** The resolved factor never falls below an anchor at or below the target, nor rises above one at or above it. */
  lemma AnchorsBound(c: Candidate, anchors: seq<Anchor>, t: real, a: Anchor)
    requires Monotone(c, anchors) && a in anchors
    ensures ResolvedFactor(c, anchors, Some(t)).Ok?
    ensures a.grade <= t ==> FactorOf(a, c.factorUnit).value <= ResolvedFactor(c, anchors, Some(t)).value
    ensures a.grade >= t ==> ResolvedFactor(c, anchors, Some(t)).value <= FactorOf(a, c.factorUnit).value
  {
    match Choose(anchors, Some(t))
    case ExactAnchor(e) =>
      if (a.grade <= t && a.grade > e.grade) || (a.grade >= t && a.grade < e.grade) { SeparatedSame(anchors, a, e); }
    case Between(lower, upper) => InterpolationBounded(c, anchors, t);
    case Nearest(n) =>
      BracketNeverDegenerate(anchors, t);
      NearestAtEnd(c, anchors, t);
  }

  /** The nearest fallback only ever picks an end of the series. */
  lemma NearestAtEnd(c: Candidate, anchors: seq<Anchor>, t: real)
    requires Monotone(c, anchors) && Choose(anchors, Some(t)).Nearest?
    ensures NearestOf(anchors, t).Some? && NearestOf(anchors, t).value in anchors
    ensures ResolvedFactor(c, anchors, Some(t)) == FactorOf(NearestOf(anchors, t).value, c.factorUnit)
    ensures (forall a :: a in anchors ==> a.grade > t && NearestOf(anchors, t).value.grade <= a.grade)
         || (forall a :: a in anchors ==> a.grade < t && NearestOf(anchors, t).value.grade >= a.grade)
  {
    BracketNeverDegenerate(anchors, t);
    hide FactorOf;
  }

  lemma {:induction false} SameBracket(anchors: seq<Anchor>, s: real, t: real)
    requires forall a :: a in anchors ==> (a.grade <= s <==> a.grade <= t) && (a.grade >= s <==> a.grade >= t)
    ensures LowerOf(anchors, s) == LowerOf(anchors, t) && UpperOf(anchors, s) == UpperOf(anchors, t)
  {
    if anchors != [] {
      assert anchors[|anchors| - 1] in anchors;
      SameBracket(anchors[..|anchors| - 1], s, t);
    }
  }

  /** A purer target never resolves to a smaller factor, whichever of the three cases the two targets fall in. */
  lemma GradeMonotone(c: Candidate, anchors: seq<Anchor>, s: real, t: real)
    requires Monotone(c, anchors) && s <= t
    ensures ResolvedFactor(c, anchors, Some(s)).Ok? && ResolvedFactor(c, anchors, Some(t)).Ok?
    ensures ResolvedFactor(c, anchors, Some(s)).value <= ResolvedFactor(c, anchors, Some(t)).value
  {
    AnchorsBound(c, anchors, s, anchors[0]);
    AnchorsBound(c, anchors, t, anchors[0]);
    if a :| a in anchors && s <= a.grade <= t {
      AnchorsBound(c, anchors, s, a);
      AnchorsBound(c, anchors, t, a);
    } else if Choose(anchors, Some(s)).ExactAnchor? || Choose(anchors, Some(t)).ExactAnchor? {
      ExactMonotone(c, anchors, s, t);
    } else {
      BracketMonotone(c, anchors, s, t);
    }
  }

  lemma ExactMonotone(c: Candidate, anchors: seq<Anchor>, s: real, t: real)
    requires Monotone(c, anchors) && s <= t
    requires forall a :: a in anchors ==> a.grade < s || t < a.grade
    requires Choose(anchors, Some(s)).ExactAnchor? || Choose(anchors, Some(t)).ExactAnchor?
    ensures ResolvedFactor(c, anchors, Some(s)).Ok? && ResolvedFactor(c, anchors, Some(t)).Ok?
    ensures ResolvedFactor(c, anchors, Some(s)).value <= ResolvedFactor(c, anchors, Some(t)).value
  {
    if Choose(anchors, Some(s)).ExactAnchor? {
      var e := Choose(anchors, Some(s)).anchor;
      AnchorsBound(c, anchors, t, e);
      if e.grade > t {
        assert IsExact(e, t);
        SeparatedSame(anchors, e, Choose(anchors, Some(t)).anchor);
      }
    } else {
      var e := Choose(anchors, Some(t)).anchor;
      AnchorsBound(c, anchors, s, e);
      if e.grade < s {
        assert false;
      }
    }
  }

  lemma BracketMonotone(c: Candidate, anchors: seq<Anchor>, s: real, t: real)
    requires Monotone(c, anchors) && s <= t
    requires forall a :: a in anchors ==> a.grade < s || t < a.grade
    requires !Choose(anchors, Some(s)).ExactAnchor? && !Choose(anchors, Some(t)).ExactAnchor?
    ensures ResolvedFactor(c, anchors, Some(s)).Ok? && ResolvedFactor(c, anchors, Some(t)).Ok?
    ensures ResolvedFactor(c, anchors, Some(s)).value <= ResolvedFactor(c, anchors, Some(t)).value
  {
    SameBracket(anchors, s, t);
    if Choose(anchors, Some(s)).Between? {
      ChosenBracket(anchors, Some(s));
      ChosenBracket(anchors, Some(t));
      var choice := Choose(anchors, Some(s));
      InterpolateBetween(FactorOf(choice.lower, c.factorUnit).value, FactorOf(choice.upper, c.factorUnit).value,
        choice.lower.grade, choice.upper.grade, s, t);
      hide Interpolate, FactorOf;
    } else {
      NearestAtEnd(c, anchors, s);
      NearestAtEnd(c, anchors, t);
      hide FactorOf;
      var m, n := NearestOf(anchors, s).value, NearestOf(anchors, t).value;
      assert m.grade <= n.grade;
    }
  }
}
