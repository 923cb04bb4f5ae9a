/** Which match becomes the grade, rule by rule: the first free match decides, schemas and prefixes in their order, and
    each rule answers exactly when its condition on the matches holds. */
module NumericGradeLaws {
  import opened Prelude
  import opened Sorting
  import opened NumericGrade

  // ---- negative tokens ----

  /** Every negative token is a whole match of a pattern of its role. */
  lemma {:induction false} TokenIsMatch(ns: seq<(Role, seq<Number>)>, t: Token)
    requires t in ClassifyAll(ns)
    ensures exists p, i :: 0 <= p < |ns| && 0 <= i < |ns[p].1| && t == Token(ns[p].1[i].start, ns[p].1[i].end, ns[p].0)
  {
    var n := |ns| - 1;
    if t in ClassifyAll(ns[..n]) {
      TokenIsMatch(ns[..n], t);
      var p, i :| 0 <= p < n && 0 <= i < |ns[..n][p].1| && t == Token(ns[..n][p].1[i].start, ns[..n][p].1[i].end, ns[..n][p].0);
      assert ns[..n][p] == ns[p];
    } else {
      var i := AddedIsMatch(ClassifyAll(ns[..n]), ns[n].0, ns[n].1, t);
    }
  }

  lemma {:induction false} AddedIsMatch(ts: seq<Token>, role: Role, ms: seq<Number>, t: Token) returns (i: nat)
    requires t in Classify(ts, role, ms) && t !in ts
    ensures i < |ms| && t == Token(ms[i].start, ms[i].end, role)
  {
    var n := |ms| - 1;
    if t in Classify(ts, role, ms[..n]) {
      i := AddedIsMatch(ts, role, ms[..n], t);
    } else {
      i := n;
    }
  }

  // ---- the first free match ----

  /** ms[i] meets no token, and every match before it does. */
  predicate FreeAt(ts: seq<Token>, ms: seq<Number>, i: int): (b: bool)
    ensures b ==> 0 <= i < |ms|
  {
    0 <= i < |ms| && !Overlaps(ts, ms[i]) && forall j :: 0 <= j < i ==> Overlaps(ts, ms[j])
  }

  lemma {:induction false} FirstFreeIff(ts: seq<Token>, ms: seq<Number>)
    ensures FirstFree(ts, ms).Some? ==> exists i :: FreeAt(ts, ms, i) && ms[i] == FirstFree(ts, ms).value
    ensures forall i :: FreeAt(ts, ms, i) ==> FirstFree(ts, ms) == Some(ms[i])
  {
    hide Overlaps;
    if ms != [] {
      var rest := ms[1..];
      FirstFreeIff(ts, rest);
      if !Overlaps(ts, ms[0]) {
        assert FreeAt(ts, ms, 0);
      } else if FirstFree(ts, rest).Some? {
        var i :| FreeAt(ts, rest, i) && rest[i] == FirstFree(ts, rest).value;
        forall j | 0 <= j < i + 1 ensures Overlaps(ts, ms[j]) { if j > 0 { assert ms[j] == rest[j - 1]; } }
        assert FreeAt(ts, ms, i + 1);
      }
      forall i | FreeAt(ts, ms, i) ensures FirstFree(ts, ms) == Some(ms[i]) {
        if i > 0 {
          assert rest[i - 1] == ms[i];
          forall j | 0 <= j < i - 1 ensures Overlaps(ts, rest[j]) { assert rest[j] == ms[j + 1]; }
          assert FreeAt(ts, rest, i - 1);
        }
      }
    }
  }

  // ---- an explicit percentage ----

  predicate Only<T(!new)>(xs: seq<T>, p: T -> bool, k: int): (b: bool)
    ensures b ==> 0 <= k < |xs|
  {
    0 <= k < |xs| && p(xs[k]) && forall j :: 0 <= j < |xs| && j != k ==> !p(xs[j])
  }

  lemma OnlyStep<T(!new)>(xs: seq<T>, p: T -> bool, k: int)
    requires xs != []
    ensures var n := |xs| - 1;
            Only(xs, p, k) <==>
              if k == n then p(xs[n]) && forall j :: 0 <= j < n ==> !p(xs[..n][j]) else Only(xs[..n], p, k) && !p(xs[n])
  {
    var n := |xs| - 1;
    assert forall j :: 0 <= j < n ==> xs[j] == xs[..n][j];
  }

  lemma FilterStep<T(!new)>(xs: seq<T>, p: T -> bool)
    requires xs != []
    ensures Filter(xs, p) == Filter(xs[..|xs| - 1], p) + if p(xs[|xs| - 1]) then [xs[|xs| - 1]] else []
  {}

  lemma {:induction false} NoneIff<T(!new)>(xs: seq<T>, p: T -> bool)
    ensures Filter(xs, p) == [] <==> forall j :: 0 <= j < |xs| ==> !p(xs[j])
  {
    hide Filter;
    if j :| 0 <= j < |xs| && p(xs[j]) { assert xs[j] in Filter(xs, p); }
    if Filter(xs, p) != [] {
      var x := Filter(xs, p)[0];
      assert x in xs && p(x);
    }
  }

  lemma {:induction false} OnlyIff<T(!new)>(xs: seq<T>, p: T -> bool)
    ensures |Filter(xs, p)| == 1 ==> exists k :: Only(xs, p, k) && xs[k] == Filter(xs, p)[0]
    ensures forall k :: Only(xs, p, k) ==> Filter(xs, p) == [xs[k]]
  {
    if xs != [] {
      var n := |xs| - 1;
      var front := xs[..n];
      OnlyIff(front, p);
      FilterStep(xs, p);
      NoneIff(front, p);
      hide Filter, Only;
      if |Filter(xs, p)| == 1 {
        if p(xs[n]) {
          OnlyStep(xs, p, n);
        } else {
          var k :| Only(front, p, k) && front[k] == Filter(front, p)[0];
          OnlyStep(xs, p, k);
        }
      }
      forall k | Only(xs, p, k) ensures Filter(xs, p) == [xs[k]] {
        OnlyStep(xs, p, k);
      }
    }
  }

  predicate Unprefixed(s: Schema) {
    s.prefixes == []
  }

  lemma {:induction false} BareIs(schemas: seq<Schema>)
    ensures Bare(schemas) == Filter(schemas, Unprefixed)
  {
    if schemas != [] {
      BareIs(schemas[..|schemas| - 1]);
      BareStep(schemas);
      FilterStep(schemas, Unprefixed);
    }
  }

  /** schemas[k] is the only one without prefixes. */
  predicate OnlyBare(schemas: seq<Schema>, k: int): (b: bool)
    ensures b ==> 0 <= k < |schemas|
  {
    Only(schemas, Unprefixed, k)
  }

  lemma OnlyBareIff(schemas: seq<Schema>)
    ensures |Bare(schemas)| == 1 ==> exists k :: OnlyBare(schemas, k) && schemas[k] == Bare(schemas)[0]
    ensures forall k :: OnlyBare(schemas, k) ==> Bare(schemas) == [schemas[k]]
  {
    hide Bare, Filter, Only;
    BareIs(schemas);
    OnlyIff(schemas, Unprefixed);
  }

  lemma BareStep(schemas: seq<Schema>)
    requires schemas != []
    ensures var n := |schemas| - 1;
            Bare(schemas) == Bare(schemas[..n]) + (if schemas[n].prefixes == [] then [schemas[n]] else [])
  {}

  /** The grade of an explicit percentage: it needs a component, its own or that of the only bare schema, and takes the
      identifier of that schema if there is one. */
  ghost predicate ExplicitFrom(text: Text, m: Number, g: Grade) {
    && Spans(g, m) && 0.0 < g.value <= 100.0 && g.rule == EXPLICIT_PERCENT && g.basis != "" && (m.basis != "" ==> g.basis == m.basis)
    && (forall k :: OnlyBare(text.schemas, k) ==> g.schemaId == text.schemas[k].schemaId && (m.basis == "" ==> g.basis == text.schemas[k].basis))
    && ((forall k :: !OnlyBare(text.schemas, k)) ==> m.basis != "" && g.schemaId == "explicit." + m.basis + "/v1")
  }

  lemma ExplicitLaw(ts: seq<Token>, text: Text, g: Grade)
    ensures ExplicitGrade(ts, text) == Some(g) <==> exists i :: FreeAt(ts, text.explicit, i) && ExplicitFrom(text, text.explicit[i], g)
  {
    hide Overlaps, FirstFree, FreeAt, OnlyBare, Bare;
    FirstFreeIff(ts, text.explicit);
    OnlyBareIff(text.schemas);
    if ExplicitGrade(ts, text).Some? {
      var i :| FreeAt(ts, text.explicit, i) && text.explicit[i] == FirstFree(ts, text.explicit).value;
    }
    if i :| FreeAt(ts, text.explicit, i) && ExplicitFrom(text, text.explicit[i], g) {
      if k :| OnlyBare(text.schemas, k) { assert Bare(text.schemas)[0] == text.schemas[k]; }
    }
  }

  // ---- a formula and its value ----

  /** schemas[k] is the first bare one of the component. */
  predicate FirstBareWith(schemas: seq<Schema>, basis: string, k: int): (b: bool)
    ensures b ==> 0 <= k < |schemas|
  {
    && 0 <= k < |schemas| && schemas[k].prefixes == [] && schemas[k].basis == basis
    && forall j :: 0 <= j < k ==> schemas[j].prefixes != [] || schemas[j].basis != basis
  }

  lemma {:induction false} WithBasisAppend(schemas: seq<Schema>, s: Schema, basis: string)
    ensures WithBasis(schemas + [s], basis) ==
      if WithBasis(schemas, basis).Some? then WithBasis(schemas, basis) else if s.basis == basis then Some(s) else None
  {
    if schemas == [] {
      assert [] + [s] == [s] && [s][1..] == [];
    } else {
      assert (schemas + [s])[1..] == schemas[1..] + [s];
      WithBasisAppend(schemas[1..], s, basis);
    }
  }

  lemma {:induction false} WithBasisIff(schemas: seq<Schema>, basis: string)
    ensures WithBasis(Bare(schemas), basis).Some? ==> exists k :: FirstBareWith(schemas, basis, k) && schemas[k] == WithBasis(Bare(schemas), basis).value
    ensures forall k :: FirstBareWith(schemas, basis, k) ==> WithBasis(Bare(schemas), basis) == Some(schemas[k])
  {
    if schemas != [] {
      var n := |schemas| - 1;
      var front, last := schemas[..n], schemas[n];
      WithBasisIff(front, basis);
      BareStep(schemas);
      if last.prefixes == [] { WithBasisAppend(Bare(front), last, basis); }
      hide Bare, WithBasis;
      assert forall j :: 0 <= j < n ==> schemas[j] == front[j];
      assert forall k :: 0 <= k < n ==> (FirstBareWith(schemas, basis, k) <==> FirstBareWith(front, basis, k));
      if WithBasis(Bare(schemas), basis).Some? {
        if WithBasis(Bare(front), basis).Some? {
          var k :| FirstBareWith(front, basis, k) && front[k] == WithBasis(Bare(front), basis).value;
        } else {
          NoneBefore(front, basis);
          assert FirstBareWith(schemas, basis, n);
        }
      }
      forall k | FirstBareWith(schemas, basis, k) ensures WithBasis(Bare(schemas), basis) == Some(schemas[k]) {
      }
    }
  }

  lemma {:induction false} NoneBefore(schemas: seq<Schema>, basis: string)
    requires forall k :: !FirstBareWith(schemas, basis, k)
    ensures forall j :: 0 <= j < |schemas| ==> schemas[j].prefixes != [] || schemas[j].basis != basis
  {
    var i := 0;
    while i < |schemas|
      invariant 0 <= i <= |schemas|
      invariant forall j :: 0 <= j < i ==> schemas[j].prefixes != [] || schemas[j].basis != basis
    {
      assert !FirstBareWith(schemas, basis, i);
      i := i + 1;
    }
  }

  ghost predicate FormulaFrom(text: Text, m: Number, g: Grade) {
    && Spans(g, m) && 0.0 < g.value <= 100.0 && g.rule == FORMULA_VALUE && g.basis == m.basis
    && (forall k :: FirstBareWith(text.schemas, m.basis, k) ==> g.schemaId == text.schemas[k].schemaId)
    && ((forall k :: !FirstBareWith(text.schemas, m.basis, k)) ==> g.schemaId == "explicit." + m.basis + "/v1")
  }

  lemma FormulaLaw(ts: seq<Token>, text: Text, g: Grade)
    ensures FormulaGrade(ts, text) == Some(g) <==> exists i :: FreeAt(ts, text.formulas, i) && FormulaFrom(text, text.formulas[i], g)
  {
    hide Overlaps, FirstFree, FreeAt, FirstBareWith, Bare, WithBasis;
    FirstFreeIff(ts, text.formulas);
    if FirstFree(ts, text.formulas).Some? {
      var m := FirstFree(ts, text.formulas).value;
      WithBasisIff(text.schemas, m.basis);
      var i :| FreeAt(ts, text.formulas, i) && text.formulas[i] == m;
      assert forall j :: FreeAt(ts, text.formulas, j) ==> text.formulas[j] == m;
    }
  }

  // ---- a registered prefix ----

  /** The first free match of that prefix is a value the schema allows. */
  ghost predicate PrefixAt(ts: seq<Token>, s: Schema, prefixes: seq<seq<Number>>, p: int, m: Number) {
    0 <= p < |prefixes| && exists i :: FreeAt(ts, prefixes[p], i) && prefixes[p][i] == m && m.value in s.allowed
  }

  /** And no prefix before it has one. */
  ghost predicate FirstPrefixAt(ts: seq<Token>, s: Schema, prefixes: seq<seq<Number>>, p: int, m: Number) {
    PrefixAt(ts, s, prefixes, p, m) && forall q, n :: 0 <= q < p ==> !PrefixAt(ts, s, prefixes, q, n)
  }

  lemma PrefixShift(ts: seq<Token>, s: Schema, prefixes: seq<seq<Number>>, p: int, m: Number)
    requires prefixes != []
    ensures p > 0 ==> (PrefixAt(ts, s, prefixes, p, m) <==> PrefixAt(ts, s, prefixes[1..], p - 1, m))
    ensures PrefixAt(ts, s, prefixes, 0, m) <==> FirstFree(ts, prefixes[0]) == Some(m) && m.value in s.allowed
  {
    hide FreeAt, FirstFree;
    FirstFreeIff(ts, prefixes[0]);
    if p > 0 && p < |prefixes| { assert prefixes[1..][p - 1] == prefixes[p]; }
  }

  lemma {:induction false} PrefixedInIff(ts: seq<Token>, s: Schema, prefixes: seq<seq<Number>>, m: Number)
    ensures PrefixedIn(ts, s, prefixes) == Some(m) <==> exists p :: FirstPrefixAt(ts, s, prefixes, p, m)
  {
    hide PrefixAt, FreeAt, FirstFree;
    if prefixes == [] {
      NoPrefixes(ts, s, m);
    } else {
      var rest, first := prefixes[1..], FirstFree(ts, prefixes[0]);
      forall n ensures PrefixAt(ts, s, prefixes, 0, n) <==> first == Some(n) && n.value in s.allowed {
        PrefixShift(ts, s, prefixes, 0, n);
      }
      forall q, n | q > 0 ensures PrefixAt(ts, s, prefixes, q, n) <==> PrefixAt(ts, s, rest, q - 1, n) {
        PrefixShift(ts, s, prefixes, q, n);
      }
      PrefixedInIff(ts, s, rest, m);
      if first.Some? && first.value.value in s.allowed {
        assert PrefixAt(ts, s, prefixes, 0, first.value);
        if first == Some(m) { assert FirstPrefixAt(ts, s, prefixes, 0, m); }
        assert forall p, n :: FirstPrefixAt(ts, s, prefixes, p, n) ==> p <= 0;
        assert forall n :: PrefixAt(ts, s, prefixes, 0, n) ==> n == first.value;
        NotNegative(ts, s, prefixes);
      } else {
        assert forall n :: !PrefixAt(ts, s, prefixes, 0, n);
        NotNegative(ts, s, prefixes);
        if p :| FirstPrefixAt(ts, s, rest, p, m) {
          forall q, n | 0 <= q < p + 1 ensures !PrefixAt(ts, s, prefixes, q, n) {
            if q > 0 { assert !PrefixAt(ts, s, rest, q - 1, n); }
          }
          NotNegative(ts, s, rest);
          assert PrefixAt(ts, s, rest, (p + 1) - 1, m);
          assert FirstPrefixAt(ts, s, prefixes, p + 1, m);
        }
        if p :| FirstPrefixAt(ts, s, prefixes, p, m) {
          assert p > 0;
          forall q, n | 0 <= q < p - 1 ensures !PrefixAt(ts, s, rest, q, n) { assert !PrefixAt(ts, s, prefixes, q + 1, n); }
          assert FirstPrefixAt(ts, s, rest, p - 1, m);
        }
      }
    }
  }

  lemma NotNegative(ts: seq<Token>, s: Schema, prefixes: seq<seq<Number>>)
    ensures forall p, m :: PrefixAt(ts, s, prefixes, p, m) ==> 0 <= p < |prefixes|
  {}

  lemma NoPrefixes(ts: seq<Token>, s: Schema, m: Number)
    ensures forall p :: !FirstPrefixAt(ts, s, [], p, m)
  {}

  /** The schema's own grade for a match of one of its prefixes. */
  ghost predicate PrefixedFrom(ts: seq<Token>, s: Schema, g: Grade) {
    g.rule == PREFIXED && g.basis == s.basis && g.schemaId == s.schemaId
    && exists p, m :: FirstPrefixAt(ts, s, s.prefixes, p, m) && Spans(g, m)
  }

  ghost predicate FirstPrefixed(ts: seq<Token>, schemas: seq<Schema>, k: int, g: Grade) {
    0 <= k < |schemas| && PrefixedFrom(ts, schemas[k], g) && forall j, h :: 0 <= j < k ==> !PrefixedFrom(ts, schemas[j], h)
  }

  lemma PrefixedFromIff(ts: seq<Token>, s: Schema, g: Grade)
    ensures PrefixedFrom(ts, s, g) <==>
      var m := PrefixedIn(ts, s, s.prefixes);
      m.Some? && g == Grade(m.value.start, m.value.end, m.value.value, s.basis, s.schemaId, PREFIXED)
  {
    hide FirstPrefixAt, PrefixedIn;
    var found := PrefixedIn(ts, s, s.prefixes);
    if found.Some? { PrefixedInIff(ts, s, s.prefixes, found.value); }
    if p, m :| FirstPrefixAt(ts, s, s.prefixes, p, m) && Spans(g, m) { PrefixedInIff(ts, s, s.prefixes, m); }
  }

  /** The first schema that has a match, in schema order, gives the grade. */
  lemma {:induction false} PrefixedLaw(ts: seq<Token>, schemas: seq<Schema>, g: Grade)
    ensures PrefixedGrade(ts, schemas) == Some(g) <==> exists k :: FirstPrefixed(ts, schemas, k, g)
  {
    hide PrefixedFrom, PrefixedIn;
    if schemas != [] {
      var rest := schemas[1..];
      PrefixedLaw(ts, rest, g);
      forall h ensures PrefixedFrom(ts, schemas[0], h) <==>
        var m := PrefixedIn(ts, schemas[0], schemas[0].prefixes);
        m.Some? && h == Grade(m.value.start, m.value.end, m.value.value, schemas[0].basis, schemas[0].schemaId, PREFIXED)
      {
        PrefixedFromIff(ts, schemas[0], h);
      }
      var m := PrefixedIn(ts, schemas[0], schemas[0].prefixes);
      if m.Some? {
        var h := Grade(m.value.start, m.value.end, m.value.value, schemas[0].basis, schemas[0].schemaId, PREFIXED);
        assert PrefixedFrom(ts, schemas[0], h);
        if h == g { assert FirstPrefixed(ts, schemas, 0, g); }
      } else {
        if k :| FirstPrefixed(ts, rest, k, g) {
          forall j, h | 0 <= j < k + 1 ensures !PrefixedFrom(ts, schemas[j], h) { if j > 0 { assert rest[j - 1] == schemas[j]; } }
          assert FirstPrefixed(ts, schemas, k + 1, g);
        }
        if k :| FirstPrefixed(ts, schemas, k, g) {
          assert k > 0 && rest[k - 1] == schemas[k];
          forall j, h | 0 <= j < k - 1 ensures !PrefixedFrom(ts, rest[j], h) { assert rest[j] == schemas[j + 1]; }
          assert FirstPrefixed(ts, rest, k - 1, g);
        }
      }
    }
  }

  // ---- a bare number ----

  function Allowing(v: real): Schema -> bool {
    (s: Schema) => s.prefixes == [] && v in s.allowed
  }

  /** schemas[k] is the only bare schema that allows the value. */
  predicate OnlyAllowing(schemas: seq<Schema>, v: real, k: int): (b: bool)
    ensures b ==> 0 <= k < |schemas|
  {
    Only(schemas, Allowing(v), k)
  }

  function Matching(schemas: seq<Schema>, v: real): seq<Schema> {
    Filter(Bare(schemas), (b: Schema) => v in b.allowed)
  }

  lemma MatchingIff(schemas: seq<Schema>, v: real)
    ensures |Matching(schemas, v)| == 1 ==> exists k :: OnlyAllowing(schemas, v, k) && schemas[k] == Matching(schemas, v)[0]
    ensures forall k :: OnlyAllowing(schemas, v, k) ==> Matching(schemas, v) == [schemas[k]]
  {
    hide Filter, Only, Matching;
    OnlyIff(schemas, Allowing(v));
    MatchingAllows(schemas, v);
  }

  lemma {:induction false} MatchingAllows(schemas: seq<Schema>, v: real)
    ensures Matching(schemas, v) == Filter(schemas, Allowing(v))
  {
    if schemas != [] {
      var front, last := schemas[..|schemas| - 1], schemas[|schemas| - 1];
      MatchingAllows(front, v);
      BareStep(schemas);
      var bare := Bare(front);
      hide Bare;
      if last.prefixes == [] { assert (bare + [last])[..|bare|] == bare; }
    }
  }

  /** The number is free and means a grade of exactly one bare schema. */
  predicate Means(ts: seq<Token>, schemas: seq<Schema>, m: Number) {
    !Overlaps(ts, m) && |Matching(schemas, m.value)| == 1
  }

  function Meaning(ts: seq<Token>, schemas: seq<Schema>): Number -> bool {
    (m: Number) => Means(ts, schemas, m)
  }

  function GradeOf(schemas: seq<Schema>, m: Number): Grade
    requires |Matching(schemas, m.value)| == 1
  {
    var s := Matching(schemas, m.value)[0];
    Grade(m.start, m.end, m.value, s.basis, s.schemaId, STANDALONE)
  }

  /** The scan leaves unresolved tokens only over numbers already passed, so that they hide nothing. */
  lemma {:induction false} ScanOverlaps(ts: seq<Token>, bare: seq<Schema>, ms: seq<Number>, m: Number)
    requires forall i :: 0 <= i < |ms| ==> ms[i].end <= m.start
    ensures Overlaps(Standalone(ts, bare, ms).tokens, m) <==> Overlaps(ts, m)
  {
    if ms != [] {
      var n := |ms| - 1;
      ScanOverlaps(ts, bare, ms[..n], m);
      var before := Standalone(ts, bare, ms[..n]);
      AddedHidesNothing(before, bare, ms[n], m);
    }
  }

  lemma AddedHidesNothing(s: Scan, bare: seq<Schema>, x: Number, m: Number)
    requires x.end <= m.start
    ensures Overlaps(AddStandalone(s, bare, x).tokens, m) <==> Overlaps(s.tokens, m)
  {
    hide Filter;
    var u := AddStandalone(s, bare, x);
    if i :| 0 <= i < |s.tokens| && Meets(s.tokens[i], m) { assert Meets(u.tokens[i], m); }
    if i :| 0 <= i < |u.tokens| && Meets(u.tokens[i], m) { assert i < |s.tokens| && Meets(s.tokens[i], m); }
  }

  lemma {:induction false} GradesAre(ts: seq<Token>, schemas: seq<Schema>, ms: seq<Number>)
    requires Found(ms)
    ensures var used := Filter(ms, Meaning(ts, schemas));
            var grades := Standalone(ts, Bare(schemas), ms).grades;
            |grades| == |used| && forall i :: 0 <= i < |used| ==> Means(ts, schemas, used[i]) && grades[i] == GradeOf(schemas, used[i])
  {
    hide Overlaps, Bare, Matching;
    if ms != [] {
      var n := |ms| - 1;
      GradesAre(ts, schemas, ms[..n]);
      ScanOverlaps(ts, Bare(schemas), ms[..n], ms[n]);
      MatchingIs(schemas, ms[n].value);
    }
  }

  lemma MatchingIs(schemas: seq<Schema>, v: real)
    ensures Matching(schemas, v) == Filter(Bare(schemas), (b: Schema) => v in b.allowed)
  {}

  ghost predicate StandaloneFrom(ts: seq<Token>, text: Text, i: int, g: Grade) {
    && Only(text.standalone, Meaning(ts, text.schemas), i)
    && Spans(g, text.standalone[i]) && g.rule == STANDALONE
    && exists k :: OnlyAllowing(text.schemas, g.value, k) && g.basis == text.schemas[k].basis && g.schemaId == text.schemas[k].schemaId
  }

  lemma StandaloneLaw(ts: seq<Token>, text: Text, g: Grade)
    requires Found(text.standalone)
    ensures Standalone(ts, Bare(text.schemas), text.standalone).grades == [g] <==> exists i :: StandaloneFrom(ts, text, i, g)
  {
    hide Overlaps, Bare, Matching, Filter, OnlyAllowing, Standalone, Only, Means;
    var p := Meaning(ts, text.schemas);
    var used := Filter(text.standalone, p);
    var grades := Standalone(ts, Bare(text.schemas), text.standalone).grades;
    GradesAre(ts, text.schemas, text.standalone);
    OnlyIff(text.standalone, p);
    if |used| == 1 {
      var i :| Only(text.standalone, p, i) && text.standalone[i] == used[0];
      MeansOne(ts, text.schemas, used[0]);
      MatchingIff(text.schemas, used[0].value);
      assert grades == [GradeOf(text.schemas, used[0])];
      if grades == [g] {
        assert g == grades[0];
        var k :| OnlyAllowing(text.schemas, g.value, k) && text.schemas[k] == Matching(text.schemas, g.value)[0];
        assert StandaloneFrom(ts, text, i, g);
      }
      if j :| StandaloneFrom(ts, text, j, g) {
        assert used == [text.standalone[j]];
        assert g == GradeOf(text.schemas, used[0]);
      }
    }
  }

  lemma MeansOne(ts: seq<Token>, schemas: seq<Schema>, m: Number)
    requires Means(ts, schemas, m)
    ensures |Matching(schemas, m.value)| == 1
  {}

  // ---- the whole parser ----

  ghost predicate SomeExplicit(ts: seq<Token>, text: Text) {
    exists i, h :: FreeAt(ts, text.explicit, i) && ExplicitFrom(text, text.explicit[i], h)
  }

  ghost predicate SomeFormula(ts: seq<Token>, text: Text) {
    exists i, h :: FreeAt(ts, text.formulas, i) && FormulaFrom(text, text.formulas[i], h)
  }

  ghost predicate SomePrefixed(ts: seq<Token>, text: Text) {
    exists k, h :: FirstPrefixed(ts, text.schemas, k, h)
  }

  lemma RulesAnswer(ts: seq<Token>, text: Text)
    ensures ExplicitGrade(ts, text).Some? <==> SomeExplicit(ts, text)
    ensures FormulaGrade(ts, text).Some? <==> SomeFormula(ts, text)
    ensures PrefixedGrade(ts, text.schemas).Some? <==> SomePrefixed(ts, text)
  {
    hide FreeAt, ExplicitFrom, FormulaFrom, FirstPrefixed, ExplicitGrade, FormulaGrade, PrefixedGrade;
    var e, f, p := ExplicitGrade(ts, text), FormulaGrade(ts, text), PrefixedGrade(ts, text.schemas);
    if e.Some? { ExplicitLaw(ts, text, e.value); assert e == Some(e.value); }
    if f.Some? { FormulaLaw(ts, text, f.value); assert f == Some(f.value); }
    if p.Some? { PrefixedLaw(ts, text.schemas, p.value); assert p == Some(p.value); }
    if i, h :| FreeAt(ts, text.explicit, i) && ExplicitFrom(text, text.explicit[i], h) { ExplicitLaw(ts, text, h); }
    if i, h :| FreeAt(ts, text.formulas, i) && FormulaFrom(text, text.formulas[i], h) { FormulaLaw(ts, text, h); }
    if k, h :| FirstPrefixed(ts, text.schemas, k, h) { PrefixedLaw(ts, text.schemas, h); }
  }

  /** The grade of a text: of an explicit percentage; where that gives none, of a formula; else of a registered prefix;
      else of the only bare number that means a grade of exactly one schema. */
  lemma ParseLaw(text: Text, g: Grade)
    requires TextOk(text)
    ensures var ts := ClassifyAll(text.negatives);
            Parse(text).grade == Some(g) <==>
              if SomeExplicit(ts, text) then exists i :: FreeAt(ts, text.explicit, i) && ExplicitFrom(text, text.explicit[i], g)
              else if SomeFormula(ts, text) then exists i :: FreeAt(ts, text.formulas, i) && FormulaFrom(text, text.formulas[i], g)
              else if SomePrefixed(ts, text) then exists k :: FirstPrefixed(ts, text.schemas, k, g)
              else exists i :: StandaloneFrom(ts, text, i, g)
  {
    hide ClassifyAll, FreeAt, ExplicitFrom, FormulaFrom, FirstPrefixed, StandaloneFrom, ExplicitGrade, FormulaGrade, PrefixedGrade, Standalone, Bare,
         SomeExplicit, SomeFormula, SomePrefixed;
    var ts := ClassifyAll(text.negatives);
    RulesAnswer(ts, text);
    ExplicitLaw(ts, text, g);
    FormulaLaw(ts, text, g);
    PrefixedLaw(ts, text.schemas, g);
    StandaloneLaw(ts, text, g);
    var scan := Standalone(ts, Bare(text.schemas), text.standalone);
    assert |scan.grades| == 1 ==> scan.grades == [scan.grades[0]];
  }

  // ---- the tokens ----

  /** A free number of those that look like a purity but mean a grade of no schema, or of several. */
  predicate Puzzling(ts: seq<Token>, schemas: seq<Schema>, m: Number) {
    !Overlaps(ts, m) && |Matching(schemas, m.value)| != 1 && (m.value == 70.0 || m.value == 80.0 || m.value == 90.0)
  }

  ghost predicate OverPuzzling(ts: seq<Token>, schemas: seq<Schema>, ms: seq<Number>, t: Token) {
    exists i :: 0 <= i < |ms| && Puzzling(ts, schemas, ms[i]) && t == Token(ms[i].start, ms[i].end, UNRESOLVED)
  }

  ghost predicate OverMeaning(ts: seq<Token>, schemas: seq<Schema>, ms: seq<Number>, role: Role, t: Token) {
    exists i :: 0 <= i < |ms| && Means(ts, schemas, ms[i]) && t == Token(ms[i].start, ms[i].end, role)
  }

  lemma {:induction false} ScanTokens(ts: seq<Token>, schemas: seq<Schema>, ms: seq<Number>, t: Token)
    requires Found(ms)
    ensures t in Standalone(ts, Bare(schemas), ms).tokens <==> t in ts || OverPuzzling(ts, schemas, ms, t)
  {
    if ms != [] {
      var n := |ms| - 1;
      ScanTokens(ts, schemas, ms[..n], t);
      ScanOverlaps(ts, Bare(schemas), ms[..n], ms[n]);
      MatchingIs(schemas, ms[n].value);
      ScanStep(ts, schemas, ms, t);
      OverStep(ts, schemas, ms, t);
    }
  }

  lemma ScanStep(ts: seq<Token>, schemas: seq<Schema>, ms: seq<Number>, t: Token)
    requires ms != []
    requires var n := |ms| - 1;
             && (Overlaps(Standalone(ts, Bare(schemas), ms[..n]).tokens, ms[n]) <==> Overlaps(ts, ms[n]))
             && Matching(schemas, ms[n].value) == Filter(Bare(schemas), (b: Schema) => ms[n].value in b.allowed)
    ensures var n := |ms| - 1;
            t in Standalone(ts, Bare(schemas), ms).tokens <==>
              || t in Standalone(ts, Bare(schemas), ms[..n]).tokens
              || (Puzzling(ts, schemas, ms[n]) && t == Token(ms[n].start, ms[n].end, UNRESOLVED))
  {
    hide Overlaps, Bare, Matching, Filter;
    var n := |ms| - 1;
    AddedTokens(Standalone(ts, Bare(schemas), ms[..n]), Bare(schemas), ms[n], t);
    assert Standalone(ts, Bare(schemas), ms) == AddStandalone(Standalone(ts, Bare(schemas), ms[..n]), Bare(schemas), ms[n]);
    hide AddStandalone, Standalone;
  }

  lemma AddedTokens(s: Scan, bare: seq<Schema>, m: Number, t: Token)
    ensures var matching := Filter(bare, (b: Schema) => m.value in b.allowed);
            t in AddStandalone(s, bare, m).tokens <==>
              || t in s.tokens
              || (!Overlaps(s.tokens, m) && |matching| != 1 && (m.value == 70.0 || m.value == 80.0 || m.value == 90.0)
                  && t == Token(m.start, m.end, UNRESOLVED))
  {
    hide Filter, Overlaps;
  }

  lemma OverStep(ts: seq<Token>, schemas: seq<Schema>, ms: seq<Number>, t: Token)
    requires ms != []
    ensures var n := |ms| - 1;
            OverPuzzling(ts, schemas, ms, t) <==>
              OverPuzzling(ts, schemas, ms[..n], t) || (Puzzling(ts, schemas, ms[n]) && t == Token(ms[n].start, ms[n].end, UNRESOLVED))
  {
    hide Puzzling;
    var n := |ms| - 1;
    if i :| 0 <= i < n && Puzzling(ts, schemas, ms[..n][i]) && t == Token(ms[..n][i].start, ms[..n][i].end, UNRESOLVED) {
      assert Puzzling(ts, schemas, ms[i]);
    }
    if i :| 0 <= i < |ms| && Puzzling(ts, schemas, ms[i]) && t == Token(ms[i].start, ms[i].end, UNRESOLVED) {
      if i < n { assert ms[..n][i] == ms[i]; }
    }
  }

  lemma GradeTokens(ts: seq<Token>, schemas: seq<Schema>, ms: seq<Number>, role: Role, t: Token)
    requires Found(ms)
    ensures t in TokensOf(Standalone(ts, Bare(schemas), ms).grades, role) <==> OverMeaning(ts, schemas, ms, role, t)
  {
    hide Standalone, Bare, Matching, Filter, Overlaps;
    GradesAre(ts, schemas, ms);
    var grades, used := Standalone(ts, Bare(schemas), ms).grades, Filter(ms, Meaning(ts, schemas));
    if t in TokensOf(grades, role) {
      var i :| 0 <= i < |grades| && TokensOf(grades, role)[i] == t;
      assert used[i] in ms;
      var j :| 0 <= j < |ms| && ms[j] == used[i];
      assert Means(ts, schemas, ms[j]);
    }
    if j :| 0 <= j < |ms| && Means(ts, schemas, ms[j]) && t == Token(ms[j].start, ms[j].end, role) {
      assert ms[j] in used;
      var i :| 0 <= i < |used| && used[i] == ms[j];
      assert TokensOf(grades, role)[i] == t;
    }
  }

  lemma SortedHas(ts: seq<Token>, t: Token)
    ensures t in Sort(ByStart, ts) <==> t in ts
  {
    hide Sort;
    SameElements(Sort(ByStart, ts), ts);
  }

  /** The tokens of a text are its negative tokens and one for the grade. Only if no percentage, formula or prefix gives a
      grade do bare numbers count: those that mean exactly one schema, together unresolved if there are several, and
      the puzzling ones, always unresolved. */
  lemma TokensLaw(text: Text, t: Token)
    requires TextOk(text)
    ensures var ts, grade := ClassifyAll(text.negatives), Parse(text).grade;
            if SomeExplicit(ts, text) || SomeFormula(ts, text) || SomePrefixed(ts, text) then
              grade.Some? && (t in Parse(text).tokens <==> t in ts || t == Token(grade.value.start, grade.value.end, PURITY_GRADE))
            else
              t in Parse(text).tokens <==>
                || t in ts
                || OverPuzzling(ts, text.schemas, text.standalone, t)
                || OverMeaning(ts, text.schemas, text.standalone, if grade.Some? then PURITY_GRADE else UNRESOLVED, t)
  {
    hide ClassifyAll, ExplicitGrade, FormulaGrade, PrefixedGrade, Standalone, Bare, SomeExplicit, SomeFormula, SomePrefixed, OverPuzzling, OverMeaning, Sort;
    var ts := ClassifyAll(text.negatives);
    RulesAnswer(ts, text);
    var scan := Standalone(ts, Bare(text.schemas), text.standalone);
    ScanTokens(ts, text.schemas, text.standalone, t);
    GradeTokens(ts, text.schemas, text.standalone, PURITY_GRADE, t);
    GradeTokens(ts, text.schemas, text.standalone, UNRESOLVED, t);
    if SomeExplicit(ts, text) || SomeFormula(ts, text) || SomePrefixed(ts, text) {
      var g := Parse(text).grade.value;
      SortedHas(ts + [Token(g.start, g.end, PURITY_GRADE)], t);
    } else {
      StandaloneTokens(scan, t);
    }
  }

  lemma StandaloneTokens(scan: Scan, t: Token)
    ensures var r := if |scan.grades| == 1 then Bound(scan.tokens, scan.grades[0], None)
                     else if |scan.grades| > 1 then Unbound(scan.tokens + TokensOf(scan.grades, UNRESOLVED))
                     else Unbound(scan.tokens);
            t in r.tokens <==> t in scan.tokens || t in TokensOf(scan.grades, if r.grade.Some? then PURITY_GRADE else UNRESOLVED)
  {
    hide Sort;
    if |scan.grades| == 1 {
      var one := [Token(scan.grades[0].start, scan.grades[0].end, PURITY_GRADE)];
      assert TokensOf(scan.grades, PURITY_GRADE) == one;
      SortedHas(scan.tokens + one, t);
    } else {
      SortedHas(scan.tokens + TokensOf(scan.grades, UNRESOLVED), t);
      SortedHas(scan.tokens, t);
    }
  }
}
