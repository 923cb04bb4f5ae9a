/** Classifying the numbers of a material text before one of them may become a purity grade
    (_parse_numeric_grade in material_registry.py). Regular expressions are abstract: each comes as the list
    of its matches in the text. */
module NumericGrade {
  import opened Prelude
  import opened Sorting

  datatype Role =
    | GRIT_SIZE | MODEL_CODE | ALLOY_GRADE | STANDARD_NUMBER | YEAR | PARTICLE_SIZE | PACKAGING
    | PURITY_GRADE | UNRESOLVED

  datatype Token = Token(start: nat, end: nat, role: Role)

  /** A match of a pattern with a captured number; basis is the component its formula names, if any. */
  datatype Number = Number(start: nat, end: nat, value: real, basis: string)

  /** A grade schema of the entity; prefixes holds, for each of its label prefixes, the matches of that prefix. */
  datatype Schema = Schema(schemaId: string, basis: string, allowed: set<real>, prefixes: seq<seq<Number>>)

  datatype Rule = EXPLICIT_PERCENT | FORMULA_VALUE | PREFIXED | STANDALONE

  datatype Grade = Grade(start: nat, end: nat, value: real, basis: string, schemaId: string, rule: Rule)

  /** The matches of every pattern, negative patterns in their order, schemas by priority. */
  datatype Text = Text(
    negatives: seq<(Role, seq<Number>)>,
    explicit: seq<Number>,
    formulas: seq<Number>,
    schemas: seq<Schema>,
    standalone: seq<Number>)

  datatype Parsed = Parsed(grade: Option<Grade>, tokens: seq<Token>, composition: Option<real>)

  // ---- spans ----

  predicate Meets(t: Token, m: Number) {
    m.start < t.end && m.end > t.start
  }

  /** overlaps(start, end) */
  predicate Overlaps(ts: seq<Token>, m: Number) {
    exists i :: 0 <= i < |ts| && Meets(ts[i], m)
  }

  predicate Clear(t: Token, u: Token) {
    t.end <= u.start || u.end <= t.start
  }

  predicate Disjoint(ts: seq<Token>) {
    && (forall i :: 0 <= i < |ts| ==> ts[i].start < ts[i].end)
    && (forall i, j :: 0 <= i < j < |ts| ==> Clear(ts[i], ts[j]))
  }

  /** What finditer returns: non-empty matches from left to right. */
  predicate Found(ms: seq<Number>) {
    && (forall i :: 0 <= i < |ms| ==> ms[i].start < ms[i].end)
    && (forall i, j :: 0 <= i < j < |ms| ==> ms[i].end <= ms[j].start)
  }

  predicate Negative(r: Role) {
    r != PURITY_GRADE && r != UNRESOLVED
  }

  predicate TextOk(text: Text) {
    && (forall i :: 0 <= i < |text.negatives| ==> Negative(text.negatives[i].0) && Found(text.negatives[i].1))
    && Found(text.explicit) && Found(text.formulas) && Found(text.standalone)
    && (forall s, i :: s in text.schemas && 0 <= i < |s.prefixes| ==> Found(s.prefixes[i]))
  }

  predicate ByStart(t: Token, u: Token) {
    t.start < u.start || (t.start == u.start && t.end < u.end)
  }

  // ---- the stages ----

  /** One pattern: a match becomes a token unless it meets an earlier one. */
  function Classify(ts: seq<Token>, role: Role, ms: seq<Number>): seq<Token> {
    if ms == [] then ts
    else
      var front, m := Classify(ts, role, ms[..|ms| - 1]), ms[|ms| - 1];
      if Overlaps(front, m) then front else front + [Token(m.start, m.end, role)]
  }

  function ClassifyAll(ns: seq<(Role, seq<Number>)>): seq<Token> {
    if ns == [] then [] else Classify(ClassifyAll(ns[..|ns| - 1]), ns[|ns| - 1].0, ns[|ns| - 1].1)
  }

  /** next((m for m in matches if not overlaps(m)), None) */
  function FirstFree(ts: seq<Token>, ms: seq<Number>): (r: Option<Number>)
    ensures r.Some? ==> r.value in ms && !Overlaps(ts, r.value)
  {
    if ms == [] then None else if !Overlaps(ts, ms[0]) then Some(ms[0]) else FirstFree(ts, ms[1..])
  }

  function Bare(schemas: seq<Schema>): seq<Schema> {
    Filter(schemas, (s: Schema) => s.prefixes == [])
  }

  predicate InRange(v: real) {
    0.0 < v <= 100.0
  }

  /** An explicit percentage, bound to the component it names or to the only bare schema. */
  function ExplicitGrade(ts: seq<Token>, text: Text): Option<Grade> {
    match FirstFree(ts, text.explicit)
    case None => None
    case Some(m) =>
      var bare := Bare(text.schemas);
      var schema := if |bare| == 1 then Some(bare[0]) else None;
      var basis := if m.basis != "" then m.basis else if schema.Some? then schema.value.basis else "";
      if basis == "" || !InRange(m.value) then None
      else Some(Grade(m.start, m.end, m.value, basis, if schema.Some? then schema.value.schemaId else "explicit." + basis + "/v1", EXPLICIT_PERCENT))
  }

  function WithBasis(schemas: seq<Schema>, basis: string): Option<Schema> {
    if schemas == [] then None
    else if schemas[0].basis == basis then Some(schemas[0])
    else WithBasis(schemas[1..], basis)
  }

  /** A component formula followed by a value. */
  function FormulaGrade(ts: seq<Token>, text: Text): Option<Grade> {
    match FirstFree(ts, text.formulas)
    case None => None
    case Some(m) =>
      var schema := WithBasis(Bare(text.schemas), m.basis);
      if !InRange(m.value) then None
      else Some(Grade(m.start, m.end, m.value, m.basis, if schema.Some? then schema.value.schemaId else "explicit." + m.basis + "/v1", FORMULA_VALUE))
  }

  function PrefixedIn(ts: seq<Token>, s: Schema, prefixes: seq<seq<Number>>): (r: Option<Number>)
    ensures r.Some? ==> !Overlaps(ts, r.value) && exists i :: 0 <= i < |prefixes| && r.value in prefixes[i]
  {
    if prefixes == [] then None
    else
      var m := FirstFree(ts, prefixes[0]);
      if m.Some? && m.value.value in s.allowed then m
      else
        var rest := PrefixedIn(ts, s, prefixes[1..]);
        assert rest.Some? ==> exists i :: 0 <= i < |prefixes[1..]| && rest.value in prefixes[1..][i];
        assert forall i :: 0 <= i < |prefixes[1..]| ==> prefixes[1..][i] == prefixes[i + 1];
        rest
  }

  /** A registered prefix of a schema, in schema and prefix order. */
  function PrefixedGrade(ts: seq<Token>, schemas: seq<Schema>): Option<Grade> {
    if schemas == [] then None
    else
      match PrefixedIn(ts, schemas[0], schemas[0].prefixes)
      case Some(m) => Some(Grade(m.start, m.end, m.value, schemas[0].basis, schemas[0].schemaId, PREFIXED))
      case None => PrefixedGrade(ts, schemas[1..])
  }

  /** The grades a bare number may mean, and the tokens left unresolved on the way. */
  datatype Scan = Scan(tokens: seq<Token>, grades: seq<Grade>)

  function AddStandalone(s: Scan, bare: seq<Schema>, m: Number): Scan {
    if Overlaps(s.tokens, m) then s
    else
      var matching := Filter(bare, (b: Schema) => m.value in b.allowed);
      if |matching| == 1 then s.(grades := s.grades + [Grade(m.start, m.end, m.value, matching[0].basis, matching[0].schemaId, STANDALONE)])
      else if m.value in {70.0, 80.0, 90.0} then s.(tokens := s.tokens + [Token(m.start, m.end, UNRESOLVED)])
      else s
  }

  function Standalone(ts: seq<Token>, bare: seq<Schema>, ms: seq<Number>): Scan {
    if ms == [] then Scan(ts, []) else AddStandalone(Standalone(ts, bare, ms[..|ms| - 1]), bare, ms[|ms| - 1])
  }

  function TokensOf(grades: seq<Grade>, role: Role): (r: seq<Token>)
    ensures |r| == |grades| && forall i :: 0 <= i < |r| ==> r[i] == Token(grades[i].start, grades[i].end, role)
  {
    seq(|grades|, i requires 0 <= i < |grades| => Token(grades[i].start, grades[i].end, role))
  }

  function Bound(ts: seq<Token>, g: Grade, composition: Option<real>): Parsed {
    Parsed(Some(g), Sort(ByStart, ts + [Token(g.start, g.end, PURITY_GRADE)]), composition)
  }

  function Unbound(ts: seq<Token>): Parsed {
    Parsed(None, Sort(ByStart, ts), None)
  }

  /** _parse_numeric_grade */
  function Parse(text: Text): Parsed {
    var ts := ClassifyAll(text.negatives);
    var explicit, formula, prefixed := ExplicitGrade(ts, text), FormulaGrade(ts, text), PrefixedGrade(ts, text.schemas);
    if explicit.Some? then Bound(ts, explicit.value, Some(explicit.value.value))
    else if formula.Some? then Bound(ts, formula.value, Some(formula.value.value))
    else if prefixed.Some? then Bound(ts, prefixed.value, None)
    else
      var scan := Standalone(ts, Bare(text.schemas), text.standalone);
      if |scan.grades| == 1 then Bound(scan.tokens, scan.grades[0], None)
      else if |scan.grades| > 1 then Unbound(scan.tokens + TokensOf(scan.grades, UNRESOLVED))
      else Unbound(scan.tokens)
  }

  // ---- the parser as the source runs it ----

  /** occupied.append and tokens.append of add_token. */
  predicate Tracks(occupied: seq<(nat, nat)>, ts: seq<Token>) {
    |occupied| == |ts| && forall i :: 0 <= i < |ts| ==> occupied[i] == (ts[i].start, ts[i].end)
  }

  predicate Used(occupied: seq<(nat, nat)>, start: nat, end: nat) {
    exists i :: 0 <= i < |occupied| && start < occupied[i].1 && end > occupied[i].0
  }

  lemma UsedIsOverlaps(occupied: seq<(nat, nat)>, ts: seq<Token>, m: Number)
    requires Tracks(occupied, ts)
    ensures Used(occupied, m.start, m.end) <==> Overlaps(ts, m)
  {
    if i :| 0 <= i < |occupied| && m.start < occupied[i].1 && m.end > occupied[i].0 { assert Meets(ts[i], m); }
    if i :| 0 <= i < |ts| && Meets(ts[i], m) { assert m.start < occupied[i].1 && m.end > occupied[i].0; }
  }

  method ClassifyNegatives(text: Text) returns (tokens: seq<Token>, occupied: seq<(nat, nat)>)
    ensures tokens == ClassifyAll(text.negatives) && Tracks(occupied, tokens)
  {
    tokens, occupied := [], [];
    var p := 0;
    while p < |text.negatives|
      invariant 0 <= p <= |text.negatives|
      invariant tokens == ClassifyAll(text.negatives[..p]) && Tracks(occupied, tokens)
    {
      var (role, matches) := text.negatives[p];
      assert text.negatives[..p + 1][..p] == text.negatives[..p];
      ghost var before := tokens;
      var i := 0;
      while i < |matches|
        invariant 0 <= i <= |matches|
        invariant tokens == Classify(before, role, matches[..i]) && Tracks(occupied, tokens)
      {
        assert matches[..i + 1][..i] == matches[..i];
        UsedIsOverlaps(occupied, tokens, matches[i]);
        if !Used(occupied, matches[i].start, matches[i].end) {
          occupied := occupied + [(matches[i].start, matches[i].end)];
          tokens := tokens + [Token(matches[i].start, matches[i].end, role)];
        }
        i := i + 1;
      }
      assert matches[..i] == matches;
      p := p + 1;
    }
    assert text.negatives[..p] == text.negatives;
  }

  method ScanStandalone(text: Text, tokens: seq<Token>) returns (scan: Scan)
    ensures scan == Standalone(tokens, Bare(text.schemas), text.standalone)
  {
    var i := 0;
    scan := Scan(tokens, []);
    while i < |text.standalone|
      invariant 0 <= i <= |text.standalone|
      invariant scan == Standalone(tokens, Bare(text.schemas), text.standalone[..i])
    {
      assert text.standalone[..i + 1][..i] == text.standalone[..i];
      scan := AddStandalone(scan, Bare(text.schemas), text.standalone[i]);
      i := i + 1;
    }
    assert text.standalone[..i] == text.standalone;
  }

  method ParseNumericGrade(text: Text) returns (r: Parsed)
    ensures r == Parse(text)
  {
    var tokens, occupied := ClassifyNegatives(text);
    var explicit := ExplicitGrade(tokens, text);
    if explicit.Some? {
      return Bound(tokens, explicit.value, Some(explicit.value.value));
    }
    var formula := FormulaGrade(tokens, text);
    if formula.Some? {
      return Bound(tokens, formula.value, Some(formula.value.value));
    }
    var prefixed := PrefixedGrade(tokens, text.schemas);
    if prefixed.Some? {
      return Bound(tokens, prefixed.value, None);
    }
    var scan := ScanStandalone(text, tokens);
    if |scan.grades| == 1 {
      return Bound(scan.tokens, scan.grades[0], None);
    }
    if |scan.grades| > 1 {
      return Unbound(scan.tokens + TokensOf(scan.grades, UNRESOLVED));
    }
    return Unbound(scan.tokens);
  }

  // ---- every stage keeps the tokens apart ----

  lemma AppendDisjoint(ts: seq<Token>, m: Number, role: Role)
    requires Disjoint(ts) && m.start < m.end && !Overlaps(ts, m)
    ensures Disjoint(ts + [Token(m.start, m.end, role)])
  {
    forall i | 0 <= i < |ts| ensures Clear(ts[i], Token(m.start, m.end, role)) {
      assert !Meets(ts[i], m);
    }
  }

  predicate NoPurity(ts: seq<Token>) {
    forall i :: 0 <= i < |ts| ==> ts[i].role != PURITY_GRADE
  }

  lemma {:induction false} ClassifyDisjoint(ts: seq<Token>, role: Role, ms: seq<Number>)
    requires Disjoint(ts) && Found(ms) && Negative(role) && NoPurity(ts)
    ensures Disjoint(Classify(ts, role, ms)) && NoPurity(Classify(ts, role, ms)) && ts <= Classify(ts, role, ms)
    ensures forall i :: 0 <= i < |ms| ==> Overlaps(Classify(ts, role, ms), ms[i])
  {
    if ms != [] {
      var n := |ms| - 1;
      ClassifyDisjoint(ts, role, ms[..n]);
      var front, all := Classify(ts, role, ms[..n]), Classify(ts, role, ms);
      if !Overlaps(front, ms[n]) {
        AppendDisjoint(front, ms[n], role);
        assert Meets(all[|front|], ms[n]);
      }
      forall i | 0 <= i < |ms| ensures Overlaps(all, ms[i]) {
        if i < n { assert ms[..n][i] == ms[i]; OverlapsExtends(front, all, ms[i]); }
      }
    }
  }

  lemma OverlapsExtends(ts: seq<Token>, us: seq<Token>, m: Number)
    requires ts <= us && Overlaps(ts, m)
    ensures Overlaps(us, m)
  {
    var i :| 0 <= i < |ts| && Meets(ts[i], m);
    assert Meets(us[i], m);
  }

  predicate NegativesOk(ns: seq<(Role, seq<Number>)>) {
    forall i :: 0 <= i < |ns| ==> Negative(ns[i].0) && Found(ns[i].1)
  }

  /** Every match of every negative pattern is covered by some negative token. */
  lemma {:induction false} NegativesCovered(ns: seq<(Role, seq<Number>)>)
    requires NegativesOk(ns)
    ensures Disjoint(ClassifyAll(ns)) && NoPurity(ClassifyAll(ns))
    ensures forall p, i :: 0 <= p < |ns| && 0 <= i < |ns[p].1| ==> Overlaps(ClassifyAll(ns), ns[p].1[i])
  {
    if ns != [] {
      var n := |ns| - 1;
      NegativesCovered(ns[..n]);
      ClassifyDisjoint(ClassifyAll(ns[..n]), ns[n].0, ns[n].1);
      forall p, i | 0 <= p < |ns| && 0 <= i < |ns[p].1| ensures Overlaps(ClassifyAll(ns), ns[p].1[i]) {
        if p < n {
          assert ns[..n][p] == ns[p];
          OverlapsExtends(ClassifyAll(ns[..n]), ClassifyAll(ns), ns[p].1[i]);
        }
      }
    }
  }

  /** A grade over a free, non-empty match. */
  predicate FreeGrade(ts: seq<Token>, g: Grade) {
    g.start < g.end && !Overlaps(ts, Number(g.start, g.end, g.value, ""))
  }

  lemma FreeNumber(ts: seq<Token>, m: Number, g: Grade)
    requires m.start < m.end && !Overlaps(ts, m) && g.start == m.start && g.end == m.end
    ensures FreeGrade(ts, g)
  {
    assert forall i :: 0 <= i < |ts| ==> !Meets(ts[i], m);
  }

  lemma ExplicitFree(ts: seq<Token>, text: Text)
    requires TextOk(text)
    ensures ExplicitGrade(ts, text).Some? ==> FreeGrade(ts, ExplicitGrade(ts, text).value)
    ensures FormulaGrade(ts, text).Some? ==> FreeGrade(ts, FormulaGrade(ts, text).value)
  {
    hide Bare, Overlaps;
    if ExplicitGrade(ts, text).Some? { FreeNumber(ts, FirstFree(ts, text.explicit).value, ExplicitGrade(ts, text).value); }
    if FormulaGrade(ts, text).Some? { FreeNumber(ts, FirstFree(ts, text.formulas).value, FormulaGrade(ts, text).value); }
  }

  lemma {:induction false} PrefixedFree(ts: seq<Token>, schemas: seq<Schema>)
    requires forall s, i :: s in schemas && 0 <= i < |s.prefixes| ==> Found(s.prefixes[i])
    ensures PrefixedGrade(ts, schemas).Some? ==> FreeGrade(ts, PrefixedGrade(ts, schemas).value)
  {
    if schemas != [] {
      var m := PrefixedIn(ts, schemas[0], schemas[0].prefixes);
      if m.Some? {
        var i :| 0 <= i < |schemas[0].prefixes| && m.value in schemas[0].prefixes[i];
        assert schemas[0] in schemas && Found(schemas[0].prefixes[i]);
        FreeNumber(ts, m.value, PrefixedGrade(ts, schemas).value);
      } else {
        PrefixedFree(ts, schemas[1..]);
      }
    }
  }

  /** What the standalone loop keeps: tokens and tentative grades are all apart, and left of what is to come. */
  predicate ScanOk(s: Scan, ts: seq<Token>) {
    && ts <= s.tokens
    && Disjoint(s.tokens + TokensOf(s.grades, UNRESOLVED))
    && (NoPurity(ts) ==> NoPurity(s.tokens))
  }

  predicate Beyond(s: Scan, ts: seq<Token>, m: Number) {
    && (forall i :: |ts| <= i < |s.tokens| ==> s.tokens[i].end <= m.start)
    && (forall i :: 0 <= i < |s.grades| ==> s.grades[i].end <= m.start)
  }

  lemma AddStandaloneOk(s: Scan, ts: seq<Token>, bare: seq<Schema>, m: Number)
    requires ScanOk(s, ts) && Beyond(s, ts, m) && m.start < m.end
    ensures ScanOk(AddStandalone(s, bare, m), ts)
    ensures forall n: Number :: m.end <= n.start ==> Beyond(AddStandalone(s, bare, m), ts, n)
  {
    var t := AddStandalone(s, bare, m);
    if !Overlaps(s.tokens, m) {
      var all, gs := s.tokens + TokensOf(s.grades, UNRESOLVED), TokensOf(s.grades, UNRESOLVED);
      var token := Token(m.start, m.end, UNRESOLVED);
      forall i | 0 <= i < |all| ensures Clear(all[i], token) {
        if i < |s.tokens| { assert !Meets(s.tokens[i], m); }
      }
      if t.tokens != s.tokens {
        InsertDisjoint(s.tokens, token, gs);
      } else if t.grades != s.grades {
        assert TokensOf(t.grades, UNRESOLVED) == gs + [token];
        assert t.tokens + TokensOf(t.grades, UNRESOLVED) == all + [token];
      }
    }
  }

  lemma InsertDisjoint(xs: seq<Token>, t: Token, ys: seq<Token>)
    requires Disjoint(xs + ys) && t.start < t.end && forall i :: 0 <= i < |xs + ys| ==> Clear((xs + ys)[i], t)
    ensures Disjoint((xs + [t]) + ys)
  {
    var all, old_ := (xs + [t]) + ys, xs + ys;
    forall i, j | 0 <= i < j < |all| ensures Clear(all[i], all[j]) {
      if i != |xs| && j != |xs| {
        assert Clear(old_[if i < |xs| then i else i - 1], old_[if j < |xs| then j else j - 1]);
      } else if i == |xs| {
        assert Clear(old_[j - 1], t);
      } else {
        assert Clear(old_[i], t);
      }
    }
    forall i | 0 <= i < |all| ensures all[i].start < all[i].end {
      if i != |xs| { assert old_[if i < |xs| then i else i - 1].start < old_[if i < |xs| then i else i - 1].end; }
    }
  }

  lemma {:induction false} StandaloneOk(ts: seq<Token>, bare: seq<Schema>, ms: seq<Number>)
    requires Disjoint(ts) && Found(ms)
    ensures ScanOk(Standalone(ts, bare, ms), ts)
    ensures forall n: Number :: (ms == [] || ms[|ms| - 1].end <= n.start) ==> Beyond(Standalone(ts, bare, ms), ts, n)
  {
    if ms == [] {
      assert ts + [] == ts;
    } else {
      var n := |ms| - 1;
      StandaloneOk(ts, bare, ms[..n]);
      assert n == 0 || ms[..n][n - 1].end <= ms[n].start;
      AddStandaloneOk(Standalone(ts, bare, ms[..n]), ts, bare, ms[n]);
      hide AddStandalone, ScanOk, Beyond;
    }
  }

  // ---- what the parser guarantees ----

  predicate Purity(t: Token) {
    t.role == PURITY_GRADE
  }

  predicate InOrder(ts: seq<Token>) {
    forall i, j :: 0 <= i < j < |ts| ==> ts[i].end <= ts[j].start
  }

  /** Tokens in order and apart; a grade exactly when there is one purity token, over its own span. */
  ghost predicate WellParsed(r: Parsed) {
    && InOrder(r.tokens)
    && (forall i, j :: 0 <= i < |r.tokens| && 0 <= j < |r.tokens| && Purity(r.tokens[i]) && Purity(r.tokens[j]) ==> i == j)
    && (r.grade.Some? <==> exists i :: 0 <= i < |r.tokens| && Purity(r.tokens[i]))
    && (r.grade.Some? ==> Token(r.grade.value.start, r.grade.value.end, PURITY_GRADE) in r.tokens)
  }

  lemma DisjointIsTotal(ts: seq<Token>)
    requires Disjoint(ts)
    ensures StrictTotal(ByStart, ts)
  {
    forall a, b | a in ts && b in ts && a != b ensures a.start != b.start {
      var i, j :| 0 <= i < |ts| && 0 <= j < |ts| && ts[i] == a && ts[j] == b;
      assert i < j || j < i;
      assert Clear(ts[i], ts[j]) || Clear(ts[j], ts[i]);
    }
  }

  lemma {:induction false} DisjointOnce(ts: seq<Token>, t: Token)
    requires Disjoint(ts)
    ensures multiset(ts)[t] <= 1
  {
    if ts != [] {
      var n := |ts| - 1;
      DisjointOnce(ts[..n], t);
      assert ts == ts[..n] + [ts[n]];
      assert multiset(ts) == multiset(ts[..n]) + multiset{ts[n]};
      assert forall i :: 0 <= i < n ==> Clear(ts[i], ts[n]);
      assert ts[n] !in ts[..n];
    }
  }

  lemma SortedTokens(ts: seq<Token>)
    requires Disjoint(ts)
    ensures InOrder(Sort(ByStart, ts))
  {
    var r := Sort(ByStart, ts);
    DisjointIsTotal(ts);
    SortSorted(ByStart, ts);
    SameElements(r, ts);
    forall i, j | 0 <= i < j < |r| ensures r[i].end <= r[j].start {
      assert r[i] in ts && r[j] in ts;
      var x, y :| 0 <= x < |ts| && 0 <= y < |ts| && ts[x] == r[i] && ts[y] == r[j];
      if x == y {
        TwiceMeansTwo(r, i, j);
        DisjointOnce(ts, r[i]);
        assert false;
      }
      assert Clear(ts[x], ts[y]) || Clear(ts[y], ts[x]);
    }
  }

  lemma BoundParsed(ts: seq<Token>, g: Grade, composition: Option<real>)
    requires Disjoint(ts) && NoPurity(ts) && FreeGrade(ts, g)
    ensures WellParsed(Bound(ts, g, composition))
    ensures forall t :: t in ts ==> t in Bound(ts, g, composition).tokens
  {
    var token := Token(g.start, g.end, PURITY_GRADE);
    AppendDisjoint(ts, Number(g.start, g.end, g.value, ""), PURITY_GRADE);
    SortedTokens(ts + [token]);
    var r := Sort(ByStart, ts + [token]);
    SameElements(r, ts + [token]);
    assert Bound(ts, g, composition).tokens == r && InOrder(r);
    assert token in ts + [token];
    forall i | 0 <= i < |r| && Purity(r[i]) ensures r[i] == token {
      assert r[i] in ts + [token];
    }
  }

  lemma UnboundParsed(ts: seq<Token>)
    requires Disjoint(ts) && NoPurity(ts)
    ensures WellParsed(Unbound(ts))
    ensures forall t :: t in ts ==> t in Unbound(ts).tokens
  {
    SortedTokens(ts);
    SameElements(Sort(ByStart, ts), ts);
    var r := Sort(ByStart, ts);
    assert Unbound(ts).tokens == r && InOrder(r);
    forall i | 0 <= i < |r| ensures !Purity(r[i]) { assert r[i] in ts; }
  }

  lemma PrefixDisjoint(xs: seq<Token>, ys: seq<Token>)
    requires Disjoint(xs + ys)
    ensures Disjoint(xs)
  {
    assert forall i :: 0 <= i < |xs| ==> (xs + ys)[i] == xs[i];
  }

  lemma OnlyGradeFree(xs: seq<Token>, g: Grade)
    requires Disjoint(xs + TokensOf([g], UNRESOLVED))
    ensures FreeGrade(xs, g)
  {
    var all := xs + TokensOf([g], UNRESOLVED);
    assert all[|xs|] == Token(g.start, g.end, UNRESOLVED);
    forall i | 0 <= i < |xs| ensures !Meets(xs[i], Number(g.start, g.end, g.value, "")) {
      assert Clear(all[i], all[|xs|]);
    }
  }

  /** For every text: tokens are sorted and pairwise disjoint, a grade is returned exactly when exactly one
      token is a purity grade, and the negative tokens are all still there, hence apart from the grade. */
  lemma ParseGuarantees(text: Text)
    requires TextOk(text)
    ensures WellParsed(Parse(text))
    ensures forall t :: t in ClassifyAll(text.negatives) ==> t in Parse(text).tokens && t.role != PURITY_GRADE
    ensures forall p, i :: 0 <= p < |text.negatives| && 0 <= i < |text.negatives[p].1| ==>
      Overlaps(ClassifyAll(text.negatives), text.negatives[p].1[i])
  {
    var ts := ClassifyAll(text.negatives);
    NegativesCovered(text.negatives);
    ExplicitFree(ts, text);
    PrefixedFree(ts, text.schemas);
    hide ClassifyAll, Overlaps, WellParsed, ExplicitGrade, FormulaGrade, PrefixedGrade, Standalone, Bound, Unbound, Disjoint, FreeGrade;
    if ExplicitGrade(ts, text).Some? {
      BoundParsed(ts, ExplicitGrade(ts, text).value, Some(ExplicitGrade(ts, text).value.value));
    } else if FormulaGrade(ts, text).Some? {
      BoundParsed(ts, FormulaGrade(ts, text).value, Some(FormulaGrade(ts, text).value.value));
    } else if PrefixedGrade(ts, text.schemas).Some? {
      BoundParsed(ts, PrefixedGrade(ts, text.schemas).value, None);
    } else {
      StandaloneParsed(text, ts);
    }
  }

  lemma StandaloneParsed(text: Text, ts: seq<Token>)
    requires Disjoint(ts) && NoPurity(ts) && Found(text.standalone)
    ensures var scan := Standalone(ts, Bare(text.schemas), text.standalone);
            var r := if |scan.grades| == 1 then Bound(scan.tokens, scan.grades[0], None)
                     else if |scan.grades| > 1 then Unbound(scan.tokens + TokensOf(scan.grades, UNRESOLVED))
                     else Unbound(scan.tokens);
            WellParsed(r) && forall t :: t in ts ==> t in r.tokens
  {
    StandaloneOk(ts, Bare(text.schemas), text.standalone);
    var scan := Standalone(ts, Bare(text.schemas), text.standalone);
    PrefixDisjoint(scan.tokens, TokensOf(scan.grades, UNRESOLVED));
    hide WellParsed, Standalone, Bound, Unbound, Disjoint, Beyond;
    assert forall t :: t in ts ==> t in scan.tokens;
    if |scan.grades| == 1 {
      assert scan.grades == [scan.grades[0]];
      OnlyGradeFree(scan.tokens, scan.grades[0]);
      BoundParsed(scan.tokens, scan.grades[0], None);
    } else if |scan.grades| > 1 {
      UnboundParsed(scan.tokens + TokensOf(scan.grades, UNRESOLVED));
    } else {
      UnboundParsed(scan.tokens);
    }
  }

  // ---- where a grade comes from ----

  predicate Spans(g: Grade, m: Number) {
    g.start == m.start && g.end == m.end && g.value == m.value
  }

  /** The rules in their order of precedence: a grade stands over a match of its own rule, and a rule is
      only reached when the ones before it found nothing. */
  lemma GradeOrigin(text: Text)
    requires Parse(text).grade.Some?
    ensures var g, ts := Parse(text).grade.value, ClassifyAll(text.negatives);
            match g.rule
            case EXPLICIT_PERCENT =>
              && InRange(g.value) && g.basis != "" && Parse(text).composition == Some(g.value)
              && (exists m :: m in text.explicit && Spans(g, m) && !Overlaps(ts, m))
            case FORMULA_VALUE =>
              && InRange(g.value) && Parse(text).composition == Some(g.value) && ExplicitGrade(ts, text).None?
              && (exists m :: m in text.formulas && Spans(g, m) && g.basis == m.basis && !Overlaps(ts, m))
            case PREFIXED =>
              && Parse(text).composition == None && ExplicitGrade(ts, text).None? && FormulaGrade(ts, text).None?
              && (exists s :: s in text.schemas && Registered(s, g))
            case STANDALONE =>
              && Parse(text).composition == None && ExplicitGrade(ts, text).None? && FormulaGrade(ts, text).None?
              && PrefixedGrade(ts, text.schemas).None?
              && (exists s :: s in text.schemas && s.prefixes == [] && Registered(s, g))
  {
    var ts := ClassifyAll(text.negatives);
    hide ClassifyAll, Overlaps, Bare, Sort;
    if ExplicitGrade(ts, text).Some? {
    } else if FormulaGrade(ts, text).Some? {
    } else if PrefixedGrade(ts, text.schemas).Some? {
      PrefixedOrigin(ts, text.schemas);
    } else {
      StandaloneOrigin(ts, text.schemas, text.standalone);
    }
  }

  /** The grade is one the schema allows, under the schema's own name and basis. */
  predicate Registered(s: Schema, g: Grade) {
    g.value in s.allowed && g.schemaId == s.schemaId && g.basis == s.basis
  }

  lemma {:induction false} PrefixAllowed(ts: seq<Token>, s: Schema, prefixes: seq<seq<Number>>)
    ensures PrefixedIn(ts, s, prefixes).Some? ==> PrefixedIn(ts, s, prefixes).value.value in s.allowed
  {
    if prefixes != [] { PrefixAllowed(ts, s, prefixes[1..]); }
  }

  lemma {:induction false} PrefixedOrigin(ts: seq<Token>, schemas: seq<Schema>)
    requires PrefixedGrade(ts, schemas).Some?
    ensures PrefixedGrade(ts, schemas).value.rule == PREFIXED
    ensures exists s :: s in schemas && Registered(s, PrefixedGrade(ts, schemas).value)
  {
    PrefixAllowed(ts, schemas[0], schemas[0].prefixes);
    if PrefixedIn(ts, schemas[0], schemas[0].prefixes).None? {
      PrefixedOrigin(ts, schemas[1..]);
      var s :| s in schemas[1..] && Registered(s, PrefixedGrade(ts, schemas).value);
      assert s in schemas;
    } else {
      assert schemas[0] in schemas;
    }
  }

  lemma {:induction false} StandaloneOrigin(ts: seq<Token>, schemas: seq<Schema>, ms: seq<Number>)
    ensures forall i :: 0 <= i < |Standalone(ts, Bare(schemas), ms).grades| ==>
      var g := Standalone(ts, Bare(schemas), ms).grades[i];
      g.rule == STANDALONE && exists s :: s in schemas && s.prefixes == [] && Registered(s, g)
  {
    if ms != [] {
      var n := |ms| - 1;
      StandaloneOrigin(ts, schemas, ms[..n]);
      var before, m := Standalone(ts, Bare(schemas), ms[..n]), ms[n];
      var matching := Filter(Bare(schemas), (b: Schema) => m.value in b.allowed);
      if |matching| == 1 {
        assert matching[0] in matching && matching[0] in Bare(schemas) && matching[0] in schemas;
      }
    }
  }
}
