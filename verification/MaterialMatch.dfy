/** Greedy longest-match selection of material entities (material_registry.py). Regular expressions are
    abstract: an alias comes with the spans where it occurs in the value. */
module MaterialMatch {
  import opened Prelude
  import opened Sorting

  /** A rule apart from its aliases; content stands for what it says about the entity. */
  datatype Rule = Rule(ruleId: string, content: int)

  datatype Match = Match(rule: Rule, alias: string, start: nat, end: nat)

  /** Where an alias occurs: _material_occurrences for a fixed value. */
  type Occurrences = string -> seq<(nat, nat)>

  /** Every span is an exact, non-empty occurrence of the alias. */
  ghost predicate Exact(value: string, at: Occurrences) {
    forall alias, k :: 0 <= k < |at(alias)| ==>
      && at(alias)[k].0 < at(alias)[k].1 <= |value|
      && value[at(alias)[k].0..at(alias)[k].1] == alias
  }

  function MatchesOf(at: Occurrences, pair: (Rule, string)): (r: seq<Match>)
    ensures |r| == |at(pair.1)|
    ensures forall k :: 0 <= k < |r| ==> r[k] == Match(pair.0, pair.1, at(pair.1)[k].0, at(pair.1)[k].1)
  {
    seq(|at(pair.1)|, k requires 0 <= k < |at(pair.1)| => Match(pair.0, pair.1, at(pair.1)[k].0, at(pair.1)[k].1))
  }

  /** The comprehension over rules, aliases and occurrences; pairs lists every rule with each of its aliases. */
  function AllMatches(at: Occurrences, pairs: seq<(Rule, string)>): seq<Match> {
    if pairs == [] then [] else AllMatches(at, pairs[..|pairs| - 1]) + MatchesOf(at, pairs[|pairs| - 1])
  }

  function Length(m: Match): int {
    m.end - m.start
  }

  /** The sort key (-length, start, rule_id). */
  predicate LongestFirst(a: Match, b: Match) {
    if Length(a) != Length(b) then Length(a) > Length(b)
    else if a.start != b.start then a.start < b.start
    else StrLess(a.rule.ruleId, b.rule.ruleId)
  }

  /** The final sort key (start, end, rule_id). */
  predicate ByPosition(a: Match, b: Match) {
    if a.start != b.start then a.start < b.start
    else if a.end != b.end then a.end < b.end
    else StrLess(a.rule.ruleId, b.rule.ruleId)
  }

  predicate Overlap(a: Match, b: Match) {
    a.start < b.end && b.start < a.end
  }

  predicate Blocked(kept: seq<Match>, m: Match) {
    exists i :: 0 <= i < |kept| && Overlap(kept[i], m)
  }

  /** The greedy pass, stated with intervals. */
  function Greedy(ms: seq<Match>): seq<Match> {
    if ms == [] then []
    else
      var kept, m := Greedy(ms[..|ms| - 1]), ms[|ms| - 1];
      if Blocked(kept, m) then kept else kept + [m]
  }

  /** _material_matches */
  function MaterialMatches(at: Occurrences, pairs: seq<(Rule, string)>): seq<Match> {
    Sort(ByPosition, Greedy(Sort(LongestFirst, AllMatches(at, pairs))))
  }

  predicate At(m: Match, p: int) {
    m.start <= p < m.end
  }

  /** set(range(start, end)) */
  function Positions(m: Match): set<int> {
    set p | m.start <= p < m.end && At(m, p)
  }

  function Covered(ms: seq<Match>): set<int> {
    if ms == [] then {} else Covered(ms[..|ms| - 1]) + Positions(ms[|ms| - 1])
  }

  lemma {:induction false} CoveredAt(ms: seq<Match>, p: int)
    ensures p in Covered(ms) <==> exists i :: 0 <= i < |ms| && ms[i].start <= p < ms[i].end
  {
    if ms != [] {
      var n := |ms| - 1;
      CoveredAt(ms[..n], p);
      if i :| 0 <= i < n && ms[i].start <= p < ms[i].end { assert ms[..n][i].start <= p < ms[..n][i].end; }
    }
  }

  /** For non-empty spans a shared position is the same as overlapping intervals. */
  lemma PositionTest(kept: seq<Match>, m: Match)
    requires m.start < m.end && forall k :: k in kept ==> k.start < k.end
    ensures Positions(m) * Covered(kept) == {} <==> !Blocked(kept, m)
  {
    if i :| 0 <= i < |kept| && Overlap(kept[i], m) {
      var p := if kept[i].start < m.start then m.start else kept[i].start;
      assert kept[i] in kept;
      CoveredAt(kept, p);
      assert p in Positions(m) * Covered(kept);
    }
    if p :| p in Positions(m) * Covered(kept) {
      CoveredAt(kept, p);
      var i :| 0 <= i < |kept| && kept[i].start <= p < kept[i].end;
      assert Overlap(kept[i], m);
    }
  }

  lemma GreedyStep(ms: seq<Match>, i: nat)
    requires i < |ms|
    ensures Greedy(ms[..i + 1]) == (if Blocked(Greedy(ms[..i]), ms[i]) then Greedy(ms[..i]) else Greedy(ms[..i]) + [ms[i]])
    ensures ms[i] in ms
  {
    assert ms[..i + 1][..i] == ms[..i];
  }

  lemma CoveredStep(kept: seq<Match>, m: Match)
    ensures Covered(kept + [m]) == Covered(kept) + Positions(m)
  {
    assert (kept + [m])[..|kept|] == kept;
  }

  /** The loop as the source runs it, with its set of occupied positions. */
  method SelectMatches(at: Occurrences, pairs: seq<(Rule, string)>) returns (result: seq<Match>)
    requires forall m :: m in AllMatches(at, pairs) ==> m.start < m.end
    ensures result == MaterialMatches(at, pairs)
  {
    var matches := Sort(LongestFirst, AllMatches(at, pairs));
    SameElements(matches, AllMatches(at, pairs));
    var selected: seq<Match>, occupied: set<int>, i := [], {}, 0;
    while i < |matches|
      invariant 0 <= i <= |matches|
      invariant selected == Greedy(matches[..i]) && occupied == Covered(selected)
      invariant forall k :: k in selected ==> k.start < k.end
    {
      var m := matches[i];
      GreedyStep(matches, i);
      PositionTest(selected, m);
      CoveredStep(selected, m);
      hide Greedy, Covered, Positions, Blocked, AllMatches, Sort;
      if Positions(m) * occupied == {} {
        selected := selected + [m];
        occupied := occupied + Positions(m);
      }
      i := i + 1;
    }
    assert matches[..i] == matches;
    result := Sort(ByPosition, selected);
  }

  // ---- what the selection guarantees ----

  ghost predicate NonEmpty(ms: seq<Match>) {
    forall m :: m in ms ==> m.start < m.end
  }

  predicate Disjoint(ms: seq<Match>) {
    forall i, j :: 0 <= i < j < |ms| ==> !Overlap(ms[i], ms[j])
  }

  lemma {:induction false} GreedyDisjoint(ms: seq<Match>)
    ensures Disjoint(Greedy(ms))
    ensures forall m :: m in Greedy(ms) ==> m in ms
  {
    if ms != [] { GreedyDisjoint(ms[..|ms| - 1]); }
  }

  /** In a sorted list, whatever the greedy pass drops overlaps something kept that is sorted before it. */
  lemma {:induction false} GreedyDominates(ms: seq<Match>, m: Match)
    requires Sorted(LongestFirst, ms) && m in ms && m !in Greedy(ms)
    ensures exists k :: k in Greedy(ms) && Overlap(k, m) && LongestFirst(k, m)
  {
    var n := |ms| - 1;
    var front := ms[..n];
    assert ms == front + [ms[n]];
    if m in front {
      GreedyDominates(front, m);
      var k :| k in Greedy(front) && Overlap(k, m) && LongestFirst(k, m);
      assert k in Greedy(ms);
    } else {
      var kept := Greedy(front);
      var i :| 0 <= i < |kept| && Overlap(kept[i], m);
      GreedyDisjoint(front);
      assert kept[i] in kept && kept[i] in front;
      var j :| 0 <= j < n && front[j] == kept[i];
      assert ms[j] == ms[n] || LongestFirst(ms[j], ms[n]);
      assert kept[i] in Greedy(ms);
    }
  }

  /** Rules with the same id are the same rule. */
  ghost predicate DistinctRules(pairs: seq<(Rule, string)>) {
    forall p, q :: p in pairs && q in pairs && p.0.ruleId == q.0.ruleId ==> p.0 == q.0
  }

  lemma {:induction false} MatchFacts(value: string, at: Occurrences, pairs: seq<(Rule, string)>, m: Match)
    requires Exact(value, at) && m in AllMatches(at, pairs)
    ensures m.start < m.end <= |value| && m.alias == value[m.start..m.end]
    ensures (m.rule, m.alias) in pairs
  {
    var n := |pairs| - 1;
    assert pairs == pairs[..n] + [pairs[n]];
    if m in AllMatches(at, pairs[..n]) {
      MatchFacts(value, at, pairs[..n], m);
    } else {
      var ms := MatchesOf(at, pairs[n]);
      var k :| 0 <= k < |ms| && ms[k] == m;
    }
  }

  lemma LongestFirstTransitive(a: Match, b: Match, c: Match)
    requires LongestFirst(a, b) && LongestFirst(b, c)
    ensures LongestFirst(a, c)
  {
    if Length(a) == Length(b) == Length(c) && a.start == b.start == c.start {
      StrTransitive(a.rule.ruleId, b.rule.ruleId, c.rule.ruleId);
    }
  }

  /** A span fixes the alias, a rule id the rule: the sort key is a strict total order on the matches. */
  lemma LongestFirstTotal(value: string, at: Occurrences, pairs: seq<(Rule, string)>)
    requires Exact(value, at) && DistinctRules(pairs)
    ensures StrictTotal(LongestFirst, AllMatches(at, pairs))
  {
    var ms := AllMatches(at, pairs);
    forall a | a in ms ensures !LongestFirst(a, a) { StrIrreflexive(a.rule.ruleId); }
    forall a, b, c | LongestFirst(a, b) && LongestFirst(b, c) ensures LongestFirst(a, c) { LongestFirstTransitive(a, b, c); }
    forall a, b | a in ms && b in ms && a != b ensures LongestFirst(a, b) || LongestFirst(b, a) {
      MatchFacts(value, at, pairs, a);
      MatchFacts(value, at, pairs, b);
      StrTotal(a.rule.ruleId, b.rule.ruleId);
    }
  }

  lemma ByPositionTotal(ms: seq<Match>)
    requires NonEmpty(ms) && Disjoint(ms)
    ensures StrictTotal(ByPosition, ms)
  {
    forall a | a in ms ensures !ByPosition(a, a) { StrIrreflexive(a.rule.ruleId); }
    forall a, b | a in ms && b in ms && a != b ensures a.start != b.start {
      var i, j :| 0 <= i < |ms| && 0 <= j < |ms| && ms[i] == a && ms[j] == b;
      assert !Overlap(a, b) by { if i < j { assert !Overlap(ms[i], ms[j]); } else { assert !Overlap(ms[j], ms[i]); } }
    }
  }

  lemma {:induction false} DisjointOnce(ms: seq<Match>, m: Match)
    requires NonEmpty(ms) && Disjoint(ms)
    ensures multiset(ms)[m] <= 1
  {
    if ms != [] {
      var n := |ms| - 1;
      DisjointOnce(ms[..n], m);
      assert ms == ms[..n] + [ms[n]];
      assert multiset(ms) == multiset(ms[..n]) + multiset{ms[n]};
      assert ms[n] in ms && forall i :: 0 <= i < n ==> !Overlap(ms[i], ms[n]);
      assert ms[n] !in ms[..n];
    }
  }

  /** The selected entities are disjoint and in increasing order. */
  lemma SelectedInOrder(value: string, at: Occurrences, pairs: seq<(Rule, string)>)
    requires Exact(value, at)
    ensures var r := MaterialMatches(at, pairs); forall i, j :: 0 <= i < j < |r| ==> r[i].end <= r[j].start
  {
    var all := AllMatches(at, pairs);
    var sorted := Sort(LongestFirst, all);
    var kept := Greedy(sorted);
    var r := MaterialMatches(at, pairs);
    SameElements(sorted, all);
    GreedyDisjoint(sorted);
    forall m | m in kept ensures m.start < m.end { MatchFacts(value, at, pairs, m); }
    ByPositionTotal(kept);
    SortSorted(ByPosition, kept);
    SameElements(r, kept);
    forall i, j | 0 <= i < j < |r| ensures r[i].end <= r[j].start {
      InOrderPair(kept, r, i, j);
    }
  }

  lemma InOrderPair(kept: seq<Match>, r: seq<Match>, i: nat, j: nat)
    requires NonEmpty(kept) && Disjoint(kept) && Sorted(ByPosition, r) && multiset(r) == multiset(kept) && i < j < |r|
    ensures r[i].end <= r[j].start
  {
    SameElements(r, kept);
    assert r[i] in kept && r[j] in kept;
    if r[i] == r[j] {
      TwiceMeansTwo(r, i, j);
      DisjointOnce(kept, r[i]);
      assert false;
    }
    var x, y :| 0 <= x < |kept| && 0 <= y < |kept| && kept[x] == r[i] && kept[y] == r[j];
    assert !Overlap(r[i], r[j]) by { if x < y { assert !Overlap(kept[x], kept[y]); } else { assert !Overlap(kept[y], kept[x]); } }
    assert ByPosition(r[i], r[j]);
  }

  /** The longer span wins, then the one that starts earlier, then the rule with the smaller id. */
  predicate Wins(k: Match, m: Match) {
    || k.end - k.start > m.end - m.start
    || (k.end - k.start == m.end - m.start && k.start < m.start)
    || ((k.start, k.end) == (m.start, m.end) && StrLess(k.rule.ruleId, m.rule.ruleId))
  }

  lemma BeatenIff(ms: seq<Match>, m: Match)
    requires Sorted(LongestFirst, ms) && m in ms
    ensures m !in Greedy(ms) <==> exists k :: k in Greedy(ms) && Overlap(k, m) && Wins(k, m)
  {
    hide Greedy, Sorted, Wins, Overlap;
    GreedyDisjoint(ms);
    if m !in Greedy(ms) {
      GreedyDominates(ms, m);
      var k :| k in Greedy(ms) && Overlap(k, m) && LongestFirst(k, m);
      FirstWins(k, m);
    } else if k :| k in Greedy(ms) && Overlap(k, m) && Wins(k, m) {
      NeverBeaten(Greedy(ms), k, m);
    }
  }

  lemma FirstWins(k: Match, m: Match)
    requires LongestFirst(k, m)
    ensures Wins(k, m)
  {}

  lemma NeverBeaten(kept: seq<Match>, k: Match, m: Match)
    requires Disjoint(kept) && k in kept && m in kept && Overlap(k, m)
    ensures !Wins(k, m)
  {
    var i, j :| 0 <= i < |kept| && 0 <= j < |kept| && kept[i] == k && kept[j] == m;
    StrIrreflexive(m.rule.ruleId);
  }

  /** An occurrence is dropped exactly when it overlaps a kept one that wins against it. */
  lemma DroppedIffBeaten(value: string, at: Occurrences, pairs: seq<(Rule, string)>, m: Match)
    requires Exact(value, at) && DistinctRules(pairs) && m in AllMatches(at, pairs)
    ensures m !in MaterialMatches(at, pairs) <==> exists k :: k in MaterialMatches(at, pairs) && Overlap(k, m) && Wins(k, m)
  {
    hide AllMatches, Exact, DistinctRules, Wins, Overlap, Greedy, Sort, Sorted;
    var sorted := Sort(LongestFirst, AllMatches(at, pairs));
    LongestFirstTotal(value, at, pairs);
    SortSorted(LongestFirst, AllMatches(at, pairs));
    SameElements(sorted, AllMatches(at, pairs));
    SameElements(MaterialMatches(at, pairs), Greedy(sorted));
    BeatenIff(sorted, m);
  }

  /** What competes: every rule with each of its aliases, at every place where the alias occurs; and nothing else
      is ever selected. */
  lemma {:induction false} CompetesIff(at: Occurrences, pairs: seq<(Rule, string)>, m: Match)
    ensures m in AllMatches(at, pairs) <==> (m.rule, m.alias) in pairs && (m.start, m.end) in at(m.alias)
    ensures m in MaterialMatches(at, pairs) ==> m in AllMatches(at, pairs)
  {
    SelectedCompetes(at, pairs, m);
    hide MaterialMatches;
    if pairs != [] {
      var n := |pairs| - 1;
      assert pairs == pairs[..n] + [pairs[n]];
      CompetesIff(at, pairs[..n], m);
      var ms, spans := MatchesOf(at, pairs[n]), at(pairs[n].1);
      if m in ms {
        var k :| 0 <= k < |ms| && ms[k] == m;
        assert spans[k] == (m.start, m.end);
      }
      if (m.rule, m.alias) == pairs[n] && (m.start, m.end) in spans {
        var k :| 0 <= k < |spans| && spans[k] == (m.start, m.end);
        assert ms[k] == m;
      }
    }
  }

  lemma SelectedCompetes(at: Occurrences, pairs: seq<(Rule, string)>, m: Match)
    ensures m in MaterialMatches(at, pairs) ==> m in AllMatches(at, pairs)
  {
    hide AllMatches;
    var sorted := Sort(LongestFirst, AllMatches(at, pairs));
    SameElements(sorted, AllMatches(at, pairs));
    SameElements(MaterialMatches(at, pairs), Greedy(sorted));
    GreedyDisjoint(sorted);
  }

  // ---- the order of rules and aliases does not matter ----

  lemma {:induction false} AllMatchesConcat(at: Occurrences, xs: seq<(Rule, string)>, ys: seq<(Rule, string)>)
    ensures AllMatches(at, xs + ys) == AllMatches(at, xs) + AllMatches(at, ys)
  {
    hide MatchesOf;
    if ys == [] {
      assert xs + ys == xs;
    } else {
      var n, all := |ys| - 1, xs + ys;
      AllMatchesConcat(at, xs, ys[..n]);
      assert all[..|all| - 1] == xs + ys[..n] && all[|all| - 1] == ys[n];
      assert AllMatches(at, all) == AllMatches(at, xs + ys[..n]) + MatchesOf(at, ys[n]);
    }
  }

  lemma {:induction false} AllMatchesPermute(at: Occurrences, xs: seq<(Rule, string)>, ys: seq<(Rule, string)>)
    requires multiset(xs) == multiset(ys)
    ensures multiset(AllMatches(at, xs)) == multiset(AllMatches(at, ys))
    decreases |xs|
  {
    SameElements(xs, ys);
    if xs != [] {
      var n := |xs| - 1;
      var x := xs[n];
      assert x in ys;
      var i :| 0 <= i < |ys| && ys[i] == x;
      WithoutOne(xs, ys, i);
      AllMatchesPermute(at, xs[..n], ys[..i] + ys[i + 1..]);
      assert ys == ys[..i] + ([x] + ys[i + 1..]);
      MatchesInMiddle(at, ys[..i], x, ys[i + 1..]);
    }
  }

  lemma MatchesInMiddle(at: Occurrences, a: seq<(Rule, string)>, x: (Rule, string), b: seq<(Rule, string)>)
    ensures multiset(AllMatches(at, a + ([x] + b))) == multiset(AllMatches(at, a + b)) + multiset(MatchesOf(at, x))
  {
    AllMatchesConcat(at, a, [x] + b);
    AllMatchesConcat(at, [x], b);
    AllMatchesConcat(at, a, b);
    assert [x][..0] == [] && AllMatches(at, [x]) == MatchesOf(at, x);
  }

  /** With distinct rule ids the selection is the same for every order of the rules and of their aliases. */
  lemma SelectionForgetsOrder(value: string, at: Occurrences, xs: seq<(Rule, string)>, ys: seq<(Rule, string)>)
    requires Exact(value, at) && DistinctRules(xs) && multiset(xs) == multiset(ys)
    ensures MaterialMatches(at, xs) == MaterialMatches(at, ys)
  {
    AllMatchesPermute(at, xs, ys);
    LongestFirstTotal(value, at, xs);
    SortForgetsOrder(LongestFirst, AllMatches(at, xs), AllMatches(at, ys));
  }
}
