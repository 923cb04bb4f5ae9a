/** The bounded traversal of connector responses (validate_json_complexity in connector_security.py). */
module JsonComplexity {
  import opened Prelude
  import opened Json

  datatype Limits = Limits(maxDepth: nat, maxRecords: nat, maxDocuments: nat)

  // ---- what is measured ----

  /** The length of the longest path, leaves included. */
  function Height(v: Json): nat
    decreases v, |Children(v)| + 1
  {
    if Children(v) == [] then 0 else 1 + HeightOf(v, |Children(v)|)
  }

  /** The greatest height of the first n children. */
  function HeightOf(v: Json, n: nat): nat
    requires n <= |Children(v)|
    decreases v, n
  {
    if n == 0 then 0
    else
      var rest, last := HeightOf(v, n - 1), Height(Children(v)[n - 1]);
      if last > rest then last else rest
  }

  /** How many mappings the tree holds. */
  function Mappings(v: Json): nat
    decreases v, |Children(v)| + 1
  {
    (if v.Object? then 1 else 0) + MappingsOf(v, |Children(v)|)
  }

  function MappingsOf(v: Json, n: nat): nat
    requires n <= |Children(v)|
    decreases v, n
  {
    if n == 0 then 0 else MappingsOf(v, n - 1) + Mappings(Children(v)[n - 1])
  }

  /** No sequence is longer than the limit. */
  predicate Narrow(v: Json, maxDocuments: nat)
    decreases v
  {
    (v.Array? ==> |v.items| <= maxDocuments)
    && forall i :: 0 <= i < |Children(v)| ==> Narrow(Children(v)[i], maxDocuments)
  }

  predicate Fits(v: Json, depth: nat, records: nat, limits: Limits) {
    && depth + Height(v) <= limits.maxDepth
    && records + Mappings(v) <= limits.maxRecords
    && Narrow(v, limits.maxDocuments)
  }

  /** Fits for the first n children of a node at the given depth. */
  predicate FitChildren(v: Json, n: nat, depth: nat, records: nat, limits: Limits)
    requires n <= |Children(v)|
  {
    && (n > 0 ==> depth + 1 + HeightOf(v, n) <= limits.maxDepth)
    && records + MappingsOf(v, n) <= limits.maxRecords
    && forall i :: 0 <= i < n ==> Narrow(Children(v)[i], limits.maxDocuments)
  }

  // ---- the visitor ----

  /** The closure visit with its nonlocal counter; false stands for the raised error. */
  class Visitor {
    const limits: Limits
    var records: nat

    constructor (limits: Limits)
      ensures this.limits == limits && records == 0
    {
      this.limits, records := limits, 0;
    }

    method Visit(item: Json, depth: nat) returns (ok: bool)
      requires records <= limits.maxRecords
      modifies this
      ensures ok <==> Fits(item, depth, old(records), limits)
      ensures ok ==> records == old(records) + Mappings(item) <= limits.maxRecords
      decreases item, 1
    {
      if depth > limits.maxDepth {
        return false;
      }
      if item.Object? {
        records := records + 1;
        if records > limits.maxRecords {
          assert Mappings(item) >= 1;
          return false;
        }
        ok := VisitChildren(item, depth);
        NodeFits(item, depth, old(records), limits);
        assert ok <==> Fits(item, depth, old(records), limits);
      } else if item.Array? {
        if |item.items| > limits.maxDocuments {
          return false;
        }
        ok := VisitChildren(item, depth);
        NodeFits(item, depth, old(records), limits);
      } else {
        ScalarFits(item, depth, old(records), limits);
        ok := true;
      }
    }

    method VisitChildren(item: Json, depth: nat) returns (ok: bool)
      requires records <= limits.maxRecords
      modifies this
      ensures ok <==> FitChildren(item, |Children(item)|, depth, old(records), limits)
      ensures ok ==> records == old(records) + MappingsOf(item, |Children(item)|) <= limits.maxRecords
      decreases item, 0
    {
      var children, i := Children(item), 0;
      while i < |children|
        invariant 0 <= i <= |children|
        invariant FitChildren(item, i, depth, old(records), limits)
        invariant records == old(records) + MappingsOf(item, i)
      {
        NextChild(item, i, depth, old(records), limits);
        var fits := Visit(children[i], depth + 1);
        if !fits {
          NoMoreFits(item, i + 1, depth, old(records), limits);
          return false;
        }
        i := i + 1;
      }
      ok := true;
    }
  }

  lemma ScalarFits(v: Json, depth: nat, records: nat, limits: Limits)
    requires v.Scalar? && depth <= limits.maxDepth && records <= limits.maxRecords
    ensures Fits(v, depth, records, limits) && Mappings(v) == 0
  {
    assert Children(v) == [];
  }

  lemma NodeFits(v: Json, depth: nat, records: nat, limits: Limits)
    requires depth <= limits.maxDepth && (v.Object? || v.Array?)
    requires v.Array? ==> |v.items| <= limits.maxDocuments
    ensures Fits(v, depth, records, limits) <==>
      FitChildren(v, |Children(v)|, depth, records + (if v.Object? then 1 else 0), limits)
  {}

  lemma NextChild(v: Json, i: nat, depth: nat, records: nat, limits: Limits)
    requires i < |Children(v)| && FitChildren(v, i, depth, records, limits)
    ensures FitChildren(v, i + 1, depth, records, limits) <==>
      Fits(Children(v)[i], depth + 1, records + MappingsOf(v, i), limits)
  {
    var child := Children(v)[i];
    assert MappingsOf(v, i + 1) == MappingsOf(v, i) + Mappings(child);
    assert HeightOf(v, i + 1) == if Height(child) > HeightOf(v, i) then Height(child) else HeightOf(v, i);
    assert FitChildren(v, i + 1, depth, records, limits) ==> Narrow(Children(v)[i], limits.maxDocuments);
    hide Narrow, Height, Mappings;
  }

  lemma {:induction false} NoMoreFits(v: Json, n: nat, depth: nat, records: nat, limits: Limits)
    requires 0 < n <= |Children(v)| && !FitChildren(v, n, depth, records, limits)
    ensures !FitChildren(v, |Children(v)|, depth, records, limits)
    decreases |Children(v)| - n
  {
    if n < |Children(v)| { NoMoreFits(v, n + 1, depth, records, limits); }
  }

  /** validate_json_complexity: the early exits accept exactly the trees within all three limits. */
  method ValidateJsonComplexity(value: Json, limits: Limits) returns (ok: bool)
    ensures ok <==> Height(value) <= limits.maxDepth && Mappings(value) <= limits.maxRecords && Narrow(value, limits.maxDocuments)
  {
    var visitor := new Visitor(limits);
    ok := visitor.Visit(value, 0);
  }

  // ---- the measures, in terms of paths ----

  lemma {:induction false} HeightBoundsPaths(v: Json, path: seq<nat>)
    requires NodeAt(v, path).Some?
    ensures |path| <= Height(v)
    decreases |path|
  {
    if path != [] {
      HeightBoundsPaths(Children(v)[path[0]], path[1..]);
      ChildBelow(v, path[0], |Children(v)|);
    }
  }

  lemma {:induction false} ChildBelow(v: Json, i: nat, n: nat)
    requires i < n <= |Children(v)|
    ensures Height(Children(v)[i]) <= HeightOf(v, n)
    decreases n
  {
    if i < n - 1 { ChildBelow(v, i, n - 1); }
  }

  lemma {:induction false} DeepestPath(v: Json) returns (path: seq<nat>)
    ensures NodeAt(v, path).Some? && |path| == Height(v)
    decreases v
  {
    if Children(v) == [] {
      path := [];
    } else {
      var i := DeepestChild(v, |Children(v)|);
      var rest := DeepestPath(Children(v)[i]);
      path := [i] + rest;
      assert path[1..] == rest;
    }
  }

  lemma {:induction false} DeepestChild(v: Json, n: nat) returns (i: nat)
    requires 0 < n <= |Children(v)|
    ensures i < n && Height(Children(v)[i]) == HeightOf(v, n)
    decreases n
  {
    i := n - 1;
    if n > 1 && Height(Children(v)[n - 1]) < HeightOf(v, n - 1) { i := DeepestChild(v, n - 1); }
  }

  /** The depth limit bounds every path from the root, leaves counted. */
  lemma DepthLimitMeans(v: Json, maxDepth: nat)
    ensures Height(v) <= maxDepth <==> forall path :: NodeAt(v, path).Some? ==> |path| <= maxDepth
  {
    if Height(v) <= maxDepth {
      forall path | NodeAt(v, path).Some? ensures |path| <= maxDepth { HeightBoundsPaths(v, path); }
    } else {
      var path := DeepestPath(v);
    }
  }

  lemma {:induction false} NarrowEverywhere(v: Json, maxDocuments: nat, path: seq<nat>)
    requires Narrow(v, maxDocuments) && NodeAt(v, path).Some?
    ensures NodeAt(v, path).value.Array? ==> |NodeAt(v, path).value.items| <= maxDocuments
    decreases |path|
  {
    if path != [] { NarrowEverywhere(Children(v)[path[0]], maxDocuments, path[1..]); }
  }

  lemma {:induction false} WidePath(v: Json, maxDocuments: nat) returns (path: seq<nat>)
    requires !Narrow(v, maxDocuments)
    ensures NodeAt(v, path).Some? && NodeAt(v, path).value.Array? && |NodeAt(v, path).value.items| > maxDocuments
    decreases v
  {
    if v.Array? && |v.items| > maxDocuments {
      path := [];
    } else {
      var i :| 0 <= i < |Children(v)| && !Narrow(Children(v)[i], maxDocuments);
      var rest := WidePath(Children(v)[i], maxDocuments);
      path := [i] + rest;
      assert path[1..] == rest;
    }
  }

  /** The document limit bounds every sequence, wherever it is. */
  lemma WidthLimitMeans(v: Json, maxDocuments: nat)
    ensures Narrow(v, maxDocuments) <==>
      forall path :: NodeAt(v, path).Some? && NodeAt(v, path).value.Array? ==> |NodeAt(v, path).value.items| <= maxDocuments
  {
    if Narrow(v, maxDocuments) {
      forall path | NodeAt(v, path).Some? && NodeAt(v, path).value.Array? ensures |NodeAt(v, path).value.items| <= maxDocuments {
        NarrowEverywhere(v, maxDocuments, path);
      }
    } else {
      var path := WidePath(v, maxDocuments);
    }
  }

  predicate MappingAt(v: Json, path: seq<nat>) {
    NodeAt(v, path).Some? && NodeAt(v, path).value.Object?
  }

  /** The paths that continue below child i as the given ones do. */
  function Below(i: nat, paths: set<seq<nat>>): set<seq<nat>> {
    set p | p in paths :: [i] + p
  }

  /** Where the mappings of a tree are. */
  function MappingPaths(v: Json): set<seq<nat>>
    decreases v, |Children(v)| + 1
  {
    (if v.Object? then {[]} else {}) + MappingPathsOf(v, |Children(v)|)
  }

  function MappingPathsOf(v: Json, n: nat): set<seq<nat>>
    requires n <= |Children(v)|
    decreases v, n
  {
    if n == 0 then {} else MappingPathsOf(v, n - 1) + Below(n - 1, MappingPaths(Children(v)[n - 1]))
  }

  lemma {:induction false} BelowCounts(i: nat, paths: set<seq<nat>>)
    ensures |Below(i, paths)| == |paths|
    decreases |paths|
  {
    if paths != {} {
      var p :| p in paths;
      BelowCounts(i, paths - {p});
      forall q | q in paths && q != p ensures [i] + q != [i] + p {
        assert ([i] + q)[1..] == q && ([i] + p)[1..] == p;
      }
      assert Below(i, paths) == Below(i, paths - {p}) + {[i] + p};
    }
  }

  /** A path is listed exactly when it starts in the first n children and leads to a mapping. */
  lemma {:induction false} MappingPathsOfFind(v: Json, n: nat, path: seq<nat>)
    requires n <= |Children(v)|
    ensures path in MappingPathsOf(v, n) <==> path != [] && path[0] < n && MappingAt(Children(v)[path[0]], path[1..])
    decreases v, n
  {
    if n > 0 {
      var child := Children(v)[n - 1];
      MappingPathsOfFind(v, n - 1, path);
      if path != [] && path[0] == n - 1 {
        MappingPathsFind(child, path[1..]);
        assert path == [n - 1] + path[1..];
      }
      forall p | p in MappingPaths(child) && path == [n - 1] + p ensures p == path[1..] { assert path[1..] == p; }
    }
  }

  lemma {:induction false} MappingPathsFind(v: Json, path: seq<nat>)
    ensures path in MappingPaths(v) <==> MappingAt(v, path)
    decreases v, |Children(v)| + 1
  {
    MappingPathsOfFind(v, |Children(v)|, path);
  }

  lemma BelowElsewhere(v: Json, n: nat, paths: set<seq<nat>>)
    requires n <= |Children(v)|
    ensures MappingPathsOf(v, n) !! Below(n, paths)
  {
    hide MappingPathsOf;
    forall p ensures !(p in MappingPathsOf(v, n) && p in Below(n, paths)) { MappingPathsOfFind(v, n, p); }
  }

  lemma DisjointCounts(xs: set<seq<nat>>, ys: set<seq<nat>>)
    requires xs !! ys
    ensures |xs + ys| == |xs| + |ys|
  {}

  lemma {:induction false} MappingPathsOfCount(v: Json, n: nat)
    requires n <= |Children(v)|
    ensures |MappingPathsOf(v, n)| == MappingsOf(v, n)
    decreases v, n
  {
    hide MappingPaths, Mappings, Below;
    if n > 0 {
      var paths := MappingPaths(Children(v)[n - 1]);
      MappingPathsOfCount(v, n - 1);
      MappingPathsCount(Children(v)[n - 1]);
      BelowCounts(n - 1, paths);
      BelowElsewhere(v, n - 1, paths);
      DisjointCounts(MappingPathsOf(v, n - 1), Below(n - 1, paths));
    }
  }

  lemma {:induction false} MappingPathsCount(v: Json)
    ensures |MappingPaths(v)| == Mappings(v)
    decreases v, |Children(v)| + 1
  {
    MappingPathsOfCount(v, |Children(v)|);
    MappingPathsOfFind(v, |Children(v)|, []);
  }

  lemma {:induction false} SubsetCounts(xs: set<seq<nat>>, ys: set<seq<nat>>)
    requires xs <= ys
    ensures |xs| <= |ys|
  {
    assert ys == xs + (ys - xs);
  }

  /** The record limit bounds how many different paths lead to mappings, wherever they are. */
  lemma RecordLimitMeans(v: Json, maxRecords: nat)
    ensures Mappings(v) <= maxRecords <==> forall paths: set<seq<nat>> :: (forall p :: p in paths ==> MappingAt(v, p)) ==> |paths| <= maxRecords
  {
    hide MappingAt, MappingPaths, Mappings;
    MappingPathsCount(v);
    forall p ensures p in MappingPaths(v) <==> MappingAt(v, p) { MappingPathsFind(v, p); }
    if Mappings(v) <= maxRecords {
      forall paths: set<seq<nat>> | forall p :: p in paths ==> MappingAt(v, p) ensures |paths| <= maxRecords {
        SubsetCounts(paths, MappingPaths(v));
      }
    }
  }
}
