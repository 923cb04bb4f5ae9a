/** Shared result types and the few Python idioms the model needs. */
module Prelude {
  datatype Option<+T> = None | Some(value: T)

  /** The exception classes the engine raises; what names the raise site. */
  datatype Error =
    | KeyError(what: string)
    | ValueError(what: string)
    | ConflictError(what: string)
    | StaleError(what: string)
    | IntegrityError(what: string)

  datatype Result<+T> = Ok(value: T) | Err(error: Error)

  predicate Whitespace(c: char) {
    c in [' ', '\t', '\n', '\r']
  }

  /** not s.strip() */
  predicate Blank(s: string) {
    forall i :: 0 <= i < |s| ==> Whitespace(s[i])
  }

  /** needle in hay */
  predicate Contains(hay: string, needle: string) {
    exists i :: 0 <= i <= |hay| && needle <= hay[i..]
  }

  /** tuple(dict.fromkeys(xs)): first occurrences, in order. */
  function Dedup<T(==,!new)>(xs: seq<T>): (r: seq<T>)
    ensures forall x :: x in r <==> x in xs
    ensures forall i, j :: 0 <= i < j < |r| ==> r[i] != r[j]
  {
    if xs == [] then []
    else
      var front := Dedup(xs[..|xs| - 1]);
      assert xs == xs[..|xs| - 1] + [xs[|xs| - 1]];
      if xs[|xs| - 1] in front then front else front + [xs[|xs| - 1]]
  }

  /** [x for x in xs if p(x)] */
  function Filter<T(!new)>(xs: seq<T>, p: T -> bool): (r: seq<T>)
    ensures |r| <= |xs|
    ensures forall x :: x in r <==> x in xs && p(x)
  {
    if xs == [] then []
    else
      var front := Filter(xs[..|xs| - 1], p);
      assert xs == xs[..|xs| - 1] + [xs[|xs| - 1]];
      if p(xs[|xs| - 1]) then front + [xs[|xs| - 1]] else front
  }

  /** xs[:k] */
  function Take<T>(xs: seq<T>, k: nat): (r: seq<T>)
    ensures r <= xs && |r| == (if k <= |xs| then k else |xs|)
  {
    if k <= |xs| then xs[..k] else xs
  }

  /** The order of Python strings, by code point. */
  predicate StrLess(a: string, b: string) {
    if b == "" then false
    else if a == "" then true
    else if a[0] != b[0] then a[0] < b[0]
    else StrLess(a[1..], b[1..])
  }

  /** The first difference decides: a is a proper prefix of b, or has the smaller code point there. */
  lemma {:induction false} StrLessMeans(a: string, b: string)
    ensures StrLess(a, b) <==> exists k :: 0 <= k <= |a| && k < |b| && a[..k] == b[..k] && (k == |a| || a[k] < b[k])
  {
    if a == "" {
      if b != "" { assert a[..0] == b[..0]; }
    } else if b != "" {
      if a[0] == b[0] {
        StrLessMeans(a[1..], b[1..]);
        StrLessBehind(a, b);
      } else {
        if a[0] < b[0] { assert a[..0] == b[..0]; }
        forall k | 0 <= k <= |a| && k < |b| && a[..k] == b[..k] ensures k == 0 { SamePrefix(a, b, k); }
      }
    }
  }

  lemma SamePrefix(a: string, b: string, k: nat)
    requires k <= |a| && k < |b| && a[..k] == b[..k]
    ensures forall i :: 0 <= i < k ==> a[i] == b[i]
  {
    forall i | 0 <= i < k ensures a[i] == b[i] { assert a[..k][i] == b[..k][i]; }
  }

  lemma StrLessBehind(a: string, b: string)
    requires a != "" && b != "" && a[0] == b[0]
    ensures (exists k :: 0 <= k <= |a| && k < |b| && a[..k] == b[..k] && (k == |a| || a[k] < b[k]))
      <==> exists k :: 0 <= k <= |a[1..]| && k < |b[1..]| && a[1..][..k] == b[1..][..k] && (k == |a[1..]| || a[1..][k] < b[1..][k])
  {
    if k :| 0 <= k <= |a| && k < |b| && a[..k] == b[..k] && (k == |a| || a[k] < b[k]) {
      assert k > 0;
      assert a[1..][..k - 1] == a[..k][1..] == b[..k][1..] == b[1..][..k - 1];
    }
    if k :| 0 <= k <= |a[1..]| && k < |b[1..]| && a[1..][..k] == b[1..][..k] && (k == |a[1..]| || a[1..][k] < b[1..][k]) {
      assert a[..k + 1] == [a[0]] + a[1..][..k] == b[..k + 1];
    }
  }

  lemma {:induction false} StrTotal(a: string, b: string)
    ensures a == b || StrLess(a, b) || StrLess(b, a)
  {
    if a != "" && b != "" && a[0] == b[0] {
      StrTotal(a[1..], b[1..]);
      assert a == [a[0]] + a[1..] && b == [b[0]] + b[1..];
    }
  }

  lemma {:induction false} StrTransitive(a: string, b: string, c: string)
    requires StrLess(a, b) && StrLess(b, c)
    ensures StrLess(a, c)
  {
    if a != "" && a[0] == b[0] == c[0] { StrTransitive(a[1..], b[1..], c[1..]); }
  }

  lemma {:induction false} StrIrreflexive(a: string)
    ensures !StrLess(a, a)
  {
    if a != "" { StrIrreflexive(a[1..]); }
  }
}
