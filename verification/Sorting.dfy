/** sorted(xs, key=...): a stable sort by a strict order, and when its result is the only possible one. */
module Sorting {
  /** less orders the elements of xs strictly and totally. */
  ghost predicate StrictTotal<T(!new)>(less: (T, T) -> bool, xs: seq<T>) {
    && (forall a :: a in xs ==> !less(a, a))
    && (forall a, b, c :: a in xs && b in xs && c in xs && less(a, b) && less(b, c) ==> less(a, c))
    && (forall a, b :: a in xs && b in xs && a != b ==> less(a, b) || less(b, a))
  }

  ghost predicate Sorted<T(!new)>(less: (T, T) -> bool, xs: seq<T>) {
    forall i, j :: 0 <= i < j < |xs| ==> xs[i] == xs[j] || less(xs[i], xs[j])
  }

  function Insert<T>(less: (T, T) -> bool, x: T, s: seq<T>): (r: seq<T>)
    ensures multiset(r) == multiset(s + [x])
  {
    if s == [] then [x]
    else
      var n := |s| - 1;
      assert s == s[..n] + [s[n]];
      if less(x, s[n]) then Insert(less, x, s[..n]) + [s[n]] else s + [x]
  }

  function Sort<T>(less: (T, T) -> bool, xs: seq<T>): (r: seq<T>)
    ensures multiset(r) == multiset(xs)
  {
    if xs == [] then []
    else
      assert xs == xs[..|xs| - 1] + [xs[|xs| - 1]];
      Insert(less, xs[|xs| - 1], Sort(less, xs[..|xs| - 1]))
  }

  lemma SameElements<T>(xs: seq<T>, ys: seq<T>)
    requires multiset(xs) == multiset(ys)
    ensures |xs| == |ys| && forall x :: x in xs <==> x in ys
  {
    assert |multiset(xs)| == |multiset(ys)|;
    assert forall x :: x in xs <==> x in multiset(xs);
    assert forall x :: x in ys <==> x in multiset(ys);
  }

  lemma SmallerDomain<T(!new)>(less: (T, T) -> bool, xs: seq<T>, ys: seq<T>)
    requires StrictTotal(less, xs) && forall y :: y in ys ==> y in xs
    ensures StrictTotal(less, ys)
  {}

  lemma {:induction false} InsertSorted<T(!new)>(less: (T, T) -> bool, x: T, s: seq<T>)
    requires StrictTotal(less, s + [x]) && Sorted(less, s)
    ensures Sorted(less, Insert(less, x, s))
  {
    if s != [] {
      var n := |s| - 1;
      if less(x, s[n]) {
        SmallerDomain(less, s + [x], s[..n] + [x]);
        InsertSorted(less, x, s[..n]);
        SameElements(Insert(less, x, s[..n]), s[..n] + [x]);
        InsertBelow(less, x, s, Insert(less, x, s[..n]));
      } else {
        InsertLast(less, x, s);
      }
    }
  }

  lemma InsertBelow<T(!new)>(less: (T, T) -> bool, x: T, s: seq<T>, r: seq<T>)
    requires s != [] && Sorted(less, s) && less(x, s[|s| - 1])
    requires forall y :: y in r ==> y == x || y in s[..|s| - 1]
    ensures forall y :: y in r ==> y == s[|s| - 1] || less(y, s[|s| - 1])
  {
    var n := |s| - 1;
    forall y | y in s[..n] ensures y == s[n] || less(y, s[n]) {
      var j :| 0 <= j < n && s[j] == y;
    }
  }

  lemma InsertLast<T(!new)>(less: (T, T) -> bool, x: T, s: seq<T>)
    requires s != [] && StrictTotal(less, s + [x]) && Sorted(less, s) && !less(x, s[|s| - 1])
    ensures Sorted(less, s + [x])
  {
    var n := |s| - 1;
    forall i | 0 <= i < |s| ensures s[i] == x || less(s[i], x) {
      assert s[i] in s + [x] && x in s + [x] && s[n] in s + [x];
      assert i < n ==> s[i] == s[n] || less(s[i], s[n]);
    }
  }

  lemma {:induction false} SortSorted<T(!new)>(less: (T, T) -> bool, xs: seq<T>)
    requires StrictTotal(less, xs)
    ensures Sorted(less, Sort(less, xs))
  {
    if xs != [] {
      var n := |xs| - 1;
      SmallerDomain(less, xs, xs[..n]);
      SortSorted(less, xs[..n]);
      SameElements(Sort(less, xs[..n]), xs[..n]);
      SmallerDomain(less, xs, Sort(less, xs[..n]) + [xs[n]]);
      InsertSorted(less, xs[n], Sort(less, xs[..n]));
    }
  }

  lemma FirstIsLeast<T(!new)>(less: (T, T) -> bool, xs: seq<T>, y: T)
    requires Sorted(less, xs) && y in xs
    ensures y == xs[0] || less(xs[0], y)
  {}

  lemma HeadsAgree<T(!new)>(less: (T, T) -> bool, xs: seq<T>, ys: seq<T>)
    requires StrictTotal(less, xs) && Sorted(less, xs) && Sorted(less, ys) && multiset(xs) == multiset(ys) && xs != []
    ensures ys != [] && xs[0] == ys[0]
  {
    SameElements(xs, ys);
    assert xs[0] in ys && ys[0] in xs;
    FirstIsLeast(less, xs, ys[0]);
    FirstIsLeast(less, ys, xs[0]);
  }

  lemma TailsAgree<T>(xs: seq<T>, ys: seq<T>)
    requires multiset(xs) == multiset(ys) && xs != [] && ys != [] && xs[0] == ys[0]
    ensures multiset(xs[1..]) == multiset(ys[1..])
  {
    assert xs == [xs[0]] + xs[1..] && ys == [ys[0]] + ys[1..];
    assert multiset(xs[1..]) == multiset(xs) - multiset{xs[0]};
    assert multiset(ys[1..]) == multiset(ys) - multiset{ys[0]};
  }

  /** Two sorted arrangements of the same elements are the same sequence. */
  lemma {:induction false} SortedUnique<T(!new)>(less: (T, T) -> bool, xs: seq<T>, ys: seq<T>)
    requires StrictTotal(less, xs) && Sorted(less, xs) && Sorted(less, ys) && multiset(xs) == multiset(ys)
    ensures xs == ys
    decreases |xs|
  {
    SameElements(xs, ys);
    if xs != [] {
      HeadsAgree(less, xs, ys);
      TailsAgree(xs, ys);
      SmallerDomain(less, xs, xs[1..]);
      hide StrictTotal;
      SortedUnique(less, xs[1..], ys[1..]);
      assert xs == [xs[0]] + xs[1..] && ys == [ys[0]] + ys[1..];
    }
  }

  /** So sorting forgets the order its input came in. */
  lemma SortForgetsOrder<T(!new)>(less: (T, T) -> bool, xs: seq<T>, ys: seq<T>)
    requires StrictTotal(less, xs) && multiset(xs) == multiset(ys)
    ensures Sort(less, xs) == Sort(less, ys)
  {
    SameElements(xs, ys);
    SameElements(Sort(less, xs), xs);
    SortSorted(less, xs);
    SortSorted(less, ys);
    SortedUnique(less, Sort(less, xs), Sort(less, ys));
  }

  lemma WithoutAt<T>(ys: seq<T>, i: nat)
    requires i < |ys|
    ensures multiset(ys[..i] + ys[i + 1..]) == multiset(ys) - multiset{ys[i]}
  {
    assert ys == ys[..i] + [ys[i]] + ys[i + 1..];
  }

  /** Taking one common element out of two arrangements leaves two arrangements. */
  lemma WithoutOne<T>(xs: seq<T>, ys: seq<T>, i: nat)
    requires multiset(xs) == multiset(ys) && xs != [] && i < |ys| && ys[i] == xs[|xs| - 1]
    ensures multiset(xs[..|xs| - 1]) == multiset(ys[..i] + ys[i + 1..])
  {
    WithoutAt(xs, |xs| - 1);
    WithoutAt(ys, i);
    assert xs[..|xs| - 1] + xs[|xs|..] == xs[..|xs| - 1];
  }

  /** And putting it back. */
  lemma WithOne<T>(xs: seq<T>, ys: seq<T>, i: nat)
    requires xs != [] && i < |ys| && ys[i] == xs[|xs| - 1] && multiset(xs[..|xs| - 1]) == multiset(ys[..i] + ys[i + 1..])
    ensures multiset(xs) == multiset(ys)
  {
    WithoutAt(ys, i);
    assert xs == xs[..|xs| - 1] + [xs[|xs| - 1]];
  }

  lemma TwiceMeansTwo<T>(xs: seq<T>, i: nat, j: nat)
    requires i < j < |xs| && xs[i] == xs[j]
    ensures multiset(xs)[xs[i]] >= 2
  {
    assert xs == xs[..j] + [xs[j]] + xs[j + 1..];
    assert xs[i] in xs[..j];
  }
}
