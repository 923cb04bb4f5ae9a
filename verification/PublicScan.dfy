/** The tree walk of the public data scan and its JSON Pointer locations (tools/public_delivery_scan.py). */
module PublicScan {
  import opened Prelude
  import opened Json

  // ---- labels ----

  /** str(index) */
  function Decimal(n: nat): string {
    if n < 10 then [Digit(n)] else Decimal(n / 10) + [Digit(n % 10)]
  }

  function Digit(n: nat): char
    requires n < 10
  {
    "0123456789"[n]
  }

  /** What the walk appends to the path on its way to child i. */
  function Label(v: Json, i: nat): string
    requires i < |Children(v)|
  {
    if v.Object? then v.members[i].key else Decimal(i)
  }

  /** A parsed object has no key twice. */
  predicate UniqueKeys(v: Json)
    decreases v
  {
    (v.Object? ==> forall i, j :: 0 <= i < j < |v.members| ==> v.members[i].key != v.members[j].key)
    && forall i :: 0 <= i < |Children(v)| ==> UniqueKeys(Children(v)[i])
  }

  // ---- the walk ----

  datatype Leaf = Leaf(path: seq<string>, name: Option<string>, value: Json)

  /** _walk */
  function Walk(v: Json, parts: seq<string>): seq<Leaf>
    decreases v, |Children(v)| + 1
  {
    if v.Scalar? then [Leaf(parts, if parts == [] then None else Some(parts[|parts| - 1]), v)]
    else WalkChildren(v, |Children(v)|, parts)
  }

  function WalkChildren(v: Json, n: nat, parts: seq<string>): seq<Leaf>
    requires n <= |Children(v)|
    decreases v, n
  {
    if n == 0 then [] else WalkChildren(v, n - 1, parts) + Walk(Children(v)[n - 1], parts + [Label(v, n - 1)])
  }

  // ---- following a path back ----

  function FindLabel(v: Json, step: string, n: nat): (r: Option<nat>)
    requires n <= |Children(v)|
    ensures r.Some? ==> r.value < n && Label(v, r.value) == step
    ensures r.None? ==> forall i :: 0 <= i < n ==> Label(v, i) != step
  {
    if n == 0 then None
    else if Label(v, n - 1) == step then Some(n - 1)
    else FindLabel(v, step, n - 1)
  }

  /** The node a path of keys and indices leads to. */
  function Follow(v: Json, path: seq<string>): Option<Json>
    decreases |path|
  {
    if path == [] then Some(v)
    else
      match FindLabel(v, path[0], |Children(v)|)
      case None => None
      case Some(i) => Follow(Children(v)[i], path[1..])
  }

  function DecimalValue(s: string): nat {
    if s == "" then 0 else 10 * DecimalValue(s[..|s| - 1]) + (if '0' <= s[|s| - 1] <= '9' then s[|s| - 1] as nat - '0' as nat else 0)
  }

  lemma {:induction false} DecimalReads(n: nat)
    ensures DecimalValue(Decimal(n)) == n && Decimal(n) != ""
  {
    if n >= 10 {
      DecimalReads(n / 10);
      assert Decimal(n)[..|Decimal(n)| - 1] == Decimal(n / 10);
    } else {
      assert Decimal(n)[..0] == "";
    }
  }

  lemma LabelsDistinct(v: Json, i: nat, j: nat)
    requires UniqueKeys(v) && i < |Children(v)| && j < |Children(v)| && Label(v, i) == Label(v, j)
    ensures i == j
  {
    if !v.Object? { DecimalReads(i); DecimalReads(j); }
  }

  /** The path of a leaf, after the parts the walk started with. */
  predicate FoundAt(v: Json, parts: seq<string>, leaf: Leaf) {
    && parts <= leaf.path
    && Follow(v, leaf.path[|parts|..]) == Some(leaf.value)
    && leaf.value.Scalar?
    && leaf.name == (if leaf.path == [] then None else Some(leaf.path[|leaf.path| - 1]))
  }

  /** A leaf below child i of v. */
  predicate FoundBelow(v: Json, parts: seq<string>, i: nat, leaf: Leaf)
    requires i < |Children(v)|
  {
    FoundAt(Children(v)[i], parts + [Label(v, i)], leaf)
  }

  lemma BelowIsAt(v: Json, parts: seq<string>, i: nat, leaf: Leaf)
    requires UniqueKeys(v) && i < |Children(v)| && FoundBelow(v, parts, i, leaf)
    ensures FoundAt(v, parts, leaf)
  {
    var rest := leaf.path[|parts|..];
    assert rest[0] == Label(v, i) && rest[1..] == leaf.path[|parts| + 1..];
    var j := FindLabel(v, rest[0], |Children(v)|).value;
    LabelsDistinct(v, i, j);
  }

  lemma AtIsBelow(v: Json, parts: seq<string>, leaf: Leaf) returns (i: nat)
    requires FoundAt(v, parts, leaf) && !v.Scalar?
    ensures i < |Children(v)| && FoundBelow(v, parts, i, leaf)
  {
    var rest := leaf.path[|parts|..];
    assert rest != [];
    i := FindLabel(v, rest[0], |Children(v)|).value;
    assert leaf.path[..|parts| + 1] == parts + [Label(v, i)];
    assert rest[1..] == leaf.path[|parts| + 1..];
  }

  /** The walk emits exactly the leaves of the tree, each with a path that leads back to it. */
  lemma {:induction false} WalkFinds(v: Json, parts: seq<string>, leaf: Leaf)
    requires UniqueKeys(v)
    ensures leaf in Walk(v, parts) <==> FoundAt(v, parts, leaf)
    decreases v, |Children(v)| + 1
  {
    if v.Scalar? {
      if leaf in Walk(v, parts) { assert leaf.path[|parts|..] == []; }
      if FoundAt(v, parts, leaf) {
        assert Children(v) == [];
        assert leaf.path[|parts|..] == [] && leaf.path == parts;
      }
    } else {
      WalkChildrenFinds(v, |Children(v)|, parts, leaf);
      if FoundAt(v, parts, leaf) { var i := AtIsBelow(v, parts, leaf); }
      if i :| 0 <= i < |Children(v)| && FoundBelow(v, parts, i, leaf) { BelowIsAt(v, parts, i, leaf); }
    }
  }

  lemma {:induction false} WalkChildrenFinds(v: Json, n: nat, parts: seq<string>, leaf: Leaf)
    requires UniqueKeys(v) && n <= |Children(v)|
    ensures leaf in WalkChildren(v, n, parts) <==> exists i :: 0 <= i < n && FoundBelow(v, parts, i, leaf)
    decreases v, n
  {
    if n > 0 {
      var child, below := Children(v)[n - 1], parts + [Label(v, n - 1)];
      WalkChildrenFinds(v, n - 1, parts, leaf);
      WalkFinds(child, below, leaf);
      assert leaf in Walk(child, below) <==> FoundBelow(v, parts, n - 1, leaf);
      assert WalkChildren(v, n, parts) == WalkChildren(v, n - 1, parts) + Walk(child, below);
      hide FoundAt, Walk, FoundBelow, WalkChildren, Label, UniqueKeys;
    }
  }

  predicate DistinctPaths(leaves: seq<Leaf>) {
    forall i, j :: 0 <= i < j < |leaves| ==> leaves[i].path != leaves[j].path
  }

  predicate Under(leaves: seq<Leaf>, prefix: seq<string>) {
    forall i :: 0 <= i < |leaves| ==> prefix <= leaves[i].path
  }

  /** And each of them once: no two emitted paths are equal. */
  lemma {:induction false} WalkOnce(v: Json, parts: seq<string>)
    requires UniqueKeys(v)
    ensures DistinctPaths(Walk(v, parts)) && Under(Walk(v, parts), parts)
    decreases v, |Children(v)| + 1
  {
    if !v.Scalar? { WalkChildrenOnce(v, |Children(v)|, parts); }
  }

  /** The child a path under parts goes through is among the first n. */
  predicate Through(v: Json, n: nat, parts: seq<string>, path: seq<string>)
    requires n <= |Children(v)|
  {
    |path| > |parts| && parts <= path && exists i :: 0 <= i < n && Label(v, i) == path[|parts|]
  }

  lemma {:induction false} WalkChildrenOnce(v: Json, n: nat, parts: seq<string>)
    requires UniqueKeys(v) && n <= |Children(v)|
    ensures DistinctPaths(WalkChildren(v, n, parts))
    ensures forall i :: 0 <= i < |WalkChildren(v, n, parts)| ==> Through(v, n, parts, WalkChildren(v, n, parts)[i].path)
    decreases v, n
  {
    if n > 0 {
      var front, step := WalkChildren(v, n - 1, parts), Label(v, n - 1);
      var last := Walk(Children(v)[n - 1], parts + [step]);
      WalkChildrenOnce(v, n - 1, parts);
      WalkOnce(Children(v)[n - 1], parts + [step]);
      forall i, j | 0 <= i < |front| && 0 <= j < |last| ensures front[i].path != last[j].path {
        assert (parts + [step])[|parts|] == step == last[j].path[|parts|];
        var k :| 0 <= k < n - 1 && Label(v, k) == front[i].path[|parts|];
        if front[i].path == last[j].path { LabelsDistinct(v, k, n - 1); }
      }
      forall j | 0 <= j < |last| ensures Through(v, n, parts, last[j].path) {
        assert (parts + [step])[|parts|] == step;
      }
    }
  }

  // ---- pointers ----

  function EscapeTilde(s: string): string {
    if s == "" then "" else (if s[0] == '~' then "~0" else [s[0]]) + EscapeTilde(s[1..])
  }

  function EscapeSlash(s: string): string {
    if s == "" then "" else (if s[0] == '/' then "~1" else [s[0]]) + EscapeSlash(s[1..])
  }

  /** part.replace("~", "~0").replace("/", "~1") */
  function Escape(s: string): string {
    EscapeSlash(EscapeTilde(s))
  }

  function Join(parts: seq<string>): string {
    if parts == [] then "" else if |parts| == 1 then parts[0] else parts[0] + "/" + Join(parts[1..])
  }

  function EscapeAll(parts: seq<string>): (r: seq<string>)
    ensures |r| == |parts| && forall i :: 0 <= i < |r| ==> r[i] == Escape(parts[i])
  {
    seq(|parts|, i requires 0 <= i < |parts| => Escape(parts[i]))
  }

  /** _pointer */
  function Pointer(parts: seq<string>): string {
    "/" + Join(EscapeAll(parts))
  }

  /** Section 4 of RFC 6901: first every ~1 becomes /, then every ~0 becomes ~. */
  function Unescape(s: string, code: char, plain: char): string {
    if |s| < 2 then s
    else if s[0] == '~' && s[1] == code then [plain] + Unescape(s[2..], code, plain)
    else [s[0]] + Unescape(s[1..], code, plain)
  }

  function DecodeToken(s: string): string {
    Unescape(Unescape(s, '1', '/'), '0', '~')
  }

  function Split(s: string): (r: seq<string>)
    ensures r != []
  {
    if s == "" then [""]
    else if s[0] == '/' then [""] + Split(s[1..])
    else
      var rest := Split(s[1..]);
      [[s[0]] + rest[0]] + rest[1..]
  }

  function DecodeAll(tokens: seq<string>): (r: seq<string>)
    ensures |r| == |tokens| && forall i :: 0 <= i < |r| ==> r[i] == DecodeToken(tokens[i])
  {
    seq(|tokens|, i requires 0 <= i < |tokens| => DecodeToken(tokens[i]))
  }

  /** The reference tokens of a pointer; the empty pointer has none, any other starts with a slash. */
  function Decode(pointer: string): Option<seq<string>> {
    if pointer == "" then Some([])
    else if pointer[0] != '/' then None
    else Some(DecodeAll(Split(pointer[1..])))
  }

  predicate NoSlash(s: string) {
    forall i :: 0 <= i < |s| ==> s[i] != '/'
  }

  lemma {:induction false} EscapedHasNoSlash(s: string)
    ensures NoSlash(EscapeSlash(s))
  {
    if s != "" { EscapedHasNoSlash(s[1..]); }
  }

  lemma UnescapePair(s: string, code: char, plain: char)
    requires |s| >= 2 && s[0] == '~' && s[1] == code
    ensures Unescape(s, code, plain) == [plain] + Unescape(s[2..], code, plain)
  {}

  lemma UnescapePlain(s: string, code: char, plain: char)
    requires s != "" && (s[0] != '~' || (|s| >= 2 && s[1] != code))
    ensures Unescape(s, code, plain) == [s[0]] + Unescape(s[1..], code, plain)
  {}

  /** Undoing the slashes gives the tilde-escaped text back. */
  lemma {:induction false} UnescapeSlash(s: string)
    ensures Unescape(EscapeSlash(EscapeTilde(s)), '1', '/') == EscapeTilde(s)
  {
    if s != "" {
      UnescapeSlash(s[1..]);
      var rest := EscapeSlash(EscapeTilde(s[1..]));
      if s[0] == '~' {
        var t := EscapeTilde(s);
        assert t == "~0" + EscapeTilde(s[1..]) && t[1..] == "0" + EscapeTilde(s[1..]) && t[1..][1..] == EscapeTilde(s[1..]);
        var e := EscapeSlash(t);
        assert EscapeSlash(t[1..]) == "0" + rest;
        assert e == "~0" + rest && e[1..] == "0" + rest && e[1..][1..] == rest;
        UnescapePlain(e, '1', '/');
        UnescapePlain(e[1..], '1', '/');
      } else {
        var t := EscapeTilde(s);
        assert t == [s[0]] + EscapeTilde(s[1..]) && t[1..] == EscapeTilde(s[1..]);
        if s[0] == '/' {
          var e := "~1" + rest;
          assert EscapeSlash(t) == e && e[2..] == rest;
          UnescapePair(e, '1', '/');
        } else {
          var e := [s[0]] + rest;
          assert EscapeSlash(t) == e && e[1..] == rest;
          UnescapePlain(e, '1', '/');
        }
      }
    }
  }

  lemma {:induction false} UnescapeTilde(s: string)
    ensures Unescape(EscapeTilde(s), '0', '~') == s
  {
    if s != "" {
      UnescapeTilde(s[1..]);
      var rest := EscapeTilde(s[1..]);
      if s[0] == '~' {
        var e := "~0" + rest;
        assert EscapeTilde(s) == e && e[2..] == rest;
        UnescapePair(e, '0', '~');
      } else {
        var e := [s[0]] + rest;
        assert EscapeTilde(s) == e && e[1..] == rest;
        UnescapePlain(e, '0', '~');
      }
      assert s == [s[0]] + s[1..];
    }
  }

  lemma {:induction false} SplitToken(t: string, rest: string)
    requires NoSlash(t)
    ensures Split(t + "/" + rest) == [t] + Split(rest)
  {
    var s := t + "/" + rest;
    if t == "" {
      assert s[1..] == rest;
    } else {
      assert NoSlash(t[1..]) && s[1..] == t[1..] + "/" + rest && s[0] == t[0];
      SplitToken(t[1..], rest);
      assert [t[0]] + t[1..] == t;
    }
  }

  lemma {:induction false} SplitLast(t: string)
    requires NoSlash(t)
    ensures Split(t) == [t]
  {
    if t != "" {
      SplitLast(t[1..]);
      assert [t[0]] + t[1..] == t;
    }
  }

  lemma {:induction false} SplitJoin(tokens: seq<string>)
    requires tokens != [] && forall i :: 0 <= i < |tokens| ==> NoSlash(tokens[i])
    ensures Split(Join(tokens)) == tokens
  {
    if |tokens| == 1 {
      SplitLast(tokens[0]);
    } else {
      SplitJoin(tokens[1..]);
      SplitToken(tokens[0], Join(tokens[1..]));
    }
  }

  /** Decoding a location returns the path, for every path but the empty one: the root itself is written as
      the location of the member with the empty name. */
  lemma PointerRoundTrip(parts: seq<string>)
    ensures Decode(Pointer(parts)) == Some(parts) <==> parts != []
    ensures parts == [] ==> Pointer(parts) == Pointer([""])
  {
    var tokens := EscapeAll(parts);
    var pointer := Pointer(parts);
    assert pointer[0] == '/' && pointer[1..] == Join(tokens);
    forall i | 0 <= i < |tokens| ensures NoSlash(tokens[i]) && DecodeToken(tokens[i]) == parts[i] {
      EscapedHasNoSlash(EscapeTilde(parts[i]));
      UnescapeSlash(parts[i]);
      UnescapeTilde(parts[i]);
    }
    if parts != [] {
      SplitJoin(tokens);
      assert DecodeAll(tokens) == parts;
    } else {
      assert EscapeAll([""]) == [""];
    }
  }

  /** Under a container root every leaf has its own location. */
  lemma LocationsDistinct(v: Json, i: nat, j: nat)
    requires UniqueKeys(v) && !v.Scalar? && i < j < |Walk(v, [])|
    ensures Pointer(Walk(v, [])[i].path) != Pointer(Walk(v, [])[j].path)
    ensures Decode(Pointer(Walk(v, [])[i].path)) == Some(Walk(v, [])[i].path)
  {
    WalkOnce(v, []);
    WalkChildrenOnce(v, |Children(v)|, []);
    var p, q := Walk(v, [])[i].path, Walk(v, [])[j].path;
    assert Through(v, |Children(v)|, [], p) && Through(v, |Children(v)|, [], q);
    PointerRoundTrip(p);
    PointerRoundTrip(q);
  }
}
