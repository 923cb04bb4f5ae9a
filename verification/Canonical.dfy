/** One representation for content that must not depend on insertion order (canonical_value in integrity.py).
    enc stands for the JSON bytes of a canonical value, num for the canonical spelling of a number. */
module Canonical {
  import opened Prelude
  import opened Sorting

  /** The Python values canonical_value accepts. Keys are given by their str(); numbers by their canonical
      decimal text; a set by its elements in iteration order; fields are those of a dataclass. */
  datatype Value =
    | None_
    | Text(text: string)
    | Flag(flag: bool)
    | Number(spelling: string)
    | Moment(iso: string)
    | EnumMember(inner: Value)
    | Mapping(items: seq<Item>)
    | Listing(elements: seq<Value>)
    | Unordered(members: seq<Value>)
    | Fields(fields: seq<Item>)

  datatype Item = Item(key: string, value: Value)

  /** JSON-safe values; the entries of an object are kept sorted by key. */
  datatype Canon =
    | Null
    | Str(str: string)
    | Bool(bool_: bool)
    | Object(entries: seq<Entry>)
    | Array(canons: seq<Canon>)

  datatype Entry = Entry(key: string, canon: Canon)

  type Encoder = Canon -> string

  ghost predicate Injective(enc: Encoder) {
    forall a, b :: enc(a) == enc(b) ==> a == b
  }

  // ---- dictionaries ----

  predicate KeyBefore(a: Entry, b: Entry) {
    StrLess(a.key, b.key)
  }

  /** d[key] = canon, on entries sorted by key. */
  function Put(d: seq<Entry>, e: Entry): seq<Entry> {
    if d == [] then [e]
    else if d[0].key == e.key then [e] + d[1..]
    else if StrLess(e.key, d[0].key) then [e] + d
    else [d[0]] + Put(d[1..], e)
  }

  /** A dict comprehension over entries in order: a later value replaces an earlier one. */
  function Build(es: seq<Entry>): seq<Entry> {
    if es == [] then [] else Put(Build(es[..|es| - 1]), es[|es| - 1])
  }

  /** Python's order of the canonical bytes. */
  function ByBytes(enc: Encoder): (Canon, Canon) -> bool {
    (a: Canon, b: Canon) => StrLess(enc(a), enc(b))
  }

  // ---- canonical_value ----

  function CanonicalValue(enc: Encoder, v: Value): Canon
    decreases v
  {
    match v
    case None_ => Null
    case Text(s) => Str(s)
    case Flag(b) => Bool(b)
    case Number(s) => Object([Entry("$number", Str(s))])
    case Moment(s) => Object([Entry("$datetime", Str(s))])
    case EnumMember(inner) => CanonicalValue(enc, inner)
    case Mapping(items) => Object(Build(Sort(KeyBefore, seq(|items|, i requires 0 <= i < |items| => Entry(items[i].key, CanonicalValue(enc, items[i].value))))))
    case Listing(elements) => Array(seq(|elements|, i requires 0 <= i < |elements| => CanonicalValue(enc, elements[i])))
    case Unordered(members) => Array(Sort(ByBytes(enc), seq(|members|, i requires 0 <= i < |members| => CanonicalValue(enc, members[i]))))
    case Fields(fields) => Object(Build(seq(|fields|, i requires 0 <= i < |fields| => Entry(fields[i].key, CanonicalValue(enc, fields[i].value)))))
  }

  function Canonicals(enc: Encoder, vs: seq<Value>): (r: seq<Canon>)
    ensures |r| == |vs| && forall i :: 0 <= i < |r| ==> r[i] == CanonicalValue(enc, vs[i])
  {
    seq(|vs|, i requires 0 <= i < |vs| => CanonicalValue(enc, vs[i]))
  }

  function Entries(enc: Encoder, items: seq<Item>): (r: seq<Entry>)
    ensures |r| == |items| && forall i :: 0 <= i < |r| ==> r[i] == Entry(items[i].key, CanonicalValue(enc, items[i].value))
  {
    seq(|items|, i requires 0 <= i < |items| => Entry(items[i].key, CanonicalValue(enc, items[i].value)))
  }

  lemma CanonicalCases(enc: Encoder, v: Value)
    ensures v.Mapping? ==> CanonicalValue(enc, v) == Object(Build(Sort(KeyBefore, Entries(enc, v.items))))
    ensures v.Listing? ==> CanonicalValue(enc, v) == Array(Canonicals(enc, v.elements))
    ensures v.Unordered? ==> CanonicalValue(enc, v) == Array(Sort(ByBytes(enc), Canonicals(enc, v.members)))
    ensures v.Fields? ==> CanonicalValue(enc, v) == Object(Build(Entries(enc, v.fields)))
  {
    match v
    case Mapping(items) =>
      assert seq(|items|, i requires 0 <= i < |items| => Entry(items[i].key, CanonicalValue(enc, items[i].value))) == Entries(enc, items);
    case Listing(elements) =>
      assert seq(|elements|, i requires 0 <= i < |elements| => CanonicalValue(enc, elements[i])) == Canonicals(enc, elements);
    case Unordered(members) =>
      assert seq(|members|, i requires 0 <= i < |members| => CanonicalValue(enc, members[i])) == Canonicals(enc, members);
    case Fields(fields) =>
      assert seq(|fields|, i requires 0 <= i < |fields| => Entry(fields[i].key, CanonicalValue(enc, fields[i].value))) == Entries(enc, fields);
    case _ =>
  }

  // ---- what a dictionary keeps ----

  predicate KeySorted(d: seq<Entry>) {
    forall i, j :: 0 <= i < j < |d| ==> StrLess(d[i].key, d[j].key)
  }

  /** The last entry with a key. */
  function Last(es: seq<Entry>, key: string): Option<Entry> {
    if es == [] then None
    else if es[|es| - 1].key == key then Some(es[|es| - 1])
    else Last(es[..|es| - 1], key)
  }

  lemma {:induction false} PutSorted(d: seq<Entry>, e: Entry)
    requires KeySorted(d)
    ensures KeySorted(Put(d, e))
    ensures forall f :: f in Put(d, e) <==> f == e || (f in d && f.key != e.key)
  {
    if d == [] {
    } else if d[0].key == e.key {
      assert d == [d[0]] + d[1..];
      forall f | f in d[1..] ensures f.key != e.key {
        var i :| 0 < i < |d| && d[i] == f;
        StrIrreflexive(e.key);
      }
    } else if StrLess(e.key, d[0].key) {
      forall i | 0 <= i < |d| ensures StrLess(e.key, d[i].key) && d[i].key != e.key {
        if i > 0 { StrTransitive(e.key, d[0].key, d[i].key); }
        StrIrreflexive(e.key);
      }
    } else {
      StrTotal(e.key, d[0].key);
      assert d == [d[0]] + d[1..];
      PutSorted(d[1..], e);
      forall f | f in Put(d[1..], e) ensures StrLess(d[0].key, f.key) {
        if f in d[1..] { var i :| 0 < i < |d| && d[i] == f; }
      }
    }
  }

  /** A dictionary holds, for every key, the last entry with that key. */
  lemma {:induction false} BuildKeepsLast(es: seq<Entry>)
    ensures KeySorted(Build(es))
    ensures forall f :: f in Build(es) <==> Last(es, f.key) == Some(f)
  {
    if es != [] {
      var n := |es| - 1;
      BuildKeepsLast(es[..n]);
      PutSorted(Build(es[..n]), es[n]);
    }
  }

  lemma FirstEntry(c: seq<Entry>, d: seq<Entry>)
    requires KeySorted(c) && KeySorted(d) && c != [] && d != []
    requires c[0] in d && d[0] in c
    ensures c[0] == d[0]
  {
    var i :| 0 <= i < |d| && d[i] == c[0];
    var j :| 0 <= j < |c| && c[j] == d[0];
    if StrLess(d[0].key, c[0].key) && StrLess(c[0].key, d[0].key) {
      StrTransitive(c[0].key, d[0].key, c[0].key);
    }
    StrIrreflexive(c[0].key);
  }

  /** Two sorted dictionaries with the same entries are the same. */
  lemma {:induction false} SortedDictUnique(c: seq<Entry>, d: seq<Entry>)
    requires KeySorted(c) && KeySorted(d) && forall f :: f in c <==> f in d
    ensures c == d
  {
    assert d != [] ==> d[0] in c;
    if c != [] {
      assert c[0] in d && d[0] in c;
      FirstEntry(c, d);
      TailEntries(c, d);
      TailEntries(d, c);
      hide StrLess;
      SortedDictUnique(c[1..], d[1..]);
      assert c == [c[0]] + c[1..] && d == [d[0]] + d[1..];
    }
  }

  lemma TailEntries(c: seq<Entry>, d: seq<Entry>)
    requires KeySorted(c) && KeySorted(d) && c != [] && d != [] && c[0] == d[0] && forall f :: f in c <==> f in d
    ensures forall f :: f in c[1..] ==> f in d[1..]
  {
    forall f | f in c[1..] ensures f in d[1..] {
      var i :| 0 < i < |c| && c[i] == f;
      StrIrreflexive(f.key);
      assert f in d;
      var j :| 0 <= j < |d| && d[j] == f;
      assert j > 0;
      assert d[1..][j - 1] == f;
    }
  }

  // ---- sorting first changes nothing ----

  lemma {:induction false} LastInsert(e: Entry, s: seq<Entry>, key: string)
    ensures e.key != key ==> Last(Insert(KeyBefore, e, s), key) == Last(s, key)
    ensures e.key == key ==> Last(Insert(KeyBefore, e, s), key) == Some(e)
  {
    if s != [] {
      var n := |s| - 1;
      if KeyBefore(e, s[n]) {
        LastInsert(e, s[..n], key);
        var r := Insert(KeyBefore, e, s[..n]) + [s[n]];
        assert r[..|r| - 1] == Insert(KeyBefore, e, s[..n]);
        StrIrreflexive(e.key);
      } else {
        assert (s + [e])[..|s|] == s;
      }
    } else {
      assert [e][..0] == [];
    }
  }

  /** The stable sort keeps, for every key, which entry comes last. */
  lemma {:induction false} LastSort(es: seq<Entry>, key: string)
    ensures Last(Sort(KeyBefore, es), key) == Last(es, key)
  {
    if es != [] {
      var n := |es| - 1;
      LastSort(es[..n], key);
      LastInsert(es[n], Sort(KeyBefore, es[..n]), key);
    }
  }

  /** Hence the sort in the comprehension has no effect on the resulting dictionary. */
  lemma BuildSorted(es: seq<Entry>)
    ensures Build(Sort(KeyBefore, es)) == Build(es)
  {
    BuildKeepsLast(es);
    BuildKeepsLast(Sort(KeyBefore, es));
    forall f ensures f in Build(Sort(KeyBefore, es)) <==> f in Build(es) { LastSort(es, f.key); }
    SortedDictUnique(Build(Sort(KeyBefore, es)), Build(es));
  }

  // ---- idempotence ----

  /** A canonical value as a Python value again. */
  function Embed(c: Canon): Value
    decreases c
  {
    match c
    case Null => None_
    case Str(s) => Text(s)
    case Bool(b) => Flag(b)
    case Object(entries) => Mapping(seq(|entries|, i requires 0 <= i < |entries| => Item(entries[i].key, Embed(entries[i].canon))))
    case Array(canons) => Listing(seq(|canons|, i requires 0 <= i < |canons| => Embed(canons[i])))
  }

  /** Objects are sorted dictionaries, at every depth. */
  predicate Normal(c: Canon)
    decreases c
  {
    match c
    case Object(entries) => KeySorted(entries) && forall i :: 0 <= i < |entries| ==> Normal(entries[i].canon)
    case Array(canons) => forall i :: 0 <= i < |canons| ==> Normal(canons[i])
    case _ => true
  }

  lemma {:induction false} LastSingle(d: seq<Entry>, e: Entry)
    requires KeySorted(d)
    ensures Last(d, e.key) == Some(e) <==> e in d
  {
    if d != [] {
      var n := |d| - 1;
      assert d == d[..n] + [d[n]];
      LastSingle(d[..n], e);
      if e in d[..n] {
        var i :| 0 <= i < n && d[i] == e;
        assert StrLess(d[i].key, d[n].key);
        StrIrreflexive(d[n].key);
      }
    }
  }

  lemma BuildOfSorted(d: seq<Entry>)
    requires KeySorted(d)
    ensures Build(d) == d
  {
    BuildKeepsLast(d);
    forall e ensures e in Build(d) <==> e in d { LastSingle(d, e); }
    SortedDictUnique(Build(d), d);
  }

  lemma {:induction false} LastIsMember(es: seq<Entry>, key: string)
    ensures Last(es, key).Some? ==> Last(es, key).value in es
  {
    if es != [] { LastIsMember(es[..|es| - 1], key); }
  }

  lemma BuildNormal(es: seq<Entry>)
    requires forall i :: 0 <= i < |es| ==> Normal(es[i].canon)
    ensures Normal(Object(Build(es)))
  {
    BuildKeepsLast(es);
    var d := Build(es);
    forall i | 0 <= i < |d| ensures Normal(d[i].canon) {
      assert d[i] in d;
      LastIsMember(es, d[i].key);
    }
  }

  lemma {:induction false} CanonicalNormal(enc: Encoder, v: Value)
    ensures Normal(CanonicalValue(enc, v))
    decreases v
  {
    hide Build, StrLess, Sort;
    CanonicalCases(enc, v);
    match v
    case EnumMember(inner) => CanonicalNormal(enc, inner);
    case Mapping(items) =>
      forall i | 0 <= i < |items| ensures Normal(Entries(enc, items)[i].canon) { CanonicalNormal(enc, items[i].value); }
      BuildSorted(Entries(enc, items));
      BuildNormal(Entries(enc, items));
    case Listing(elements) =>
      forall i | 0 <= i < |elements| ensures Normal(Canonicals(enc, elements)[i]) { CanonicalNormal(enc, elements[i]); }
    case Unordered(members) =>
      forall i | 0 <= i < |members| ensures Normal(Canonicals(enc, members)[i]) { CanonicalNormal(enc, members[i]); }
      SameElements(Sort(ByBytes(enc), Canonicals(enc, members)), Canonicals(enc, members));
      forall i | 0 <= i < |Sort(ByBytes(enc), Canonicals(enc, members))| ensures Normal(Sort(ByBytes(enc), Canonicals(enc, members))[i]) {
        assert Sort(ByBytes(enc), Canonicals(enc, members))[i] in Canonicals(enc, members);
      }
    case Fields(fields) =>
      forall i | 0 <= i < |fields| ensures Normal(Entries(enc, fields)[i].canon) { CanonicalNormal(enc, fields[i].value); }
      BuildNormal(Entries(enc, fields));
    case _ =>
  }

  lemma {:induction false} CanonicalOfNormal(enc: Encoder, c: Canon)
    requires Normal(c)
    ensures CanonicalValue(enc, Embed(c)) == c
    decreases c
  {
    hide Sort, Build, StrLess;
    CanonicalCases(enc, Embed(c));
    match c
    case Object(entries) =>
      forall i | 0 <= i < |entries| ensures CanonicalValue(enc, Embed(entries[i].canon)) == entries[i].canon { CanonicalOfNormal(enc, entries[i].canon); }
      assert Entries(enc, Embed(c).items) == entries;
      BuildSorted(entries);
      BuildOfSorted(entries);
    case Array(canons) =>
      forall i | 0 <= i < |canons| ensures CanonicalValue(enc, Embed(canons[i])) == canons[i] { CanonicalOfNormal(enc, canons[i]); }
      assert Canonicals(enc, Embed(c).elements) == canons;
    case _ =>
  }

  /** Canonicalising twice is canonicalising once, for every value and every encoding. */
  lemma CanonicalIdempotent(enc: Encoder, v: Value)
    ensures CanonicalValue(enc, Embed(CanonicalValue(enc, v))) == CanonicalValue(enc, v)
  {
    CanonicalNormal(enc, v);
    CanonicalOfNormal(enc, CanonicalValue(enc, v));
  }

  // ---- independence of order ----

  lemma ByBytesTotal(enc: Encoder, cs: seq<Canon>)
    requires Injective(enc)
    ensures StrictTotal(ByBytes(enc), cs)
  {
    var less := ByBytes(enc);
    forall a | a in cs ensures !less(a, a) { StrIrreflexive(enc(a)); }
    forall a, b, c | a in cs && b in cs && c in cs && less(a, b) && less(b, c) ensures less(a, c) { StrTransitive(enc(a), enc(b), enc(c)); }
    forall a, b | a in cs && b in cs && a != b ensures less(a, b) || less(b, a) { StrTotal(enc(a), enc(b)); }
  }

  /** A set: only the multiset of the canonical elements matters, so neither the iteration order nor any
      rearrangement inside the elements does. */
  lemma SetForgetsOrder(enc: Encoder, xs: seq<Value>, ys: seq<Value>)
    requires Injective(enc) && multiset(Canonicals(enc, xs)) == multiset(Canonicals(enc, ys))
    ensures CanonicalValue(enc, Unordered(xs)) == CanonicalValue(enc, Unordered(ys))
  {
    CanonicalCases(enc, Unordered(xs));
    CanonicalCases(enc, Unordered(ys));
    ByBytesTotal(enc, Canonicals(enc, xs));
    SortForgetsOrder(ByBytes(enc), Canonicals(enc, xs), Canonicals(enc, ys));
  }

  /** Entries with one key agree on the value. */
  predicate Unambiguous(es: seq<Entry>) {
    forall i, j :: 0 <= i < |es| && 0 <= j < |es| && es[i].key == es[j].key ==> es[i] == es[j]
  }

  lemma {:induction false} LastExists(es: seq<Entry>, i: nat)
    requires i < |es|
    ensures Last(es, es[i].key).Some? && Last(es, es[i].key).value in es && Last(es, es[i].key).value.key == es[i].key
  {
    var n := |es| - 1;
    if es[n].key != es[i].key { LastExists(es[..n], i); }
  }

  lemma UnambiguousBuild(es: seq<Entry>)
    requires Unambiguous(es)
    ensures forall e :: e in Build(es) <==> e in es
  {
    BuildKeepsLast(es);
    forall e ensures e in Build(es) <==> e in es {
      LastIsMember(es, e.key);
      if e in es {
        var i :| 0 <= i < |es| && es[i] == e;
        LastExists(es, i);
        var j :| 0 <= j < |es| && es[j] == Last(es, e.key).value;
      }
    }
  }

  /** A mapping: if no key is given two different values, the order of its items does not matter. */
  lemma MappingForgetsOrder(enc: Encoder, xs: seq<Item>, ys: seq<Item>)
    requires multiset(Entries(enc, xs)) == multiset(Entries(enc, ys)) && Unambiguous(Entries(enc, xs))
    ensures CanonicalValue(enc, Mapping(xs)) == CanonicalValue(enc, Mapping(ys))
  {
    hide Build, StrLess, Sort, Last, CanonicalValue;
    var es, fs := Entries(enc, xs), Entries(enc, ys);
    CanonicalCases(enc, Mapping(xs));
    CanonicalCases(enc, Mapping(ys));
    BuildSorted(es);
    BuildSorted(fs);
    SameElements(es, fs);
    assert Unambiguous(fs) by {
      forall i, j | 0 <= i < |fs| && 0 <= j < |fs| && fs[i].key == fs[j].key ensures fs[i] == fs[j] {
        assert fs[i] in es && fs[j] in es;
      }
    }
    UnambiguousBuild(es);
    UnambiguousBuild(fs);
    BuildKeepsLast(es);
    BuildKeepsLast(fs);
    SortedDictUnique(Build(es), Build(fs));
  }

  /** xs with item i moved to the end. */
  function Demote(xs: seq<Item>, i: nat): (r: seq<Item>)
    requires i < |xs|
    ensures multiset(r) == multiset(xs)
  {
    assert xs == xs[..i] + [xs[i]] + xs[i + 1..];
    xs[..i] + xs[i + 1..] + [xs[i]]
  }

  lemma DemotedWins(enc: Encoder, xs: seq<Item>, i: nat)
    requires i < |xs|
    ensures CanonicalValue(enc, Mapping(Demote(xs, i))).Object?
    ensures Entry(xs[i].key, CanonicalValue(enc, xs[i].value)) in CanonicalValue(enc, Mapping(Demote(xs, i))).entries
    ensures KeySorted(CanonicalValue(enc, Mapping(Demote(xs, i))).entries)
  {
    var ys := Demote(xs, i);
    var es := Entries(enc, ys);
    CanonicalCases(enc, Mapping(ys));
    BuildSorted(es);
    BuildKeepsLast(es);
    assert es[|es| - 1] == Entry(xs[i].key, CanonicalValue(enc, xs[i].value));
  }

  /** And only then. Distinct keys with one str() and different values make the result depend on insertion
      order, although the sort was meant to remove it. */
  lemma MappingOrderIff(enc: Encoder, xs: seq<Item>)
    ensures Unambiguous(Entries(enc, xs)) <==>
      forall ys, zs :: multiset(ys) == multiset(xs) && multiset(zs) == multiset(xs) ==>
        CanonicalValue(enc, Mapping(ys)) == CanonicalValue(enc, Mapping(zs))
  {
    if Unambiguous(Entries(enc, xs)) {
      forall ys, zs | multiset(ys) == multiset(xs) && multiset(zs) == multiset(xs)
        ensures CanonicalValue(enc, Mapping(ys)) == CanonicalValue(enc, Mapping(zs))
      {
        EntriesPermute(enc, xs, ys);
        EntriesPermute(enc, xs, zs);
        MappingForgetsOrder(enc, xs, ys);
        MappingForgetsOrder(enc, xs, zs);
      }
    } else {
      var es := Entries(enc, xs);
      var i, j :| 0 <= i < |es| && 0 <= j < |es| && es[i].key == es[j].key && es[i] != es[j];
      DemotedWins(enc, xs, i);
      DemotedWins(enc, xs, j);
      var d := CanonicalValue(enc, Mapping(Demote(xs, i)));
      if d == CanonicalValue(enc, Mapping(Demote(xs, j))) {
        OneEntryPerKey(d.entries, es[i], es[j]);
      }
    }
  }

  lemma OneEntryPerKey(d: seq<Entry>, e: Entry, f: Entry)
    requires KeySorted(d) && e in d && f in d && e.key == f.key
    ensures e == f
  {
    var i, j :| 0 <= i < |d| && 0 <= j < |d| && d[i] == e && d[j] == f;
    StrIrreflexive(e.key);
    assert !(i < j) && !(j < i);
  }

  lemma {:induction false} EntriesPermute(enc: Encoder, xs: seq<Item>, ys: seq<Item>)
    requires multiset(xs) == multiset(ys)
    ensures multiset(Entries(enc, xs)) == multiset(Entries(enc, ys))
    decreases |xs|
  {
    SameElements(xs, ys);
    if xs != [] {
      var n := |xs| - 1;
      assert xs[n] in ys;
      var i :| 0 <= i < |ys| && ys[i] == xs[n];
      WithoutOne(xs, ys, i);
      EntriesPermute(enc, xs[..n], ys[..i] + ys[i + 1..]);
      var es, fs := Entries(enc, xs), Entries(enc, ys);
      assert Entries(enc, xs[..n]) == es[..n] && Entries(enc, ys[..i] + ys[i + 1..]) == fs[..i] + fs[i + 1..];
      WithOne(es, fs, i);
    }
  }

  /** For instance the keys 1 and "1" of one mapping, in the two insertion orders. */
  lemma CollidingKeysExample(enc: Encoder)
    ensures CanonicalValue(enc, Mapping([Item("1", Text("a")), Item("1", Text("b"))])) == Object([Entry("1", Str("b"))])
    ensures CanonicalValue(enc, Mapping([Item("1", Text("b")), Item("1", Text("a"))])) == Object([Entry("1", Str("a"))])
  {
    LaterWins(enc, "1", "a", "b");
    LaterWins(enc, "1", "b", "a");
  }

  lemma LaterWins(enc: Encoder, key: string, first: string, second: string)
    ensures CanonicalValue(enc, Mapping([Item(key, Text(first)), Item(key, Text(second))])) == Object([Entry(key, Str(second))])
  {
    hide Sort, Build, StrLess, CanonicalValue;
    var items := [Item(key, Text(first)), Item(key, Text(second))];
    var es := [Entry(key, Str(first)), Entry(key, Str(second))];
    TextCanonical(enc, first);
    TextCanonical(enc, second);
    CanonicalCases(enc, Mapping(items));
    assert Entries(enc, items) == es;
    BuildSorted(es);
    BuildPair(es[0], es[1]);
  }

  lemma TextCanonical(enc: Encoder, s: string)
    ensures CanonicalValue(enc, Text(s)) == Str(s)
  {}

  lemma BuildPair(e: Entry, f: Entry)
    requires e.key == f.key
    ensures Build([e, f]) == [f]
  {
    assert [e, f][..1] == [e] && [e][..0] == [];
    assert Build([e]) == [e];
  }
}
