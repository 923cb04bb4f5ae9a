/** Which values have one canonical form: an equivalence of values that does not mention the canonical form. */
module Equivalence {
  import opened Prelude
  import opened Sorting
  import opened Canonical

  /** An enum member counts as its value. */
  function Plain(v: Value): (r: Value)
    ensures !r.EnumMember? && (r == v || r < v)
    decreases v
  {
    if v.EnumMember? then Plain(v.inner) else v
  }

  /** The one-entry mappings that spell a number or a moment. */
  predicate Tagged(items: seq<Item>, tag: string) {
    && items != [] && (forall i :: 0 <= i < |items| ==> items[i].key == tag)
    && Plain(items[|items| - 1].value).Text?
  }

  function TaggedText(items: seq<Item>, tag: string): string
    requires Tagged(items, tag)
  {
    Plain(items[|items| - 1].value).text
  }

  const NUMBER := "$number"
  const MOMENT := "$datetime"

  predicate IsNumber(v: Value, spelling: string) {
    var p := Plain(v);
    (p.Number? && p.spelling == spelling) || (IsDict(v) && Tagged(DictItems(v), NUMBER) && TaggedText(DictItems(v), NUMBER) == spelling)
  }

  predicate IsMoment(v: Value, iso: string) {
    var p := Plain(v);
    (p.Moment? && p.iso == iso) || (IsDict(v) && Tagged(DictItems(v), MOMENT) && TaggedText(DictItems(v), MOMENT) == iso)
  }

  predicate IsDict(v: Value) {
    Plain(v).Mapping? || Plain(v).Fields?
  }

  function DictItems(v: Value): (r: seq<Item>)
    requires IsDict(v)
    ensures forall i :: 0 <= i < |r| ==> r[i].value < v
  {
    if Plain(v).Mapping? then Plain(v).items else Plain(v).fields
  }

  predicate IsLast(items: seq<Item>, i: nat)
    requires i < |items|
  {
    forall j :: i < j < |items| ==> items[j].key != items[i].key
  }

  predicate HasKey(items: seq<Item>, key: string) {
    exists i :: 0 <= i < |items| && items[i].key == key
  }

  /** The members of a list or set. */
  predicate IsCollection(v: Value) {
    Plain(v).Listing? || Plain(v).Unordered?
  }

  function Members(v: Value): (r: seq<Value>)
    requires IsCollection(v)
    ensures forall i :: 0 <= i < |r| ==> r[i] < v
  {
    if Plain(v).Listing? then Plain(v).elements else Plain(v).members
  }

  /** canonical_json_bytes of a value. */
  type Bytes = Value -> string

  predicate InByteOrder(bytes: Bytes, vs: seq<Value>) {
    forall i, j :: 0 <= i < j < |vs| ==> bytes(vs[i]) == bytes(vs[j]) || StrLess(bytes(vs[i]), bytes(vs[j]))
  }

  /** Two values mean the same: equal scalars, dictionaries with equivalent last values for the same keys, lists that
      are equivalent member by member, sets with the same members, each as often. A set is written as a list in
      byte order, so that it also means the same as that list. */
  ghost predicate Equivalent(bytes: Bytes, v: Value, w: Value)
    decreases v
  {
    var p, q := Plain(v), Plain(w);
    if p.None_? || q.None_? then p == q
    else if p.Text? || q.Text? then p == q
    else if p.Flag? || q.Flag? then p == q
    else if p.Number? then IsNumber(w, p.spelling)
    else if q.Number? then IsNumber(v, q.spelling)
    else if p.Moment? then IsMoment(w, p.iso)
    else if q.Moment? then IsMoment(v, q.iso)
    else if IsDict(v) && IsDict(w) then SameEntries(bytes, v, w)
    else if IsCollection(v) && IsCollection(w) then
      if p.Listing? && q.Listing? then
        |p.elements| == |q.elements| && forall i :: 0 <= i < |p.elements| ==> Equivalent(bytes, p.elements[i], q.elements[i])
      else
        && (p.Listing? ==> InByteOrder(bytes, p.elements)) && (q.Listing? ==> InByteOrder(bytes, q.elements))
        && SameMembers(bytes, Members(v), Members(w))
    else false
  }

  /** The same keys, and for each of them equivalent last values. */
  ghost predicate SameEntries(bytes: Bytes, v: Value, w: Value)
    requires IsDict(v) && IsDict(w)
    decreases v, 0
  {
    var xs, ys := DictItems(v), DictItems(w);
    && (forall i :: 0 <= i < |xs| ==> HasKey(ys, xs[i].key)) && (forall j :: 0 <= j < |ys| ==> HasKey(xs, ys[j].key))
    && forall i, j :: 0 <= i < |xs| && 0 <= j < |ys| && xs[i].key == ys[j].key && IsLast(xs, i) && IsLast(ys, j) ==>
         Equivalent(bytes, xs[i].value, ys[j].value)
  }

  /** The members can be paired off. */
  ghost predicate SameMembers(bytes: Bytes, xs: seq<Value>, ys: seq<Value>)
    decreases xs
  {
    if xs == [] then ys == []
    else
      exists j :: 0 <= j < |ys| && Equivalent(bytes, xs[|xs| - 1], ys[j]) && SameMembers(bytes, xs[..|xs| - 1], ys[..j] + ys[j + 1..])
  }

  // ---- the canonical form decides just this equivalence ----

  function BytesOf(enc: Encoder): Bytes {
    (v: Value) => enc(CanonicalValue(enc, v))
  }

  lemma {:induction false} CanonicalPlain(enc: Encoder, v: Value)
    ensures CanonicalValue(enc, v) == CanonicalValue(enc, Plain(v))
    decreases v
  {
    if v.EnumMember? { CanonicalPlain(enc, v.inner); }
  }

  /** Scalars keep their content. */
  lemma ScalarForm(enc: Encoder, v: Value)
    ensures CanonicalValue(enc, v) == Null <==> Plain(v) == None_
    ensures forall s :: CanonicalValue(enc, v) == Str(s) <==> Plain(v) == Text(s)
    ensures forall b :: CanonicalValue(enc, v) == Bool(b) <==> Plain(v) == Flag(b)
    ensures CanonicalValue(enc, v).Object? <==> IsDict(v) || Plain(v).Number? || Plain(v).Moment?
    ensures CanonicalValue(enc, v).Array? <==> IsCollection(v)
  {
    CanonicalPlain(enc, v);
    hide Sort, Build;
  }

  lemma DictForm(enc: Encoder, v: Value)
    requires IsDict(v)
    ensures CanonicalValue(enc, v) == Object(Build(Entries(enc, DictItems(v))))
  {
    hide Sort, Build, CanonicalValue;
    CanonicalPlain(enc, v);
    CanonicalCases(enc, Plain(v));
    BuildSorted(Entries(enc, DictItems(v)));
  }

  lemma {:induction false} LastAt(es: seq<Entry>, i: nat)
    requires i < |es| && forall j :: i < j < |es| ==> es[j].key != es[i].key
    ensures Last(es, es[i].key) == Some(es[i])
  {
    if i < |es| - 1 { LastAt(es[..|es| - 1], i); }
  }

  lemma {:induction false} LastFound(es: seq<Entry>, key: string) returns (i: nat)
    requires Last(es, key).Some?
    ensures i < |es| && es[i].key == key && Last(es, key) == Some(es[i]) && forall j :: i < j < |es| ==> es[j].key != key
  {
    var n := |es| - 1;
    if es[n].key == key { i := n; } else { i := LastFound(es[..n], key); }
  }

  lemma {:induction false} LastWhenHas(es: seq<Entry>, i: nat)
    requires i < |es|
    ensures Last(es, es[i].key).Some? && Last(es, es[i].key).value.key == es[i].key
  {
    LastExists(es, i);
  }

  /** A dictionary with one entry is what a mapping with that one key becomes. */
  lemma OneEntry(es: seq<Entry>, e: Entry)
    ensures Build(es) == [e] <==> es != [] && es[|es| - 1] == e && forall i :: 0 <= i < |es| ==> es[i].key == e.key
  {
    BuildKeepsLast(es);
    if Build(es) == [e] {
      assert e in Build(es);
      forall i | 0 <= i < |es| ensures es[i].key == e.key {
        LastWhenHas(es, i);
        assert Last(es, es[i].key).value in Build(es);
      }
      LastIsMember(es, e.key);
      LastAt(es, |es| - 1);
    }
    if es != [] && es[|es| - 1] == e && forall i :: 0 <= i < |es| ==> es[i].key == e.key {
      LastAt(es, |es| - 1);
      forall f ensures f in Build(es) <==> f in [e] {
        if f in Build(es) {
          var i := LastFound(es, f.key);
          assert es[i].key == e.key;
        }
      }
      SortedDictUnique(Build(es), [e]);
    }
  }

  lemma TaggedForm(enc: Encoder, v: Value, tag: string, s: string)
    requires IsDict(v)
    ensures CanonicalValue(enc, v) == Object([Entry(tag, Str(s))]) <==> Tagged(DictItems(v), tag) && TaggedText(DictItems(v), tag) == s
  {
    hide CanonicalValue, Build;
    DictForm(enc, v);
    var items := DictItems(v);
    var es := Entries(enc, items);
    OneEntry(es, Entry(tag, Str(s)));
    if items != [] { ScalarForm(enc, items[|items| - 1].value); }
    assert (forall i :: 0 <= i < |es| ==> es[i].key == tag) <==> (forall i :: 0 <= i < |items| ==> items[i].key == tag) by {
      assert forall i :: 0 <= i < |es| ==> es[i].key == items[i].key;
    }
  }

  lemma NumberForm(enc: Encoder, v: Value, s: string)
    ensures IsNumber(v, s) <==> CanonicalValue(enc, v) == Object([Entry(NUMBER, Str(s))])
  {
    CanonicalPlain(enc, v);
    ScalarForm(enc, v);
    TagsDiffer();
    if IsDict(v) { TaggedForm(enc, v, NUMBER, s); }
    hide Build, Sort;
  }

  lemma MomentForm(enc: Encoder, v: Value, s: string)
    ensures IsMoment(v, s) <==> CanonicalValue(enc, v) == Object([Entry(MOMENT, Str(s))])
  {
    CanonicalPlain(enc, v);
    ScalarForm(enc, v);
    TagsDiffer();
    if IsDict(v) { TaggedForm(enc, v, MOMENT, s); }
    hide Build, Sort;
  }

  lemma TagsDiffer()
    ensures NUMBER != MOMENT
  {
    assert NUMBER[1] == 'n' && MOMENT[1] == 'd';
  }

  ghost predicate SameLasts(es: seq<Entry>, fs: seq<Entry>) {
    forall key :: Last(es, key) == Last(fs, key)
  }

  /** Two dictionaries are the same exactly when each key has one last entry in both. */
  lemma SameDict(es: seq<Entry>, fs: seq<Entry>)
    ensures Build(es) == Build(fs) <==> SameLasts(es, fs)
  {
    BuildKeepsLast(es);
    BuildKeepsLast(fs);
    hide Build;
    if Build(es) == Build(fs) {
      forall key ensures Last(es, key) == Last(fs, key) { SameDictSameLast(es, fs, key); }
    }
    if SameLasts(es, fs) {
      forall f ensures f in Build(es) <==> f in Build(fs) { assert Last(es, f.key) == Last(fs, f.key); }
      SortedDictUnique(Build(es), Build(fs));
    }
  }

  lemma SameDictSameLast(es: seq<Entry>, fs: seq<Entry>, key: string)
    requires Build(es) == Build(fs)
    ensures Last(es, key) == Last(fs, key)
  {
    hide Build, Last;
    BuildKeepsLast(es);
    BuildKeepsLast(fs);
    if Last(es, key).Some? {
      var i := LastFound(es, key);
      assert es[i] in Build(es);
    } else if Last(fs, key).Some? {
      var j := LastFound(fs, key);
    }
  }

  lemma EntryMeans(enc: Encoder, items: seq<Item>, i: nat)
    requires i < |items|
    ensures Entries(enc, items)[i] == Entry(items[i].key, CanonicalValue(enc, items[i].value))
    ensures IsLast(items, i) ==> Last(Entries(enc, items), items[i].key) == Some(Entries(enc, items)[i])
    ensures Last(Entries(enc, items), items[i].key).Some?
  {
    hide CanonicalValue;
    LastWhenHas(Entries(enc, items), i);
    if IsLast(items, i) { LastAt(Entries(enc, items), i); }
  }

  lemma {:induction false} EntriesForm(enc: Encoder, v: Value, w: Value)
    requires Injective(enc) && IsDict(v) && IsDict(w)
    ensures SameEntries(BytesOf(enc), v, w) <==> CanonicalValue(enc, v) == CanonicalValue(enc, w)
    decreases v, 0
  {
    hide CanonicalValue, Equivalent, SameEntries, Build, Last, Entries;
    var xs, ys := DictItems(v), DictItems(w);
    DictForm(enc, v);
    DictForm(enc, w);
    SameDict(Entries(enc, xs), Entries(enc, ys));
    forall i, j | 0 <= i < |xs| && 0 <= j < |ys|
      ensures Equivalent(BytesOf(enc), xs[i].value, ys[j].value) <==> CanonicalValue(enc, xs[i].value) == CanonicalValue(enc, ys[j].value)
    {
      CanonicalIffEquivalent(enc, xs[i].value, ys[j].value);
    }
    if SameEntries(BytesOf(enc), v, w) {
      EntriesAgree(enc, v, w);
      forall key ensures Last(Entries(enc, xs), key) == Last(Entries(enc, ys), key) { LastsAgree(enc, xs, ys, key); }
    }
    if SameLasts(Entries(enc, xs), Entries(enc, ys)) {
      AgreeingLasts(enc, v, w);
    }
  }

  lemma EntriesAgree(enc: Encoder, v: Value, w: Value)
    requires IsDict(v) && IsDict(w) && SameEntries(BytesOf(enc), v, w)
    requires forall i, j :: 0 <= i < |DictItems(v)| && 0 <= j < |DictItems(w)| ==>
      (Equivalent(BytesOf(enc), DictItems(v)[i].value, DictItems(w)[j].value)
       <==> CanonicalValue(enc, DictItems(v)[i].value) == CanonicalValue(enc, DictItems(w)[j].value))
    ensures var xs, ys := DictItems(v), DictItems(w);
            && (forall i :: 0 <= i < |xs| ==> HasKey(ys, xs[i].key)) && (forall j :: 0 <= j < |ys| ==> HasKey(xs, ys[j].key))
            && forall i, j :: 0 <= i < |xs| && 0 <= j < |ys| && xs[i].key == ys[j].key && IsLast(xs, i) && IsLast(ys, j) ==>
                 CanonicalValue(enc, xs[i].value) == CanonicalValue(enc, ys[j].value)
  {
    hide CanonicalValue, Equivalent, DictItems, HasKey, IsLast;
  }

  /** The other direction. */
  lemma AgreeingLasts(enc: Encoder, v: Value, w: Value)
    requires IsDict(v) && IsDict(w)
    requires SameLasts(Entries(enc, DictItems(v)), Entries(enc, DictItems(w)))
    requires forall i, j :: 0 <= i < |DictItems(v)| && 0 <= j < |DictItems(w)| ==>
      (Equivalent(BytesOf(enc), DictItems(v)[i].value, DictItems(w)[j].value)
       <==> CanonicalValue(enc, DictItems(v)[i].value) == CanonicalValue(enc, DictItems(w)[j].value))
    ensures SameEntries(BytesOf(enc), v, w)
  {
    hide CanonicalValue, Equivalent, DictItems, Last;
    var xs, ys := DictItems(v), DictItems(w);
    var es, fs := Entries(enc, xs), Entries(enc, ys);
    forall i | 0 <= i < |xs| ensures HasKey(ys, xs[i].key) {
      EntryMeans(enc, xs, i);
      var j := LastItem(enc, ys, xs[i].key);
    }
    forall j | 0 <= j < |ys| ensures HasKey(xs, ys[j].key) {
      EntryMeans(enc, ys, j);
      var i := LastItem(enc, xs, ys[j].key);
    }
    forall i, j | 0 <= i < |xs| && 0 <= j < |ys| && xs[i].key == ys[j].key && IsLast(xs, i) && IsLast(ys, j)
      ensures Equivalent(BytesOf(enc), xs[i].value, ys[j].value)
    {
      EntryMeans(enc, xs, i);
      EntryMeans(enc, ys, j);
    }
  }

  lemma LastItem(enc: Encoder, xs: seq<Item>, key: string) returns (i: nat)
    requires Last(Entries(enc, xs), key).Some?
    ensures i < |xs| && xs[i].key == key && IsLast(xs, i)
    ensures Last(Entries(enc, xs), key) == Some(Entry(key, CanonicalValue(enc, xs[i].value)))
  {
    hide CanonicalValue, Last;
    i := LastFound(Entries(enc, xs), key);
    assert forall j :: 0 <= j < |xs| ==> Entries(enc, xs)[j].key == xs[j].key;
  }

  lemma LastOfKey(enc: Encoder, xs: seq<Item>, key: string)
    requires HasKey(xs, key)
    ensures Last(Entries(enc, xs), key).Some?
  {
    hide Last, Entries;
    var i :| 0 <= i < |xs| && xs[i].key == key;
    EntryMeans(enc, xs, i);
  }

  /** One direction of it, for one key. */
  lemma LastsAgree(enc: Encoder, xs: seq<Item>, ys: seq<Item>, key: string)
    requires (forall i :: 0 <= i < |xs| ==> HasKey(ys, xs[i].key)) && (forall j :: 0 <= j < |ys| ==> HasKey(xs, ys[j].key))
    requires forall i, j :: 0 <= i < |xs| && 0 <= j < |ys| && xs[i].key == ys[j].key && IsLast(xs, i) && IsLast(ys, j) ==>
      CanonicalValue(enc, xs[i].value) == CanonicalValue(enc, ys[j].value)
    ensures Last(Entries(enc, xs), key) == Last(Entries(enc, ys), key)
  {
    hide CanonicalValue, Last, Entries, HasKey, IsLast;
    if Last(Entries(enc, xs), key).Some? {
      var i := LastItem(enc, xs, key);
      LastOfKey(enc, ys, key);
      var j := LastItem(enc, ys, key);
    } else if Last(Entries(enc, ys), key).Some? {
      var j := LastItem(enc, ys, key);
      LastOfKey(enc, xs, key);
    }
  }

  /** Members can be paired off exactly when their canonical values are the same multiset. */
  lemma {:induction false} MembersForm(enc: Encoder, xs: seq<Value>, ys: seq<Value>)
    requires Injective(enc)
    ensures SameMembers(BytesOf(enc), xs, ys) <==> multiset(Canonicals(enc, xs)) == multiset(Canonicals(enc, ys))
    decreases xs
  {
    hide CanonicalValue, Equivalent, SameMembers, Canonicals, PairsWith, ComesFrom;
    if xs == [] {
      EmptyMembers(enc, ys);
    } else {
      forall j | 0 <= j < |ys| ensures PairsWith(BytesOf(enc), xs, ys, j) <==> ComesFrom(Canonicals(enc, xs), Canonicals(enc, ys), j) {
        PairForm(enc, xs, ys, j);
      }
      PairingsAre(BytesOf(enc), xs, ys);
      Rearrangements(Canonicals(enc, xs), Canonicals(enc, ys));
    }
  }

  lemma {:induction false} PairForm(enc: Encoder, xs: seq<Value>, ys: seq<Value>, j: nat)
    requires Injective(enc) && xs != [] && j < |ys|
    ensures PairsWith(BytesOf(enc), xs, ys, j) <==> ComesFrom(Canonicals(enc, xs), Canonicals(enc, ys), j)
    decreases xs, 0
  {
    hide CanonicalValue, Equivalent, SameMembers, BytesOf;
    var n := |xs| - 1;
    CanonicalIffEquivalent(enc, xs[n], ys[j]);
    MembersForm(enc, xs[..n], ys[..j] + ys[j + 1..]);
    WithoutMember(enc, xs, ys, j);
  }

  lemma EmptyMembers(enc: Encoder, ys: seq<Value>)
    ensures SameMembers(BytesOf(enc), [], ys) <==> multiset(Canonicals(enc, [])) == multiset(Canonicals(enc, ys))
  {
    hide CanonicalValue, Equivalent;
    assert Canonicals(enc, []) == [];
    if multiset(Canonicals(enc, ys)) == multiset(Canonicals(enc, [])) { SameElements(Canonicals(enc, ys), Canonicals(enc, [])); }
  }

  /** The last member can be paired with member j. */
  ghost predicate PairsWith(bytes: Bytes, xs: seq<Value>, ys: seq<Value>, j: int)
    requires xs != [] && 0 <= j < |ys|
  {
    Equivalent(bytes, xs[|xs| - 1], ys[j]) && SameMembers(bytes, xs[..|xs| - 1], ys[..j] + ys[j + 1..])
  }

  predicate ComesFrom(cs: seq<Canon>, ds: seq<Canon>, j: int)
    requires cs != [] && 0 <= j < |ds|
  {
    cs[|cs| - 1] == ds[j] && multiset(cs[..|cs| - 1]) == multiset(ds[..j] + ds[j + 1..])
  }

  lemma PairingsAre(bytes: Bytes, xs: seq<Value>, ys: seq<Value>)
    requires xs != []
    ensures SameMembers(bytes, xs, ys) <==> exists j :: 0 <= j < |ys| && PairsWith(bytes, xs, ys, j)
  {
    hide Equivalent;
    if SameMembers(bytes, xs, ys) {
      var j :| 0 <= j < |ys| && Equivalent(bytes, xs[|xs| - 1], ys[j]) && SameMembers(bytes, xs[..|xs| - 1], ys[..j] + ys[j + 1..]);
      assert PairsWith(bytes, xs, ys, j);
    }
  }

  lemma Rearrangements(cs: seq<Canon>, ds: seq<Canon>)
    requires cs != []
    ensures multiset(cs) == multiset(ds) <==> exists j :: 0 <= j < |ds| && ComesFrom(cs, ds, j)
  {
    if multiset(cs) == multiset(ds) {
      SameElements(cs, ds);
      assert cs[|cs| - 1] in ds;
      var j :| 0 <= j < |ds| && ds[j] == cs[|cs| - 1];
      WithoutOne(cs, ds, j);
      assert ComesFrom(cs, ds, j);
    }
    if j :| 0 <= j < |ds| && ComesFrom(cs, ds, j) { WithOne(cs, ds, j); }
  }

  lemma WithoutMember(enc: Encoder, xs: seq<Value>, ys: seq<Value>, j: nat)
    requires xs != [] && j < |ys|
    ensures Canonicals(enc, xs[..|xs| - 1]) == Canonicals(enc, xs)[..|xs| - 1]
    ensures Canonicals(enc, ys[..j] + ys[j + 1..]) == Canonicals(enc, ys)[..j] + Canonicals(enc, ys)[j + 1..]
  {
    hide CanonicalValue;
  }

  lemma OrderForm(enc: Encoder, xs: seq<Value>)
    requires Injective(enc)
    ensures InByteOrder(BytesOf(enc), xs) <==> Sorted(ByBytes(enc), Canonicals(enc, xs))
  {
    hide CanonicalValue, StrLess;
    var cs, bytes := Canonicals(enc, xs), BytesOf(enc);
    assert forall i :: 0 <= i < |xs| ==> bytes(xs[i]) == enc(cs[i]);
    assert forall a, b :: enc(a) == enc(b) <==> a == b;
  }

  /** A list is written like a set exactly when it holds the members of the set in byte order. */
  lemma ListLikeSet(enc: Encoder, xs: seq<Value>, ys: seq<Value>)
    requires Injective(enc)
    ensures Canonicals(enc, xs) == Sort(ByBytes(enc), Canonicals(enc, ys)) <==>
      InByteOrder(BytesOf(enc), xs) && multiset(Canonicals(enc, xs)) == multiset(Canonicals(enc, ys))
  {
    hide CanonicalValue, StrLess, Sort;
    var cs, ds := Canonicals(enc, xs), Canonicals(enc, ys);
    OrderForm(enc, xs);
    ByBytesTotal(enc, ds);
    SortSorted(ByBytes(enc), ds);
    if Sorted(ByBytes(enc), cs) && multiset(cs) == multiset(ds) {
      ByBytesTotal(enc, cs);
      SortedUnique(ByBytes(enc), cs, Sort(ByBytes(enc), ds));
    }
  }

  lemma SetLikeSet(enc: Encoder, xs: seq<Value>, ys: seq<Value>)
    requires Injective(enc)
    ensures Sort(ByBytes(enc), Canonicals(enc, xs)) == Sort(ByBytes(enc), Canonicals(enc, ys)) <==>
      multiset(Canonicals(enc, xs)) == multiset(Canonicals(enc, ys))
  {
    hide CanonicalValue, StrLess;
    var cs, ds := Canonicals(enc, xs), Canonicals(enc, ys);
    if multiset(cs) == multiset(ds) {
      ByBytesTotal(enc, cs);
      SortForgetsOrder(ByBytes(enc), cs, ds);
    }
  }

  lemma {:induction false} CollectionsForm(enc: Encoder, v: Value, w: Value)
    requires Injective(enc) && IsCollection(v) && IsCollection(w)
    ensures Equivalent(BytesOf(enc), v, w) <==> CanonicalValue(enc, v) == CanonicalValue(enc, w)
    decreases v, 0
  {
    hide CanonicalValue, StrLess, Sort;
    CanonicalPlain(enc, v);
    CanonicalPlain(enc, w);
    CanonicalCases(enc, Plain(v));
    CanonicalCases(enc, Plain(w));
    var xs, ys := Members(v), Members(w);
    if Plain(v).Listing? && Plain(w).Listing? {
      ListsForm(enc, xs, ys);
    } else {
      MembersForm(enc, xs, ys);
      if Plain(v).Listing? { ListLikeSet(enc, xs, ys); }
      else if Plain(w).Listing? { ListLikeSet(enc, ys, xs); }
      else { SetLikeSet(enc, xs, ys); }
    }
  }

  lemma {:induction false} ListsForm(enc: Encoder, xs: seq<Value>, ys: seq<Value>)
    requires Injective(enc)
    ensures (|xs| == |ys| && forall i :: 0 <= i < |xs| ==> Equivalent(BytesOf(enc), xs[i], ys[i])) <==> Canonicals(enc, xs) == Canonicals(enc, ys)
    decreases xs
  {
    hide CanonicalValue, Equivalent;
    forall i | 0 <= i < |xs| && i < |ys|
      ensures Equivalent(BytesOf(enc), xs[i], ys[i]) <==> CanonicalValue(enc, xs[i]) == CanonicalValue(enc, ys[i])
    {
      CanonicalIffEquivalent(enc, xs[i], ys[i]);
    }
    if Canonicals(enc, xs) == Canonicals(enc, ys) {
      assert |xs| == |ys|;
      forall i | 0 <= i < |xs| ensures CanonicalValue(enc, xs[i]) == CanonicalValue(enc, ys[i]) {
        assert Canonicals(enc, xs)[i] == Canonicals(enc, ys)[i];
      }
    }
  }

  /** canonical_value is faithful: it identifies exactly the values that mean the same. */
  lemma {:induction false} CanonicalIffEquivalent(enc: Encoder, v: Value, w: Value)
    requires Injective(enc)
    ensures CanonicalValue(enc, v) == CanonicalValue(enc, w) <==> Equivalent(BytesOf(enc), v, w)
    decreases v
  {
    hide CanonicalValue, SameEntries, SameMembers, IsNumber, IsMoment;
    var p, q := Plain(v), Plain(w);
    ScalarForm(enc, v);
    ScalarForm(enc, w);
    if p.Number? {
      NumberIs(enc, v);
      NumberForm(enc, w, p.spelling);
    } else if q.Number? {
      NumberIs(enc, w);
      NumberForm(enc, v, q.spelling);
    } else if p.Moment? {
      MomentIs(enc, v);
      MomentForm(enc, w, p.iso);
    } else if q.Moment? {
      MomentIs(enc, w);
      MomentForm(enc, v, q.iso);
    } else if IsDict(v) && IsDict(w) {
      EntriesForm(enc, v, w);
    } else if IsCollection(v) && IsCollection(w) {
      CollectionsForm(enc, v, w);
    }
  }

  lemma NumberIs(enc: Encoder, v: Value)
    requires Plain(v).Number?
    ensures CanonicalValue(enc, v) == Object([Entry(NUMBER, Str(Plain(v).spelling))])
  {
    CanonicalPlain(enc, v);
  }

  lemma MomentIs(enc: Encoder, v: Value)
    requires Plain(v).Moment?
    ensures CanonicalValue(enc, v) == Object([Entry(MOMENT, Str(Plain(v).iso))])
  {
    CanonicalPlain(enc, v);
  }
}
