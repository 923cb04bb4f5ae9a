/** Order-free digests of a catalogue (canonical_catalog_records and catalog_content_sha256 in integrity.py). */
module Catalog {
  import opened Prelude
  import opened Sorting
  import opened Canonical
  import opened Equivalence

  /** A raw record: its fields by name. */
  type Raw = map<string, Value>

  const RECORD_ID := "record_id"
  const SOURCE_ID := "source_id"
  const CODE := "code"
  const ALIASES := "aliases"
  const BOUNDARY_MODULES := "boundary_modules"

  /** The schema names the fields a record may have; show is str() of a value that is not a text. */
  datatype Contract = Contract(schema: set<string>, enc: Encoder, show: Value -> string)

  /** bool(value) */
  predicate Truthy(v: Value) {
    match v
    case None_ => false
    case Text(s) => s != ""
    case Flag(b) => b
    case Number(s) => s != "0"
    case Moment(_) => true
    case EnumMember(_) => true
    case Mapping(items) => items != []
    case Listing(elements) => elements != []
    case Unordered(members) => members != []
    case Fields(_) => true
  }

  /** raw.get(field) */
  function Get(raw: Raw, field: string): Value {
    if field in raw then raw[field] else None_
  }

  function TrimLeft(s: string): string {
    if s != "" && Whitespace(s[0]) then TrimLeft(s[1..]) else s
  }

  function TrimRight(s: string): string {
    if s != "" && Whitespace(s[|s| - 1]) then TrimRight(s[..|s| - 1]) else s
  }

  /** str(record_id or source_id or code or "").strip() */
  function Identity(k: Contract, raw: Raw): string {
    var v := if Truthy(Get(raw, RECORD_ID)) then Get(raw, RECORD_ID)
             else if Truthy(Get(raw, SOURCE_ID)) then Get(raw, SOURCE_ID)
             else if Truthy(Get(raw, CODE)) then Get(raw, CODE)
             else Text("");
    TrimRight(TrimLeft(if v.Text? then v.text else k.show(v)))
  }

  /** The order of two values by their canonical bytes. */
  function ByValueBytes(enc: Encoder): (Value, Value) -> bool {
    (a: Value, b: Value) => ByBytes(enc)(CanonicalValue(enc, a), CanonicalValue(enc, b))
  }

  predicate UnorderedField(field: string) {
    field == ALIASES || field == BOUNDARY_MODULES
  }

  /** The value a record keeps for a field: the two unordered lists are sorted by canonical bytes. */
  function Kept(k: Contract, raw: Raw, field: string): Value {
    var v := Get(raw, field);
    if UnorderedField(field) && v.Listing? then Listing(Sort(ByValueBytes(k.enc), v.elements)) else v
  }

  /** A normalized record as its digest sees it. */
  datatype Record = Record(identity: string, fields: map<string, Canon>)

  function Normalize(k: Contract, raw: Raw): Record {
    Record(Identity(k, raw), map f | f in k.schema :: CanonicalValue(k.enc, Kept(k, raw, f)))
  }

  predicate ByIdentity(a: Record, b: Record) {
    StrLess(a.identity, b.identity)
  }

  predicate Acceptable(k: Contract, raw: Raw) {
    raw.Keys <= k.schema && Identity(k, raw) != ""
  }

  /** The loop over the raw records: the first offending one ends it. */
  function Collect(k: Contract, raws: seq<Raw>): Result<seq<Record>> {
    if raws == [] then Ok([])
    else
      match Collect(k, raws[..|raws| - 1])
      case Err(e) => Err(e)
      case Ok(front) =>
        var raw := raws[|raws| - 1];
        if !(raw.Keys <= k.schema) then Err(IntegrityError("fields outside cfr.catalog/v2"))
        else if Identity(k, raw) == "" then Err(IntegrityError("no stable identity"))
        else if exists i :: 0 <= i < |front| && front[i].identity == Identity(k, raw) then Err(IntegrityError("duplicate identity"))
        else Ok(front + [Normalize(k, raw)])
  }

  /** canonical_catalog_records; identities are distinct, so the bytes never decide the final sort. */
  function CanonicalRecords(k: Contract, raws: seq<Raw>): Result<seq<Record>> {
    match Collect(k, raws)
    case Err(e) => Err(e)
    case Ok(records) => Ok(Sort(ByIdentity, records))
  }

  ghost predicate Seen(ids: set<string>, records: seq<Record>) {
    forall id :: id in ids <==> exists i :: 0 <= i < |records| && records[i].identity == id
  }

  lemma SeenExtends(ids: set<string>, records: seq<Record>, r: Record)
    requires Seen(ids, records)
    ensures Seen(ids + {r.identity}, records + [r])
  {
    var longer := records + [r];
    forall id ensures id in ids + {r.identity} <==> exists i :: 0 <= i < |longer| && longer[i].identity == id {
      if i :| 0 <= i < |records| && records[i].identity == id { assert longer[i].identity == id; }
      assert longer[|records|] == r;
    }
  }

  method CanonicalCatalogRecords(k: Contract, raws: seq<Raw>) returns (r: Result<seq<Record>>)
    ensures r == CanonicalRecords(k, raws)
  {
    hide Identity, Kept, Sort;
    var normalized: seq<Record>, identities: set<string>, i := [], {}, 0;
    while i < |raws|
      invariant 0 <= i <= |raws|
      invariant Collect(k, raws[..i]) == Ok(normalized) && Seen(identities, normalized)
    {
      var raw := raws[i];
      assert raws[..i + 1][..i] == raws[..i];
      var identity := Identity(k, raw);
      if !(raw.Keys <= k.schema) || identity == "" || identity in identities {
        StuckCollect(k, raws, i + 1);
        return Err(IntegrityError(if !(raw.Keys <= k.schema) then "fields outside cfr.catalog/v2"
          else if identity == "" then "no stable identity" else "duplicate identity"));
      }
      SeenExtends(identities, normalized, Normalize(k, raw));
      identities := identities + {identity};
      normalized := normalized + [Normalize(k, raw)];
      i := i + 1;
    }
    assert raws[..i] == raws;
    return Ok(Sort(ByIdentity, normalized));
  }

  lemma {:induction false} StuckCollect(k: Contract, raws: seq<Raw>, n: nat)
    requires n <= |raws| && Collect(k, raws[..n]).Err?
    ensures Collect(k, raws) == Collect(k, raws[..n])
    decreases |raws|
  {
    if n == |raws| {
      assert raws[..n] == raws;
    } else {
      assert raws[..|raws| - 1][..n] == raws[..n];
      StuckCollect(k, raws[..|raws| - 1], n);
    }
  }

  // ---- acceptance ----

  predicate DistinctIdentities(k: Contract, raws: seq<Raw>) {
    forall i, j :: 0 <= i < j < |raws| ==> Identity(k, raws[i]) != Identity(k, raws[j])
  }

  predicate CatalogOk(k: Contract, raws: seq<Raw>) {
    (forall i :: 0 <= i < |raws| ==> Acceptable(k, raws[i])) && DistinctIdentities(k, raws)
  }

  function NormalizeAll(k: Contract, raws: seq<Raw>): (r: seq<Record>)
    ensures |r| == |raws| && forall i :: 0 <= i < |r| ==> r[i] == Normalize(k, raws[i])
  {
    seq(|raws|, i requires 0 <= i < |raws| => Normalize(k, raws[i]))
  }

  lemma CatalogOkPrefix(k: Contract, raws: seq<Raw>, n: nat)
    requires n <= |raws|
    ensures CatalogOk(k, raws) ==> CatalogOk(k, raws[..n])
  {
    hide Acceptable, Identity;
  }

  /** A catalogue is accepted exactly when every record is within the schema and all identities differ. */
  lemma {:induction false} AcceptedIff(k: Contract, raws: seq<Raw>)
    ensures Collect(k, raws).Ok? <==> CatalogOk(k, raws)
    ensures Collect(k, raws).Ok? ==> Collect(k, raws).value == NormalizeAll(k, raws)
  {
    hide Identity, Kept, Normalize;
    if raws != [] {
      var n := |raws| - 1;
      AcceptedIff(k, raws[..n]);
      if Collect(k, raws[..n]).Ok? {
        var front := Collect(k, raws[..n]).value;
        NormalizedIdentities(k, raws[..n]);
        if DistinctIdentities(k, raws) {
          forall i | 0 <= i < |front| ensures front[i].identity != Identity(k, raws[n]) {
            assert Identity(k, raws[i]) != Identity(k, raws[n]);
          }
        }
      } else {
        CatalogOkPrefix(k, raws, n);
      }
    }
  }

  lemma NormalizedIdentities(k: Contract, raws: seq<Raw>)
    ensures forall i :: 0 <= i < |raws| ==> NormalizeAll(k, raws)[i].identity == Identity(k, raws[i])
  {}

  // ---- the two unordered lists ----

  lemma ByValueBytesReads(enc: Encoder, a: Value, b: Value)
    ensures ByValueBytes(enc)(a, b) == ByBytes(enc)(CanonicalValue(enc, a), CanonicalValue(enc, b))
  {}

  lemma CanonicalsAppend(enc: Encoder, s: seq<Value>, x: Value)
    ensures Canonicals(enc, s + [x]) == Canonicals(enc, s) + [CanonicalValue(enc, x)]
  {}

  lemma {:induction false} InsertCanonicals(enc: Encoder, x: Value, s: seq<Value>)
    ensures Canonicals(enc, Insert(ByValueBytes(enc), x, s)) == Insert(ByBytes(enc), CanonicalValue(enc, x), Canonicals(enc, s))
  {
    hide CanonicalValue, ByValueBytes, ByBytes;
    if s == [] {
      CanonicalsAppend(enc, [], x);
    } else {
      var n := |s| - 1;
      assert Canonicals(enc, s)[..n] == Canonicals(enc, s[..n]);
      ByValueBytesReads(enc, x, s[n]);
      InsertCanonicals(enc, x, s[..n]);
      CanonicalsAppend(enc, Insert(ByValueBytes(enc), x, s[..n]), s[n]);
      CanonicalsAppend(enc, s, x);
    }
  }

  /** Sorting values by canonical bytes and canonicalising is sorting the canonical values. */
  lemma {:induction false} SortCanonicals(enc: Encoder, xs: seq<Value>)
    ensures Canonicals(enc, Sort(ByValueBytes(enc), xs)) == Sort(ByBytes(enc), Canonicals(enc, xs))
  {
    hide CanonicalValue, Insert, ByValueBytes, ByBytes;
    if xs != [] {
      var n, cs := |xs| - 1, Canonicals(enc, xs);
      SortCanonicals(enc, xs[..n]);
      InsertCanonicals(enc, xs[n], Sort(ByValueBytes(enc), xs[..n]));
      assert cs[..n] == Canonicals(enc, xs[..n]) && cs[n] == CanonicalValue(enc, xs[n]);
      assert Sort(ByBytes(enc), cs) == Insert(ByBytes(enc), cs[n], Sort(ByBytes(enc), cs[..n]));
    }
  }

  /** Two unordered lists are kept alike exactly when they hold the same canonical values. */
  lemma UnorderedAlike(enc: Encoder, xs: seq<Value>, ys: seq<Value>)
    requires Injective(enc)
    ensures CanonicalValue(enc, Listing(Sort(ByValueBytes(enc), xs))) == CanonicalValue(enc, Listing(Sort(ByValueBytes(enc), ys)))
      <==> multiset(Canonicals(enc, xs)) == multiset(Canonicals(enc, ys))
  {
    SortCanonicals(enc, xs);
    SortCanonicals(enc, ys);
    CanonicalCases(enc, Listing(Sort(ByValueBytes(enc), xs)));
    CanonicalCases(enc, Listing(Sort(ByValueBytes(enc), ys)));
    if multiset(Canonicals(enc, xs)) == multiset(Canonicals(enc, ys)) {
      ByBytesTotal(enc, Canonicals(enc, xs));
      SortForgetsOrder(ByBytes(enc), Canonicals(enc, xs), Canonicals(enc, ys));
    }
  }

  // ---- order independence and faithfulness ----

  /** Two raw records that differ at most in the order of their unordered lists, in absent against null
      fields, and in spellings canonical_value identifies. */
  predicate Alike(k: Contract, r: Raw, q: Raw) {
    Acceptable(k, r) == Acceptable(k, q) && Normalize(k, r) == Normalize(k, q)
  }

  /** One value for a field, up to the order of an unordered list. */
  predicate SameUpToOrder(field: string, v: Value, w: Value) {
    v == w || (UnorderedField(field) && v.Listing? && w.Listing? && multiset(v.elements) == multiset(w.elements))
  }

  /** q says what r says, with its unordered lists in any order and with null for absent fields or the reverse. */
  ghost predicate Rearranged(k: Contract, r: Raw, q: Raw) {
    (r.Keys <= k.schema <==> q.Keys <= k.schema) && forall f :: SameUpToOrder(f, Get(r, f), Get(q, f))
  }

  /** Rearranging a record gives an alike record. */
  lemma RearrangedAlike(k: Contract, r: Raw, q: Raw)
    requires Injective(k.enc) && Rearranged(k, r, q)
    ensures Alike(k, r, q)
  {
    IdentityFieldsOrdered();
    assert SameUpToOrder(RECORD_ID, Get(r, RECORD_ID), Get(q, RECORD_ID));
    assert SameUpToOrder(SOURCE_ID, Get(r, SOURCE_ID), Get(q, SOURCE_ID));
    assert SameUpToOrder(CODE, Get(r, CODE), Get(q, CODE));
    IdentityReads(k, r, q);
    hide Identity, CanonicalValue, Sort, Kept, UnorderedField;
    forall f | f in k.schema ensures CanonicalValue(k.enc, Kept(k, r, f)) == CanonicalValue(k.enc, Kept(k, q, f)) {
      assert SameUpToOrder(f, Get(r, f), Get(q, f));
      if Get(r, f) == Get(q, f) { KeptReads(k, r, q, f); } else { KeptReordered(k, r, q, f, Get(r, f).elements, Get(q, f).elements); }
    }
    assert Normalize(k, r).fields == Normalize(k, q).fields;
  }

  /** Reordering the aliases or boundary modules of a record is one rearrangement. */
  lemma ReorderedListAlike(k: Contract, r: Raw, field: string, xs: seq<Value>, ys: seq<Value>)
    requires Injective(k.enc) && UnorderedField(field)
    requires field in r && r[field] == Listing(xs) && multiset(xs) == multiset(ys)
    ensures Alike(k, r, r[field := Listing(ys)])
  {
    var q := r[field := Listing(ys)];
    assert q.Keys == r.Keys;
    hide Alike;
    RearrangedAlike(k, r, q);
  }

  /** Writing null for a field of the schema that is absent is another. */
  lemma AbsentIsNull(k: Contract, r: Raw, field: string)
    requires Injective(k.enc) && field in k.schema && field !in r
    ensures Alike(k, r, r[field := None_])
  {
    var q := r[field := None_];
    assert q.Keys == r.Keys + {field};
    hide Alike;
    RearrangedAlike(k, r, q);
  }

  lemma KeptReads(k: Contract, r: Raw, q: Raw, field: string)
    requires Get(r, field) == Get(q, field)
    ensures Kept(k, r, field) == Kept(k, q, field)
  {}

  lemma KeptReordered(k: Contract, r: Raw, q: Raw, field: string, xs: seq<Value>, ys: seq<Value>)
    requires Injective(k.enc) && UnorderedField(field) && multiset(xs) == multiset(ys)
    requires Get(r, field) == Listing(xs) && Get(q, field) == Listing(ys)
    ensures CanonicalValue(k.enc, Kept(k, r, field)) == CanonicalValue(k.enc, Kept(k, q, field))
  {
    hide CanonicalValue, Sort;
    CanonicalsPermute(k.enc, xs, ys);
    UnorderedAlike(k.enc, xs, ys);
  }

  lemma IdentityFieldsOrdered()
    ensures !UnorderedField(RECORD_ID) && !UnorderedField(SOURCE_ID) && !UnorderedField(CODE)
  {
    assert RECORD_ID[0] == 'r' && SOURCE_ID[0] == 's' && CODE[0] == 'c' && ALIASES[0] == 'a' && BOUNDARY_MODULES[0] == 'b';
  }

  lemma IdentityReads(k: Contract, r: Raw, q: Raw)
    requires Get(r, RECORD_ID) == Get(q, RECORD_ID) && Get(r, SOURCE_ID) == Get(q, SOURCE_ID) && Get(r, CODE) == Get(q, CODE)
    ensures Identity(k, r) == Identity(k, q)
  {
    hide Truthy, TrimLeft, TrimRight;
  }

  lemma {:induction false} CanonicalsPermute(enc: Encoder, xs: seq<Value>, ys: seq<Value>)
    requires multiset(xs) == multiset(ys)
    ensures multiset(Canonicals(enc, xs)) == multiset(Canonicals(enc, ys))
    decreases |xs|
  {
    SameElements(xs, ys);
    if xs != [] {
      var n := |xs| - 1;
      assert xs[n] in ys;
      var i :| 0 <= i < |ys| && ys[i] == xs[n];
      WithoutOne(xs, ys, i);
      CanonicalsPermute(enc, xs[..n], ys[..i] + ys[i + 1..]);
      var cs, ds := Canonicals(enc, xs), Canonicals(enc, ys);
      assert Canonicals(enc, xs[..n]) == cs[..n] && Canonicals(enc, ys[..i] + ys[i + 1..]) == ds[..i] + ds[i + 1..];
      WithOne(cs, ds, i);
    }
  }

  /** The catalogues correspond, record by record, through a renumbering of the positions. */
  ghost predicate Matches(k: Contract, rs: seq<Raw>, qs: seq<Raw>) {
    multiset(NormalizeAll(k, rs)) == multiset(NormalizeAll(k, qs))
    && (forall i :: 0 <= i < |rs| ==> Acceptable(k, rs[i])) == (forall i :: 0 <= i < |qs| ==> Acceptable(k, qs[i]))
  }

  /** Records in any order, each with its lists in any order, match. */
  lemma {:induction false} PermutedMatches(k: Contract, rs: seq<Raw>, qs: seq<Raw>)
    requires multiset(rs) == multiset(qs)
    ensures Matches(k, rs, qs)
    decreases |rs|
  {
    SameElements(rs, qs);
    RecordsPermute(k, rs, qs);
    hide Acceptable, Normalize;
    forall i | 0 <= i < |qs| ensures qs[i] in rs { assert qs[i] in qs; }
    forall i | 0 <= i < |rs| ensures rs[i] in qs { assert rs[i] in rs; }
  }

  lemma {:induction false} RecordsPermute(k: Contract, rs: seq<Raw>, qs: seq<Raw>)
    requires multiset(rs) == multiset(qs)
    ensures multiset(NormalizeAll(k, rs)) == multiset(NormalizeAll(k, qs))
    decreases |rs|
  {
    hide Normalize;
    SameElements(rs, qs);
    if rs != [] {
      var n := |rs| - 1;
      assert rs[n] in qs;
      var i :| 0 <= i < |qs| && qs[i] == rs[n];
      WithoutOne(rs, qs, i);
      RecordsPermute(k, rs[..n], qs[..i] + qs[i + 1..]);
      var cs, ds := NormalizeAll(k, rs), NormalizeAll(k, qs);
      assert NormalizeAll(k, rs[..n]) == cs[..n] && NormalizeAll(k, qs[..i] + qs[i + 1..]) == ds[..i] + ds[i + 1..];
      WithOne(cs, ds, i);
    }
  }

  lemma AlikeMatches(k: Contract, rs: seq<Raw>, qs: seq<Raw>)
    requires |rs| == |qs| && forall i :: 0 <= i < |rs| ==> Alike(k, rs[i], qs[i])
    ensures Matches(k, rs, qs)
  {
    hide Acceptable, Normalize;
    assert NormalizeAll(k, rs) == NormalizeAll(k, qs);
  }

  lemma DistinctRecords(k: Contract, raws: seq<Raw>)
    ensures DistinctIdentities(k, raws) <==>
      forall i, j :: 0 <= i < j < |raws| ==> NormalizeAll(k, raws)[i].identity != NormalizeAll(k, raws)[j].identity
  {
    NormalizedIdentities(k, raws);
    hide Identity, Normalize;
  }

  ghost predicate DistinctIn(records: seq<Record>) {
    forall i, j :: 0 <= i < j < |records| ==> records[i].identity != records[j].identity
  }

  lemma DistinctInPermute(rs: seq<Record>, qs: seq<Record>)
    requires multiset(rs) == multiset(qs) && DistinctIn(rs)
    ensures DistinctIn(qs)
  {
    SameElements(rs, qs);
    forall i, j | 0 <= i < j < |qs| ensures qs[i].identity != qs[j].identity {
      assert qs[i] in rs && qs[j] in rs;
      var x, y :| 0 <= x < |rs| && 0 <= y < |rs| && rs[x] == qs[i] && rs[y] == qs[j];
      if x == y { TwiceMeansTwo(qs, i, j); OnceIn(rs, qs[i]); assert false; }
      assert x < y || y < x;
    }
  }

  lemma {:induction false} OnceIn(rs: seq<Record>, r: Record)
    requires DistinctIn(rs)
    ensures multiset(rs)[r] <= 1
  {
    if rs != [] {
      var n := |rs| - 1;
      OnceIn(rs[..n], r);
      assert rs == rs[..n] + [rs[n]];
      assert multiset(rs) == multiset(rs[..n]) + multiset{rs[n]};
      assert rs[n] !in rs[..n];
    }
  }

  lemma ByIdentityTotal(rs: seq<Record>)
    requires DistinctIn(rs)
    ensures StrictTotal(ByIdentity, rs)
  {
    forall a | a in rs ensures !ByIdentity(a, a) { StrIrreflexive(a.identity); }
    forall a, b, c | ByIdentity(a, b) && ByIdentity(b, c) ensures ByIdentity(a, c) { StrTransitive(a.identity, b.identity, c.identity); }
    forall a, b | a in rs && b in rs && a != b ensures ByIdentity(a, b) || ByIdentity(b, a) {
      var i, j :| 0 <= i < |rs| && 0 <= j < |rs| && rs[i] == a && rs[j] == b;
      assert i < j || j < i;
      StrTotal(a.identity, b.identity);
    }
  }

  /** Matching catalogues are both accepted or both refused, with the same canonical records. */
  lemma MatchingCatalogsAgree(k: Contract, rs: seq<Raw>, qs: seq<Raw>)
    requires Matches(k, rs, qs)
    ensures CanonicalRecords(k, rs).Ok? <==> CanonicalRecords(k, qs).Ok?
    ensures CanonicalRecords(k, rs).Ok? ==> CanonicalRecords(k, rs) == CanonicalRecords(k, qs)
  {
    var x, y := NormalizeAll(k, rs), NormalizeAll(k, qs);
    AcceptedIff(k, rs);
    AcceptedIff(k, qs);
    DistinctRecords(k, rs);
    DistinctRecords(k, qs);
    hide Acceptable, Normalize, Collect, Identity, DistinctIdentities;
    if DistinctIn(x) { DistinctInPermute(x, y); }
    if DistinctIn(y) { DistinctInPermute(y, x); }
    if CanonicalRecords(k, rs).Ok? {
      ByIdentityTotal(x);
      SortForgetsOrder(ByIdentity, x, y);
    }
  }

  /** And conversely: two accepted catalogues with equal canonical records match. */
  lemma EqualCatalogsMatch(k: Contract, rs: seq<Raw>, qs: seq<Raw>)
    requires CanonicalRecords(k, rs).Ok? && CanonicalRecords(k, rs) == CanonicalRecords(k, qs)
    ensures Matches(k, rs, qs)
    ensures forall r :: r in rs ==> exists q :: q in qs && Alike(k, r, q)
  {
    AcceptedIff(k, rs);
    AcceptedIff(k, qs);
    hide Acceptable, Normalize, Collect, DistinctIdentities;
    assert multiset(Sort(ByIdentity, NormalizeAll(k, rs))) == multiset(Sort(ByIdentity, NormalizeAll(k, qs)));
    SameElements(NormalizeAll(k, rs), NormalizeAll(k, qs));
    forall r | r in rs ensures exists q :: q in qs && Alike(k, r, q) {
      var i :| 0 <= i < |rs| && rs[i] == r;
      assert NormalizeAll(k, rs)[i] in NormalizeAll(k, qs);
      var j :| 0 <= j < |qs| && NormalizeAll(k, qs)[j] == NormalizeAll(k, rs)[i];
      assert qs[j] in qs && Alike(k, r, qs[j]);
    }
  }

  /** What a record says in a field: the list of an unordered field counts as a set. */
  function Content(raw: Raw, field: string): Value {
    var v := Get(raw, field);
    if UnorderedField(field) && v.Listing? then Unordered(v.elements) else v
  }

  /** Two records mean the same in a field. */
  ghost predicate SameContent(k: Contract, r: Raw, q: Raw, field: string) {
    Equivalent(BytesOf(k.enc), Content(r, field), Content(q, field))
  }

  lemma KeptForm(k: Contract, raw: Raw, field: string)
    ensures CanonicalValue(k.enc, Kept(k, raw, field)) == CanonicalValue(k.enc, Content(raw, field))
  {
    hide CanonicalValue, Sort;
    var v := Get(raw, field);
    if UnorderedField(field) && v.Listing? {
      SortCanonicals(k.enc, v.elements);
      CanonicalCases(k.enc, Listing(Sort(ByValueBytes(k.enc), v.elements)));
      CanonicalCases(k.enc, Unordered(v.elements));
    }
  }

  lemma SameContentMeans(k: Contract, r: Raw, q: Raw, field: string)
    requires Injective(k.enc)
    ensures SameContent(k, r, q, field) <==> CanonicalValue(k.enc, Kept(k, r, field)) == CanonicalValue(k.enc, Kept(k, q, field))
  {
    hide CanonicalValue, Equivalent, Kept, Content;
    KeptForm(k, r, field);
    KeptForm(k, q, field);
    CanonicalIffEquivalent(k.enc, Content(r, field), Content(q, field));
  }

  /** Alike records are exactly those with one identity, one verdict and the same meaning in every field of the schema. */
  lemma AlikeIff(k: Contract, r: Raw, q: Raw)
    requires Injective(k.enc)
    ensures Alike(k, r, q) <==>
      && Acceptable(k, r) == Acceptable(k, q)
      && Identity(k, r) == Identity(k, q)
      && forall f :: f in k.schema ==> SameContent(k, r, q, f)
  {
    hide Identity, CanonicalValue, Kept, SameContent;
    forall f ensures SameContent(k, r, q, f) <==> CanonicalValue(k.enc, Kept(k, r, f)) == CanonicalValue(k.enc, Kept(k, q, f)) {
      SameContentMeans(k, r, q, f);
    }
    var x, y := Normalize(k, r).fields, Normalize(k, q).fields;
    assert x == y <==> forall f :: f in k.schema ==> x[f] == y[f];
  }

  /** One record, as far as the catalogue goes. */
  ghost predicate SameRecord(k: Contract, r: Raw, q: Raw) {
    Identity(k, r) == Identity(k, q) && forall f :: f in k.schema ==> SameContent(k, r, q, f)
  }

  /** Two catalogues hold the same records. */
  ghost predicate SameRecords(k: Contract, rs: seq<Raw>, qs: seq<Raw>) {
    && (forall r :: r in rs ==> exists q :: q in qs && SameRecord(k, r, q))
    && (forall q :: q in qs ==> exists r :: r in rs && SameRecord(k, r, q))
  }

  lemma AcceptableAlike(k: Contract, r: Raw, q: Raw)
    requires Injective(k.enc) && Acceptable(k, r) && Acceptable(k, q)
    ensures SameRecord(k, r, q) <==> Normalize(k, r) == Normalize(k, q)
  {
    hide Identity, SameContent;
    AlikeIff(k, r, q);
  }

  lemma DistinctSameRecords(xs: seq<Record>, ys: seq<Record>)
    requires DistinctIn(xs) && DistinctIn(ys) && forall x :: x in xs <==> x in ys
    ensures multiset(xs) == multiset(ys)
  {
    forall x ensures multiset(xs)[x] == multiset(ys)[x] {
      OnceIn(xs, x);
      OnceIn(ys, x);
      assert x in multiset(xs) <==> x in xs;
      assert x in multiset(ys) <==> x in ys;
    }
  }

  /** Accepted catalogues match exactly when they hold the same records. */
  lemma MatchesIffSameRecords(k: Contract, rs: seq<Raw>, qs: seq<Raw>)
    requires Injective(k.enc) && CatalogOk(k, rs) && CatalogOk(k, qs)
    ensures Matches(k, rs, qs) <==> SameRecords(k, rs, qs)
  {
    hide SameRecord, Normalize, Identity, Acceptable, SameRecords;
    forall r, q | r in rs && q in qs ensures SameRecord(k, r, q) <==> Normalize(k, r) == Normalize(k, q) {
      var i :| 0 <= i < |rs| && rs[i] == r;
      var j :| 0 <= j < |qs| && qs[j] == q;
      AcceptableAlike(k, r, q);
    }
    if Matches(k, rs, qs) {
      SameElements(NormalizeAll(k, rs), NormalizeAll(k, qs));
      SameNormalized(k, rs, qs);
    }
    if SameRecords(k, rs, qs) {
      NormalizedSame(k, rs, qs);
      DistinctRecords(k, rs);
      DistinctRecords(k, qs);
      DistinctSameRecords(NormalizeAll(k, rs), NormalizeAll(k, qs));
    }
  }

  lemma SameNormalized(k: Contract, rs: seq<Raw>, qs: seq<Raw>)
    requires forall r, q :: r in rs && q in qs ==> (SameRecord(k, r, q) <==> Normalize(k, r) == Normalize(k, q))
    requires forall x :: x in NormalizeAll(k, rs) <==> x in NormalizeAll(k, qs)
    ensures SameRecords(k, rs, qs)
  {
    hide SameRecord, Normalize, NormalizeAll;
    forall r | r in rs ensures exists q :: q in qs && SameRecord(k, r, q) { NormalizedIn(k, rs, qs, r); }
    forall q | q in qs ensures exists r :: r in rs && SameRecord(k, r, q) { NormalizedIn(k, qs, rs, q); }
  }

  lemma NormalizedSame(k: Contract, rs: seq<Raw>, qs: seq<Raw>)
    requires forall r, q :: r in rs && q in qs ==> (SameRecord(k, r, q) <==> Normalize(k, r) == Normalize(k, q))
    requires SameRecords(k, rs, qs)
    ensures forall x :: x in NormalizeAll(k, rs) <==> x in NormalizeAll(k, qs)
  {
    hide SameRecord, Normalize, NormalizeAll;
    forall i | 0 <= i < |rs| ensures NormalizeAll(k, rs)[i] in NormalizeAll(k, qs) {
      assert rs[i] in rs;
      var q :| q in qs && SameRecord(k, rs[i], q);
      NormalizedAt(k, qs, q);
    }
    forall j | 0 <= j < |qs| ensures NormalizeAll(k, qs)[j] in NormalizeAll(k, rs) {
      assert qs[j] in qs;
      var r :| r in rs && SameRecord(k, r, qs[j]);
      NormalizedAt(k, rs, r);
    }
  }

  lemma NormalizedAt(k: Contract, rs: seq<Raw>, r: Raw)
    requires r in rs
    ensures Normalize(k, r) in NormalizeAll(k, rs)
  {
    hide Normalize;
    var i :| 0 <= i < |rs| && rs[i] == r;
    assert NormalizeAll(k, rs)[i] == Normalize(k, r);
  }

  lemma NormalizedIn(k: Contract, rs: seq<Raw>, qs: seq<Raw>, r: Raw)
    requires r in rs && forall x :: x in NormalizeAll(k, rs) ==> x in NormalizeAll(k, qs)
    ensures exists q :: q in qs && Normalize(k, r) == Normalize(k, q)
  {
    hide Normalize;
    var i :| 0 <= i < |rs| && rs[i] == r;
    assert NormalizeAll(k, rs)[i] in NormalizeAll(k, qs);
    var j :| 0 <= j < |qs| && NormalizeAll(k, qs)[j] == NormalizeAll(k, rs)[i];
    assert qs[j] in qs;
  }

  /** catalog_content_sha256, for any hash of the canonical records. */
  function ContentSha(k: Contract, h: seq<Record> -> string, raws: seq<Raw>): Result<string> {
    match CanonicalRecords(k, raws)
    case Ok(records) => Ok(h(records))
    case Err(e) => Err(e)
  }

  /** Without collisions, two accepted catalogues have one digest exactly when they hold the same records. */
  lemma DigestFaithful(k: Contract, h: seq<Record> -> string, rs: seq<Raw>, qs: seq<Raw>)
    requires Injective(k.enc) && forall x, y :: h(x) == h(y) ==> x == y
    requires ContentSha(k, h, rs).Ok? && ContentSha(k, h, qs).Ok?
    ensures ContentSha(k, h, rs) == ContentSha(k, h, qs) <==> SameRecords(k, rs, qs)
  {
    if ContentSha(k, h, rs) == ContentSha(k, h, qs) { EqualCatalogsMatch(k, rs, qs); }
    if Matches(k, rs, qs) { MatchingCatalogsAgree(k, rs, qs); }
    AcceptedIff(k, rs);
    AcceptedIff(k, qs);
    hide Collect, CatalogOk, Matches, SameRecords;
    MatchesIffSameRecords(k, rs, qs);
  }

  /** Records in any order, each rearranged, leave the verdict, the canonical records and the digest as they were. */
  lemma RearrangedCatalogsAgree(k: Contract, h: seq<Record> -> string, rs: seq<Raw>, permuted: seq<Raw>, qs: seq<Raw>)
    requires Injective(k.enc) && multiset(rs) == multiset(permuted)
    requires |permuted| == |qs| && forall i :: 0 <= i < |qs| ==> Rearranged(k, permuted[i], qs[i])
    ensures CanonicalRecords(k, rs).Ok? <==> CanonicalRecords(k, qs).Ok?
    ensures CanonicalRecords(k, rs).Ok? ==> ContentSha(k, h, rs) == ContentSha(k, h, qs)
  {
    hide Rearranged, Alike, CanonicalRecords, NormalizeAll, Acceptable;
    forall i | 0 <= i < |qs| ensures Alike(k, permuted[i], qs[i]) { RearrangedAlike(k, permuted[i], qs[i]); }
    PermutedMatches(k, rs, permuted);
    AlikeMatches(k, permuted, qs);
    MatchingCatalogsAgree(k, rs, qs);
  }

  // ---- what identifies a record ----

  /** t is s without the white space around it. */
  ghost predicate Stripped(s: string, t: string) {
    && (exists i, j :: 0 <= i <= j <= |s| && t == s[i..j] && Blank(s[..i]) && Blank(s[j..]))
    && (t != "" ==> !Whitespace(t[0]) && !Whitespace(t[|t| - 1]))
  }

  lemma {:induction false} LeftStripped(s: string) returns (i: nat)
    ensures i <= |s| && TrimLeft(s) == s[i..] && Blank(s[..i])
    ensures TrimLeft(s) != "" ==> !Whitespace(TrimLeft(s)[0])
  {
    i := 0;
    if s != "" && Whitespace(s[0]) {
      var n := LeftStripped(s[1..]);
      i := n + 1;
      assert s[1..][n..] == s[i..];
      assert s[..i] == [s[0]] + s[1..][..n];
    }
  }

  lemma {:induction false} RightStripped(s: string) returns (j: nat)
    ensures j <= |s| && TrimRight(s) == s[..j] && Blank(s[j..])
    ensures TrimRight(s) != "" ==> !Whitespace(TrimRight(s)[|TrimRight(s)| - 1])
  {
    j := |s|;
    if s != "" && Whitespace(s[|s| - 1]) {
      var front := s[..|s| - 1];
      j := RightStripped(front);
      assert front[..j] == s[..j];
      assert s[j..] == front[j..] + [s[|s| - 1]];
    }
  }

  lemma TrimStrips(s: string)
    ensures Stripped(s, TrimRight(TrimLeft(s)))
  {
    var i := LeftStripped(s);
    var left := TrimLeft(s);
    var n := RightStripped(left);
    var t := TrimRight(left);
    assert t == s[i..i + n] && s[i + n..] == left[n..];
    if t != "" { assert t[0] == left[0]; }
  }

  /** The text a field contributes, if it says anything. */
  function Named(k: Contract, raw: Raw, field: string): Option<string> {
    if field !in raw || !Truthy(raw[field]) then None
    else Some(if raw[field].Text? then raw[field].text else k.show(raw[field]))
  }

  /** A record is identified by its record id, else its source id, else its code, stripped; or not at all. */
  lemma IdentityMeans(k: Contract, raw: Raw)
    ensures var id, id2, id3 := Named(k, raw, RECORD_ID), Named(k, raw, SOURCE_ID), Named(k, raw, CODE);
            if id.Some? then Stripped(id.value, Identity(k, raw))
            else if id2.Some? then Stripped(id2.value, Identity(k, raw))
            else if id3.Some? then Stripped(id3.value, Identity(k, raw))
            else Identity(k, raw) == ""
  {
    hide Stripped, TrimLeft, TrimRight, Named, Truthy, Get, RECORD_ID, SOURCE_ID, CODE;
    NamedReads(k, raw, RECORD_ID);
    NamedReads(k, raw, SOURCE_ID);
    NamedReads(k, raw, CODE);
    var v := if Truthy(Get(raw, RECORD_ID)) then Get(raw, RECORD_ID)
             else if Truthy(Get(raw, SOURCE_ID)) then Get(raw, SOURCE_ID)
             else if Truthy(Get(raw, CODE)) then Get(raw, CODE)
             else Text("");
    TrimStrips(if v.Text? then v.text else k.show(v));
    EmptyTrims();
  }

  lemma NamedReads(k: Contract, raw: Raw, field: string)
    ensures var v := Get(raw, field);
            Named(k, raw, field) == if Truthy(v) then Some(if v.Text? then v.text else k.show(v)) else None
  {}

  lemma EmptyTrims()
    ensures TrimRight(TrimLeft("")) == ""
  {}
}
