/** Collision freedom can be had: payloads other than candidates are finite and discrete, so that some function into
    strings tells all of them apart. What is proved under CollisionFree(h) is therefore about something. */
module Encoding {
  import opened Prelude
  import opened Models
  import opened Records

  /** Payloads without their types. */
  datatype Term = Text(text: string) | Number(number: int) | Group(items: seq<Term>)

  function Unary(n: nat): string {
    if n == 0 then "." else "|" + Unary(n - 1)
  }

  /** Every code says where it ends. */
  function Code(t: Term): string
    decreases t
  {
    match t
    case Text(s) => "t" + (Unary(|s|) + s)
    case Number(n) => if n >= 0 then "p" + Unary(n) else "m" + Unary(-n)
    case Group(items) => "g" + (Unary(|items|) + Codes(items))
  }

  function Codes(ts: seq<Term>): string
    decreases ts
  {
    if ts == [] then "" else Code(ts[0]) + Codes(ts[1..])
  }

  lemma Associate(a: string, b: string, c: string)
    ensures (a + b) + c == a + (b + c)
  {}

  lemma CutHead(c: string, x: string, d: string, y: string)
    requires |c| == |d| && c + x == d + y
    ensures c == d && x == y
  {
    assert (c + x)[..|c|] == c && (d + y)[..|d|] == d;
    assert (c + x)[|c|..] == x && (d + y)[|d|..] == y;
  }

  lemma {:induction false} UnaryEnds(m: nat, n: nat, x: string, y: string)
    requires Unary(m) + x == Unary(n) + y
    ensures m == n && x == y
  {
    assert (Unary(m) + x)[0] == (if m == 0 then '.' else '|') && (Unary(n) + y)[0] == (if n == 0 then '.' else '|');
    if m == 0 {
      CutHead(".", x, ".", y);
    } else {
      Associate("|", Unary(m - 1), x);
      Associate("|", Unary(n - 1), y);
      CutHead("|", Unary(m - 1) + x, "|", Unary(n - 1) + y);
      UnaryEnds(m - 1, n - 1, x, y);
    }
  }

  /** A code with a length in front determines the length and what follows. */
  lemma LengthEnds(k: string, m: nat, a: string, x: string, l: string, n: nat, b: string, y: string)
    requires |k| == |l| == 1 && (k + (Unary(m) + a)) + x == (l + (Unary(n) + b)) + y
    ensures k == l && m == n && a + x == b + y
  {
    Associate(k, Unary(m) + a, x);
    Associate(l, Unary(n) + b, y);
    CutHead(k, (Unary(m) + a) + x, l, (Unary(n) + b) + y);
    Associate(Unary(m), a, x);
    Associate(Unary(n), b, y);
    UnaryEnds(m, n, a + x, b + y);
  }

  /** The three parts of a code: its kind, a length and the rest. */
  function Kind(t: Term): string {
    match t
    case Text(_) => "t"
    case Number(n) => if n >= 0 then "p" else "m"
    case Group(_) => "g"
  }

  function Length(t: Term): nat {
    match t
    case Text(s) => |s|
    case Number(n) => if n >= 0 then n else -n
    case Group(items) => |items|
  }

  function Rest(t: Term): string {
    match t
    case Text(s) => s
    case Number(_) => ""
    case Group(items) => Codes(items)
  }

  lemma CodeParts(t: Term)
    ensures Code(t) == Kind(t) + (Unary(Length(t)) + Rest(t))
  {
    if t.Number? { assert Unary(Length(t)) + "" == Unary(Length(t)); }
  }

  /** No code is a proper prefix of another. */
  lemma {:induction false} CodeEnds(t: Term, u: Term, x: string, y: string)
    requires Code(t) + x == Code(u) + y
    ensures t == u && x == y
    decreases t
  {
    CodeParts(t);
    CodeParts(u);
    LengthEnds(Kind(t), Length(t), Rest(t), x, Kind(u), Length(u), Rest(u), y);
    assert Kind(t)[0] == Kind(u)[0];
    match t
    case Text(s) => CutHead(s, x, u.text, y);
    case Number(_) => CutHead("", x, "", y);
    case Group(items) => CodesEnd(items, u.items, x, y);
  }

  lemma {:induction false} CodesEnd(ts: seq<Term>, us: seq<Term>, x: string, y: string)
    requires |ts| == |us| && Codes(ts) + x == Codes(us) + y
    ensures ts == us && x == y
    decreases ts
  {
    if ts == [] {
      CutHead("", x, "", y);
    } else {
      Associate(Code(ts[0]), Codes(ts[1..]), x);
      Associate(Code(us[0]), Codes(us[1..]), y);
      CodeEnds(ts[0], us[0], Codes(ts[1..]) + x, Codes(us[1..]) + y);
      CodesEnd(ts[1..], us[1..], x, y);
      assert ts == [ts[0]] + ts[1..] && us == [us[0]] + us[1..];
    }
  }

  // ---- payloads as terms ----

  function Texts(ss: seq<string>): (t: Term)
    ensures t.Group? && |t.items| == |ss| && forall i :: 0 <= i < |ss| ==> t.items[i] == Text(ss[i])
  {
    Group(seq(|ss|, i requires 0 <= i < |ss| => Text(ss[i])))
  }

  lemma TextsInjective(a: seq<string>, b: seq<string>)
    requires Texts(a) == Texts(b)
    ensures a == b
  {
    assert |a| == |b|;
    forall i | 0 <= i < |a| ensures a[i] == b[i] { assert Texts(a).items[i] == Text(a[i]) && Texts(b).items[i] == Text(b[i]); }
  }

  function Optional(s: Option<string>): Term {
    if s.Some? then Group([Text(s.value)]) else Group([])
  }

  lemma OptionalInjective(a: Option<string>, b: Option<string>)
    requires Optional(a) == Optional(b)
    ensures a == b
  {
    assert Optional(a).items == Optional(b).items;
    assert |Optional(a).items| == |Optional(b).items|;
    if a.Some? { assert Optional(a).items[0] == Optional(b).items[0]; }
  }

  function ModeTerm(m: ApprovalMode): Term {
    Number(match m case STANDARD => 0 case ASSUMPTION_ACCEPTANCE => 1 case REFERENCE_OVERRIDE => 2)
  }

  function OptionalMode(m: Option<ApprovalMode>): Term {
    if m.Some? then ModeTerm(m.value) else Number(-1)
  }

  function TierTerm(t: ResultTier): Term {
    Number(match t case PRIMARY_RECOMMENDATION => 0 case USABLE_WITH_ASSUMPTIONS => 1 case REFERENCE_ONLY => 2)
  }

  function AnchorTerm(a: Anchor): seq<Term> {
    [Text(a.name), Text(a.version), Number(a.content), Number(a.observedAt)]
  }

  function DetailsTerm(d: Details): seq<Term> {
    match d
    case StageDetails(content) => [Number(0), Number(content)]
    case DecisionDetails(id, reviewer, note, mode) => [Number(1), Text(id), Text(reviewer), Text(note), OptionalMode(mode)]
    case LockDetails(id, reviewer, tier, mode, assumptions, reason, warnings) =>
      [Number(2), Text(id), Text(reviewer), TierTerm(tier), ModeTerm(mode), Texts(assumptions), Optional(reason), Texts(warnings)]
  }

  lemma DetailsInjective(a: Details, b: Details)
    requires DetailsTerm(a) == DetailsTerm(b)
    ensures a == b
  {
    var s, t := DetailsTerm(a), DetailsTerm(b);
    assert s[0] == t[0] && s[1] == t[1];
    if a.DecisionDetails? {
      assert s[2] == t[2] && s[3] == t[3] && s[4] == t[4];
    } else if a.LockDetails? {
      assert s[2] == t[2] && s[3] == t[3] && s[4] == t[4] && s[5] == t[5] && s[6] == t[6] && s[7] == t[7];
      TextsInjective(a.acceptedAssumptions, b.acceptedAssumptions);
      OptionalInjective(a.overrideReason, b.overrideReason);
      TextsInjective(a.unresolvedWarnings, b.unresolvedWarnings);
    }
  }

  function EnvelopeTerm(e: Envelope): seq<Term> {
    [Text(e.traceId), Text(e.requestId), Text(e.requestFingerprint), Optional(e.rawFingerprint), Optional(e.businessFingerprint),
     Group(if e.databaseAnchor.Some? then AnchorTerm(e.databaseAnchor.value) else [])]
  }

  lemma AnchorInjective(a: Anchor, b: Anchor)
    requires AnchorTerm(a) == AnchorTerm(b)
    ensures a == b
  {
    var s, t := AnchorTerm(a), AnchorTerm(b);
    assert s[0] == t[0] && s[1] == t[1] && s[2] == t[2] && s[3] == t[3];
  }

  lemma EnvelopeInjective(a: Envelope, b: Envelope)
    requires EnvelopeTerm(a) == EnvelopeTerm(b)
    ensures a == b
  {
    var s, t := EnvelopeTerm(a), EnvelopeTerm(b);
    assert s[0] == t[0] && s[1] == t[1] && s[2] == t[2] && s[3] == t[3] && s[4] == t[4] && s[5] == t[5];
    OptionalInjective(a.rawFingerprint, b.rawFingerprint);
    OptionalInjective(a.businessFingerprint, b.businessFingerprint);
    assert |s[5].items| == |t[5].items|;
    if a.databaseAnchor.Some? { AnchorInjective(a.databaseAnchor.value, b.databaseAnchor.value); }
  }

  function StatusTerm(s: ResolutionStatus): Term {
    Number(match s
           case RECOMMENDATION_READY => 0 case UNRESOLVED => 1 case PROCESS_MODEL_REQUIRED => 2 case SUPPLIER_DATA_REQUIRED => 3
           case LOCKED_STATUS => 4 case ERROR_STATUS => 5 case MORE_INPUT_NEEDED => 6 case REFERENCE_REVIEW_REQUIRED => 7)
  }

  function ApprovalStatusTerm(s: ApprovalStatus): Term {
    Number(match s case PENDING => 0 case APPROVED => 1 case REJECTED => 2 case LOCKED => 3)
  }

  function OptionalNumber(n: Option<int>): Term {
    if n.Some? then Group([Number(n.value)]) else Group([])
  }

  lemma OptionalNumberInjective(a: Option<int>, b: Option<int>)
    requires OptionalNumber(a) == OptionalNumber(b)
    ensures a == b
  {
    assert |OptionalNumber(a).items| == |OptionalNumber(b).items|;
    if a.Some? { assert OptionalNumber(a).items[0] == OptionalNumber(b).items[0]; }
  }

  function ApprovalTerm(a: Approval): seq<Term> {
    [Text(a.requestId), Text(a.candidateId), Text(a.reviewer), ApprovalStatusTerm(a.status), Text(a.note), Number(a.createdAt),
     ModeTerm(a.mode), Optional(a.candidateSha), Optional(a.recommendationSha), OptionalNumber(a.recommendationRevision),
     Optional(a.databaseAnchor), Optional(a.registryAnchor), Optional(a.policyAnchor), OptionalNumber(a.traceRevision),
     Optional(a.traceChain), Optional(a.reviewerIdentity)]
  }

  lemma ApprovalInjective(a: Approval, b: Approval)
    requires ApprovalTerm(a) == ApprovalTerm(b)
    ensures a == b
  {
    hide Optional, OptionalNumber;
    var s, t := ApprovalTerm(a), ApprovalTerm(b);
    assert s[0] == t[0] && s[1] == t[1] && s[2] == t[2] && s[3] == t[3] && s[4] == t[4] && s[5] == t[5] && s[6] == t[6];
    OptionalInjective(a.candidateSha, b.candidateSha);
    OptionalInjective(a.recommendationSha, b.recommendationSha);
    OptionalNumberInjective(a.recommendationRevision, b.recommendationRevision);
    OptionalInjective(a.databaseAnchor, b.databaseAnchor);
    OptionalInjective(a.registryAnchor, b.registryAnchor);
    OptionalInjective(a.policyAnchor, b.policyAnchor);
    OptionalNumberInjective(a.traceRevision, b.traceRevision);
    OptionalInjective(a.traceChain, b.traceChain);
    OptionalInjective(a.reviewerIdentity, b.reviewerIdentity);
  }

  function EntryTerm(e: Entry): Term {
    Group([Number(e.revision), Text(e.stage), Text(e.message), Group(DetailsTerm(e.details)), Number(e.at), Text(e.previousHash), Text(e.entryHash)])
  }

  lemma EntryInjective(a: Entry, b: Entry)
    requires EntryTerm(a) == EntryTerm(b)
    ensures a == b
  {
    hide DetailsTerm;
    var s, t := EntryTerm(a).items, EntryTerm(b).items;
    assert s[0] == t[0] && s[1] == t[1] && s[2] == t[2] && s[3] == t[3] && s[4] == t[4] && s[5] == t[5] && s[6] == t[6];
    DetailsInjective(a.details, b.details);
  }

  function EntriesTerm(es: seq<Entry>): (t: Term)
    ensures t.Group? && |t.items| == |es| && forall i :: 0 <= i < |es| ==> t.items[i] == EntryTerm(es[i])
  {
    Group(seq(|es|, i requires 0 <= i < |es| => EntryTerm(es[i])))
  }

  lemma EntriesInjective(a: seq<Entry>, b: seq<Entry>)
    requires EntriesTerm(a) == EntriesTerm(b)
    ensures a == b
  {
    hide EntryTerm;
    assert |a| == |b|;
    forall i | 0 <= i < |a| ensures a[i] == b[i] {
      assert EntriesTerm(a).items[i] == EntryTerm(a[i]) && EntriesTerm(b).items[i] == EntryTerm(b[i]);
      EntryInjective(a[i], b[i]);
    }
  }

  function PayloadTerm(p: Payload): seq<Term>
    requires Discrete(p)
  {
    match p
    case EntryPayload(revision, stage, message, details, at, previousHash) =>
      [Number(0), Number(revision), Text(stage), Text(message), Group(DetailsTerm(details)), Number(at), Text(previousHash)]
    case ChainPayload(unanchored, anchorSha, revision, hashes) =>
      [Number(1), Group(EnvelopeTerm(unanchored)), Optional(anchorSha), Number(revision), Texts(hashes)]
    case AnchorPayload(anchor) => [Number(2), Group(AnchorTerm(anchor))]
    case RecommendationPayload(id, revision, status, candidates, reviewable, diagnostics, content, database, registry, policy) =>
      [Number(3), Text(id), Number(revision), StatusTerm(status), Texts(candidates), Texts(reviewable), Texts(diagnostics), Number(content),
       Optional(database), Optional(registry), Optional(policy)]
    case ApprovalPayload(a) => [Number(4), Group(ApprovalTerm(a))]
    case SnapshotPayload(id, traceId, revision, chain, anchor, registry, policy, entries) =>
      [Number(5), Text(id), Text(traceId), Number(revision), Text(chain), Text(anchor), Optional(registry), Optional(policy), EntriesTerm(entries)]
  }

  lemma RecommendationInjective(p: Payload, q: Payload)
    requires p.RecommendationPayload? && q.RecommendationPayload? && PayloadTerm(p) == PayloadTerm(q)
    ensures p == q
  {
    hide Optional, Texts;
    var s, t := PayloadTerm(p), PayloadTerm(q);
    assert s[1] == t[1] && s[2] == t[2] && s[3] == t[3] && s[4] == t[4] && s[5] == t[5] && s[6] == t[6] && s[7] == t[7];
    assert s[8] == t[8] && s[9] == t[9] && s[10] == t[10];
    TextsInjective(p.candidateDigests, q.candidateDigests);
    TextsInjective(p.reviewableDigests, q.reviewableDigests);
    TextsInjective(p.diagnosticDigests, q.diagnosticDigests);
    OptionalInjective(p.databaseAnchor, q.databaseAnchor);
    OptionalInjective(p.registryAnchor, q.registryAnchor);
    OptionalInjective(p.policyAnchor, q.policyAnchor);
  }

  lemma SnapshotInjective(p: Payload, q: Payload)
    requires p.SnapshotPayload? && q.SnapshotPayload? && PayloadTerm(p) == PayloadTerm(q)
    ensures p == q
  {
    hide Optional, EntriesTerm;
    var s, t := PayloadTerm(p), PayloadTerm(q);
    assert s[1] == t[1] && s[2] == t[2] && s[3] == t[3] && s[4] == t[4] && s[5] == t[5] && s[6] == t[6] && s[7] == t[7] && s[8] == t[8];
    OptionalInjective(p.registryAnchor, q.registryAnchor);
    OptionalInjective(p.policyAnchor, q.policyAnchor);
    EntriesInjective(p.entries, q.entries);
  }

  lemma PayloadInjective(p: Payload, q: Payload)
    requires Discrete(p) && Discrete(q) && PayloadTerm(p) == PayloadTerm(q)
    ensures p == q
  {
    hide DetailsTerm, EnvelopeTerm, AnchorTerm, Optional, Texts;
    var s, t := PayloadTerm(p), PayloadTerm(q);
    assert s[0] == t[0] && s[1] == t[1];
    match p
    case EntryPayload(_, _, _, details, _, _) =>
      assert s[2] == t[2] && s[3] == t[3] && s[4] == t[4] && s[5] == t[5] && s[6] == t[6];
      DetailsInjective(details, q.details);
    case ChainPayload(unanchored, anchorSha, _, hashes) =>
      assert s[2] == t[2] && s[3] == t[3] && s[4] == t[4];
      EnvelopeInjective(unanchored, q.unanchored);
      OptionalInjective(anchorSha, q.anchorSha);
      TextsInjective(hashes, q.hashes);
    case AnchorPayload(anchor) => AnchorInjective(anchor, q.anchor);
    case ApprovalPayload(a) => ApprovalInjective(a, q.approval);
    case RecommendationPayload(_, _, _, _, _, _, _, _, _, _) => RecommendationInjective(p, q);
    case SnapshotPayload(_, _, _, _, _, _, _, _) => SnapshotInjective(p, q);
  }

  function Spelling(p: Payload): Digest {
    if Discrete(p) then Code(Group(PayloadTerm(p))) else ""
  }

  /** The assumption of the collision-free results can be met. */
  lemma CollisionFreeExists()
    ensures CollisionFree(Spelling)
  {
    forall p, q | Discrete(p) && Discrete(q) && Spelling(p) == Spelling(q) ensures p == q {
      var s, t := PayloadTerm(p), PayloadTerm(q);
      assert Code(Group(s)) + "" == Code(Group(t)) + "";
      CodeEnds(Group(s), Group(t), "", "");
      PayloadInjective(p, q);
    }
  }
}
