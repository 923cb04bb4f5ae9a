/** The idempotency protocol of POST /api/v1/resolve (api.py): a lock per scope and request id, owner
    reservation, fingerprint binding and rollback. */
module Http {
  import opened Prelude

  type Scope = (string, string)
  type Key = (Scope, string)

  /** PUBLIC has one scope and no owners; ADMIN takes the scope from the authorization context. */
  datatype Surface = PUBLIC | ADMIN

  const PUBLIC_SCOPE: Scope := ("__public__", "__public__")

  /** A parsed request; the fingerprint hashes every business input, but not the request id. */
  datatype Post = Post(scope: Scope, requestId: string, fingerprint: string)

  /** A stored recommendation: its content, and whether its public form can be built at all. */
  datatype Stored = Stored(content: string, serializes: bool)

  datatype Response =
    | Replayed(result: string)
    | Created(result: string)
    | ScopeConflict
    | PayloadConflict
    | UnboundConflict
    | InvalidRequest
    | InternalError

  /** Where a handler is suspended: on the lock, on resolver.state, or on resolver.resolve. */
  datatype Handler =
    | Waiting(post: Post)
    | ReadingState(post: Post, reservedNew: bool, known: Option<string>)
    | Resolving(post: Post, reservedNew: bool)
    | Answered(post: Post, response: Response)

  /** How an awaited call of the resolver ends: resolve returns the result it stored, or refuses with a
      ValueError, or raises anything else; state only reads, and its success is what is stored. */
  datatype Outcome = Success(result: Stored) | Refused | Crashed

  datatype Server = Server(
    surface: Surface,
    owners: map<string, Scope>,
    fingerprints: map<Key, string>,
    held: set<Key>,
    stored: map<string, Stored>)

  function KeyOf(p: Post): Key {
    (p.scope, p.requestId)
  }

  function Lookup<K(==), V>(m: map<K, V>, k: K): Option<V> {
    if k in m then Some(m[k]) else None
  }

  // ---- the three segments of the handler ----

  /** From acquiring the lock to awaiting resolver.state. */
  function Enter(s: Server, p: Post): (Server, Handler) {
    var key := KeyOf(p);
    var owner := Lookup(s.owners, p.requestId);
    if s.surface == ADMIN && owner.Some? && owner.value != p.scope then (s, Answered(p, ScopeConflict))
    else
      var reservedNew := s.surface == ADMIN && owner.None?;
      var reserved := if s.surface == ADMIN then s.(owners := s.owners[p.requestId := p.scope]) else s;
      var known := Lookup(s.fingerprints, key);
      if known.Some? && known.value != p.fingerprint then (Unreserve(reserved, p, reservedNew), Answered(p, PayloadConflict))
      else (reserved.(held := reserved.held + {key}), ReadingState(p, reservedNew, known))
  }

  function Unreserve(s: Server, p: Post, reservedNew: bool): Server {
    if reservedNew then s.(owners := s.owners - {p.requestId}) else s
  }

  function Release(s: Server, p: Post): Server {
    s.(held := s.held - {KeyOf(p)})
  }

  /** The public form of a recommendation, or the failure to build it. */
  function Serialized(response: Response, stored: Stored): Response {
    if stored.serializes then response else InternalError
  }

  /** From the end of resolver.state to awaiting resolver.resolve. That call stands outside the try: when it
      raises, only the lock is released, and a new reservation stays. */
  function AfterState(s: Server, p: Post, reservedNew: bool, known: Option<string>, outcome: Outcome): (Server, Handler) {
    if !outcome.Success? then (Release(s, p), Answered(p, InternalError))
    else if p.requestId in s.stored then
      if known.None? then (Release(Unreserve(s, p, reservedNew), p), Answered(p, UnboundConflict))
      else (Release(s, p), Answered(p, Serialized(Replayed(s.stored[p.requestId].content), s.stored[p.requestId])))
    else (s.(fingerprints := s.fingerprints[KeyOf(p) := p.fingerprint]), Resolving(p, reservedNew))
  }

  /** From the end of resolver.resolve to the response; the engine refuses an id it has already stored. */
  function AfterResolve(s: Server, p: Post, reservedNew: bool, outcome: Outcome): (Server, Handler) {
    if outcome.Success? && p.requestId !in s.stored then
      (Release(s.(stored := s.stored[p.requestId := outcome.result]), p),
       Answered(p, Serialized(Created(outcome.result.content), outcome.result)))
    else
      (Release(Unreserve(s.(fingerprints := s.fingerprints - {KeyOf(p)}), p, reservedNew), p),
       Answered(p, if outcome.Crashed? then InternalError else InvalidRequest))
  }

  /** Let one handler run to its next await. A handler whose lock is taken stays where it is. */
  function Step(s: Server, h: Handler, outcome: Outcome): (Server, Handler) {
    match h
    case Waiting(p) => if KeyOf(p) in s.held then (s, h) else Enter(s, p)
    case ReadingState(p, reservedNew, known) => AfterState(s, p, reservedNew, known, outcome)
    case Resolving(p, reservedNew) => AfterResolve(s, p, reservedNew, outcome)
    case Answered(_, _) => (s, h)
  }

  // ---- the handler's dictionaries ----

  /** The dictionaries the routes share, and the engine's store. */
  class ResolveRoute {
    const surface: Surface
    var owners: map<string, Scope>
    var fingerprints: map<Key, string>
    var held: set<Key>
    var stored: map<string, Stored>

    constructor (surface: Surface)
      ensures this.surface == surface && Value() == Server(surface, map[], map[], {}, map[])
    {
      this.surface := surface;
      owners, fingerprints, held, stored := map[], map[], {}, map[];
    }

    function Value(): Server
      reads this
    {
      Server(surface, owners, fingerprints, held, stored)
    }

    method EnterLocked(p: Post) returns (next: Handler)
      requires KeyOf(p) !in held
      modifies this`owners, this`held
      ensures (Value(), next) == Enter(old(Value()), p)
    {
      var key, reservedNew := KeyOf(p), false;
      held := held + {key};
      if surface == ADMIN {
        var owner := Lookup(owners, p.requestId);
        if owner.Some? && owner.value != p.scope {
          held := held - {key};
          assert held == old(held);
          return Answered(p, ScopeConflict);
        }
        reservedNew := owner.None?;
        owners := owners[p.requestId := p.scope];
      }
      var known := Lookup(fingerprints, key);
      if known.Some? && known.value != p.fingerprint {
        if reservedNew {
          owners := owners - {p.requestId};
        }
        held := held - {key};
        assert held == old(held);
        return Answered(p, PayloadConflict);
      }
      next := ReadingState(p, reservedNew, known);
    }

    method ResumeWithState(p: Post, reservedNew: bool, known: Option<string>, outcome: Outcome) returns (next: Handler)
      modifies this`owners, this`held, this`fingerprints
      ensures (Value(), next) == AfterState(old(Value()), p, reservedNew, known, outcome)
    {
      if !outcome.Success? {
        held := held - {KeyOf(p)};
        return Answered(p, InternalError);
      }
      if p.requestId in stored {
        held := held - {KeyOf(p)};
        if known.None? {
          if reservedNew {
            owners := owners - {p.requestId};
          }
          return Answered(p, UnboundConflict);
        }
        var existing := stored[p.requestId];
        return Answered(p, if existing.serializes then Replayed(existing.content) else InternalError);
      }
      fingerprints := fingerprints[KeyOf(p) := p.fingerprint];
      next := Resolving(p, reservedNew);
    }

    method ResumeWithResult(p: Post, reservedNew: bool, outcome: Outcome) returns (next: Handler)
      modifies this`owners, this`held, this`fingerprints, this`stored
      ensures (Value(), next) == AfterResolve(old(Value()), p, reservedNew, outcome)
    {
      held := held - {KeyOf(p)};
      if outcome.Success? && p.requestId !in stored {
        stored := stored[p.requestId := outcome.result];
        return Answered(p, if outcome.result.serializes then Created(outcome.result.content) else InternalError);
      }
      fingerprints := fingerprints - {KeyOf(p)};
      if reservedNew {
        owners := owners - {p.requestId};
      }
      next := Answered(p, if outcome.Crashed? then InternalError else InvalidRequest);
    }
  }

  // ---- the whole system ----

  datatype Config = Config(server: Server, handlers: seq<Handler>)

  datatype Action = Arrive(post: Post) | Advance(handler: nat, outcome: Outcome)

  function Apply(c: Config, a: Action): Config {
    match a
    case Arrive(p) => c.(handlers := c.handlers + [Waiting(p)])
    case Advance(i, outcome) =>
      if i < |c.handlers| then
        var (s, h) := Step(c.server, c.handlers[i], outcome);
        Config(s, c.handlers[i := h])
      else c
  }

  function Run(c: Config, actions: seq<Action>): Config
    decreases |actions|
  {
    if actions == [] then c else Run(Apply(c, actions[0]), actions[1..])
  }

  function Initial(surface: Surface): Config {
    Config(Server(surface, map[], map[], {}, map[]), [])
  }

  /** On the public surface every request has the public scope. */
  predicate Admitted(surface: Surface, actions: seq<Action>) {
    surface == PUBLIC ==> forall i :: 0 <= i < |actions| && actions[i].Arrive? ==> actions[i].post.scope == PUBLIC_SCOPE
  }

  // ---- the invariant, one request id at a time ----

  predicate Active(h: Handler) {
    h.ReadingState? || h.Resolving?
  }

  predicate Busy(c: Config, id: string, i: int) {
    0 <= i < |c.handlers| && Active(c.handlers[i]) && c.handlers[i].post.requestId == id
  }

  predicate Owns(s: Server, scope: Scope, id: string) {
    if s.surface == ADMIN then id in s.owners && s.owners[id] == scope else scope == PUBLIC_SCOPE
  }

  /** What a handler holding the lock of its key may rely on. */
  predicate HandlerOk(s: Server, h: Handler)
    requires Active(h)
  {
    var p, key := h.post, KeyOf(h.post);
    && Owns(s, p.scope, p.requestId)
    && match h
       case ReadingState(_, reservedNew, known) =>
         && known == Lookup(s.fingerprints, key)
         && (known.Some? ==> known.value == p.fingerprint)
         && (known.Some? <==> p.requestId in s.stored)
         && (reservedNew ==> s.surface == ADMIN && known.None?)
       case Resolving(_, reservedNew) =>
         && key in s.fingerprints && s.fingerprints[key] == p.fingerprint
         && p.requestId !in s.stored
         && (reservedNew ==> s.surface == ADMIN)
  }

  ghost predicate Bound(s: Server, id: string) {
    exists scope :: (scope, id) in s.fingerprints
  }

  /** With no handler in flight an id is bound exactly when it is stored, and then it is owned. */
  ghost predicate Settled(s: Server, id: string) {
    && (Bound(s, id) <==> id in s.stored)
    && (s.surface == ADMIN && id in s.stored ==> id in s.owners)
  }

  ghost predicate IdInv(c: Config, id: string) {
    && (forall i, j :: Busy(c, id, i) && Busy(c, id, j) ==> i == j)
    && (forall scope :: (scope, id) in c.server.held <==> exists i :: Busy(c, id, i) && c.handlers[i].post.scope == scope)
    && (forall scope :: (scope, id) in c.server.fingerprints ==> Owns(c.server, scope, id))
    && (forall i :: Busy(c, id, i) ==> HandlerOk(c.server, c.handlers[i]))
    && ((forall i :: !Busy(c, id, i)) ==> Settled(c.server, id))
  }

  ghost predicate Inv(c: Config) {
    && (forall id :: IdInv(c, id))
    && (c.server.surface == PUBLIC ==> forall i :: 0 <= i < |c.handlers| ==> c.handlers[i].post.scope == PUBLIC_SCOPE)
  }

  /** The two servers agree about an id. */
  ghost predicate SameId(s: Server, t: Server, id: string) {
    && s.surface == t.surface
    && Lookup(s.owners, id) == Lookup(t.owners, id)
    && Lookup(s.stored, id) == Lookup(t.stored, id)
    && (forall scope :: Lookup(s.fingerprints, (scope, id)) == Lookup(t.fingerprints, (scope, id)))
    && (forall scope :: (scope, id) in s.held <==> (scope, id) in t.held)
  }

  lemma StepFrame(s: Server, h: Handler, outcome: Outcome, id: string)
    requires h.post.requestId != id
    ensures SameId(s, Step(s, h, outcome).0, id)
    ensures Step(s, h, outcome).1.post == h.post
  {}

  lemma StepSamePost(s: Server, h: Handler, outcome: Outcome)
    ensures Step(s, h, outcome).1.post == h.post && Step(s, h, outcome).0.surface == s.surface
  {}

  /** A step about one id does not disturb another. */
  lemma OtherIdInv(c: Config, i: nat, outcome: Outcome, id: string)
    requires i < |c.handlers| && c.handlers[i].post.requestId != id && IdInv(c, id)
    ensures IdInv(Apply(c, Advance(i, outcome)), id)
  {
    var d := Apply(c, Advance(i, outcome));
    StepFrame(c.server, c.handlers[i], outcome, id);
    hide Step;
    assert forall j :: 0 <= j < |c.handlers| && j != i ==> d.handlers[j] == c.handlers[j];
    assert forall j :: Busy(d, id, j) <==> Busy(c, id, j);
    assert Bound(d.server, id) <==> Bound(c.server, id) by {
      forall scope ensures (scope, id) in d.server.fingerprints <==> (scope, id) in c.server.fingerprints {
        assert Lookup(c.server.fingerprints, (scope, id)) == Lookup(d.server.fingerprints, (scope, id));
      }
    }
    forall scope | (scope, id) in d.server.fingerprints ensures Owns(d.server, scope, id) {
      assert Lookup(c.server.fingerprints, (scope, id)) == Lookup(d.server.fingerprints, (scope, id));
    }
    forall j | Busy(d, id, j) ensures HandlerOk(d.server, d.handlers[j]) {
      assert HandlerOk(c.server, c.handlers[j]);
    }
  }

  /** Nobody is in flight for an id whose key is free, unless another scope owns it. */
  lemma FreeKey(c: Config, p: Post)
    requires IdInv(c, p.requestId) && KeyOf(p) !in c.server.held
    requires c.server.surface == PUBLIC ==> p.scope == PUBLIC_SCOPE
    ensures (exists i :: Busy(c, p.requestId, i)) ==>
      c.server.surface == ADMIN && p.requestId in c.server.owners && c.server.owners[p.requestId] != p.scope
  {
    if i :| Busy(c, p.requestId, i) {
      assert HandlerOk(c.server, c.handlers[i]);
      assert (c.handlers[i].post.scope, p.requestId) in c.server.held;
    }
  }

  /** The invariant of an id after one handler of that id moved from idle to h. */
  lemma NowBusy(c: Config, d: Config, i: nat, id: string)
    requires i < |c.handlers| == |d.handlers| && d.handlers == c.handlers[i := d.handlers[i]]
    requires forall j :: j != i ==> !Busy(c, id, j)
    requires Busy(d, id, i) && HandlerOk(d.server, d.handlers[i])
    requires forall scope :: (scope, id) in d.server.held <==> scope == d.handlers[i].post.scope
    requires forall scope :: (scope, id) in d.server.fingerprints ==> Owns(d.server, scope, id)
    ensures IdInv(d, id)
  {
    assert forall j :: j != i && Busy(d, id, j) ==> Busy(c, id, j);
  }

  lemma NowIdle(c: Config, d: Config, i: nat, id: string)
    requires i < |c.handlers| == |d.handlers| && d.handlers == c.handlers[i := d.handlers[i]]
    requires forall j :: j != i ==> !Busy(c, id, j)
    requires !Active(d.handlers[i])
    requires forall scope :: (scope, id) !in d.server.held
    requires forall scope :: (scope, id) in d.server.fingerprints ==> Owns(d.server, scope, id)
    requires Settled(d.server, id)
    ensures IdInv(d, id)
  {
    assert forall j :: j != i && Busy(d, id, j) ==> Busy(c, id, j);
  }

  /** A handler that is answered without touching the server leaves everybody else as they were. */
  lemma AnsweredIdle(c: Config, d: Config, i: nat, id: string)
    requires i < |c.handlers| == |d.handlers| && d == c.(handlers := c.handlers[i := d.handlers[i]])
    requires !Active(c.handlers[i]) && !Active(d.handlers[i]) && IdInv(c, id)
    ensures IdInv(d, id)
  {
    assert forall j :: 0 <= j < |c.handlers| && j != i ==> d.handlers[j] == c.handlers[j];
    assert forall j :: Busy(d, id, j) <==> Busy(c, id, j);
  }

  lemma EnterInv(c: Config, i: nat)
    requires i < |c.handlers| && c.handlers[i].Waiting? && IdInv(c, c.handlers[i].post.requestId)
    requires KeyOf(c.handlers[i].post) !in c.server.held
    requires c.server.surface == PUBLIC ==> c.handlers[i].post.scope == PUBLIC_SCOPE
    ensures var (s, h) := Enter(c.server, c.handlers[i].post); IdInv(Config(s, c.handlers[i := h]), c.handlers[i].post.requestId)
  {
    var p := c.handlers[i].post;
    var (s, h) := Enter(c.server, p);
    var d := Config(s, c.handlers[i := h]);
    FreeKey(c, p);
    if h.ReadingState? {
      EnterReads(c.server, p);
      NowBusy(c, d, i, p.requestId);
    } else {
      EnterConflict(c.server, p);
      AnsweredIdle(c, d, i, p.requestId);
    }
  }

  lemma EnterReads(s: Server, p: Post)
    requires Settled(s, p.requestId) && Enter(s, p).1.ReadingState?
    requires s.surface == PUBLIC ==> p.scope == PUBLIC_SCOPE
    requires forall scope :: (scope, p.requestId) in s.fingerprints ==> Owns(s, scope, p.requestId)
    ensures HandlerOk(Enter(s, p).0, Enter(s, p).1)
    ensures forall scope :: (scope, p.requestId) in Enter(s, p).0.fingerprints ==> Owns(Enter(s, p).0, scope, p.requestId)
    ensures Enter(s, p).0.held == s.held + {KeyOf(p)}
  {
    if p.requestId in s.stored {
      var scope :| (scope, p.requestId) in s.fingerprints;
      assert Owns(s, scope, p.requestId);
    }
  }

  lemma EnterConflict(s: Server, p: Post)
    requires Enter(s, p).1.Answered?
    requires forall scope :: (scope, p.requestId) in s.fingerprints ==> Owns(s, scope, p.requestId)
    ensures Enter(s, p).0 == s
  {
    if KeyOf(p) in s.fingerprints { assert Owns(s, p.scope, p.requestId); }
    assert p.requestId in s.owners ==> s.owners[p.requestId := s.owners[p.requestId]] == s.owners;
  }

  /** A handler that leaves its critical section was the only one in flight for its id. */
  lemma OnlyBusy(c: Config, i: nat)
    requires i < |c.handlers| && Active(c.handlers[i]) && IdInv(c, c.handlers[i].post.requestId)
    ensures forall j :: j != i ==> !Busy(c, c.handlers[i].post.requestId, j)
    ensures forall scope :: (scope, c.handlers[i].post.requestId) in c.server.held <==> scope == c.handlers[i].post.scope
    ensures HandlerOk(c.server, c.handlers[i])
  {
    assert Busy(c, c.handlers[i].post.requestId, i);
  }

  lemma AfterStateInv(c: Config, i: nat, outcome: Outcome)
    requires i < |c.handlers| && c.handlers[i].ReadingState? && IdInv(c, c.handlers[i].post.requestId)
    ensures var h := c.handlers[i];
            var (s, next) := AfterState(c.server, h.post, h.reservedNew, h.known, outcome);
            IdInv(Config(s, c.handlers[i := next]), h.post.requestId)
  {
    var h, id := c.handlers[i], c.handlers[i].post.requestId;
    var (s, next) := AfterState(c.server, h.post, h.reservedNew, h.known, outcome);
    var d := Config(s, c.handlers[i := next]);
    OnlyBusy(c, i);
    if next.Resolving? {
      NowBusy(c, d, i, id);
    } else {
      AfterStateSettles(c.server, h, outcome);
      NowIdle(c, d, i, id);
    }
  }

  lemma AfterStateSettles(s: Server, h: Handler, outcome: Outcome)
    requires h.ReadingState? && HandlerOk(s, h)
    requires forall scope :: (scope, h.post.requestId) in s.held <==> scope == h.post.scope
    requires forall scope :: (scope, h.post.requestId) in s.fingerprints ==> Owns(s, scope, h.post.requestId)
    requires AfterState(s, h.post, h.reservedNew, h.known, outcome).1.Answered?
    ensures var t, id := AfterState(s, h.post, h.reservedNew, h.known, outcome).0, h.post.requestId;
            && Settled(t, id)
            && (forall scope :: (scope, id) !in t.held)
            && (forall scope :: (scope, id) in t.fingerprints ==> Owns(t, scope, id))
  {
    var t, id := AfterState(s, h.post, h.reservedNew, h.known, outcome).0, h.post.requestId;
    assert t == Release(s, h.post);
    if id in s.stored { assert (h.post.scope, id) in t.fingerprints; }
    if Bound(t, id) {
      var scope :| (scope, id) in t.fingerprints;
      assert Owns(s, scope, id) && scope == h.post.scope;
    }
  }

  lemma AfterResolveInv(c: Config, i: nat, outcome: Outcome)
    requires i < |c.handlers| && c.handlers[i].Resolving? && IdInv(c, c.handlers[i].post.requestId)
    ensures var h := c.handlers[i];
            var (s, next) := AfterResolve(c.server, h.post, h.reservedNew, outcome);
            IdInv(Config(s, c.handlers[i := next]), h.post.requestId)
  {
    var h, id := c.handlers[i], c.handlers[i].post.requestId;
    var (s, next) := AfterResolve(c.server, h.post, h.reservedNew, outcome);
    OnlyBusy(c, i);
    AfterResolveSettles(c.server, h, outcome);
    NowIdle(c, Config(s, c.handlers[i := next]), i, id);
  }

  lemma AfterResolveSettles(s: Server, h: Handler, outcome: Outcome)
    requires h.Resolving? && HandlerOk(s, h)
    requires forall scope :: (scope, h.post.requestId) in s.held <==> scope == h.post.scope
    requires forall scope :: (scope, h.post.requestId) in s.fingerprints ==> Owns(s, scope, h.post.requestId)
    ensures var t, id := AfterResolve(s, h.post, h.reservedNew, outcome).0, h.post.requestId;
            && Settled(t, id)
            && (forall scope :: (scope, id) !in t.held)
            && (forall scope :: (scope, id) in t.fingerprints ==> Owns(t, scope, id))
  {
    var t, id := AfterResolve(s, h.post, h.reservedNew, outcome).0, h.post.requestId;
    if id in t.stored { assert (h.post.scope, id) in t.fingerprints; }
  }

  /** One move of anybody keeps the invariant of every request id. */
  lemma ApplyInv(c: Config, a: Action)
    requires Inv(c) && (c.server.surface == PUBLIC && a.Arrive? ==> a.post.scope == PUBLIC_SCOPE)
    ensures Inv(Apply(c, a)) && Apply(c, a).server.surface == c.server.surface
  {
    var d := Apply(c, a);
    match a
    case Arrive(p) =>
      forall id ensures IdInv(d, id) { ArriveInv(c, p, id); }
    case Advance(i, outcome) =>
      if i < |c.handlers| {
        StepSamePost(c.server, c.handlers[i], outcome);
        forall id ensures IdInv(d, id) {
          assert IdInv(c, id);
          if id == c.handlers[i].post.requestId { OwnIdInv(c, i, outcome); } else { OtherIdInv(c, i, outcome, id); }
        }
        hide IdInv, Step;
      }
  }

  lemma ArriveInv(c: Config, p: Post, id: string)
    requires IdInv(c, id)
    ensures IdInv(Apply(c, Arrive(p)), id)
  {
    var d := Apply(c, Arrive(p));
    assert forall j :: 0 <= j < |c.handlers| ==> d.handlers[j] == c.handlers[j];
    assert forall j :: Busy(d, id, j) <==> Busy(c, id, j);
  }

  lemma OwnIdInv(c: Config, i: nat, outcome: Outcome)
    requires i < |c.handlers| && IdInv(c, c.handlers[i].post.requestId)
    requires c.server.surface == PUBLIC ==> c.handlers[i].post.scope == PUBLIC_SCOPE
    ensures IdInv(Apply(c, Advance(i, outcome)), c.handlers[i].post.requestId)
  {
    hide IdInv, Enter, AfterState, AfterResolve;
    match c.handlers[i]
    case Waiting(p) =>
      if KeyOf(p) in c.server.held { assert Apply(c, Advance(i, outcome)) == c; } else { EnterInv(c, i); }
    case ReadingState(_, _, _) => AfterStateInv(c, i, outcome);
    case Resolving(_, _) => AfterResolveInv(c, i, outcome);
    case Answered(_, _) => assert Apply(c, Advance(i, outcome)) == c;
  }

  lemma {:induction false} RunInv(c: Config, actions: seq<Action>)
    requires Inv(c) && Admitted(c.server.surface, actions)
    ensures Inv(Run(c, actions)) && Run(c, actions).server.surface == c.server.surface
    decreases |actions|
  {
    hide Inv, Apply;
    if actions != [] {
      ApplyInv(c, actions[0]);
      assert Admitted(c.server.surface, actions[1..]);
      RunInv(Apply(c, actions[0]), actions[1..]);
    }
  }

  lemma InitialInv(surface: Surface)
    ensures Inv(Initial(surface))
  {}

  function Reach(surface: Surface, actions: seq<Action>): Config {
    Run(Initial(surface), actions)
  }

  lemma ReachInv(surface: Surface, actions: seq<Action>)
    requires Admitted(surface, actions)
    ensures Inv(Reach(surface, actions)) && Reach(surface, actions).server.surface == surface
  {
    InitialInv(surface);
    RunInv(Initial(surface), actions);
  }

  // ---- what every interleaving guarantees ----

  /** At most one handler, hence one scope and one run of the engine, is in flight for a request id, and on
      the admin surface its scope is the owner. */
  lemma OneInFlight(surface: Surface, actions: seq<Action>, i: nat, j: nat)
    requires Admitted(surface, actions) && i < |Reach(surface, actions).handlers| && j < |Reach(surface, actions).handlers|
    ensures var c := Reach(surface, actions);
            Active(c.handlers[i]) && Active(c.handlers[j]) && c.handlers[i].post.requestId == c.handlers[j].post.requestId ==>
              i == j && Owns(c.server, c.handlers[i].post.scope, c.handlers[i].post.requestId)
  {
    ReachInv(surface, actions);
    var c := Reach(surface, actions);
    if Active(c.handlers[i]) && Active(c.handlers[j]) && c.handlers[i].post.requestId == c.handlers[j].post.requestId {
      assert IdInv(c, c.handlers[i].post.requestId);
      assert Busy(c, c.handlers[i].post.requestId, i) && Busy(c, c.handlers[i].post.requestId, j);
    }
  }

  /** This action is a resolver.state that raises for a handler whose reservation is new: its id stays reserved. */
  predicate Leaks(c: Config, a: Action, id: string) {
    && a.Advance? && a.handler < |c.handlers| && !a.outcome.Success?
    && c.handlers[a.handler].ReadingState? && c.handlers[a.handler].reservedNew && c.handlers[a.handler].post.requestId == id
  }

  /** Some action of the run left id reserved. */
  predicate Leaked(c: Config, actions: seq<Action>, id: string)
    decreases |actions|
  {
    actions != [] && (Leaks(c, actions[0], id) || Leaked(Apply(c, actions[0]), actions[1..], id))
  }

  /** A reservation is new exactly if the id is neither stored nor left reserved; an idle id is owned exactly
      if it is one of them. */
  ghost predicate LeakInv(c: Config, id: string, leaked: bool) {
    c.server.surface == ADMIN ==>
      && (forall i :: Busy(c, id, i) ==> (c.handlers[i].reservedNew <==> !leaked && id !in c.server.stored))
      && ((forall i :: !Busy(c, id, i)) ==> (id in c.server.owners <==> leaked || id in c.server.stored))
  }

  lemma OtherIdLeak(c: Config, i: nat, outcome: Outcome, id: string, leaked: bool)
    requires i < |c.handlers| && c.handlers[i].post.requestId != id && LeakInv(c, id, leaked)
    ensures LeakInv(Apply(c, Advance(i, outcome)), id, leaked)
  {
    var d := Apply(c, Advance(i, outcome));
    StepFrame(c.server, c.handlers[i], outcome, id);
    hide Step;
    assert forall j :: 0 <= j < |c.handlers| && j != i ==> d.handlers[j] == c.handlers[j];
    assert forall j :: Busy(d, id, j) <==> Busy(c, id, j);
  }

  lemma ArriveLeak(c: Config, p: Post, id: string, leaked: bool)
    requires LeakInv(c, id, leaked)
    ensures LeakInv(Apply(c, Arrive(p)), id, leaked)
  {
    var d := Apply(c, Arrive(p));
    assert forall j :: 0 <= j < |c.handlers| ==> d.handlers[j] == c.handlers[j];
    assert forall j :: Busy(d, id, j) <==> Busy(c, id, j);
  }

  /** The only handler in flight for its id moves. */
  lemma BusyLeak(c: Config, i: nat, outcome: Outcome, leaked: bool)
    requires i < |c.handlers| && Active(c.handlers[i]) && IdInv(c, c.handlers[i].post.requestId)
    requires LeakInv(c, c.handlers[i].post.requestId, leaked)
    ensures var id := c.handlers[i].post.requestId;
            LeakInv(Apply(c, Advance(i, outcome)), id, leaked || Leaks(c, Advance(i, outcome), id))
  {
    var id, d := c.handlers[i].post.requestId, Apply(c, Advance(i, outcome));
    OnlyBusy(c, i);
    hide IdInv;
    assert Busy(c, id, i);
    assert forall j :: j != i ==> (Busy(d, id, j) <==> Busy(c, id, j));
    assert Busy(d, id, i) <==> Active(d.handlers[i]);
  }

  /** A handler enters while nobody is in flight for its id. */
  lemma EnterLeak(c: Config, i: nat, leaked: bool)
    requires i < |c.handlers| && c.handlers[i].Waiting? && IdInv(c, c.handlers[i].post.requestId)
    requires forall j :: !Busy(c, c.handlers[i].post.requestId, j)
    requires LeakInv(c, c.handlers[i].post.requestId, leaked)
    ensures var (s, h) := Enter(c.server, c.handlers[i].post);
            LeakInv(Config(s, c.handlers[i := h]), c.handlers[i].post.requestId, leaked)
  {
    var p := c.handlers[i].post;
    var (s, h) := Enter(c.server, p);
    var d := Config(s, c.handlers[i := h]);
    if h.Answered? { EnterConflict(c.server, p); }
    hide IdInv;
    assert forall j :: j != i ==> (Busy(d, p.requestId, j) <==> Busy(c, p.requestId, j));
    assert Busy(d, p.requestId, i) <==> Active(h);
  }

  lemma OwnIdLeak(c: Config, i: nat, outcome: Outcome, leaked: bool)
    requires i < |c.handlers| && IdInv(c, c.handlers[i].post.requestId) && LeakInv(c, c.handlers[i].post.requestId, leaked)
    requires c.server.surface == PUBLIC ==> c.handlers[i].post.scope == PUBLIC_SCOPE
    ensures var id := c.handlers[i].post.requestId;
            LeakInv(Apply(c, Advance(i, outcome)), id, leaked || Leaks(c, Advance(i, outcome), id))
  {
    hide IdInv, LeakInv, Enter, AfterState, AfterResolve;
    var h, id, d := c.handlers[i], c.handlers[i].post.requestId, Apply(c, Advance(i, outcome));
    if Active(h) {
      BusyLeak(c, i, outcome, leaked);
    } else if h.Answered? || KeyOf(h.post) in c.server.held {
      assert d == c;
    } else if forall j :: !Busy(c, id, j) {
      EnterLeak(c, i, leaked);
    } else {
      FreeKey(c, h.post);
      BlockedEnter(c.server, h.post);
      SameBusyLeak(c, d, i, id, leaked);
    }
  }

  lemma BlockedEnter(s: Server, p: Post)
    requires s.surface == ADMIN && p.requestId in s.owners && s.owners[p.requestId] != p.scope
    ensures Enter(s, p) == (s, Answered(p, ScopeConflict))
  {}

  lemma SameBusyLeak(c: Config, d: Config, i: nat, id: string, leaked: bool)
    requires i < |c.handlers| == |d.handlers| && d == c.(handlers := c.handlers[i := d.handlers[i]])
    requires !Active(c.handlers[i]) && !Active(d.handlers[i]) && LeakInv(c, id, leaked)
    ensures LeakInv(d, id, leaked)
  {
    assert forall j :: 0 <= j < |c.handlers| && j != i ==> d.handlers[j] == c.handlers[j];
    assert forall j :: Busy(d, id, j) <==> Busy(c, id, j);
  }

  lemma {:induction false} RunLeak(c: Config, actions: seq<Action>, id: string, leaked: bool)
    requires Inv(c) && Admitted(c.server.surface, actions) && LeakInv(c, id, leaked)
    ensures LeakInv(Run(c, actions), id, leaked || Leaked(c, actions, id))
    decreases |actions|
  {
    if actions != [] {
      var a := actions[0];
      ApplyInv(c, a);
      assert IdInv(c, id);
      match a {
        case Arrive(p) => ArriveLeak(c, p, id, leaked);
        case Advance(i, outcome) =>
          if i < |c.handlers| {
            if c.handlers[i].post.requestId == id { OwnIdLeak(c, i, outcome, leaked); } else { OtherIdLeak(c, i, outcome, id, leaked); }
          }
      }
      assert Admitted(c.server.surface, actions[1..]);
      hide Inv, IdInv, LeakInv, Apply, Leaks;
      RunLeak(Apply(c, a), actions[1..], id, leaked || Leaks(c, a, id));
    }
  }

  /** When nobody is in flight for an id, it is bound to a fingerprint exactly when its result is stored; on the
      admin surface it is owned exactly when its result is stored or a raising resolver.state left a reservation. */
  lemma BoundIffStored(surface: Surface, actions: seq<Action>, id: string)
    requires Admitted(surface, actions)
    requires forall i :: !Busy(Reach(surface, actions), id, i)
    ensures var s := Reach(surface, actions).server;
            && (Bound(s, id) <==> id in s.stored)
            && (surface == ADMIN ==> (id in s.owners <==> id in s.stored || Leaked(Initial(surface), actions, id)))
  {
    ReachInv(surface, actions);
    assert IdInv(Reach(surface, actions), id);
    InitialInv(surface);
    RunLeak(Initial(surface), actions, id, false);
  }

  const EXAMPLE_POST := Post(("tenant", "project"), "request", "fingerprint")

  /** One raising resolver.state leaves an idle id owned with nothing stored. */
  lemma ReservationLeftExample()
    ensures var actions := [Arrive(EXAMPLE_POST), Advance(0, Crashed), Advance(0, Crashed)];
            var c := Reach(ADMIN, actions);
            && c.handlers == [Answered(EXAMPLE_POST, InternalError)]
            && "request" in c.server.owners && "request" !in c.server.stored && Leaked(Initial(ADMIN), actions, "request")
  {
    var arrive, fail := Arrive(EXAMPLE_POST), Advance(0, Crashed);
    var start := Initial(ADMIN);
    var waiting := Apply(start, arrive);
    assert waiting.handlers == [Waiting(EXAMPLE_POST)];
    var reading := Apply(waiting, fail);
    assert reading.handlers == [ReadingState(EXAMPLE_POST, true, None)];
    var end := Apply(reading, fail);
    assert end.handlers == [Answered(EXAMPLE_POST, InternalError)];
    var actions := [arrive, fail, fail];
    assert actions[1..] == [fail, fail] && actions[1..][1..] == [fail] && [fail][1..] == [];
    assert Run(end, []) == end && Run(reading, [fail]) == end && Run(waiting, [fail, fail]) == end;
    assert Leaks(reading, fail, "request") && Leaked(reading, [fail], "request") && Leaked(waiting, [fail, fail], "request");
  }

  // ---- a failed run leaves nothing behind ----

  predicate SparesHandler(actions: seq<Action>, i: nat) {
    forall k :: 0 <= k < |actions| && actions[k].Advance? ==> actions[k].handler != i
  }

  lemma SameIdTransitive(s: Server, t: Server, u: Server, id: string)
    requires SameId(s, t, id) && SameId(t, u, id)
    ensures SameId(s, u, id)
  {
    forall scope ensures Lookup(s.fingerprints, (scope, id)) == Lookup(u.fingerprints, (scope, id)) {
      assert Lookup(s.fingerprints, (scope, id)) == Lookup(t.fingerprints, (scope, id));
    }
  }

  /** While a handler is in flight, nothing anybody else does changes what the server knows about its id. */
  lemma OthersKeepId(c: Config, a: Action, i: nat)
    requires i < |c.handlers| && Active(c.handlers[i]) && Inv(c) && (a.Advance? ==> a.handler != i)
    ensures SameId(c.server, Apply(c, a).server, c.handlers[i].post.requestId)
    ensures i < |Apply(c, a).handlers| && Apply(c, a).handlers[i] == c.handlers[i]
  {
    var id := c.handlers[i].post.requestId;
    if a.Advance? && a.handler < |c.handlers| {
      var j := a.handler;
      if c.handlers[j].post.requestId != id {
        StepFrame(c.server, c.handlers[j], a.outcome, id);
      } else {
        assert IdInv(c, id) && Busy(c, id, i);
        assert !Busy(c, id, j);
        if c.handlers[j].Waiting? && KeyOf(c.handlers[j].post) !in c.server.held {
          FreeKey(c, c.handlers[j].post);
          BlockedEnter(c.server, c.handlers[j].post);
        }
      }
    }
  }

  lemma {:induction false} OthersKeepIdThroughout(c: Config, actions: seq<Action>, i: nat)
    requires i < |c.handlers| && Active(c.handlers[i]) && Inv(c)
    requires SparesHandler(actions, i) && Admitted(c.server.surface, actions)
    ensures Inv(Run(c, actions)) && Run(c, actions).server.surface == c.server.surface
    ensures SameId(c.server, Run(c, actions).server, c.handlers[i].post.requestId)
    ensures i < |Run(c, actions).handlers| && Run(c, actions).handlers[i] == c.handlers[i]
    decreases |actions|
  {
    if actions != [] {
      var d := Apply(c, actions[0]);
      ApplyInv(c, actions[0]);
      OthersKeepId(c, actions[0], i);
      assert Admitted(c.server.surface, actions[1..]) && SparesHandler(actions[1..], i);
      hide Inv, Apply, SameId;
      OthersKeepIdThroughout(d, actions[1..], i);
      SameIdTransitive(c.server, d.server, Run(d, actions[1..]).server, c.handlers[i].post.requestId);
    }
  }

  /** The three moves of a handler whose run fails undo each other, whatever the rest of the server is. */
  lemma FailedMovesUndo(s: Server, p: Post, t: Server, u: Server, outcome: Outcome)
    requires Enter(s, p).1.ReadingState? && KeyOf(p) !in s.held
    requires SameId(Enter(s, p).0, t, p.requestId) && p.requestId !in t.stored
    requires KeyOf(p) !in s.fingerprints && !outcome.Success?
    requires SameId(t.(fingerprints := t.fingerprints[KeyOf(p) := p.fingerprint]), u, p.requestId)
    ensures SameId(s, AfterResolve(u, p, Enter(s, p).1.reservedNew, outcome).0, p.requestId)
  {
    var id, key, r := p.requestId, KeyOf(p), Enter(s, p).0;
    var bound := t.(fingerprints := t.fingerprints[key := p.fingerprint]);
    var v := AfterResolve(u, p, Enter(s, p).1.reservedNew, outcome).0;
    forall scope ensures Lookup(s.fingerprints, (scope, id)) == Lookup(v.fingerprints, (scope, id)) {
      assert Lookup(r.fingerprints, (scope, id)) == Lookup(t.fingerprints, (scope, id));
      assert Lookup(bound.fingerprints, (scope, id)) == Lookup(u.fingerprints, (scope, id));
    }
    forall scope ensures (scope, id) in s.held <==> (scope, id) in v.held {
      assert (scope, id) in r.held <==> (scope, id) in t.held;
      assert (scope, id) in bound.held <==> (scope, id) in u.held;
    }
    assert Lookup(r.owners, id) == Lookup(t.owners, id) == Lookup(u.owners, id);
  }

  /** A run that fails leaves its id exactly as it found it, owner, fingerprints, lock and result, whatever
      other requests did between its awaits. */
  lemma FailureRestores(c: Config, i: nat, first: Outcome, xs: seq<Action>, read: Outcome, ys: seq<Action>, outcome: Outcome)
    requires Inv(c) && i < |c.handlers| && c.handlers[i].Waiting?
    requires SparesHandler(xs, i) && SparesHandler(ys, i)
    requires Admitted(c.server.surface, xs) && Admitted(c.server.surface, ys)
    requires var entered := Apply(c, Advance(i, first));
             var resolving := Apply(Run(entered, xs), Advance(i, read));
             entered.handlers[i].ReadingState? && i < |resolving.handlers| && resolving.handlers[i].Resolving? && !outcome.Success?
    ensures var resolving := Apply(Run(Apply(c, Advance(i, first)), xs), Advance(i, read));
            var end := Apply(Run(resolving, ys), Advance(i, outcome));
            && SameId(c.server, end.server, c.handlers[i].post.requestId)
            && i < |end.handlers|
            && end.handlers[i] == Answered(c.handlers[i].post, if outcome.Crashed? then InternalError else InvalidRequest)
  {
    hide Run, Admitted, SparesHandler, IdInv, SameId;
    var p := c.handlers[i].post;
    var entered := Apply(c, Advance(i, first));
    ApplyInv(c, Advance(i, first));
    assert KeyOf(p) !in c.server.held;
    OthersKeepIdThroughout(entered, xs, i);
    var waited := Run(entered, xs);
    var resolving := Apply(waited, Advance(i, read));
    ApplyInv(waited, Advance(i, read));
    OthersKeepIdThroughout(resolving, ys, i);
    var last := Run(resolving, ys);
    ReadUnbound(waited, i);
    FailedMovesUndo(c.server, p, waited.server, last.server, outcome);
  }

  lemma FailedReadMoves(s: Server, p: Post, t: Server, outcome: Outcome)
    requires Enter(s, p).1.ReadingState? && KeyOf(p) !in s.held && !outcome.Success?
    requires SameId(Enter(s, p).0, t, p.requestId)
    ensures var h := Enter(s, p).1;
            SameId(if s.surface == ADMIN then s.(owners := s.owners[p.requestId := p.scope]) else s,
                   AfterState(t, p, h.reservedNew, h.known, outcome).0, p.requestId)
  {
    var id, r := p.requestId, Enter(s, p).0;
    var v := AfterState(t, p, Enter(s, p).1.reservedNew, Enter(s, p).1.known, outcome).0;
    forall scope ensures (scope, id) in s.held <==> (scope, id) in v.held {
      assert (scope, id) in r.held <==> (scope, id) in t.held;
    }
  }

  /** A resolver.state that raises leaves its id as it was found but for the reservation. */
  lemma FailedReadReserves(c: Config, i: nat, first: Outcome, xs: seq<Action>, read: Outcome)
    requires Inv(c) && i < |c.handlers| && c.handlers[i].Waiting?
    requires SparesHandler(xs, i) && Admitted(c.server.surface, xs)
    requires Apply(c, Advance(i, first)).handlers[i].ReadingState? && !read.Success?
    ensures var end := Apply(Run(Apply(c, Advance(i, first)), xs), Advance(i, read));
            var p := c.handlers[i].post;
            && SameId(if c.server.surface == ADMIN then c.server.(owners := c.server.owners[p.requestId := p.scope]) else c.server,
                      end.server, p.requestId)
            && i < |end.handlers| && end.handlers[i] == Answered(p, InternalError)
  {
    hide Run, Admitted, SparesHandler, IdInv, SameId;
    var entered := Apply(c, Advance(i, first));
    ApplyInv(c, Advance(i, first));
    OthersKeepIdThroughout(entered, xs, i);
    FailedReadMoves(c.server, c.handlers[i].post, Run(entered, xs).server, read);
  }

  /** A handler that finds nothing stored knew no fingerprint. */
  lemma ReadUnbound(c: Config, i: nat)
    requires i < |c.handlers| && c.handlers[i].ReadingState? && Inv(c) && c.handlers[i].post.requestId !in c.server.stored
    ensures c.handlers[i].known.None?
  {
    assert IdInv(c, c.handlers[i].post.requestId);
    OnlyBusy(c, i);
  }

  /** No request is ever told that its stored resolution lacks a binding. */
  lemma NeverUnbound(surface: Surface, actions: seq<Action>, i: nat, outcome: Outcome)
    requires Admitted(surface, actions) && i < |Reach(surface, actions).handlers|
    ensures var c := Reach(surface, actions);
            Active(c.handlers[i]) || c.handlers[i].Waiting? ==>
              Step(c.server, c.handlers[i], outcome).1 != Answered(c.handlers[i].post, UnboundConflict)
  {
    ReachInv(surface, actions);
    var c := Reach(surface, actions);
    assert IdInv(c, c.handlers[i].post.requestId);
    if Active(c.handlers[i]) { OnlyBusy(c, i); }
  }

  // ---- idempotency ----

  /** A stored result and its binding. */
  predicate Settles(s: Server, p: Post, result: Stored) {
    && p.requestId in s.stored && s.stored[p.requestId] == result
    && KeyOf(p) in s.fingerprints && s.fingerprints[KeyOf(p)] == p.fingerprint
  }

  lemma StepKeepsResult(c: Config, i: nat, outcome: Outcome, p: Post, result: Stored)
    requires i < |c.handlers| && IdInv(c, c.handlers[i].post.requestId) && Settles(c.server, p, result)
    ensures Settles(Step(c.server, c.handlers[i], outcome).0, p, result)
  {
    if Active(c.handlers[i]) { OnlyBusy(c, i); }
    hide IdInv;
  }

  lemma ApplyKeepsResult(c: Config, a: Action, p: Post, result: Stored)
    requires Inv(c) && Settles(c.server, p, result)
    ensures Settles(Apply(c, a).server, p, result)
  {
    if a.Advance? && a.handler < |c.handlers| {
      assert IdInv(c, c.handlers[a.handler].post.requestId);
      StepKeepsResult(c, a.handler, a.outcome, p, result);
    }
  }

  lemma {:induction false} RunKeepsResult(c: Config, actions: seq<Action>, p: Post, result: Stored)
    requires Inv(c) && Admitted(c.server.surface, actions) && Settles(c.server, p, result)
    ensures Settles(Run(c, actions).server, p, result)
    decreases |actions|
  {
    if actions != [] {
      ApplyInv(c, actions[0]);
      ApplyKeepsResult(c, actions[0], p, result);
      assert Admitted(c.server.surface, actions[1..]);
      hide Inv, Apply, Settles;
      RunKeepsResult(Apply(c, actions[0]), actions[1..], p, result);
    }
  }

  /** What q is told once p settled its id. */
  function Verdict(p: Post, q: Post, result: Stored): Response {
    if q.scope != p.scope then ScopeConflict
    else if q.fingerprint != p.fingerprint then PayloadConflict
    else Serialized(Replayed(result.content), result)
  }

  /** Handler i carries q, which is still on its way to its verdict or has it; failed says that a resolver.state
      of its own has raised. */
  predicate Replaying(c: Config, i: nat, p: Post, q: Post, result: Stored, failed: bool) {
    && i < |c.handlers| && c.handlers[i].post == q && q.requestId == p.requestId
    && Settles(c.server, p, result)
    && !c.handlers[i].Resolving?
    && (c.handlers[i].Answered? ==>
        c.handlers[i].response == Verdict(p, q, result) || (failed && c.handlers[i].response == InternalError))
  }

  /** The owner of a settled id is the scope that settled it, and everybody on the public surface shares one. */
  lemma SettledScope(c: Config, i: nat, p: Post, result: Stored)
    requires Inv(c) && i < |c.handlers| && c.handlers[i].post.requestId == p.requestId && Settles(c.server, p, result)
    ensures if c.server.surface == ADMIN then p.requestId in c.server.owners && c.server.owners[p.requestId] == p.scope
            else p.scope == c.handlers[i].post.scope
    ensures Active(c.handlers[i]) ==> HandlerOk(c.server, c.handlers[i])
  {
    assert IdInv(c, p.requestId);
    assert (p.scope, p.requestId) in c.server.fingerprints && Owns(c.server, p.scope, p.requestId);
    if Active(c.handlers[i]) { assert Busy(c, p.requestId, i); }
  }

  /** A move of handler i brings q to its verdict, unless its resolver.state raises. */
  lemma OwnMoveReplays(c: Config, i: nat, outcome: Outcome, p: Post, q: Post, result: Stored, failed: bool)
    requires Inv(c) && Replaying(c, i, p, q, result, failed)
    ensures Replaying(Apply(c, Advance(i, outcome)), i, p, q, result, failed || !outcome.Success?)
    ensures var h, next := c.handlers[i], Apply(c, Advance(i, outcome)).handlers[i];
            && (h.Waiting? && KeyOf(q) !in c.server.held ==> next.ReadingState? || next.Answered?)
            && (h.ReadingState? ==> next.Answered?)
  {
    ApplyKeepsResult(c, Advance(i, outcome), p, result);
    SettledScope(c, i, p, result);
    hide Inv;
  }

  lemma OtherMoveReplays(c: Config, a: Action, i: nat, p: Post, q: Post, result: Stored, failed: bool)
    requires Inv(c) && Replaying(c, i, p, q, result, failed) && (a.Advance? ==> a.handler != i)
    ensures Replaying(Apply(c, a), i, p, q, result, failed)
  {
    ApplyKeepsResult(c, a, p, result);
    hide Inv, Step;
  }

  /** Some action of the run is a failing await of handler i. */
  predicate FailsFor(actions: seq<Action>, i: nat) {
    exists k :: 0 <= k < |actions| && actions[k].Advance? && actions[k].handler == i && !actions[k].outcome.Success?
  }

  lemma {:induction false} RunReplays(c: Config, actions: seq<Action>, i: nat, p: Post, q: Post, result: Stored, failed: bool)
    requires Inv(c) && Admitted(c.server.surface, actions) && Replaying(c, i, p, q, result, failed)
    ensures Replaying(Run(c, actions), i, p, q, result, failed || FailsFor(actions, i))
    decreases |actions|
  {
    if actions != [] {
      var a, rest := actions[0], actions[1..];
      ApplyInv(c, a);
      if a.Advance? && a.handler == i {
        OwnMoveReplays(c, i, a.outcome, p, q, result, failed);
      } else {
        OtherMoveReplays(c, a, i, p, q, result, failed);
      }
      var now := failed || (a.Advance? && a.handler == i && !a.outcome.Success?);
      assert Admitted(c.server.surface, rest);
      assert now || FailsFor(rest, i) <==> failed || FailsFor(actions, i) by {
        if FailsFor(rest, i) {
          var k :| 0 <= k < |rest| && rest[k].Advance? && rest[k].handler == i && !rest[k].outcome.Success?;
          assert actions[k + 1] == rest[k];
        }
        if FailsFor(actions, i) && !now {
          var k :| 0 <= k < |actions| && actions[k].Advance? && actions[k].handler == i && !actions[k].outcome.Success?;
          assert k > 0 && rest[k - 1] == actions[k];
        }
      }
      hide Inv, Apply, Replaying, FailsFor;
      RunReplays(Apply(c, a), rest, i, p, q, result, now);
    }
  }

  /** Once p settled its id, its result never changes. Any request q for that id that waits for its lock then or
      later, whatever happens between its awaits, replays the result if it has the scope and fingerprint of p
      and gets a conflict otherwise; a resolver.state that raises for it is the only exception. */
  lemma SuccessReplays(surface: Surface, before: seq<Action>, during: seq<Action>, after: seq<Action>, i: nat, p: Post, q: Post, result: Stored)
    requires Admitted(surface, before + during + after) && Settles(Reach(surface, before).server, p, result)
    requires i < |Reach(surface, before + during).handlers| && Reach(surface, before + during).handlers[i] == Waiting(q)
    requires q.requestId == p.requestId
    ensures var c := Reach(surface, before + during + after);
            && Settles(c.server, p, result)
            && i < |c.handlers| && c.handlers[i].post == q && !c.handlers[i].Resolving?
            && (c.handlers[i].Answered? && !FailsFor(after, i) ==> c.handlers[i].response == Verdict(p, q, result))
            && (c.handlers[i].Answered? && FailsFor(after, i) ==>
                c.handlers[i].response == Verdict(p, q, result) || c.handlers[i].response == InternalError)
  {
    hide Reach, Inv, Settles, Verdict, FailsFor, Admitted;
    ReachSplit(surface, before + during, after);
    ReachSplit(surface, before, during);
    RunKeepsResult(Reach(surface, before), during, p, result);
    RunReplays(Reach(surface, before + during), after, i, p, q, result, false);
  }

  /** And it does get there: with its lock free, two undisturbed moves are enough. */
  lemma ReplayAnswers(c: Config, i: nat, p: Post, q: Post, result: Stored, first: Outcome, read: Outcome)
    requires Inv(c) && Settles(c.server, p, result) && q.requestId == p.requestId && (c.server.surface == PUBLIC ==> q.scope == PUBLIC_SCOPE)
    requires i < |c.handlers| && c.handlers[i] == Waiting(q) && KeyOf(q) !in c.server.held && first.Success? && read.Success?
    ensures Apply(Apply(c, Advance(i, first)), Advance(i, read)).handlers[i] == Answered(q, Verdict(p, q, result))
  {
    hide Inv, Step, Settles, Verdict;
    var d := Apply(c, Advance(i, first));
    ApplyInv(c, Advance(i, first));
    OwnMoveReplays(c, i, first, p, q, result, false);
    OwnMoveReplays(d, i, read, p, q, result, false);
    if d.handlers[i].Answered? { AnsweredStays(d.server, d.handlers[i], read); }
  }

  lemma AnsweredStays(s: Server, h: Handler, outcome: Outcome)
    requires h.Answered?
    ensures Step(s, h, outcome) == (s, h)
  {}

  lemma ReachSplit(surface: Surface, before: seq<Action>, after: seq<Action>)
    requires Admitted(surface, before + after)
    ensures Admitted(surface, before) && Admitted(surface, after)
    ensures Inv(Reach(surface, before)) && Reach(surface, before).server.surface == surface
    ensures Reach(surface, before + after) == Run(Reach(surface, before), after)
  {
    assert Admitted(surface, before) by {
      assert forall k :: 0 <= k < |before| ==> (before + after)[k] == before[k];
    }
    assert Admitted(surface, after) by {
      assert forall k :: 0 <= k < |after| ==> (before + after)[|before| + k] == after[k];
    }
    ReachInv(surface, before);
    RunConcat(Initial(surface), before, after);
  }

  lemma {:induction false} RunConcat(c: Config, xs: seq<Action>, ys: seq<Action>)
    ensures Run(c, xs + ys) == Run(Run(c, xs), ys)
    decreases |xs|
  {
    hide Apply;
    if xs == [] {
      assert xs + ys == ys;
    } else {
      assert (xs + ys)[1..] == xs[1..] + ys;
      RunConcat(Apply(c, xs[0]), xs[1..], ys);
    }
  }

  // ---- a fresh id is resolved ----

  /** Nobody is in flight for the id of p, nothing is stored for it, and nobody else owns it. */
  predicate FreshFor(s: Server, p: Post) {
    && p.requestId !in s.stored
    && (s.surface == ADMIN && p.requestId in s.owners ==> s.owners[p.requestId] == p.scope)
    && forall key :: key in s.held ==> key.1 != p.requestId
  }

  lemma FreshEnters(c: Config, i: nat, first: Outcome)
    requires Inv(c) && i < |c.handlers| && c.handlers[i].Waiting? && FreshFor(c.server, c.handlers[i].post)
    ensures var h := Apply(c, Advance(i, first)).handlers[i];
            h.ReadingState? && h.post == c.handlers[i].post && h.known.None?
    ensures Apply(c, Advance(i, first)).server.stored == c.server.stored
  {
    var id := c.handlers[i].post.requestId;
    assert IdInv(c, id);
    assert forall j :: Busy(c, id, j) ==> (c.handlers[j].post.scope, id) in c.server.held;
    assert !Bound(c.server, id);
    hide Inv, IdInv;
  }

  /** The answer a finished run gives. */
  function Answer(outcome: Outcome): Response {
    match outcome
    case Success(result) => if result.serializes then Created(result.content) else InternalError
    case Refused => InvalidRequest
    case Crashed => InternalError
  }

  /** A request for a fresh id runs the engine, whatever others do between its awaits: a result is stored, bound to the
      request's fingerprint and returned as created; a failure is answered as such and leaves the id as it was. */
  lemma FreshResolves(c: Config, i: nat, first: Outcome, xs: seq<Action>, read: Outcome, ys: seq<Action>, outcome: Outcome)
    requires Inv(c) && i < |c.handlers| && c.handlers[i].Waiting? && FreshFor(c.server, c.handlers[i].post)
    requires SparesHandler(xs, i) && SparesHandler(ys, i)
    requires Admitted(c.server.surface, xs) && Admitted(c.server.surface, ys) && read.Success?
    ensures var resolving := Apply(Run(Apply(c, Advance(i, first)), xs), Advance(i, read));
            i < |resolving.handlers| && resolving.handlers[i].Resolving?
    ensures var resolving := Apply(Run(Apply(c, Advance(i, first)), xs), Advance(i, read));
            var end := Apply(Run(resolving, ys), Advance(i, outcome));
            var p := c.handlers[i].post;
            && i < |end.handlers| && end.handlers[i] == Answered(p, Answer(outcome))
            && (if outcome.Success? then Settles(end.server, p, outcome.result) else SameId(c.server, end.server, p.requestId))
  {
    hide Run, Admitted, SparesHandler, IdInv, SameId, Inv, FreshFor, Settles;
    var p := c.handlers[i].post;
    var entered := Apply(c, Advance(i, first));
    ApplyInv(c, Advance(i, first));
    FreshEnters(c, i, first);
    OthersKeepIdThroughout(entered, xs, i);
    var waited := Run(entered, xs);
    var resolving := Apply(waited, Advance(i, read));
    StillUnstored(c, entered, waited, p);
    ApplyInv(waited, Advance(i, read));
    OthersKeepIdThroughout(resolving, ys, i);
    if outcome.Success? {
      SuccessSettles(Run(resolving, ys), i, outcome);
    } else {
      FailureRestores(c, i, first, xs, read, ys, outcome);
    }
  }

  lemma StillUnstored(c: Config, entered: Config, waited: Config, p: Post)
    requires FreshFor(c.server, p) && entered.server.stored == c.server.stored
    requires SameId(entered.server, waited.server, p.requestId)
    ensures p.requestId !in waited.server.stored
  {}

  lemma SuccessSettles(c: Config, i: nat, outcome: Outcome)
    requires Inv(c) && i < |c.handlers| && c.handlers[i].Resolving? && outcome.Success?
    ensures var end := Apply(c, Advance(i, outcome));
            end.handlers[i] == Answered(c.handlers[i].post, Answer(outcome)) && Settles(end.server, c.handlers[i].post, outcome.result)
  {
    assert IdInv(c, c.handlers[i].post.requestId);
    OnlyBusy(c, i);
    hide Inv, IdInv;
  }

  /** A created or replayed answer means just that: the result is stored, bound to the request's fingerprint. */
  lemma AnsweredMeansStored(surface: Surface, actions: seq<Action>, i: nat, outcome: Outcome)
    requires Admitted(surface, actions) && i < |Reach(surface, actions).handlers|
    ensures var c := Reach(surface, actions);
            var (t, h) := Step(c.server, c.handlers[i], outcome);
            !c.handlers[i].Answered? && h.Answered? && (h.response.Created? || h.response.Replayed?) ==>
              Settles(t, h.post, Stored(h.response.result, true))
  {
    ReachInv(surface, actions);
    var c := Reach(surface, actions);
    assert IdInv(c, c.handlers[i].post.requestId);
    if Active(c.handlers[i]) { OnlyBusy(c, i); }
    hide IdInv;
  }
}
