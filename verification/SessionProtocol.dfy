/** Runs of the session protocol: any interleaving of logins, un-locked reads, locked
    rotations, delayed deletions, logouts and user-wide revocations over a clock that only
    moves forward.  A rotation family is everything derived from one random token. */
module SessionProtocol {
  import opened Wrappers
  import opened Sessions

  datatype State = State(
    store: Store,
    secret: Option<Secret>,
    now: Millis,
    waiting: map<nat, Token>,   // requests whose read passed and that wait for the row lock
    stale: set<nat>,            // row ids read as expired, their deletion not yet executed
    doomed: map<UserId, set<nat>>  // row ids a running user-wide deletion saw when it started
  )

  datatype Event =
    | Tick(ms: nat)
    | AddUser(user: UserId)
    | Login(user: UserId, origin: Option<string>, issuedAt: Millis, ttl: Millis)
    | Begin(request: nat, token: Token)
    | Finish(request: nat)
    | PurgeStale(rowId: nat)
    | Logout(token: Token)
    | Revoke(user: UserId)
    | RevokeStart(user: UserId)
    | RevokeCommit(user: UserId)
    | DeleteUser(user: UserId)
    | ConsumeCode(code: Token, appOrigin: string)

  function Init(secret: Option<Secret>, now: Millis): State {
    State(Store(map[], {}, 0, 0), secret, now, map[], {}, map[])
  }

  function IdsOf(rows: map<Digest, Row>, user: UserId): set<nat> {
    set d | d in rows && rows[d].user == user :: rows[d].id
  }

  function Doomed(s: State, user: UserId): set<nat> {
    if user in s.doomed then s.doomed[user] else {}
  }

  function WithoutIds(rows: map<Digest, Row>, ids: set<nat>): map<Digest, Row> {
    map d | d in rows && rows[d].id !in ids :: rows[d]
  }

  function Step(s: State, e: Event): State {
    match e
    case Tick(ms) => s.(now := s.now + ms)
    case AddUser(user) => s.(store := s.store.(users := s.store.users + {user}))
    case Login(user, origin, issuedAt, ttl) => s.(store := CreateSpec(s.store, user, origin, issuedAt + ttl).0)
    case Begin(request, token) =>
      (match PreCheckSpec(s.store, s.secret, token, s.now)
       case SeenExpired(id) => s.(stale := s.stale + {id})
       case NeedsLock => s.(waiting := s.waiting[request := token])
       case _ => s)
    case Finish(request) =>
      if request in s.waiting then
        s.(store := RotateSpec(s.store, s.secret, s.waiting[request], s.now).0, waiting := s.waiting - {request})
      else s
    case PurgeStale(id) =>
      if id in s.stale then
        s.(store := s.store.(rows := WithoutId(s.store.rows, id)), stale := s.stale - {id})
      else s
    case Logout(token) => s.(store := LogoutSpec(s.store, s.secret, token))
    case Revoke(user) => s.(store := s.store.(rows := WithoutUser(s.store.rows, user)))
    case RevokeStart(user) => s.(doomed := s.doomed[user := IdsOf(s.store.rows, user) + Doomed(s, user)])
    case RevokeCommit(user) =>
      // waits for locked rows and deletes them, but never sees a row inserted since its start
      s.(store := s.store.(rows := WithoutIds(s.store.rows, Doomed(s, user))), doomed := s.doomed - {user})
    case DeleteUser(user) =>
      // the foreign key of `sessions.user_id` cascades
      s.(store := s.store.(rows := WithoutUser(s.store.rows, user), users := s.store.users - {user}))
    case ConsumeCode(code, origin) => s.(store := ConsumeCodeSpec(s.store, code, origin, s.now).0)
  }

  function Run(s: State, events: seq<Event>): State
    decreases |events|
  {
    if events == [] then s else Run(Step(s, events[0]), events[1..])
  }

  /** What the request sees when its transaction runs. */
  function FinishReply(s: State, request: nat): Response {
    if request in s.waiting then RotateSpec(s.store, s.secret, s.waiting[request], s.now).1 else NoSession
  }

  // ----- rotation families -----

  predicate Genuine(d: Digest, secret: Option<Secret>, nextRaw: nat) {
    match d.token
    case Raw(n) => n < nextRaw
    case Rotated(parent, mac) => secret.Some? && mac == Hmac(secret.value, parent) && Genuine(parent, secret, nextRaw)
    case _ => false
  }

  /** The random token a hash descends from. */
  function Root(d: Digest): Option<nat> {
    match d.token
    case Raw(n) => Some(n)
    case Rotated(parent, _) => Root(parent)
    case _ => None
  }

  predicate IsParent(p: Digest, d: Digest) {
    d.token.Rotated? && d.token.parent == p
  }

  predicate Ancestor(a: Digest, d: Digest) {
    d.token.Rotated? && (d.token.parent == a || Ancestor(a, d.token.parent))
  }

  function Depth(d: Digest): nat {
    if d.token.Rotated? then 1 + Depth(d.token.parent) else 0
  }

  lemma {:induction false} AncestorDepth(a: Digest, d: Digest)
    requires Ancestor(a, d)
    ensures Depth(a) < Depth(d) && Root(a) == Root(d)
  {
    if d.token.parent != a { AncestorDepth(a, d.token.parent); }
  }

  lemma {:induction false} AncestorTransitive(a: Digest, b: Digest, d: Digest)
    requires Ancestor(a, b) && Ancestor(b, d)
    ensures Ancestor(a, d)
  {
    if d.token.parent != b { AncestorTransitive(a, b, d.token.parent); }
  }

  lemma {:induction false} GenuineMonotone(d: Digest, secret: Option<Secret>, m: nat, n: nat)
    requires m <= n && Genuine(d, secret, m)
    ensures Genuine(d, secret, n)
  {
    if d.token.Rotated? { GenuineMonotone(d.token.parent, secret, m, n); }
  }

  lemma {:induction false} GenuineRoot(d: Digest, secret: Option<Secret>, nextRaw: nat)
    requires Genuine(d, secret, nextRaw)
    ensures Root(d).Some? && Root(d).value < nextRaw
  {
    if d.token.Rotated? { GenuineRoot(d.token.parent, secret, nextRaw); }
  }

  /** Rotation is deterministic, so a family is a chain: of two of its hashes one descends
      from the other. */
  lemma {:induction false} FamilyIsChain(x: Digest, y: Digest, secret: Option<Secret>, nextRaw: nat)
    requires Genuine(x, secret, nextRaw) && Genuine(y, secret, nextRaw) && Root(x) == Root(y)
    ensures x == y || Ancestor(x, y) || Ancestor(y, x)
    decreases Depth(x) + Depth(y)
  {
    if x.token.Rotated? && y.token.Rotated? {
      var p, q := x.token.parent, y.token.parent;
      FamilyIsChain(p, q, secret, nextRaw);
      if p == q { SameParent(x, y); }
      if Ancestor(p, q) { ChildBelow(p, x, q, secret, nextRaw); }
      if Ancestor(q, p) { ChildBelow(q, y, p, secret, nextRaw); }
    } else if x.token.Rotated? {
      RootAbove(y, x);
    } else if y.token.Rotated? {
      RootAbove(x, y);
    }
  }

  lemma {:induction false} RootAbove(r: Digest, d: Digest)
    requires r.token.Raw? && d.token.Rotated? && Root(d) == Some(r.token.id)
    ensures Ancestor(r, d)
  {
    assert Sha(r.token) == r;
    var p := d.token.parent;
    if p.token.Rotated? { RootAbove(r, p); } else { assert p.token == r.token; }
  }

  /** A genuine hash has one genuine child, so whatever descends from `p` is that child or
      descends from it. */
  lemma {:induction false} ChildBelow(p: Digest, x: Digest, q: Digest, secret: Option<Secret>, nextRaw: nat)
    requires Genuine(x, secret, nextRaw) && Genuine(q, secret, nextRaw)
    requires IsParent(p, x) && Ancestor(p, q)
    ensures x == q || Ancestor(x, q)
  {
    if q.token.parent == p {
      SameParent(x, q);
    } else {
      ChildBelow(p, x, q.token.parent, secret, nextRaw);
    }
  }

  lemma SameParent(x: Digest, y: Digest)
    requires x.token.Rotated? && y.token.Rotated? && x.token.parent == y.token.parent && x.token.mac == y.token.mac
    ensures x == y
  {
    assert x == Sha(Rotated(x.token.parent, x.token.mac));
    assert y == Sha(Rotated(y.token.parent, y.token.mac));
  }

  // ----- what every step keeps -----

  predicate Live(s: State, d: Digest) {
    d in s.store.rows && s.store.rows[d].expiresAt > s.now
  }

  /** How two rows of one family are related: only a direct parent can still be live, only in
      its grace period, and then its child was issued for 30 days at that moment. */
  predicate Related(s: State, a: Digest, d: Digest)
    requires a in s.store.rows && d in s.store.rows
  {
    var (older, newer) := (s.store.rows[a], s.store.rows[d]);
    && older.user == newer.user
    && (Live(s, a) ==>
        && IsParent(a, d)
        && older.expiresAt <= s.now + SESSION_ROTATION_GRACE_MS
        && newer.expiresAt == older.expiresAt + SESSION_TTL_MS - SESSION_ROTATION_GRACE_MS)
  }

  /** A running deletion saw rows of its user only. */
  ghost predicate DoomedOk(s: State) {
    && (forall user <- s.doomed, id <- s.doomed[user] :: id < s.store.nextId)
    && (forall user <- s.doomed, d <- s.store.rows :: s.store.rows[d].id in s.doomed[user] ==> s.store.rows[d].user == user)
  }

  ghost predicate RowsOk(s: State) {
    && (forall d <- s.store.rows ::
          && Genuine(d, s.secret, s.store.nextRaw)
          && s.store.rows[d].user in s.store.users
          && s.store.rows[d].id < s.store.nextId
          && (s.store.rows[d].id in s.stale ==> s.store.rows[d].expiresAt <= s.now))
    && (forall id <- s.stale :: id < s.store.nextId)
    && DoomedOk(s)
    && (forall d, e :: d in s.store.rows && e in s.store.rows && s.store.rows[d].id == s.store.rows[e].id ==> d == e)
  }

  ghost predicate Chained(s: State) {
    forall a, d :: a in s.store.rows && d in s.store.rows && Ancestor(a, d) ==> Related(s, a, d)
  }

  ghost predicate Inv(s: State) {
    RowsOk(s) && Chained(s)
  }

  /** Removing rows, or letting time pass, keeps everything. */
  lemma FewerRowsInv(s: State, t: State)
    requires Inv(s) && t.secret == s.secret && s.now <= t.now
    requires s.store.nextRaw <= t.store.nextRaw && s.store.nextId <= t.store.nextId
    requires forall d <- t.store.rows :: d in s.store.rows && t.store.rows[d] == s.store.rows[d]
    requires forall d <- t.store.rows :: t.store.rows[d].user in t.store.users
    requires forall id <- t.stale :: id < t.store.nextId
    requires forall d <- t.store.rows :: t.store.rows[d].id in t.stale ==> t.store.rows[d].expiresAt <= t.now
    requires DoomedOk(t)
    ensures Inv(t)
  {
    forall d | d in t.store.rows
      ensures Genuine(d, t.secret, t.store.nextRaw)
    {
      GenuineMonotone(d, s.secret, s.store.nextRaw, t.store.nextRaw);
    }
    forall a, d | a in t.store.rows && d in t.store.rows && Ancestor(a, d)
      ensures Related(t, a, d)
    {
      assert Related(s, a, d);
    }
  }

  /** A login starts a family of its own. */
  lemma LoginInv(s: State, user: UserId, origin: Option<string>, expiresAt: Millis)
    requires Inv(s)
    ensures Inv(s.(store := CreateSpec(s.store, user, origin, expiresAt).0))
    ensures CreateSpec(s.store, user, origin, expiresAt).1 ==
            if user in s.store.users then Ok(Raw(s.store.nextRaw)) else Err(UserNotFound)
  {
    var t := s.(store := CreateSpec(s.store, user, origin, expiresAt).0);
    var root := Sha(Raw(s.store.nextRaw));
    assert root !in s.store.rows;
    forall d | d in t.store.rows
      ensures Genuine(d, t.secret, t.store.nextRaw)
    {
      if d != root { GenuineMonotone(d, s.secret, s.store.nextRaw, t.store.nextRaw); }
    }
    forall a, d | a in t.store.rows && d in t.store.rows && Ancestor(a, d)
      ensures Related(t, a, d)
    {
      AncestorDepth(a, d);
      if a == root {
        GenuineRoot(d, s.secret, s.store.nextRaw);
      } else {
        assert Related(s, a, d);
      }
    }
  }

  /** The heart of the protocol: a live row inside the rotation window has no live ancestor,
      and unless it already rotated nothing in the table descends from it. */
  lemma WindowFacts(s: State, d: Digest)
    requires Inv(s) && Live(s, d) && s.secret.Some?
    requires s.store.rows[d].expiresAt - s.now <= SESSION_ROTATION_WINDOW_MS
    ensures forall a :: a in s.store.rows && Ancestor(a, d) ==> !Live(s, a)
    ensures forall e :: e in s.store.rows && Ancestor(d, e) ==> e == Child(d, s.secret.value)
    ensures var child := Child(d, s.secret.value);
      child in s.store.rows ==>
        && s.store.rows[child].user == s.store.rows[d].user
        && s.store.rows[d].expiresAt <= s.now + SESSION_ROTATION_GRACE_MS
        && s.store.rows[child].expiresAt == s.store.rows[d].expiresAt + SESSION_TTL_MS - SESSION_ROTATION_GRACE_MS
  {
    forall a | a in s.store.rows && Ancestor(a, d)
      ensures !Live(s, a)
    {
      assert Related(s, a, d);
    }
    var child := Child(d, s.secret.value);
    forall e | e in s.store.rows && Ancestor(d, e)
      ensures e == child
    {
      assert Related(s, d, e);
      assert Genuine(e, s.secret, s.store.nextRaw);
      SameParent(e, child);
    }
    if child in s.store.rows {
      assert Ancestor(d, child);
      assert Related(s, d, child);
    }
  }

  /** Minting the child of a live row in the window keeps the table in order. */
  lemma MintInv(s: State, d: Digest, t: State)
    requires Inv(s) && Live(s, d) && s.secret.Some?
    requires s.store.rows[d].expiresAt - s.now <= SESSION_ROTATION_WINDOW_MS
    requires Child(d, s.secret.value) !in s.store.rows
    requires
      var row := s.store.rows[d];
      var minted := Insert(s.store, Child(d, s.secret.value), row.user, row.appOrigin, s.now + SESSION_TTL_MS);
      t == s.(store := minted.(rows := minted.rows[d := row.(expiresAt := s.now + SESSION_ROTATION_GRACE_MS)]))
    ensures Inv(t)
  {
    var child := Child(d, s.secret.value);
    WindowFacts(s, d);
    assert IsParent(d, child) && child != d by { AncestorDepth(d, child); }
    forall a, e | a in t.store.rows && e in t.store.rows && Ancestor(a, e)
      ensures Related(t, a, e)
    {
      AncestorDepth(a, e);
      if e == child && a != d {
        assert Ancestor(a, d);
        assert Related(s, a, d);
      } else if a == child {
        AncestorTransitive(d, child, e);
      } else if e != child {
        assert Related(s, a, e);
      }
    }
  }

  /** The locked transaction keeps the invariant and never meets the unique index on
      `token_hash`. */
  lemma RotateInv(s: State, token: Token)
    requires Inv(s)
    ensures Inv(s.(store := RotateSpec(s.store, s.secret, token, s.now).0))
    ensures RotateSpec(s.store, s.secret, token, s.now).1 != UniqueViolation
  {
    var d := Sha(token);
    var t := s.(store := RotateSpec(s.store, s.secret, token, s.now).0);
    if !Live(s, d) {
      FewerRowsInv(s, t);
    } else if s.secret.Some? && s.store.rows[d].expiresAt - s.now <= SESSION_ROTATION_WINDOW_MS {
      WindowFacts(s, d);
      if Child(d, s.secret.value) in s.store.rows {
        assert t == s;
      } else {
        MintInv(s, d, t);
      }
    }
  }

  lemma FinishInv(s: State, request: nat)
    requires Inv(s)
    ensures Inv(Step(s, Finish(request)))
    ensures FinishReply(s, request) != UniqueViolation
  {
    if request in s.waiting {
      RotateInv(s, s.waiting[request]);
      FewerRowsInv(s.(store := RotateSpec(s.store, s.secret, s.waiting[request], s.now).0), Step(s, Finish(request)));
    }
  }

  /** A row id collected by an un-locked read belongs to an expired row for good. */
  lemma BeginInv(s: State, request: nat, token: Token)
    requires Inv(s)
    ensures Inv(Step(s, Begin(request, token)))
  {
    var t := Step(s, Begin(request, token));
    assert t.store == s.store && t.now == s.now;
    FewerRowsInv(s, t);
  }

  /** Steps that remove rows and change nothing else in them. */
  predicate Removes(e: Event) {
    e.PurgeStale? || e.Logout? || e.Revoke? || e.RevokeCommit? || e.DeleteUser? || e.ConsumeCode?
  }

  lemma RemovalInv(s: State, e: Event)
    requires Inv(s) && (Removes(e) || e.RevokeStart?)
    ensures Inv(Step(s, e))
  {
    FewerRowsInv(s, Step(s, e));
  }

  lemma IdleInv(s: State, e: Event)
    requires Inv(s) && (e.Tick? || e.AddUser?)
    ensures Inv(Step(s, e))
  {
    FewerRowsInv(s, Step(s, e));
  }

  lemma StepInv(s: State, e: Event)
    requires Inv(s)
    ensures Inv(Step(s, e))
  {
    hide Inv;
    match e
    case Login(user, origin, issuedAt, ttl) => LoginInv(s, user, origin, issuedAt + ttl);
    case Begin(request, token) => BeginInv(s, request, token);
    case Finish(request) => FinishInv(s, request);
    case Tick(_) => IdleInv(s, e);
    case AddUser(_) => IdleInv(s, e);
    case _ => RemovalInv(s, e);
  }

  lemma {:induction false} RunInv(s: State, events: seq<Event>)
    requires Inv(s)
    ensures Inv(Run(s, events))
    decreases |events|
  {
    if events != [] {
      StepInv(s, events[0]);
      RunInv(Step(s, events[0]), events[1..]);
    }
  }
}
