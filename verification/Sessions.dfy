/** Session rows and the single-step operations of `UsersService` on them.

    A token is symbolic: `Sha` and `Hmac` are constructors, hence injective, and a token
    is either random bytes from `createSession`, a `v1.<parent hash>.<mac>` token, or text
    of any other shape.  A rotated token carries its parent's hash, so a cookie forged
    without the secret is a `Rotated` token with a wrong mac. */
module Sessions {
  import opened Wrappers

  type UserId = nat
  type Millis = int

  const DAY_MS: Millis := 24 * 60 * 60 * 1000
  const SESSION_TTL_MS: Millis := 30 * DAY_MS
  const SESSION_ROTATION_WINDOW_MS: Millis := 7 * DAY_MS
  const SESSION_ROTATION_GRACE_MS: Millis := 2 * 60 * 1000

  datatype Secret = Secret(id: nat)
  datatype Mac = Hmac(secret: Secret, message: Digest) | OtherMac(id: nat)
  datatype Digest = Sha(token: Token)
  datatype Token = NoToken | Raw(id: nat) | Rotated(parent: Digest, mac: Mac) | OtherText(text: string)

  /** One row of the `sessions` table; the table is keyed by its unique token hash. */
  datatype Row = Row(id: nat, user: UserId, appOrigin: Option<string>, expiresAt: Millis)

  /** The tables, the next row id the database would generate and the next random token. */
  datatype Store = Store(rows: map<Digest, Row>, users: set<UserId>, nextId: nat, nextRaw: nat)

  datatype Response =
    | NoSession
    | Resolved(user: UserId, rotated: Option<Token>)
    | UniqueViolation

  /** What the read before the transaction decides. */
  datatype PreCheck =
    | Absent
    | SeenExpired(rowId: nat)
    | Fresh(user: UserId)
    | NeedsLock

  datatype SessionError = UserNotFound | DuplicateHash | InvalidCode

  function DeriveRotated(parent: Digest, secret: Secret): Token {
    Rotated(parent, Hmac(secret, parent))
  }

  function RotatedParent(token: Token, secret: Secret): Option<Digest> {
    if token.Rotated? && token.mac == Hmac(secret, token.parent) then Some(token.parent) else None
  }

  /** The hash a token would rotate to. */
  function Child(d: Digest, secret: Secret): Digest {
    Sha(DeriveRotated(d, secret))
  }

  /** Logging out from a rotated token finds exactly the hash it was derived from, and a
      token whose parent is found is the derived one: no forged mac names a parent. */
  lemma RotatedParentInverts(token: Token, parent: Digest, secret: Secret)
    ensures RotatedParent(token, secret) == Some(parent) <==> token == DeriveRotated(parent, secret)
  {
  }

  function Without(rows: map<Digest, Row>, hashes: set<Digest>): map<Digest, Row> {
    map d | d in rows && d !in hashes :: rows[d]
  }

  function WithoutId(rows: map<Digest, Row>, id: nat): map<Digest, Row> {
    map d | d in rows && rows[d].id != id :: rows[d]
  }

  function WithoutUser(rows: map<Digest, Row>, user: UserId): map<Digest, Row> {
    map d | d in rows && rows[d].user != user :: rows[d]
  }

  function Insert(st: Store, hash: Digest, user: UserId, origin: Option<string>, expiresAt: Millis): Store {
    st.(rows := st.rows[hash := Row(st.nextId, user, origin, expiresAt)], nextId := st.nextId + 1)
  }

  function CreateSpec(st: Store, user: UserId, origin: Option<string>, expiresAt: Millis)
    : (Store, Result<Token, SessionError>)
  {
    var drawn := st.(nextRaw := st.nextRaw + 1);
    var token := Raw(st.nextRaw);
    if user !in st.users then (drawn, Err(UserNotFound))
    else if Sha(token) in st.rows then (drawn, Err(DuplicateHash))
    else (Insert(drawn, Sha(token), user, origin, expiresAt), Ok(token))
  }

  function PreCheckSpec(st: Store, secret: Option<Secret>, token: Token, now: Millis): PreCheck {
    if token.NoToken? || Sha(token) !in st.rows then Absent
    else
      var row := st.rows[Sha(token)];
      if row.expiresAt <= now then SeenExpired(row.id)
      else if secret.None? || row.expiresAt - now > SESSION_ROTATION_WINDOW_MS then Fresh(row.user)
      else NeedsLock
  }

  /** The transaction of `resolveSessionForRequest`, under the lock of the presented row. */
  function RotateSpec(st: Store, secret: Option<Secret>, token: Token, now: Millis): (Store, Response) {
    var hash := Sha(token);
    if hash !in st.rows then (st, NoSession)
    else
      var row := st.rows[hash];
      if row.expiresAt <= now then (st.(rows := Without(st.rows, {hash})), NoSession)
      else if row.user !in st.users then (st, NoSession)
      else if secret.None? || row.expiresAt - now > SESSION_ROTATION_WINDOW_MS then (st, Resolved(row.user, None))
      else
        var rotated := DeriveRotated(hash, secret.value);
        var child := Sha(rotated);
        var active := child in st.rows && st.rows[child].user == row.user && st.rows[child].expiresAt > now;
        if active && row.expiresAt - now <= SESSION_ROTATION_GRACE_MS then (st, Resolved(row.user, Some(rotated)))
        else if !active && child in st.rows then (st, UniqueViolation)
        else
          var st' := if active then st else Insert(st, child, row.user, row.appOrigin, now + SESSION_TTL_MS);
          (st'.(rows := st'.rows[hash := row.(expiresAt := now + SESSION_ROTATION_GRACE_MS)]),
           Resolved(row.user, Some(rotated)))
  }

  /** Parent (when the mac proves one), self and child. */
  function LogoutHashes(token: Token, secret: Option<Secret>): set<Digest> {
    {Sha(token)}
    + (if secret.Some? then {Child(Sha(token), secret.value)} else {})
    + (if secret.Some? && RotatedParent(token, secret.value).Some? then {RotatedParent(token, secret.value).value} else {})
  }

  function LogoutSpec(st: Store, secret: Option<Secret>, token: Token): Store {
    if token.NoToken? then st else st.(rows := Without(st.rows, LogoutHashes(token, secret)))
  }

  function ConsumeCodeSpec(st: Store, code: Token, origin: string, now: Millis): (Store, Result<UserId, SessionError>) {
    if code.Raw? && Sha(code) in st.rows && st.rows[Sha(code)].appOrigin == Some(origin) && st.rows[Sha(code)].expiresAt > now
    then
      (st.(rows := Without(st.rows, {Sha(code)})),
       if st.rows[Sha(code)].user in st.users then Ok(st.rows[Sha(code)].user) else Err(UserNotFound))
    else (st, Err(InvalidCode))
  }

  /** The service itself: each method is one database step and updates the tables in place. */
  class UsersService {
    const secret: Option<Secret>
    var rows: map<Digest, Row>
    var users: set<UserId>
    var nextId: nat
    var nextRaw: nat

    constructor (secret: Option<Secret>, users: set<UserId>)
      ensures this.secret == secret && Contents() == Store(map[], users, 0, 0)
    {
      this.secret := secret;
      this.users := users;
      rows, nextId, nextRaw := map[], 0, 0;
    }

    function Contents(): Store
      reads this
    {
      Store(rows, users, nextId, nextRaw)
    }

    method InsertRow(hash: Digest, user: UserId, origin: Option<string>, expiresAt: Millis)
      modifies this`rows, this`nextId
      ensures Contents() == Insert(old(Contents()), hash, user, origin, expiresAt)
    {
      rows := rows[hash := Row(nextId, user, origin, expiresAt)];
      nextId := nextId + 1;
    }

    method CreateSession(user: UserId, origin: Option<string>, ttl: Millis, now: Millis)
      returns (r: Result<Token, SessionError>)
      modifies this
      ensures (Contents(), r) == CreateSpec(old(Contents()), user, origin, now + ttl)
      ensures r == Err(UserNotFound) <==> user !in users
      ensures r.Err? ==> rows == old(rows)
      ensures r.Ok? ==>
        && Sha(r.value) !in old(rows) && rows.Keys == old(rows).Keys + {Sha(r.value)}
        && rows[Sha(r.value)].user == user && rows[Sha(r.value)].appOrigin == origin
        && rows[Sha(r.value)].expiresAt == now + ttl
        && forall d <- old(rows) :: rows[d] == old(rows)[d]
    {
      var token := Raw(nextRaw);
      nextRaw := nextRaw + 1;
      if user !in users {
        return Err(UserNotFound);
      }
      if Sha(token) in rows {
        return Err(DuplicateHash);
      }
      InsertRow(Sha(token), user, origin, now + ttl);
      return Ok(token);
    }

    method ReadSession(token: Token, now: Millis) returns (r: PreCheck)
      ensures r == PreCheckSpec(Contents(), secret, token, now)
      ensures r.Absent? <==> token == NoToken || Sha(token) !in rows
      ensures r.SeenExpired? <==> token != NoToken && Sha(token) in rows && rows[Sha(token)].expiresAt <= now
      ensures r.Fresh? <==>
        && token != NoToken && Sha(token) in rows && rows[Sha(token)].expiresAt > now
        && (secret == None || rows[Sha(token)].expiresAt > now + 604_800_000)
      ensures r.Fresh? ==> r.user == rows[Sha(token)].user
    {
      if token == NoToken || Sha(token) !in rows {
        return Absent;
      }
      var row := rows[Sha(token)];
      if row.expiresAt <= now {
        return SeenExpired(row.id);
      }
      if secret == None || row.expiresAt - now > SESSION_ROTATION_WINDOW_MS {
        return Fresh(row.user);
      }
      return NeedsLock;
    }

    method DeleteById(id: nat)
      modifies this`rows
      ensures Contents() == old(Contents()).(rows := WithoutId(old(rows), id))
    {
      rows := WithoutId(rows, id);
    }

    method RotateUnderLock(token: Token, now: Millis) returns (r: Response)
      modifies this`rows, this`nextId
      ensures (Contents(), r) == RotateSpec(old(Contents()), secret, token, now)
      ensures r == NoSession <==>
        Sha(token) !in old(rows) || old(rows)[Sha(token)].expiresAt <= now || old(rows)[Sha(token)].user !in users
      ensures r == UniqueViolation ==>
        && secret.Some? && rows == old(rows) && Child(Sha(token), secret.value) in old(rows)
        && var child := old(rows)[Child(Sha(token), secret.value)];
           child.user != old(rows)[Sha(token)].user || child.expiresAt <= now
      ensures r.Resolved? ==> Sha(token) in old(rows) && old(rows)[Sha(token)].expiresAt > now && r.user == old(rows)[Sha(token)].user
      ensures r.Resolved? && r.rotated.None? ==> rows == old(rows)
      ensures r.Resolved? && r.rotated.Some? ==> secret.Some? && r.rotated.value == DeriveRotated(Sha(token), secret.value)
      ensures r.Resolved? && r.rotated.Some? && Sha(r.rotated.value) !in old(rows) ==>
        var (hash, child, row) := (Sha(token), Sha(r.rotated.value), old(rows)[Sha(token)]);
        && child in rows && rows[child] == Row(old(nextId), row.user, row.appOrigin, now + 2_592_000_000)
        && hash in rows && (hash != child ==> rows[hash] == row.(expiresAt := now + 120_000))
        && forall d <- old(rows) :: d in rows && (d != hash ==> rows[d] == old(rows)[d])
    {
      var hash := Sha(token);
      if hash !in rows {
        return NoSession;
      }
      var row := rows[hash];
      if row.expiresAt <= now {
        rows := Without(rows, {hash});
        return NoSession;
      }
      if row.user !in users {
        return NoSession;
      }
      var remaining := row.expiresAt - now;
      if secret == None || remaining > SESSION_ROTATION_WINDOW_MS {
        return Resolved(row.user, None);
      }
      var rotated := DeriveRotated(hash, secret.value);
      var child := Sha(rotated);
      var active := child in rows && rows[child].user == row.user && rows[child].expiresAt > now;
      if remaining <= SESSION_ROTATION_GRACE_MS && active {
        return Resolved(row.user, Some(rotated));
      }
      if !active {
        if child in rows {
          return UniqueViolation;
        }
        InsertRow(child, row.user, row.appOrigin, now + SESSION_TTL_MS);
      }
      rows := rows[hash := row.(expiresAt := now + SESSION_ROTATION_GRACE_MS)];
      return Resolved(row.user, Some(rotated));
    }

    /** One request without interference: the read at `seen`, the transaction at `locked`. */
    method ResolveSessionForRequest(token: Token, seen: Millis, locked: Millis) returns (r: Response)
      modifies this`rows, this`nextId
      ensures match PreCheckSpec(old(Contents()), secret, token, seen)
              case Absent => r == NoSession && Contents() == old(Contents())
              case SeenExpired(id) => r == NoSession && Contents() == old(Contents()).(rows := WithoutId(old(rows), id))
              case Fresh(user) => r == Resolved(user, None) && Contents() == old(Contents())
              case NeedsLock => (Contents(), r) == RotateSpec(old(Contents()), secret, token, locked)
    {
      var seenAs := ReadSession(token, seen);
      match seenAs
      case Absent => r := NoSession;
      case SeenExpired(id) =>
        DeleteById(id);
        r := NoSession;
      case Fresh(user) => r := Resolved(user, None);
      case NeedsLock => r := RotateUnderLock(token, locked);
    }

    method DeleteSessionByToken(token: Token)
      modifies this`rows
      ensures Contents() == LogoutSpec(old(Contents()), secret, token)
    {
      if token == NoToken {
        return;
      }
      var hashes := [Sha(token)];
      if secret != None {
        var parent := RotatedParent(token, secret.value);
        if parent != None {
          hashes := [parent.value] + hashes;
        }
        hashes := hashes + [Child(Sha(token), secret.value)];
      }
      var unique := set h | h in hashes;
      assert unique == LogoutHashes(token, secret);
      rows := Without(rows, unique);
    }

    method DeleteAllSessionsForUser(user: UserId)
      modifies this`rows
      ensures forall d :: d in rows <==> d in old(rows) && old(rows)[d].user != user
      ensures forall d <- rows :: rows[d] == old(rows)[d]
      ensures Contents() == old(Contents()).(rows := WithoutUser(old(rows), user))
    {
      rows := WithoutUser(rows, user);
    }

    method ConsumeOAuthLoginCode(code: Token, origin: string, now: Millis) returns (r: Result<UserId, SessionError>)
      modifies this`rows
      ensures (Contents(), r) == ConsumeCodeSpec(old(Contents()), code, origin, now)
      ensures r == Err(InvalidCode) ==> Contents() == old(Contents())
      ensures r != Err(InvalidCode) ==>
        && Sha(code) in old(rows) && old(rows)[Sha(code)].appOrigin == Some(origin) && old(rows)[Sha(code)].expiresAt > now
        && Sha(code) !in rows && (forall d <- old(rows) :: d != Sha(code) ==> d in rows && rows[d] == old(rows)[d])
        && (r.Ok? ==> r.value == old(rows)[Sha(code)].user)
    {
      var hash := Sha(code);
      if !code.Raw? || hash !in rows || rows[hash].appOrigin != Some(origin) || rows[hash].expiresAt <= now {
        return Err(InvalidCode);
      }
      var user := rows[hash].user;
      rows := Without(rows, {hash});
      if user !in users {
        return Err(UserNotFound);
      }
      return Ok(user);
    }
  }
}
