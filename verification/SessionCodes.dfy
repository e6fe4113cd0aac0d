/** Login codes from their issue to their use, and what a session row keeps of its login. */
module SessionCodes {
  import opened Wrappers
  import opened Sessions
  import opened SessionProtocol
  import opened SessionGuarantees

  // ----- what rows remember -----

  datatype Grant = Grant(user: UserId, origin: Option<string>)

  /** The user and origin of the login that drew each random token. */
  function Grants(s: State, events: seq<Event>, known: map<nat, Grant>): map<nat, Grant>
    decreases |events|
  {
    if events == [] then known
    else
      Grants(Step(s, events[0]), events[1..],
             if events[0].Login? then known[s.store.nextRaw := Grant(events[0].user, events[0].origin)] else known)
  }

  ghost predicate Remembers(s: State, grants: map<nat, Grant>) {
    forall d <- s.store.rows ::
      && Root(d).Some? && Root(d).value in grants
      && grants[Root(d).value] == Grant(s.store.rows[d].user, s.store.rows[d].appOrigin)
  }

  lemma LoginRemembers(s: State, e: Event, grants: map<nat, Grant>)
    requires Inv(s) && e.Login? && Remembers(s, grants)
    ensures Remembers(Step(s, e), grants[s.store.nextRaw := Grant(e.user, e.origin)])
  {
    LoginInv(s, e.user, e.origin, e.issuedAt + e.ttl);
    forall d | d in s.store.rows
      ensures Root(d) != Some(s.store.nextRaw)
    {
      GenuineRoot(d, s.secret, s.store.nextRaw);
    }
  }

  lemma OthersRemember(s: State, e: Event, grants: map<nat, Grant>)
    requires !e.Login? && Remembers(s, grants)
    ensures Remembers(Step(s, e), grants)
  {
    if e.Finish? && e.request in s.waiting && s.secret.Some? {
      var d := Sha(s.waiting[e.request]);
      assert Root(Child(d, s.secret.value)) == Root(d);
    }
  }

  lemma {:induction false} RunRemembers(s: State, events: seq<Event>, grants: map<nat, Grant>)
    requires Inv(s) && Remembers(s, grants)
    ensures Remembers(Run(s, events), Grants(s, events, grants))
    decreases |events|
  {
    hide Inv, Step, Remembers;
    if events != [] {
      StepInv(s, events[0]);
      if events[0].Login? {
        LoginRemembers(s, events[0], grants);
        RunRemembers(Step(s, events[0]), events[1..], grants[s.store.nextRaw := Grant(events[0].user, events[0].origin)]);
      } else {
        OthersRemember(s, events[0], grants);
        RunRemembers(Step(s, events[0]), events[1..], grants);
      }
    }
  }

  /** In every reachable state each row of a family, however often it was rotated, carries the
      user and the application origin of the login that started the family. */
  lemma RowsKeepTheirLogin(secret: Option<Secret>, start: Millis, events: seq<Event>, d: Digest)
    requires d in Run(Init(secret, start), events).store.rows
    ensures var row := Run(Init(secret, start), events).store.rows[d];
      var grants := Grants(Init(secret, start), events, map[]);
      && Root(d).Some? && Root(d).value in grants
      && row.user == grants[Root(d).value].user && row.appOrigin == grants[Root(d).value].origin
  {
    RunRemembers(Init(secret, start), events, map[]);
  }

  /** Whoever a token signs in, at the un-locked read or under the lock, is the user whose login
      started its family. */
  lemma TokenSignsInItsLogin(secret: Option<Secret>, start: Millis, events: seq<Event>, token: Token)
    ensures var s := Run(Init(secret, start), events);
      var grants := Grants(Init(secret, start), events, map[]);
      var (read, reply) := (PreCheckSpec(s.store, secret, token, s.now), RotateSpec(s.store, secret, token, s.now).1);
      && (read.Fresh? ==> Root(Sha(token)).Some? && Root(Sha(token)).value in grants
                          && read.user == grants[Root(Sha(token)).value].user)
      && (reply.Resolved? ==> Root(Sha(token)).Some? && Root(Sha(token)).value in grants
                              && reply.user == grants[Root(Sha(token)).value].user)
  {
    hide Run, Grants;
    if Sha(token) in Run(Init(secret, start), events).store.rows { RowsKeepTheirLogin(secret, start, events, Sha(token)); }
  }

  // ----- the life of a login code -----

  /** The step removes the code's row: the code is used, logged out (as a cookie, or through the
      cookie it was rotated to), or a deletion of all of the user's rows reaches it. */
  predicate Takes(s: State, e: Event, code: Token, user: UserId, origin: string) {
    match e
    case ConsumeCode(presented, at) => presented == code && at == origin
    case Logout(token) => token == code || (s.secret.Some? && token == DeriveRotated(Sha(code), s.secret.value))
    case Revoke(whose) => whose == user
    case DeleteUser(whose) => whose == user
    case RevokeCommit(whose) => whose == user && Sha(code) in s.store.rows && s.store.rows[Sha(code)].id in Doomed(s, user)
    case _ => false
  }

  /** A request that shows the code as its session cookie gets the lock and rotates it. */
  predicate Rotates(s: State, e: Event, code: Token) {
    && e.Finish? && e.request in s.waiting && s.waiting[e.request] == code
    && Live(s, Sha(code)) && s.secret.Some?
    && s.store.rows[Sha(code)].expiresAt - s.now <= SESSION_ROTATION_WINDOW_MS
    && Child(Sha(code), s.secret.value) !in s.store.rows
  }

  datatype CodeLife = CodeLife(until: Millis, taken: bool)

  /** How long a code is good for: until its expiry, unless it was taken; rotating it as a cookie
      replaces its expiry by the two minutes of grace. */
  function Follow(s: State, events: seq<Event>, code: Token, user: UserId, origin: string, life: CodeLife): CodeLife
    decreases |events|
  {
    if events == [] then life
    else
      var next := CodeLife(
        if Rotates(s, events[0], code) then s.now + SESSION_ROTATION_GRACE_MS else life.until,
        life.taken || Takes(s, events[0], code, user, origin));
      Follow(Step(s, events[0]), events[1..], code, user, origin, next)
  }

  /** The row of a code in terms of what happened to it. */
  predicate Lives(s: State, code: Token, user: UserId, origin: string, life: CodeLife) {
    && code.Raw? && code.id < s.store.nextRaw
    && (Sha(code) in s.store.rows ==>
          var row := s.store.rows[Sha(code)];
          row.user == user && row.appOrigin == Some(origin) && row.expiresAt == life.until)
    && (!life.taken && s.now < life.until ==> Sha(code) in s.store.rows)
    && (life.taken && s.now < life.until ==> Sha(code) !in s.store.rows)
  }

  lemma LoginLives(s: State, e: Event, code: Token, user: UserId, origin: string, life: CodeLife)
    requires Lives(s, code, user, origin, life) && (e.Login? || e.Tick? || e.AddUser? || e.Begin? || e.RevokeStart?)
    ensures Lives(Step(s, e), code, user, origin, life)
  {
  }

  lemma RemovalLives(s: State, e: Event, code: Token, user: UserId, origin: string, life: CodeLife)
    requires Inv(s) && Removes(e) && Lives(s, code, user, origin, life)
    ensures Lives(Step(s, e), code, user, origin, life.(taken := life.taken || Takes(s, e, code, user, origin)))
  {
    if e.RevokeCommit? { CommitReaches(s, e.user, code, user); }
  }

  /** A commit reaches the code exactly if it is the user's and saw the row at its start. */
  lemma CommitReaches(s: State, whose: UserId, code: Token, user: UserId)
    requires Inv(s) && (Sha(code) in s.store.rows ==> s.store.rows[Sha(code)].user == user)
    ensures Sha(code) in s.store.rows ==>
              (s.store.rows[Sha(code)].id in Doomed(s, whose) <==> whose == user && s.store.rows[Sha(code)].id in Doomed(s, user))
  {
  }

  lemma FinishLives(s: State, e: Event, code: Token, user: UserId, origin: string, life: CodeLife)
    requires Inv(s) && e.Finish? && Lives(s, code, user, origin, life)
    ensures Lives(Step(s, e), code, user, origin,
                  life.(until := if Rotates(s, e, code) then s.now + SESSION_ROTATION_GRACE_MS else life.until))
  {
    if e.request in s.waiting && s.waiting[e.request] == code && Live(s, Sha(code)) && s.secret.Some?
       && s.store.rows[Sha(code)].expiresAt - s.now <= SESSION_ROTATION_WINDOW_MS {
      WindowFacts(s, Sha(code));
    }
  }

  lemma {:induction false} FollowLives(s: State, events: seq<Event>, code: Token, user: UserId, origin: string, life: CodeLife)
    requires Inv(s) && Lives(s, code, user, origin, life)
    ensures Lives(Run(s, events), code, user, origin, Follow(s, events, code, user, origin, life))
    decreases |events|
  {
    hide Inv, Step, Lives, Takes, Rotates;
    if events != [] {
      var e := events[0];
      StepInv(s, e);
      var next := CodeLife(if Rotates(s, e, code) then s.now + SESSION_ROTATION_GRACE_MS else life.until,
                           life.taken || Takes(s, e, code, user, origin));
      StepLives(s, e, code, user, origin, life, next);
      FollowLives(Step(s, e), events[1..], code, user, origin, next);
    }
  }

  lemma StepLives(s: State, e: Event, code: Token, user: UserId, origin: string, life: CodeLife, next: CodeLife)
    requires Inv(s) && Lives(s, code, user, origin, life)
    requires next == CodeLife(if Rotates(s, e, code) then s.now + SESSION_ROTATION_GRACE_MS else life.until,
                              life.taken || Takes(s, e, code, user, origin))
    ensures Lives(Step(s, e), code, user, origin, next)
  {
    hide Inv, Step, Lives;
    if Removes(e) {
      RemovalLives(s, e, code, user, origin, life);
    } else if e.Finish? {
      FinishLives(s, e, code, user, origin, life);
    } else {
      LoginLives(s, e, code, user, origin, life);
    }
  }

  /** A code issued in any reachable state to a user who exists is accepted, with that user, at
      exactly the moments before its time is up, for exactly the origin it was issued for, as long
      as no step took it - whatever else happens in between. */
  lemma CodeAcceptedExactly(secret: Option<Secret>, start: Millis, before: seq<Event>, user: UserId, origin: string,
                            issuedAt: Millis, ttl: Millis, after: seq<Event>, presented: string)
    requires user in Run(Init(secret, start), before).store.users
    ensures var s := Run(Init(secret, start), before);
      var code := Raw(s.store.nextRaw);
      var issued := Step(s, Login(user, Some(origin), issuedAt, ttl));
      var later := Run(issued, after);
      var life := Follow(issued, after, code, user, origin, CodeLife(issuedAt + ttl, false));
      && CreateSpec(s.store, user, Some(origin), issuedAt + ttl).1 == Ok(code)
      && ConsumeCodeSpec(later.store, code, presented, later.now).1 ==
           if presented == origin && later.now < life.until && !life.taken then Ok(user) else Err(InvalidCode)
  {
    hide Inv, Takes, Rotates;
    var s := Run(Init(secret, start), before);
    var code := Raw(s.store.nextRaw);
    var e := Login(user, Some(origin), issuedAt, ttl);
    var issued := Step(s, e);
    ReachableInv(secret, start, before);
    LoginInv(s, user, Some(origin), issuedAt + ttl);
    StepInv(s, e);
    var life := CodeLife(issuedAt + ttl, false);
    FollowLives(issued, after, code, user, origin, life);
    RunInv(issued, after);
    UsersOfRows(Run(issued, after), code);
  }

  lemma UsersOfRows(s: State, code: Token)
    requires Inv(s)
    ensures Sha(code) in s.store.rows ==> s.store.rows[Sha(code)].user in s.store.users
  {
  }

  /** No step of the continuation takes or rotates the code. */
  ghost predicate Untouched(s: State, events: seq<Event>, code: Token, user: UserId, origin: string)
    decreases |events|
  {
    events == [] ||
    (!Takes(s, events[0], code, user, origin) && !Rotates(s, events[0], code)
     && Untouched(Step(s, events[0]), events[1..], code, user, origin))
  }

  lemma {:induction false} UntouchedLife(s: State, events: seq<Event>, code: Token, user: UserId, origin: string, life: CodeLife)
    requires Untouched(s, events, code, user, origin) && !life.taken
    ensures Follow(s, events, code, user, origin, life) == life
    decreases |events|
  {
    hide Takes, Rotates, Step;
    if events != [] { UntouchedLife(Step(s, events[0]), events[1..], code, user, origin, life); }
  }

  /** So a code that nobody touches signs its user in for its whole lifetime and no longer. */
  lemma CodeLastsItsMinute(secret: Option<Secret>, start: Millis, before: seq<Event>, user: UserId, origin: string,
                           issuedAt: Millis, ttl: Millis, after: seq<Event>, presented: string)
    requires user in Run(Init(secret, start), before).store.users
    requires var s := Run(Init(secret, start), before);
      Untouched(Step(s, Login(user, Some(origin), issuedAt, ttl)), after, Raw(s.store.nextRaw), user, origin)
    ensures var s := Run(Init(secret, start), before);
      var later := Run(Step(s, Login(user, Some(origin), issuedAt, ttl)), after);
      ConsumeCodeSpec(later.store, Raw(s.store.nextRaw), presented, later.now).1 ==
        if presented == origin && later.now < issuedAt + ttl then Ok(user) else Err(InvalidCode)
  {
    hide Inv, Takes, Rotates, Step, ConsumeCodeSpec, CreateSpec, Untouched, Follow;
    var s := Run(Init(secret, start), before);
    CodeAcceptedExactly(secret, start, before, user, origin, issuedAt, ttl, after, presented);
    UntouchedLife(Step(s, Login(user, Some(origin), issuedAt, ttl)), after, Raw(s.store.nextRaw), user, origin,
                  CodeLife(issuedAt + ttl, false));
  }
}
