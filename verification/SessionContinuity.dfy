/** Continuity: a client that always adopts the rotated token stays signed in for ever, as
    long as its requests are at most seven days apart and nobody ends its session. */
module SessionContinuity {
  import opened Wrappers
  import opened Sessions
  import opened SessionProtocol
  import opened SessionGuarantees

  /** An event of somebody else: it presents no token of the client's family, answers none of
      its requests and does not revoke its user.  Time, logins and late deletions are free. */
  predicate Foreign(e: Event, root: nat, user: UserId, request: nat) {
    match e
    case Begin(r, token) => r != request && Root(Sha(token)) != Some(root)
    case Finish(r) => r != request
    case Logout(token) => Root(Sha(token)) != Some(root)
    case ConsumeCode(token, _) => Root(Sha(token)) != Some(root)
    case Revoke(u) => u != user
    case RevokeCommit(u) => u != user
    case DeleteUser(u) => u != user
    case _ => true
  }

  ghost predicate AllForeign(events: seq<Event>, root: nat, user: UserId, request: nat) {
    forall e <- events :: Foreign(e, root, user, request)
  }

  /** No request but `request` waits with a token of the family. */
  ghost predicate QuietBut(s: State, root: nat, request: nat) {
    forall r <- s.waiting :: r != request ==> Root(Sha(s.waiting[r])) != Some(root)
  }

  ghost predicate Quiet(s: State, root: nat) {
    forall r <- s.waiting :: Root(Sha(s.waiting[r])) != Some(root)
  }

  ghost predicate Holds(s: State, held: Token, root: nat, user: UserId) {
    && Root(Sha(held)) == Some(root)
    && Sha(held) in s.store.rows
    && s.store.rows[Sha(held)].user == user
  }

  function Expiry(s: State, held: Token): Millis
    requires Sha(held) in s.store.rows
  {
    s.store.rows[Sha(held)].expiresAt
  }

  lemma ForeignStep(s: State, e: Event, held: Token, root: nat, user: UserId, request: nat)
    requires Inv(s) && Foreign(e, root, user, request) && QuietBut(s, root, request)
    requires Holds(s, held, root, user) && Expiry(s, held) > Step(s, e).now
    ensures var t := Step(s, e);
      && Holds(t, held, root, user) && Expiry(t, held) == Expiry(s, held)
      && QuietBut(t, root, request)
      && (request in t.waiting <==> request in s.waiting)
      && (request in s.waiting ==> t.waiting[request] == s.waiting[request])
  {
    hide Step;
    if e.Finish? {
      ForeignFinish(s, e.request, held, root, user, request);
    } else {
      GenuineRoot(Sha(held), s.secret, s.store.nextRaw);
      ForeignOther(s, e, held, root, user, request);
    }
  }

  lemma ForeignFinish(s: State, r: nat, held: Token, root: nat, user: UserId, request: nat)
    requires QuietBut(s, root, request) && r != request && Holds(s, held, root, user)
    ensures var t := Step(s, Finish(r));
      && Holds(t, held, root, user) && Expiry(t, held) == Expiry(s, held)
      && QuietBut(t, root, request)
      && (request in t.waiting <==> request in s.waiting)
      && (request in s.waiting ==> t.waiting[request] == s.waiting[request])
  {
    if r in s.waiting && s.secret.Some? {
      assert Root(Child(Sha(s.waiting[r]), s.secret.value)) == Root(Sha(s.waiting[r]));
    }
  }

  lemma ForeignOther(s: State, e: Event, held: Token, root: nat, user: UserId, request: nat)
    requires RowsOk(s) && !e.Finish? && Foreign(e, root, user, request) && QuietBut(s, root, request)
    requires Holds(s, held, root, user) && Expiry(s, held) > Step(s, e).now && root < s.store.nextRaw
    ensures var t := Step(s, e);
      && Holds(t, held, root, user) && Expiry(t, held) == Expiry(s, held)
      && QuietBut(t, root, request)
      && (request in t.waiting <==> request in s.waiting)
      && (request in s.waiting ==> t.waiting[request] == s.waiting[request])
  {
    ForeignRow(s, e, held, root, user, request);
    ForeignWaiting(s, e, root, user, request);
    hide Step, RowsOk, QuietBut, Foreign;
  }

  lemma ForeignRow(s: State, e: Event, held: Token, root: nat, user: UserId, request: nat)
    requires RowsOk(s) && !e.Finish? && Foreign(e, root, user, request)
    requires Holds(s, held, root, user) && Expiry(s, held) > Step(s, e).now && root < s.store.nextRaw
    ensures Sha(held) in Step(s, e).store.rows && Step(s, e).store.rows[Sha(held)] == s.store.rows[Sha(held)]
  {
  }

  lemma ForeignWaiting(s: State, e: Event, root: nat, user: UserId, request: nat)
    requires !e.Finish? && Foreign(e, root, user, request) && QuietBut(s, root, request)
    ensures var t := Step(s, e);
      && QuietBut(t, root, request)
      && (request in t.waiting <==> request in s.waiting)
      && (request in s.waiting ==> t.waiting[request] == s.waiting[request])
  {
  }

  lemma {:induction false} ForeignRun(s: State, events: seq<Event>, held: Token, root: nat, user: UserId, request: nat)
    requires Inv(s) && AllForeign(events, root, user, request) && QuietBut(s, root, request)
    requires Holds(s, held, root, user) && Expiry(s, held) > Run(s, events).now
    ensures var t := Run(s, events);
      && Inv(t) && Holds(t, held, root, user) && Expiry(t, held) == Expiry(s, held)
      && QuietBut(t, root, request)
      && (request in t.waiting <==> request in s.waiting)
      && (request in s.waiting ==> t.waiting[request] == s.waiting[request])
    decreases |events|
  {
    if events != [] {
      var next := Step(s, events[0]);
      RunFacts(next, events[1..]);
      assert events[0] in events;
      ForeignStep(s, events[0], held, root, user, request);
      StepInv(s, events[0]);
      ForeignRun(next, events[1..], held, root, user, request);
    }
  }

  /** One request of the client with the interference around and inside it. */
  datatype Round = Round(request: nat, before: seq<Event>, during: seq<Event>)

  function PlayRound(s: State, held: Token, r: Round): (State, Token, Response) {
    var seen := Run(s, r.before);
    var begun := Step(seen, Begin(r.request, held));
    match PreCheckSpec(seen.store, seen.secret, held, seen.now)
    case Fresh(user) => (begun, held, Resolved(user, None))
    case NeedsLock =>
      var locked := Run(begun, r.during);
      var reply := FinishReply(locked, r.request);
      (Step(locked, Finish(r.request)),
       if reply.Resolved? && reply.rotated.Some? then reply.rotated.value else held,
       reply)
    case _ => (begun, held, NoSession)
  }

  /** Requests are at most seven days apart and only foreign events interfere. */
  ghost predicate Admissible(s: State, held: Token, rounds: seq<Round>, root: nat, user: UserId)
    decreases |rounds|
  {
    rounds == [] ||
    var r := rounds[0];
    var (t, next, _) := PlayRound(s, held, r);
    && AllForeign(r.before, root, user, r.request)
    && AllForeign(r.during, root, user, r.request)
    && t.now - s.now <= SESSION_ROTATION_WINDOW_MS
    && Admissible(t, next, rounds[1..], root, user)
  }

  /** Every request is answered with the user, and leaves a token good for more than a week. */
  ghost predicate AlwaysServed(s: State, held: Token, rounds: seq<Round>, user: UserId)
    decreases |rounds|
  {
    rounds == [] ||
    var (t, next, reply) := PlayRound(s, held, rounds[0]);
    && reply.Resolved? && reply.user == user
    && next == (if reply.rotated.Some? then reply.rotated.value else held)
    && Sha(next) in t.store.rows && Expiry(t, next) > t.now + SESSION_ROTATION_WINDOW_MS
    && AlwaysServed(t, next, rounds[1..], user)
  }

  lemma FinishServes(s: State, request: nat, held: Token, root: nat, user: UserId)
    requires Inv(s) && s.secret.Some? && QuietBut(s, root, request)
    requires request in s.waiting && s.waiting[request] == held
    requires Holds(s, held, root, user) && Live(s, Sha(held))
    ensures var reply := FinishReply(s, request);
      var t := Step(s, Finish(request));
      && reply.Resolved? && reply.user == user
      && var next := if reply.rotated.Some? then reply.rotated.value else held;
      && Holds(t, next, root, user) && Expiry(t, next) > t.now + SESSION_ROTATION_WINDOW_MS
      && Quiet(t, root)
  {
    var d := Sha(held);
    if s.store.rows[d].expiresAt - s.now <= SESSION_ROTATION_WINDOW_MS {
      WindowFacts(s, d);
      assert Root(Child(d, s.secret.value)) == Root(d);
    }
  }

  lemma BeginServes(s: State, request: nat, held: Token, root: nat, user: UserId)
    requires Inv(s) && s.secret.Some? && Quiet(s, root) && Holds(s, held, root, user) && Live(s, Sha(held))
    ensures var t := Step(s, Begin(request, held));
      && t.store == s.store && t.now == s.now && t.secret == s.secret && Holds(t, held, root, user)
      && QuietBut(t, root, request)
      && match PreCheckSpec(s.store, s.secret, held, s.now)
         case Fresh(u) => u == user && Quiet(t, root) && Expiry(t, held) > t.now + SESSION_ROTATION_WINDOW_MS
         case NeedsLock => request in t.waiting && t.waiting[request] == held
         case _ => false
  {
    assert held != NoToken;
  }

  lemma RoundServes(s: State, held: Token, r: Round, root: nat, user: UserId)
    requires Inv(s) && s.secret.Some? && Quiet(s, root) && Holds(s, held, root, user)
    requires AllForeign(r.before, root, user, r.request) && AllForeign(r.during, root, user, r.request)
    requires Expiry(s, held) > PlayRound(s, held, r).0.now
    ensures var (t, next, reply) := PlayRound(s, held, r);
      && reply.Resolved? && reply.user == user
      && next == (if reply.rotated.Some? then reply.rotated.value else held)
      && Inv(t) && t.secret == s.secret && Quiet(t, root)
      && Holds(t, next, root, user) && Expiry(t, next) > t.now + SESSION_ROTATION_WINDOW_MS
  {
    var seen := Run(s, r.before);
    var begun := Step(seen, Begin(r.request, held));
    var locked := Run(begun, r.during);
    RunFacts(s, r.before);
    RunFacts(begun, r.during);
    QuietRun(s, r.before, held, root, user, r.request);
    BeginInv(seen, r.request, held);
    BeginServes(seen, r.request, held, root, user);
    if PreCheckSpec(seen.store, seen.secret, held, seen.now).NeedsLock? {
      LockedServes(begun, held, r, root, user);
    }
  }

  lemma QuietRun(s: State, events: seq<Event>, held: Token, root: nat, user: UserId, request: nat)
    requires Inv(s) && Quiet(s, root) && Holds(s, held, root, user)
    requires AllForeign(events, root, user, request) && Expiry(s, held) > Run(s, events).now
    ensures var t := Run(s, events);
      Inv(t) && Quiet(t, root) && Holds(t, held, root, user) && Live(t, Sha(held)) && Expiry(t, held) == Expiry(s, held)
  {
    ForeignRun(s, events, held, root, user, request);
  }

  lemma LockedServes(begun: State, held: Token, r: Round, root: nat, user: UserId)
    requires Inv(begun) && begun.secret.Some? && QuietBut(begun, root, r.request) && Holds(begun, held, root, user)
    requires r.request in begun.waiting && begun.waiting[r.request] == held
    requires AllForeign(r.during, root, user, r.request) && Expiry(begun, held) > Run(begun, r.during).now
    ensures var locked := Run(begun, r.during);
      var reply := FinishReply(locked, r.request);
      var t := Step(locked, Finish(r.request));
      && reply.Resolved? && reply.user == user
      && Inv(t) && t.secret == begun.secret && Quiet(t, root)
      && var next := if reply.rotated.Some? then reply.rotated.value else held;
      && Holds(t, next, root, user) && Expiry(t, next) > t.now + SESSION_ROTATION_WINDOW_MS
  {
    var locked := Run(begun, r.during);
    RunFacts(begun, r.during);
    ForeignRun(begun, r.during, held, root, user, r.request);
    FinishServes(locked, r.request, held, root, user);
    FinishInv(locked, r.request);
  }

  lemma {:induction false} ServedFrom(s: State, held: Token, rounds: seq<Round>, root: nat, user: UserId)
    requires Inv(s) && s.secret.Some? && Quiet(s, root)
    requires Holds(s, held, root, user) && Expiry(s, held) > s.now + SESSION_ROTATION_WINDOW_MS
    requires Admissible(s, held, rounds, root, user)
    ensures AlwaysServed(s, held, rounds, user)
    decreases |rounds|
  {
    if rounds != [] {
      var (t, next, reply) := PlayRound(s, held, rounds[0]);
      RoundServes(s, held, rounds[0], root, user);
      ServedFrom(t, next, rounds[1..], root, user);
    }
  }

  /** Only tokens the service itself issued get past the read. */
  ghost predicate WaitingGenuine(s: State) {
    forall r <- s.waiting :: Genuine(Sha(s.waiting[r]), s.secret, s.store.nextRaw)
  }

  lemma WaitingGenuineStep(s: State, e: Event)
    requires RowsOk(s) && WaitingGenuine(s)
    ensures WaitingGenuine(Step(s, e))
  {
    hide Step, RowsOk;
    var t := Step(s, e);
    WaitingKnown(s, e);
    forall r | r in t.waiting
      ensures Genuine(Sha(t.waiting[r]), t.secret, t.store.nextRaw)
    {
      GenuineMonotone(Sha(t.waiting[r]), s.secret, s.store.nextRaw, t.store.nextRaw);
    }
  }

  lemma WaitingKnown(s: State, e: Event)
    requires RowsOk(s) && WaitingGenuine(s)
    ensures var t := Step(s, e);
      && t.secret == s.secret && s.store.nextRaw <= t.store.nextRaw
      && forall r <- t.waiting :: Genuine(Sha(t.waiting[r]), s.secret, s.store.nextRaw)
  {
  }

  lemma {:induction false} WaitingGenuineRun(s: State, events: seq<Event>)
    requires Inv(s) && WaitingGenuine(s)
    ensures WaitingGenuine(Run(s, events))
    decreases |events|
  {
    if events != [] {
      WaitingGenuineStep(s, events[0]);
      StepInv(s, events[0]);
      hide Inv, WaitingGenuine, Step;
      WaitingGenuineRun(Step(s, events[0]), events[1..]);
    }
  }

  /** Session continuity from the login on, in any reachable state. */
  lemma SignedInForever(secret: Secret, start: Millis, history: seq<Event>, user: UserId, origin: Option<string>,
                        rounds: seq<Round>)
    requires user in Run(Init(Some(secret), start), history).store.users
    requires
      var s := Run(Init(Some(secret), start), history);
      var root := s.store.nextRaw;
      Admissible(Step(s, Login(user, origin, s.now, SESSION_TTL_MS)), Raw(root), rounds, root, user)
    ensures
      var s := Run(Init(Some(secret), start), history);
      AlwaysServed(Step(s, Login(user, origin, s.now, SESSION_TTL_MS)), Raw(s.store.nextRaw), rounds, user)
  {
    var s := Run(Init(Some(secret), start), history);
    ReachableInv(Some(secret), start, history);
    RunFacts(Init(Some(secret), start), history);
    WaitingGenuineRun(Init(Some(secret), start), history);
    var root := s.store.nextRaw;
    LoginInv(s, user, origin, s.now + SESSION_TTL_MS);
    var t := Step(s, Login(user, origin, s.now, SESSION_TTL_MS));
    StepInv(s, Login(user, origin, s.now, SESSION_TTL_MS));
    forall r | r in t.waiting
      ensures Root(Sha(t.waiting[r])) != Some(root)
    {
      GenuineRoot(Sha(t.waiting[r]), s.secret, root);
    }
    ServedFrom(t, Raw(root), rounds, root, user);
  }
}
