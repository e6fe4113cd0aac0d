/** What the session protocol promises over every run: few live tokens per family, logout
    that reaches the whole family, one replacement per token, and continuity for a client
    that adopts every rotated token. */
module SessionGuarantees {
  import opened Wrappers
  import opened Sessions
  import opened SessionProtocol

  lemma ReachableInv(secret: Option<Secret>, start: Millis, events: seq<Event>)
    ensures Inv(Run(Init(secret, start), events))
  {
    RunInv(Init(secret, start), events);
  }

  lemma {:induction false} RunSplit(s: State, first: seq<Event>, rest: seq<Event>)
    ensures Run(s, first + rest) == Run(Run(s, first), rest)
    decreases |first|
  {
    if first == [] {
      assert first + rest == rest;
    } else {
      assert (first + rest)[0] == first[0] && (first + rest)[1..] == first[1..] + rest;
      RunSplit(Step(s, first[0]), first[1..], rest);
    }
  }

  lemma {:induction false} RunFacts(s: State, events: seq<Event>)
    ensures Run(s, events).secret == s.secret && s.now <= Run(s, events).now
    decreases |events|
  {
    if events != [] { RunFacts(Step(s, events[0]), events[1..]); }
  }

  // ----- at most two live tokens -----

  predicate LiveInFamily(s: State, d: Digest, root: nat) {
    Live(s, d) && Root(d) == Some(root)
  }

  lemma LivePairs(s: State, x: Digest, y: Digest)
    requires Inv(s) && Live(s, x) && Live(s, y) && Root(x) == Root(y)
    ensures x == y || IsParent(x, y) || IsParent(y, x)
    ensures x != y ==> s.store.rows[x].user == s.store.rows[y].user
  {
    FamilyIsChain(x, y, s.secret, s.store.nextRaw);
    if Ancestor(x, y) { assert Related(s, x, y); }
    if Ancestor(y, x) { assert Related(s, y, x); }
  }

  /** In every reachable state two live tokens of one family are a parent and its child, and
      there are never three. */
  lemma AtMostTwoLive(secret: Option<Secret>, start: Millis, events: seq<Event>, root: nat,
                      x: Digest, y: Digest, z: Digest)
    requires var s := Run(Init(secret, start), events);
      LiveInFamily(s, x, root) && LiveInFamily(s, y, root) && LiveInFamily(s, z, root)
    ensures x == y || IsParent(x, y) || IsParent(y, x)
    ensures x == y || y == z || x == z
  {
    var s := Run(Init(secret, start), events);
    ReachableInv(secret, start, events);
    LivePairs(s, x, y);
    LivePairs(s, y, z);
    LivePairs(s, x, z);
  }

  // ----- logout and revocation end a family -----

  /** No token of the family is live, and none can be drawn again. */
  ghost predicate FamilyDead(s: State, root: nat) {
    root < s.store.nextRaw && forall d <- s.store.rows :: Root(d) == Some(root) ==> !Live(s, d)
  }

  lemma FamilyDeadStep(s: State, e: Event, root: nat)
    requires Inv(s) && FamilyDead(s, root)
    ensures FamilyDead(Step(s, e), root)
  {
    hide Step, Inv;
    if e.Finish? {
      FinishKeepsDead(s, e.request, root);
    } else {
      OthersAddNothing(s, e, root);
    }
  }

  lemma FinishKeepsDead(s: State, request: nat, root: nat)
    requires FamilyDead(s, root)
    ensures FamilyDead(Step(s, Finish(request)), root)
  {
    if request in s.waiting {
      var d := Sha(s.waiting[request]);
      if Live(s, d) {
        assert Root(d) != Some(root);
        if s.secret.Some? { assert Root(Child(d, s.secret.value)) == Root(d); }
      }
    }
  }

  /** Only a rotation adds rows to a family whose random token is drawn. */
  lemma OthersAddNothing(s: State, e: Event, root: nat)
    requires root < s.store.nextRaw && !e.Finish?
    ensures var t := Step(s, e);
      && s.now <= t.now && s.store.nextRaw <= t.store.nextRaw
      && forall d <- t.store.rows :: Root(d) == Some(root) ==> d in s.store.rows && t.store.rows[d] == s.store.rows[d]
  {
  }

  lemma {:induction false} FamilyDeadForever(s: State, events: seq<Event>, root: nat)
    requires Inv(s) && FamilyDead(s, root)
    ensures FamilyDead(Run(s, events), root)
    decreases |events|
  {
    if events != [] {
      FamilyDeadStep(s, events[0], root);
      StepInv(s, events[0]);
      FamilyDeadForever(Step(s, events[0]), events[1..], root);
    }
  }

  /** Nobody is signed in by a token of a dead family: a new request is not resolved, and one
      already waiting for the lock resolves to null. */
  lemma DeadFamilyRefused(s: State, token: Token, root: nat)
    requires FamilyDead(s, root) && Root(Sha(token)) == Some(root)
    ensures !PreCheckSpec(s.store, s.secret, token, s.now).Fresh? && !PreCheckSpec(s.store, s.secret, token, s.now).NeedsLock?
    ensures RotateSpec(s.store, s.secret, token, s.now).1 == NoSession
    ensures forall request :: request in s.waiting && s.waiting[request] == token ==> FinishReply(s, request) == NoSession
  {
  }

  /** The live relatives of a live token: its parent and its child. */
  lemma NextOfKin(s: State, d: Digest, x: Digest)
    requires Inv(s) && Live(s, d) && Live(s, x) && Root(x) == Root(d)
    ensures x == d || IsParent(x, d) || (s.secret.Some? && x == Child(d, s.secret.value))
    ensures IsParent(x, d) ==> RotatedParent(d.token, s.secret.value) == Some(x)
  {
    LivePairs(s, d, x);
    if IsParent(d, x) {
      assert Genuine(x, s.secret, s.store.nextRaw);
      SameParent(x, Child(d, s.secret.value));
    }
    assert Genuine(d, s.secret, s.store.nextRaw);
  }

  lemma LogoutKillsFamily(s: State, token: Token, root: nat)
    requires Inv(s) && LiveInFamily(s, Sha(token), root)
    ensures FamilyDead(Step(s, Logout(token)), root)
  {
    var d := Sha(token);
    var t := Step(s, Logout(token));
    GenuineRoot(d, s.secret, s.store.nextRaw);
    forall x | x in t.store.rows && Root(x) == Some(root)
      ensures !Live(t, x)
    {
      if Live(s, x) { NextOfKin(s, d, x); }
    }
  }

  /** Logging out with any live token ends its whole family, then and at every later state of
      the run, whatever requests were already past their read; other families keep their rows. */
  lemma LogoutEndsFamily(secret: Option<Secret>, start: Millis, before: seq<Event>, token: Token, after: seq<Event>, root: nat)
    requires LiveInFamily(Run(Init(secret, start), before), Sha(token), root)
    ensures var s := Run(Init(secret, start), before);
      var out := Step(s, Logout(token));
      var later := Run(Init(secret, start), before + [Logout(token)] + after);
      && FamilyDead(out, root)
      && FamilyDead(later, root)
      && (forall request <- later.waiting :: Root(Sha(later.waiting[request])) == Some(root) ==> FinishReply(later, request) == NoSession)
      && (forall d <- s.store.rows :: Root(d) != Some(root) ==> d in out.store.rows && out.store.rows[d] == s.store.rows[d])
  {
    var s := Run(Init(secret, start), before);
    var out := Step(s, Logout(token));
    ReachableInv(secret, start, before);
    LogoutKillsFamily(s, token, root);
    StepInv(s, Logout(token));
    FamilyDeadForever(out, after, root);
    assert before + [Logout(token)] + after == before + ([Logout(token)] + after);
    RunSplit(Init(secret, start), before, [Logout(token)] + after);
    assert ([Logout(token)] + after)[1..] == after;
    assert Run(s, [Logout(token)] + after) == Run(out, after);
    var later := Run(out, after);
    forall request | request in later.waiting && Root(Sha(later.waiting[request])) == Some(root)
      ensures FinishReply(later, request) == NoSession
    {
      DeadFamilyRefused(later, later.waiting[request], root);
    }
    LogoutScope(s, token, root);
  }

  /** The three deleted hashes all belong to the presented token's family. */
  lemma LogoutScope(s: State, token: Token, root: nat)
    requires Root(Sha(token)) == Some(root)
    ensures forall d <- LogoutHashes(token, s.secret) :: Root(d) == Some(root)
  {
  }

  /** A user-wide revocation ends every family of that user for good, even against rotations
      that were already waiting for the lock. */
  lemma RevokeEndsFamilies(s: State, user: UserId, root: nat, after: seq<Event>)
    requires Inv(s) && root < s.store.nextRaw
    requires forall d <- s.store.rows :: LiveInFamily(s, d, root) ==> s.store.rows[d].user == user
    ensures FamilyDead(Run(Step(s, Revoke(user)), after), root)
    ensures FamilyDead(Run(Step(s, DeleteUser(user)), after), root)
  {
    StepInv(s, Revoke(user));
    StepInv(s, DeleteUser(user));
    FamilyDeadForever(Step(s, Revoke(user)), after, root);
    FamilyDeadForever(Step(s, DeleteUser(user)), after, root);
  }

  /** A user-wide deletion that started earlier ends a family of its user exactly if it saw every
      live row of it. */
  lemma RevokeCommitExactly(s: State, user: UserId, root: nat)
    requires Inv(s) && root < s.store.nextRaw
    ensures FamilyDead(Step(s, RevokeCommit(user)), root) <==>
              forall d <- s.store.rows :: LiveInFamily(s, d, root) ==> s.store.rows[d].id in Doomed(s, user)
  {
    var t := Step(s, RevokeCommit(user));
    assert forall d <- t.store.rows :: d in s.store.rows && t.store.rows[d] == s.store.rows[d];
    assert forall d <- s.store.rows :: s.store.rows[d].id !in Doomed(s, user) ==> d in t.store.rows;
  }

  /** What happens when a request gets the lock between the start and the commit of a revocation. */
  function RevokeBehind(s: State, request: nat, user: UserId): State {
    Step(Step(Step(s, RevokeStart(user)), Finish(request)), RevokeCommit(user))
  }

  /** The request will insert a child: its token is live, near its end and was not rotated yet. */
  predicate WillRotate(s: State, request: nat) {
    request in s.waiting && s.secret.Some? &&
    var d := Sha(s.waiting[request]);
    Live(s, d) && s.store.rows[d].expiresAt - s.now <= SESSION_ROTATION_WINDOW_MS && Child(d, s.secret.value) !in s.store.rows
  }

  /** Then, and only then, the family survives a revocation of its user. */
  lemma RevokeRace(s: State, request: nat, user: UserId, root: nat)
    requires Inv(s) && root < s.store.nextRaw && request in s.waiting && Root(Sha(s.waiting[request])) == Some(root)
    requires forall d <- s.store.rows :: LiveInFamily(s, d, root) ==> s.store.rows[d].user == user
    ensures FamilyDead(RevokeBehind(s, request, user), root) <==> !WillRotate(s, request)
  {
    hide Step, Inv, Live, Doomed;
    var seen := Step(s, RevokeStart(user));
    var t := Step(seen, Finish(request));
    RevokeSees(s, user);
    StepInv(s, RevokeStart(user));
    FinishInv(seen, request);
    FinishShape(seen, request);
    RevokeCommitExactly(t, user, root);
    if WillRotate(s, request) {
      ChildIsNew(seen, request, root);
    } else {
      RotationKeepsRows(seen, request, root);
      SameFamilyUser(s, seen, t, user, root);
    }
  }

  lemma RevokeSees(s: State, user: UserId)
    ensures var seen := Step(s, RevokeStart(user));
      && seen == s.(doomed := seen.doomed)
      && (forall x <- s.store.rows :: s.store.rows[x].user == user ==> s.store.rows[x].id in Doomed(seen, user))
      && (forall request :: WillRotate(seen, request) == WillRotate(s, request))
  {
  }

  lemma FinishShape(s: State, request: nat)
    ensures var t := Step(s, Finish(request));
      t.doomed == s.doomed && t.now == s.now && s.store.nextRaw <= t.store.nextRaw
  {
  }

  lemma ChildIsNew(s: State, request: nat, root: nat)
    requires Inv(s) && WillRotate(s, request) && Root(Sha(s.waiting[request])) == Some(root)
    ensures var t := Step(s, Finish(request));
      exists d <- t.store.rows :: LiveInFamily(t, d, root) && forall user :: t.store.rows[d].id !in Doomed(t, user)
  {
    var d := Sha(s.waiting[request]);
    var child := Child(d, s.secret.value);
    var t := Step(s, Finish(request));
    assert Root(child) == Root(d);
    assert LiveInFamily(t, child, root) && t.store.rows[child].id == s.store.nextId;
  }

  lemma SameFamilyUser(s: State, seen: State, t: State, user: UserId, root: nat)
    requires seen == s.(doomed := seen.doomed) && t.doomed == seen.doomed
    requires forall x <- s.store.rows :: s.store.rows[x].user == user ==> s.store.rows[x].id in Doomed(seen, user)
    requires forall d <- s.store.rows :: LiveInFamily(s, d, root) ==> s.store.rows[d].user == user
    requires forall d <- t.store.rows :: Live(t, d) ==> Live(seen, d) && t.store.rows[d].id == seen.store.rows[d].id
    ensures forall d <- t.store.rows :: LiveInFamily(t, d, root) ==> t.store.rows[d].id in Doomed(t, user)
  {
    forall d | d in t.store.rows && LiveInFamily(t, d, root)
      ensures t.store.rows[d].id in Doomed(t, user)
    {
      assert Live(seen, d) && LiveInFamily(s, d, root);
    }
  }

  lemma RotationKeepsRows(s: State, request: nat, root: nat)
    requires Inv(s) && request in s.waiting && !WillRotate(s, request)
    ensures var t := Step(s, Finish(request));
      forall d <- t.store.rows :: Live(t, d) ==> Live(s, d) && t.store.rows[d].id == s.store.rows[d].id
  {
    var d := Sha(s.waiting[request]);
    if Live(s, d) && s.secret.Some? && s.store.rows[d].expiresAt - s.now <= SESSION_ROTATION_WINDOW_MS {
      WindowFacts(s, d);
    }
  }

  /** It happens: a session in its last week whose request waits for the lock. */
  lemma RevokeRaceHappens(secret: Secret)
    ensures var events := [AddUser(0), Login(0, None, 0, SESSION_TTL_MS), Tick(24 * DAY_MS), Begin(0, Raw(0)),
                           RevokeStart(0), Finish(0), RevokeCommit(0)];
      LiveInFamily(Run(Init(Some(secret), 0), events), Child(Sha(Raw(0)), secret), 0)
  {
    hide Step;
    var s0 := Init(Some(secret), 0);
    RunCons(s0, AddUser(0),
            [Login(0, None, 0, SESSION_TTL_MS), Tick(24 * DAY_MS), Begin(0, Raw(0)), RevokeStart(0), Finish(0), RevokeCommit(0)]);
    var s1 := Step(s0, AddUser(0));
    RunCons(s1, Login(0, None, 0, SESSION_TTL_MS), [Tick(24 * DAY_MS), Begin(0, Raw(0)), RevokeStart(0), Finish(0), RevokeCommit(0)]);
    var s2 := Step(s1, Login(0, None, 0, SESSION_TTL_MS));
    RunCons(s2, Tick(24 * DAY_MS), [Begin(0, Raw(0)), RevokeStart(0), Finish(0), RevokeCommit(0)]);
    var s3 := Step(s2, Tick(24 * DAY_MS));
    RunCons(s3, Begin(0, Raw(0)), [RevokeStart(0), Finish(0), RevokeCommit(0)]);
    var s4 := Step(s3, Begin(0, Raw(0)));
    RunCons(s4, RevokeStart(0), [Finish(0), RevokeCommit(0)]);
    var s5 := Step(s4, RevokeStart(0));
    RunCons(s5, Finish(0), [RevokeCommit(0)]);
    RunCons(Step(s5, Finish(0)), RevokeCommit(0), []);
    NearlyExpired(secret, s0, s1, s2, s3, s4);
    SurvivingChild(secret, s4, s5);
  }

  lemma RunCons(s: State, e: Event, rest: seq<Event>)
    ensures Run(s, [e] + rest) == Run(Step(s, e), rest)
  {
    hide Step;
    assert ([e] + rest)[1..] == rest;
  }

  lemma NearlyExpired(secret: Secret, s0: State, s1: State, s2: State, s3: State, s4: State)
    requires s0 == Init(Some(secret), 0) && s1 == Step(s0, AddUser(0)) && s2 == Step(s1, Login(0, None, 0, SESSION_TTL_MS))
    requires s3 == Step(s2, Tick(24 * DAY_MS)) && s4 == Step(s3, Begin(0, Raw(0)))
    ensures s4 == State(Store(map[Sha(Raw(0)) := Row(0, 0, None, SESSION_TTL_MS)], {0}, 1, 1), Some(secret), 24 * DAY_MS,
                        map[0 := Raw(0)], {}, map[])
  {
    assert s2.store == Store(map[Sha(Raw(0)) := Row(0, 0, None, SESSION_TTL_MS)], {0}, 1, 1);
  }

  lemma SurvivingChild(secret: Secret, s: State, seen: State)
    requires s == State(Store(map[Sha(Raw(0)) := Row(0, 0, None, SESSION_TTL_MS)], {0}, 1, 1), Some(secret), 24 * DAY_MS,
                        map[0 := Raw(0)], {}, map[])
    requires seen == Step(s, RevokeStart(0))
    ensures LiveInFamily(Step(Step(seen, Finish(0)), RevokeCommit(0)), Child(Sha(Raw(0)), secret), 0)
  {
    var child := Child(Sha(Raw(0)), secret);
    assert forall id <- Doomed(seen, 0) :: id == 0;
    var t := Step(seen, Finish(0));
    assert child in t.store.rows && t.store.rows[child] == Row(1, 0, None, 24 * DAY_MS + SESSION_TTL_MS);
    assert Root(child) == Root(Sha(Raw(0)));
  }

  // ----- a login code works once -----

  /** A random token without a row that will not be drawn again. */
  predicate Spent(s: State, code: Token) {
    code.Raw? && code.id < s.store.nextRaw && Sha(code) !in s.store.rows
  }

  lemma {:induction false} SpentForever(s: State, events: seq<Event>, code: Token)
    requires Spent(s, code)
    ensures Spent(Run(s, events), code)
    decreases |events|
  {
    if events != [] {
      SpentForever(Step(s, events[0]), events[1..], code);
    }
  }

  /** Once a login code was accepted, every later attempt with it is refused, from any origin and
      after any continuation; a code that was refused is left as it was. */
  lemma CodeWorksOnce(secret: Option<Secret>, start: Millis, before: seq<Event>, code: Token, origin: string,
                      after: seq<Event>, origin': string, now': Millis)
    ensures var s := Run(Init(secret, start), before);
      var (store, r) := ConsumeCodeSpec(s.store, code, origin, s.now);
      var later := Run(Step(s, ConsumeCode(code, origin)), after);
      if r == Err(InvalidCode) then store == s.store
      else ConsumeCodeSpec(later.store, code, origin', now') == (later.store, Err(InvalidCode))
  {
    var s := Run(Init(secret, start), before);
    ReachableInv(secret, start, before);
    if ConsumeCodeSpec(s.store, code, origin, s.now).1 != Err(InvalidCode) {
      SpentForever(Step(s, ConsumeCode(code, origin)), after, code);
    }
  }

  /** A code shown as a session cookie within its minute is rotated like any session near its end;
      consuming the code ends its family exactly if that did not happen. */
  lemma CodeLeavesChild(s: State, code: Token, origin: string)
    requires Inv(s) && code.Raw? && ConsumeCodeSpec(s.store, code, origin, s.now).1 != Err(InvalidCode)
    ensures FamilyDead(Step(s, ConsumeCode(code, origin)), code.id) <==>
              !(s.secret.Some? && Child(Sha(code), s.secret.value) in s.store.rows)
  {
    var d := Sha(code);
    var t := Step(s, ConsumeCode(code, origin));
    GenuineRoot(d, s.secret, s.store.nextRaw);
    if s.secret.Some? && Child(d, s.secret.value) in s.store.rows {
      var child := Child(d, s.secret.value);
      assert Ancestor(d, child) && Related(s, d, child);
      assert Root(child) == Root(d) && child in t.store.rows;
      assert LiveInFamily(t, child, code.id);
    } else {
      forall x | x in t.store.rows && Root(x) == Some(code.id)
        ensures !Live(t, x)
      {
        if Live(s, x) { NextOfKin(s, d, x); }
      }
    }
  }

  // ----- one replacement per token -----

  /** Whatever the interleaving, a rotating response always carries the one child its token
      determines; afterwards that child is the only row derived from the token, it is live for
      more than the rotation window, and the unique index was not hit. */
  lemma OneReplacement(secret: Option<Secret>, start: Millis, events: seq<Event>, request: nat)
    requires request in Run(Init(secret, start), events).waiting
    ensures var s := Run(Init(secret, start), events);
      var d := Sha(s.waiting[request]);
      var reply := FinishReply(s, request);
      var t := Step(s, Finish(request));
      && reply != UniqueViolation
      && (reply.Resolved? && reply.rotated.Some? ==>
            && secret.Some? && reply.rotated == Some(DeriveRotated(d, secret.value))
            && Child(d, secret.value) in t.store.rows
            && t.store.rows[Child(d, secret.value)].user == reply.user
            && t.store.rows[Child(d, secret.value)].expiresAt > t.now + SESSION_ROTATION_WINDOW_MS
            && (forall e <- t.store.rows :: IsParent(d, e) ==> e == Child(d, secret.value)))
  {
    var s := Run(Init(secret, start), events);
    ReachableInv(secret, start, events);
    RunFacts(Init(secret, start), events);
    FinishInv(s, request);
    var d := Sha(s.waiting[request]);
    var reply := FinishReply(s, request);
    if reply.Resolved? && reply.rotated.Some? {
      WindowFacts(s, d);
      var t := Step(s, Finish(request));
      forall e | e in t.store.rows && IsParent(d, e)
        ensures e == Child(d, secret.value)
      {
        SameParent(e, Child(d, secret.value));
      }
    }
  }

  /** A live parent whose replacement row exists has a live replacement: the branch for an
      expired replacement cannot be taken, and a second rotation of the parent writes nothing. */
  lemma ReplacementAlwaysActive(secret: Secret, start: Millis, events: seq<Event>, d: Digest)
    requires var s := Run(Init(Some(secret), start), events);
      Live(s, d) && Child(d, secret) in s.store.rows
    ensures var s := Run(Init(Some(secret), start), events);
      && Live(s, Child(d, secret))
      && s.store.rows[Child(d, secret)].user == s.store.rows[d].user
      && RotateSpec(s.store, s.secret, d.token, s.now) ==
           (s.store, Resolved(s.store.rows[d].user, Some(DeriveRotated(d, secret))))
  {
    var s := Run(Init(Some(secret), start), events);
    ReachableInv(Some(secret), start, events);
    RunFacts(Init(Some(secret), start), events);
    assert Ancestor(d, Child(d, secret));
    assert Related(s, d, Child(d, secret));
    assert Sha(d.token) == d;
  }

  /** The un-locked deletion that follows an expired read never removes a live session. */
  lemma LateDeletionIsHarmless(secret: Option<Secret>, start: Millis, events: seq<Event>, rowId: nat, d: Digest)
    requires Live(Run(Init(secret, start), events), d)
    ensures var s := Run(Init(secret, start), events);
      Live(Step(s, PurgeStale(rowId)), d) && Step(s, PurgeStale(rowId)).store.rows[d] == s.store.rows[d]
  {
    ReachableInv(secret, start, events);
  }
}
