/** Parallel requests of one client: all of them present the same old token, overlap in any way
    and amid anything others do, while the old token is live. */
module SessionBurst {
  import opened Wrappers
  import opened Sessions
  import opened SessionProtocol
  import opened SessionGuarantees
  import opened SessionContinuity

  /** Besides the client's own requests with `held`, nothing touches its family or its user. */
  predicate OwnOrForeign(e: Event, held: Token, root: nat, user: UserId) {
    match e
    case Begin(_, token) => token == held || Root(Sha(token)) != Some(root)
    case Logout(token) => Root(Sha(token)) != Some(root)
    case ConsumeCode(token, _) => Root(Sha(token)) != Some(root)
    case Revoke(u) => u != user
    case RevokeCommit(u) => u != user
    case DeleteUser(u) => u != user
    case _ => true
  }

  /** Every waiting request of the family is the client's own. */
  ghost predicate OnlyHeld(s: State, held: Token, root: nat) {
    forall r <- s.waiting :: Root(Sha(s.waiting[r])) == Some(root) ==> s.waiting[r] == held
  }

  /** What the client expects of a step: no own request is refused by the read, and each one that
      gets the lock is answered with the user and at most the one child of `held`. */
  predicate Served(s: State, e: Event, held: Token, user: UserId)
    requires s.secret.Some?
  {
    match e
    case Begin(_, token) =>
      token == held ==>
        var seen := PreCheckSpec(s.store, s.secret, held, s.now);
        seen == Fresh(user) || seen == NeedsLock
    case Finish(r) =>
      r in s.waiting && s.waiting[r] == held ==>
        var reply := FinishReply(s, r);
        reply == Resolved(user, None) || reply == Resolved(user, Some(DeriveRotated(Sha(held), s.secret.value)))
    case _ => true
  }

  ghost predicate AllServed(s: State, events: seq<Event>, held: Token, user: UserId)
    requires s.secret.Some?
    decreases |events|
  {
    events == [] || (Served(s, events[0], held, user) && AllServed(Step(s, events[0]), events[1..], held, user))
  }

  lemma OwnFinish(s: State, request: nat, held: Token, root: nat, user: UserId)
    requires Inv(s) && s.secret.Some? && Holds(s, held, root, user) && Live(s, Sha(held))
    requires request in s.waiting && s.waiting[request] == held
    ensures var t := Step(s, Finish(request));
      && Served(s, Finish(request), held, user)
      && Holds(t, held, root, user)
      && (Expiry(t, held) == Expiry(s, held) || Expiry(t, held) == s.now + SESSION_ROTATION_GRACE_MS)
      && (FinishReply(s, request).rotated.Some? || Child(Sha(held), s.secret.value) in s.store.rows ==>
            Child(Sha(held), s.secret.value) in t.store.rows)
  {
    var d := Sha(held);
    if s.store.rows[d].expiresAt - s.now <= SESSION_ROTATION_WINDOW_MS { WindowFacts(s, d); }
  }

  lemma BurstStep(s: State, e: Event, held: Token, root: nat, user: UserId)
    requires Inv(s) && s.secret.Some? && OnlyHeld(s, held, root) && Holds(s, held, root, user) && Live(s, Sha(held))
    requires OwnOrForeign(e, held, root, user)
    ensures var t := Step(s, e);
      && Served(s, e, held, user) && t.secret == s.secret
      && OnlyHeld(t, held, root) && Holds(t, held, root, user)
      && (Expiry(t, held) == Expiry(s, held) || Expiry(t, held) == s.now + SESSION_ROTATION_GRACE_MS)
      && (Child(Sha(held), s.secret.value) in s.store.rows ==> Child(Sha(held), s.secret.value) in t.store.rows)
  {
    hide Step, Served;
    GenuineRoot(Sha(held), s.secret, s.store.nextRaw);
    var child := Child(Sha(held), s.secret.value);
    assert Root(child) == Some(root);
    if child in s.store.rows { assert Ancestor(Sha(held), child) && Related(s, Sha(held), child); }
    if e.Finish? && e.request in s.waiting && s.waiting[e.request] == held {
      OwnFinish(s, e.request, held, root, user);
      hide Inv;
      FinishRemoves(s, e.request);
    } else if e.Finish? {
      OtherFinish(s, e.request, held, root, user);
    } else {
      OtherStep(s, e, held, root, user);
    }
  }

  lemma FinishRemoves(s: State, request: nat)
    ensures var t := Step(s, Finish(request));
      t.secret == s.secret && forall r <- t.waiting :: r in s.waiting && t.waiting[r] == s.waiting[r]
  {
  }

  lemma OtherFinish(s: State, r: nat, held: Token, root: nat, user: UserId)
    requires s.secret.Some? && OnlyHeld(s, held, root) && Holds(s, held, root, user)
    requires !(r in s.waiting && s.waiting[r] == held)
    ensures var t := Step(s, Finish(r));
      && Served(s, Finish(r), held, user) && t.secret == s.secret
      && OnlyHeld(t, held, root) && Holds(t, held, root, user) && Expiry(t, held) == Expiry(s, held)
      && (Child(Sha(held), s.secret.value) in s.store.rows ==> Child(Sha(held), s.secret.value) in t.store.rows)
  {
    assert Root(Child(Sha(held), s.secret.value)) == Some(root);
    if r in s.waiting {
      assert Root(Child(Sha(s.waiting[r]), s.secret.value)) == Root(Sha(s.waiting[r])) != Some(root);
    }
  }

  lemma OtherStep(s: State, e: Event, held: Token, root: nat, user: UserId)
    requires RowsOk(s) && s.secret.Some? && OnlyHeld(s, held, root) && Holds(s, held, root, user) && Live(s, Sha(held))
    requires root < s.store.nextRaw && OwnOrForeign(e, held, root, user) && !e.Finish?
    requires var child := Child(Sha(held), s.secret.value);
      child in s.store.rows ==> Live(s, child) && s.store.rows[child].user == user
    ensures var t := Step(s, e);
      && Served(s, e, held, user) && t.secret == s.secret
      && OnlyHeld(t, held, root) && Holds(t, held, root, user) && Expiry(t, held) == Expiry(s, held)
      && (Child(Sha(held), s.secret.value) in s.store.rows ==> Child(Sha(held), s.secret.value) in t.store.rows)
  {
    hide Step, RowsOk, OnlyHeld, Served, OwnOrForeign;
    var child := Child(Sha(held), s.secret.value);
    assert Root(child) == Some(root);
    KeptRow(s, e, Sha(held), held, root, user);
    if child in s.store.rows { KeptRow(s, e, child, held, root, user); }
    OtherWaiting(s, e, held, root, user);
  }

  /** No step here removes or changes a live row of the family. */
  lemma KeptRow(s: State, e: Event, d: Digest, held: Token, root: nat, user: UserId)
    requires RowsOk(s) && root < s.store.nextRaw && OwnOrForeign(e, held, root, user) && !e.Finish?
    requires Live(s, d) && Root(d) == Some(root) && s.store.rows[d].user == user
    ensures d in Step(s, e).store.rows && Step(s, e).store.rows[d] == s.store.rows[d]
  {
  }

  lemma OtherWaiting(s: State, e: Event, held: Token, root: nat, user: UserId)
    requires s.secret.Some? && OnlyHeld(s, held, root) && Holds(s, held, root, user) && Live(s, Sha(held))
    requires OwnOrForeign(e, held, root, user) && !e.Finish?
    ensures Served(s, e, held, user) && Step(s, e).secret == s.secret && OnlyHeld(Step(s, e), held, root)
  {
  }

  /** An expired token of the client stays expired: nothing here renews it. */
  lemma DeadStep(s: State, e: Event, held: Token, root: nat, user: UserId)
    requires OnlyHeld(s, held, root) && Root(Sha(held)) == Some(root) && root < s.store.nextRaw
    requires OwnOrForeign(e, held, root, user) && !Live(s, Sha(held))
    ensures var t := Step(s, e);
      OnlyHeld(t, held, root) && root < t.store.nextRaw && !Live(t, Sha(held))
  {
    if e.Finish? && e.request in s.waiting && s.secret.Some? {
      assert Root(Child(Sha(s.waiting[e.request]), s.secret.value)) == Root(Sha(s.waiting[e.request]));
    }
  }

  lemma {:induction false} DeadRun(s: State, events: seq<Event>, held: Token, root: nat, user: UserId)
    requires OnlyHeld(s, held, root) && Root(Sha(held)) == Some(root) && root < s.store.nextRaw
    requires (forall e <- events :: OwnOrForeign(e, held, root, user)) && !Live(s, Sha(held))
    ensures !Live(Run(s, events), Sha(held))
    decreases |events|
  {
    hide OnlyHeld, Step, OwnOrForeign, Live;
    if events != [] {
      DeadStep(s, events[0], held, root, user);
      DeadRun(Step(s, events[0]), events[1..], held, root, user);
    }
  }

  /** A burst at whose end the old token is still live, which a rotation leaves it for two minutes:
      every one of its requests is answered with the user, and all rotated answers carry the same
      token. */
  lemma {:induction false} BurstServed(s: State, events: seq<Event>, held: Token, root: nat, user: UserId)
    requires Inv(s) && s.secret.Some? && OnlyHeld(s, held, root) && Holds(s, held, root, user)
    requires forall e <- events :: OwnOrForeign(e, held, root, user)
    requires Live(Run(s, events), Sha(held))
    ensures var t := Run(s, events);
      && AllServed(s, events, held, user)
      && Inv(t) && t.secret == s.secret && OnlyHeld(t, held, root) && Holds(t, held, root, user)
      && (Child(Sha(held), s.secret.value) in s.store.rows ==> Child(Sha(held), s.secret.value) in t.store.rows)
    decreases |events|
  {
    if events != [] {
      GenuineRoot(Sha(held), s.secret, s.store.nextRaw);
      if !Live(s, Sha(held)) { DeadRun(s, events, held, root, user); }
      hide Inv, OnlyHeld, Served, Step, OwnOrForeign, Live;
      BurstStep(s, events[0], held, root, user);
      StepInv(s, events[0]);
      BurstServed(Step(s, events[0]), events[1..], held, root, user);
    }
  }

  /** Whichever rotated answer of the burst the client adopts, it stays signed in from there on. */
  lemma BurstThenSignedIn(s: State, events: seq<Event>, held: Token, root: nat, user: UserId, rounds: seq<Round>)
    requires Inv(s) && s.secret.Some? && OnlyHeld(s, held, root) && Holds(s, held, root, user)
    requires forall e <- events :: OwnOrForeign(e, held, root, user)
    requires Live(Run(s, events), Sha(held))
    requires var t := Run(s, events);
      && Quiet(t, root) && Child(Sha(held), s.secret.value) in t.store.rows
      && Admissible(t, DeriveRotated(Sha(held), s.secret.value), rounds, root, user)
    ensures AlwaysServed(Run(s, events), DeriveRotated(Sha(held), s.secret.value), rounds, user)
  {
    BurstServed(s, events, held, root, user);
    var t := Run(s, events);
    var next := DeriveRotated(Sha(held), s.secret.value);
    assert Ancestor(Sha(held), Sha(next)) && Related(t, Sha(held), Sha(next));
    assert Root(Sha(next)) == Some(root);
    ServedFrom(t, next, rounds, root, user);
  }
}
