/** What buyers get over whole runs: each order is charged once, the bought intervals line up
    without overlap and add up to the ordered time, and a running plan never has a gap. */
module PaymentStacking {
  import opened Wrappers
  import opened Payments
  import opened PaymentRuns

  // ----- an order is settled once and stays settled -----

  lemma {:induction false} OrdersKept(s: State, events: seq<Event>, id: nat)
    requires id < |s.db.orders|
    ensures id < |Run(s, events).db.orders|
    ensures var (before, after) := (s.db.orders[id], Run(s, events).db.orders[id]);
      && after == before.(paidAt := after.paidAt, reviewedBy := after.reviewedBy)
      && (before.paidAt.Some? ==> after == before)
    decreases |events|
  {
    if events != [] {
      OrdersKept(s, events[..|events| - 1], id);
    }
  }

  /** Every order has its origin in the run: one request of its user, made while its plan was on
      sale at just its amount, and the orders are numbered in the order of these requests. */
  lemma {:induction false} OrderWasPlaced(now: int, events: seq<Event>, id: nat) returns (k: nat)
    requires id < |Run(Start(now), events).db.orders|
    ensures k < |events| && events[k].CreateOrder?
    ensures var (s, order) := (Run(Start(now), events[..k]), Run(Start(now), events).db.orders[id]);
      && |s.db.orders| == id && order.user == events[k].user && order.plan == events[k].plan && order.plan != "free"
      && order.plan in s.db.plans && s.db.plans[order.plan].active && s.db.configured
      && order.amount == s.db.plans[order.plan].price && 0 < order.amount <= MAX_VIETQR_AMOUNT
      && order.durationDays == 30 && order.expiresAt == s.now + DAY_MS
    decreases |events|
  {
    hide Step;
    var init := events[..|events| - 1];
    if id < |Run(Start(now), init).db.orders| {
      StepOrders(Run(Start(now), init), events[|events| - 1], id);
      k := OrderWasPlaced(now, init, id);
      assert init[..k] == events[..k];
    } else {
      k := |events| - 1;
      NewOrder(Run(Start(now), init), events[k]);
    }
  }

  /** A step keeps the terms of an order and settles it only by marking it paid. */
  lemma StepOrders(s: State, e: Event, id: nat)
    requires id < |s.db.orders|
    ensures id < |Step(s, e).db.orders|
    ensures var (before, after) := (s.db.orders[id], Step(s, e).db.orders[id]);
      && after == before.(paidAt := after.paidAt, reviewedBy := after.reviewedBy)
      && (after != before ==>
            e.MarkPaid? && e.order == id && before.paidAt.None? && after.paidAt == Some(e.at) && after.reviewedBy == Some(e.admin))
  {
    hide Purchased;
  }

  lemma NewOrder(s: State, e: Event)
    ensures |Step(s, e).db.orders| <= |s.db.orders| + 1
    ensures |Step(s, e).db.orders| > |s.db.orders| ==>
      && e.CreateOrder? && e.plan in s.db.plans && s.db.plans[e.plan].active && e.plan != "free" && s.db.configured
      && 0 < s.db.plans[e.plan].price <= MAX_VIETQR_AMOUNT
      && Step(s, e).db.orders[|s.db.orders|] ==
           Order(e.user, e.plan, s.db.plans[e.plan].price, 30, s.now + DAY_MS, None, None)
  {
  }

  /** A paid order names the moment and the administrator of the request that settled it. */
  lemma {:induction false} PaidOrderWasMarked(now: int, events: seq<Event>, id: nat) returns (k: nat)
    requires id < |Run(Start(now), events).db.orders| && Run(Start(now), events).db.orders[id].paidAt.Some?
    ensures k < |events| && events[k].MarkPaid? && events[k].order == id
    ensures var order := Run(Start(now), events).db.orders[id];
      order.paidAt == Some(events[k].at) && order.reviewedBy == Some(events[k].admin)
    decreases |events|
  {
    hide Step;
    var init := events[..|events| - 1];
    var (s, e) := (Run(Start(now), init), events[|events| - 1]);
    if id < |s.db.orders| { StepOrders(s, e, id); }
    if id < |s.db.orders| && s.db.orders[id].paidAt.Some? {
      k := PaidOrderWasMarked(now, init, id);
    } else {
      k := |events| - 1;
      if id >= |s.db.orders| { NewOrder(s, e); }
    }
  }

  /** Marking a paid order again, at any later time and by anyone, changes nothing. */
  lemma MarkedOnce(s: State, events: seq<Event>, id: nat, admin: string, at: int)
    requires id < |s.db.orders| && s.db.orders[id].paidAt.Some?
    ensures var db := Run(s, events).db;
      MarkPaidSpec(db, id, admin, at) == (db, Ok(Marked(s.db.orders[id], None)))
  {
    hide Run;
    OrdersKept(s, events, id);
  }

  // ----- bought intervals -----

  predicate Bought(s: Subscription, user: string, plan: string) {
    ByPayment(s) && s.user == user && s.plan == plan
  }

  /** The intervals a user bought for a plan follow each other in the order of purchase. */
  ghost predicate Stacked(subs: seq<Subscription>, user: string, plan: string) {
    && (forall s <- subs :: Bought(s, user, plan) ==> s.expiresAt.Some? && s.startedAt <= s.expiresAt.value)
    && (forall i, j :: 0 <= i < j < |subs| && Bought(subs[i], user, plan) && Bought(subs[j], user, plan) ==>
          subs[i].expiresAt.value <= subs[j].startedAt)
  }

  function Length(s: Subscription, user: string, plan: string): int {
    if Bought(s, user, plan) && s.expiresAt.Some? then s.expiresAt.value - s.startedAt else 0
  }

  function BoughtTime(subs: seq<Subscription>, user: string, plan: string): int {
    if subs == [] then 0 else BoughtTime(subs[..|subs| - 1], user, plan) + Length(subs[|subs| - 1], user, plan)
  }

  function Share(o: Order, user: string, plan: string): int {
    if o.paidAt.Some? && o.user == user && o.plan == plan then o.durationDays * DAY_MS else 0
  }

  function PaidTime(orders: seq<Order>, user: string, plan: string): int {
    if orders == [] then 0 else PaidTime(orders[..|orders| - 1], user, plan) + Share(orders[|orders| - 1], user, plan)
  }

  lemma {:induction false} PaidTimeUpdate(orders: seq<Order>, id: nat, o: Order, user: string, plan: string)
    requires id < |orders|
    ensures PaidTime(orders[id := o], user, plan) == PaidTime(orders, user, plan) - Share(orders[id], user, plan) + Share(o, user, plan)
  {
    hide Share;
    var (n, changed) := (|orders| - 1, orders[id := o]);
    if id == n {
      assert changed[..n] == orders[..n];
    } else {
      assert changed[..n] == orders[..n][id := o];
      PaidTimeUpdate(orders[..n], id, o, user, plan);
    }
  }

  lemma {:induction false} BoughtTimeSame(a: seq<Subscription>, b: seq<Subscription>, user: string, plan: string)
    requires |a| == |b| && forall i :: 0 <= i < |a| ==> Length(a[i], user, plan) == Length(b[i], user, plan)
    ensures BoughtTime(a, user, plan) == BoughtTime(b, user, plan)
  {
    hide Length;
    if a != [] { BoughtTimeSame(a[..|a| - 1], b[..|b| - 1], user, plan); }
  }

  ghost predicate Honoured(db: Db, user: string, plan: string) {
    Stacked(db.subs, user, plan) && BoughtTime(db.subs, user, plan) == PaidTime(db.orders, user, plan)
  }

  /** A subscription that was not bought changes neither the stack nor its length. */
  lemma OtherSub(subs: seq<Subscription>, s: Subscription, user: string, plan: string)
    requires Stacked(subs, user, plan) && !Bought(s, user, plan)
    ensures Stacked(subs + [s], user, plan) && BoughtTime(subs + [s], user, plan) == BoughtTime(subs, user, plan)
  {
    assert (subs + [s])[..|subs|] == subs;
  }

  lemma PurchaseStacks(db: Db, order: Order, at: int, user: string, plan: string)
    requires Stacked(db.subs, user, plan)
    ensures var s := Purchased(db, order, at);
      && Stacked(db.subs + [s], user, plan)
      && BoughtTime(db.subs + [s], user, plan) == BoughtTime(db.subs, user, plan) + Share(order.(paidAt := Some(at)), user, plan)
  {
    var s := Purchased(db, order, at);
    hide Stacked, BoughtTime;
    PurchasedShape(db, order, at);
    AppendTime(db.subs, s, user, plan);
    if Bought(s, user, plan) {
      StackOn(db.subs, s, user, plan);
    } else {
      OtherSub(db.subs, s, user, plan);
    }
  }

  lemma AppendTime(subs: seq<Subscription>, s: Subscription, user: string, plan: string)
    ensures BoughtTime(subs + [s], user, plan) == BoughtTime(subs, user, plan) + Length(s, user, plan)
  {
    assert (subs + [s])[..|subs|] == subs;
  }

  lemma StackOn(subs: seq<Subscription>, s: Subscription, user: string, plan: string)
    requires Stacked(subs, user, plan) && s.expiresAt.Some? && s.startedAt <= s.expiresAt.value
    requires forall c <- subs :: c.user == user && c.plan == plan && c.expiresAt.Some? ==> c.expiresAt.value <= s.startedAt
    ensures Stacked(subs + [s], user, plan)
  {
    assert forall i :: 0 <= i < |subs| ==> subs[i] in subs && (subs + [s])[i] == subs[i];
  }

  lemma MarkPaidHonours(db: Db, id: nat, admin: string, at: int, user: string, plan: string)
    requires Honoured(db, user, plan)
    ensures Honoured(MarkPaidSpec(db, id, admin, at).0, user, plan)
  {
    hide Purchased, Stacked, BoughtTime, PaidTime;
    if id < |db.orders| && db.orders[id].paidAt.None? && db.orders[id].user in db.users {
      var order := db.orders[id];
      PurchaseStacks(db, order, at, user, plan);
      PaidTimeUpdate(db.orders, id, order.(paidAt := Some(at), reviewedBy := Some(admin)), user, plan);
    }
  }

  lemma CreateHonours(db: Db, user': string, plan': string, now: int, user: string, plan: string)
    requires Honoured(db, user, plan)
    ensures Honoured(CreateOrderSpec(db, user', plan', now).0, user, plan)
  {
    var after := CreateOrderSpec(db, user', plan', now).0;
    if after != db { assert after.orders[..|db.orders|] == db.orders; }
  }

  lemma RevokeHonours(db: Db, n: nat, user': string, at: int, user: string, plan: string)
    requires Honoured(db, user, plan) && user' != user
    ensures Honoured(RevokeFirst(db, n, user', at), user, plan)
  {
    var after := RevokeFirst(db, n, user', at);
    assert forall i :: 0 <= i < |db.subs| ==>
        (Bought(after.subs[i], user, plan) || Bought(db.subs[i], user, plan) ==> after.subs[i] == db.subs[i]);
    assert Stacked(after.subs, user, plan) by {
      assert forall i :: 0 <= i < |db.subs| ==> db.subs[i] in db.subs;
    }
    BoughtTimeSame(after.subs, db.subs, user, plan);
  }

  /** The plans of `user` are revoked. */
  predicate Revokes(e: Event, user: string) {
    e == AdminRevoke(user) || e == RevokeCommit(user)
  }

  lemma StepHonours(s: State, e: Event, user: string, plan: string)
    requires Honoured(s.db, user, plan) && !Revokes(e, user)
    ensures Honoured(Step(s, e).db, user, plan)
  {
    hide MarkPaidSpec, CreateOrderSpec, RevokeFirst, Stacked, BoughtTime, PaidTime;
    match e {
      case MarkPaid(order, admin, at) => MarkPaidHonours(s.db, order, admin, at, user, plan);
      case CreateOrder(user', plan') => CreateHonours(s.db, user', plan', s.now, user, plan);
      case AdminRevoke(user') => RevokeHonours(s.db, |s.db.subs|, user', s.now, user, plan);
      case RevokeCommit(user') =>
        if user' in s.revoking { RevokeHonours(s.db, s.revoking[user'].seen, user', s.revoking[user'].at, user, plan); }
      case AdminGrant(user', plan', days) =>
        if user' in s.db.users {
          var expiresAt := if days > 0 then Some(s.now + days * DAY_MS) else None;
          OtherSub(s.db.subs, Subscription(user', plan', s.now, expiresAt, true, None), user, plan);
        }
      case RedeemCoupon(user', plan', expiresAt, code) =>
        OtherSub(s.db.subs, Subscription(user', plan', s.now, Some(expiresAt), false, Some(code)), user, plan);
      case _ =>
    }
  }

  /** Over every run in which the user's plans are not revoked, the bought intervals are disjoint
      and together exactly as long as the paid orders say. */
  lemma {:induction false} RunHonours(now: int, events: seq<Event>, user: string, plan: string)
    requires forall e <- events :: !Revokes(e, user)
    ensures Honoured(Run(Start(now), events).db, user, plan)
    decreases |events|
  {
    if events != [] {
      hide Honoured, Step;
      RunHonours(now, events[..|events| - 1], user, plan);
      StepHonours(Run(Start(now), events[..|events| - 1]), events[|events| - 1], user, plan);
    }
  }

  predicate CoveredBy(s: Subscription, t: int) {
    s.startedAt <= t && (s.expiresAt.None? || t < s.expiresAt.value)
  }

  /** Without a revocation no moment is covered twice; with one, see `PaymentRevocation`. */
  lemma BoughtIntervalsDisjoint(now: int, events: seq<Event>, user: string, plan: string, i: nat, j: nat, t: int)
    requires forall e <- events :: !Revokes(e, user)
    requires var subs := Run(Start(now), events).db.subs;
      i < |subs| && j < |subs| && Bought(subs[i], user, plan) && Bought(subs[j], user, plan)
      && CoveredBy(subs[i], t) && CoveredBy(subs[j], t)
    ensures i == j
  {
    hide Run, BoughtTime, PaidTime;
    RunHonours(now, events, user, plan);
    var subs := Run(Start(now), events).db.subs;
    assert subs[i] in subs && subs[j] in subs;
  }

  // ----- no gap while a plan runs -----

  ghost predicate Covered(subs: seq<Subscription>, user: string, plan: string, t: int) {
    exists s <- subs :: s.user == user && s.plan == plan && CoveredBy(s, t)
  }

  /** From now to the last expiry of a plan every moment is covered. */
  ghost predicate NoGap(subs: seq<Subscription>, user: string, plan: string, now: int) {
    forall s <- subs, t :: Running(s, user, plan, t) && t >= now ==> Covered(subs, user, plan, t)
  }

  lemma CoveredGrows(subs: seq<Subscription>, s: Subscription, user: string, plan: string, t: int)
    ensures Covered(subs + [s], user, plan, t) <==> Covered(subs, user, plan, t) || (s.user == user && s.plan == plan && CoveredBy(s, t))
  {
    if Covered(subs, user, plan, t) {
      var c :| c in subs && c.user == user && c.plan == plan && CoveredBy(c, t);
      assert c in subs + [s];
    }
    assert s in subs + [s];
  }

  lemma NoGapAdd(subs: seq<Subscription>, s: Subscription, user: string, plan: string, now: int)
    requires NoGap(subs, user, plan, now)
    requires s.startedAt <= now || exists c <- subs :: Running(c, s.user, s.plan, now) && c.expiresAt.value == s.startedAt
    ensures NoGap(subs + [s], user, plan, now)
  {
    forall c <- subs + [s], t | Running(c, user, plan, t) && t >= now
      ensures Covered(subs + [s], user, plan, t)
    {
      CoveredGrows(subs, s, user, plan, t);
      if c !in subs && t < s.startedAt {
        var before :| before in subs && Running(before, s.user, s.plan, now) && before.expiresAt.value == s.startedAt;
        assert Running(before, user, plan, t);
      }
    }
  }

  lemma MarkPaidNoGap(db: Db, id: nat, admin: string, at: int, now: int, user: string, plan: string)
    requires NoGap(db.subs, user, plan, now) && at <= now
    ensures NoGap(MarkPaidSpec(db, id, admin, at).0.subs, user, plan, now)
  {
    hide NoGap, Current;
    if id < |db.orders| && db.orders[id].paidAt.None? && db.orders[id].user in db.users {
      NoGapAdd(db.subs, Purchased(db, db.orders[id], at), user, plan, now);
    }
  }

  /** A revocation of somebody else, whatever its statement saw. */
  lemma OtherRevokeNoGap(db: Db, n: nat, user': string, at: int, now: int, user: string, plan: string)
    requires NoGap(db.subs, user, plan, now) && user' != user
    ensures NoGap(RevokeFirst(db, n, user', at).subs, user, plan, now)
  {
    var after := RevokeFirst(db, n, user', at).subs;
    forall c <- after, t | Running(c, user, plan, t) && t >= now
      ensures Covered(after, user, plan, t)
    {
      var i :| 0 <= i < |after| && after[i] == c;
      assert c == db.subs[i];
      assert db.subs[i] in db.subs && Covered(db.subs, user, plan, t);
      var d :| d in db.subs && d.user == user && d.plan == plan && CoveredBy(d, t);
      var j :| 0 <= j < |db.subs| && db.subs[j] == d;
      assert after[j] == d;
    }
  }

  /** A revocation of the user leaves no gap exactly if the subscriptions it did not see have none
      by themselves. */
  lemma OwnRevokeGapExactly(db: Db, n: nat, at: int, now: int, user: string, plan: string)
    requires n <= |db.subs| && at <= now
    ensures NoGap(RevokeFirst(db, n, user, at).subs, user, plan, now) <==> NoGap(db.subs[n..], user, plan, now)
  {
    var (after, unseen) := (RevokeFirst(db, n, user, at).subs, db.subs[n..]);
    forall t | t >= now
      ensures Covered(after, user, plan, t) <==> Covered(unseen, user, plan, t)
    {
      if Covered(after, user, plan, t) {
        var c :| c in after && c.user == user && c.plan == plan && CoveredBy(c, t);
        var i :| 0 <= i < |after| && after[i] == c;
        assert i >= n && unseen[i - n] == c;
      }
      if Covered(unseen, user, plan, t) {
        var c :| c in unseen && c.user == user && c.plan == plan && CoveredBy(c, t);
        var i :| 0 <= i < |unseen| && unseen[i] == c;
        assert after[n + i] == c;
      }
    }
    SameRunning(db, n, at, now, user, plan);
    hide Covered;
  }

  lemma SameRunning(db: Db, n: nat, at: int, now: int, user: string, plan: string)
    requires n <= |db.subs| && at <= now
    ensures forall c, t :: t >= now && Running(c, user, plan, t) ==> (c in RevokeFirst(db, n, user, at).subs <==> c in db.subs[n..])
  {
    var (after, unseen) := (RevokeFirst(db, n, user, at).subs, db.subs[n..]);
    forall c, t | t >= now && Running(c, user, plan, t)
      ensures c in after <==> c in unseen
    {
      if c in after {
        var i :| 0 <= i < |after| && after[i] == c;
        assert i >= n && unseen[i - n] == c;
      }
      if c in unseen {
        var i :| 0 <= i < |unseen| && unseen[i] == c;
        assert after[n + i] == c;
      }
    }
  }

  /** What a revocation under way for `user` has not seen. */
  function Unseen(s: State, user: string): seq<Subscription> {
    if user in s.revoking && s.revoking[user].seen <= |s.db.subs| then s.db.subs[s.revoking[user].seen..] else []
  }

  predicate PendingOk(s: State) {
    forall user <- s.revoking :: s.revoking[user].seen <= |s.db.subs| && s.revoking[user].at <= s.now
  }

  lemma StepPendingOk(s: State, e: Event)
    requires PendingOk(s)
    ensures PendingOk(Step(s, e))
  {
  }

  lemma {:induction false} RunPendingOk(now: int, events: seq<Event>)
    ensures PendingOk(Run(Start(now), events))
    decreases |events|
  {
    if events != [] {
      hide PendingOk, Step;
      RunPendingOk(now, events[..|events| - 1]);
      StepPendingOk(Run(Start(now), events[..|events| - 1]), events[|events| - 1]);
    }
  }

  lemma AtomicRevokeNoGap(db: Db, now: int, user: string, plan: string)
    ensures NoGap(RevokeSpec(db, user, now).subs, user, plan, now)
  {
    OwnRevokeGapExactly(db, |db.subs|, now, now, user, plan);
  }

  /** Each step keeps the plan without a gap, except that the commit of a revocation does so
      exactly if what it did not see has none by itself. */
  lemma StepNoGapExactly(s: State, e: Event, user: string, plan: string)
    requires NoGap(s.db.subs, user, plan, s.now) && PendingOk(s)
    ensures NoGap(Step(s, e).db.subs, user, plan, Step(s, e).now) <==>
              (e == RevokeCommit(user) ==> NoGap(Unseen(s, user), user, plan, s.now))
  {
    hide MarkPaidSpec, RevokeFirst, Covered;
    match e {
      case MarkPaid(order, admin, at) =>
        if at <= s.now { MarkPaidNoGap(s.db, order, admin, at, s.now, user, plan); }
      case AdminRevoke(user') =>
        if user' == user {
          AtomicRevokeNoGap(s.db, s.now, user, plan);
        } else {
          OtherRevokeNoGap(s.db, |s.db.subs|, user', s.now, s.now, user, plan);
        }
      case RevokeCommit(user') =>
        if user' in s.revoking && user' == user {
          OwnRevokeGapExactly(s.db, s.revoking[user].seen, s.revoking[user].at, s.now, user, plan);
        } else if user' in s.revoking {
          OtherRevokeNoGap(s.db, s.revoking[user'].seen, user', s.revoking[user'].at, s.now, user, plan);
        }
      case AdminGrant(user', plan', days) =>
        if user' in s.db.users {
          var expiresAt := if days > 0 then Some(s.now + days * DAY_MS) else None;
          NoGapAdd(s.db.subs, Subscription(user', plan', s.now, expiresAt, true, None), user, plan, s.now);
        }
      case RedeemCoupon(user', plan', expiresAt, code) =>
        NoGapAdd(s.db.subs, Subscription(user', plan', s.now, Some(expiresAt), false, Some(code)), user, plan, s.now);
      case _ =>
    }
  }

  /** No revocation of the user commits behind a subscription that would leave a gap. */
  ghost predicate NoLateGap(now: int, events: seq<Event>, user: string, plan: string)
    decreases |events|
  {
    events == [] ||
    var (init, last) := (events[..|events| - 1], events[|events| - 1]);
    && NoLateGap(now, init, user, plan)
    && (last == RevokeCommit(user) ==>
          var s := Run(Start(now), init); NoGap(Unseen(s, user), user, plan, s.now))
  }

  /** In every such run, revocations included: while any subscription to a plan is running, the
      user has that plan at every moment until its end. */
  lemma {:induction false} RunNoGap(now: int, events: seq<Event>, user: string, plan: string)
    requires NoLateGap(now, events, user, plan)
    ensures var s := Run(Start(now), events); NoGap(s.db.subs, user, plan, s.now)
    decreases |events|
  {
    if events != [] {
      hide NoGap, Step, PendingOk, Unseen;
      var (init, last) := (events[..|events| - 1], events[|events| - 1]);
      RunNoGap(now, init, user, plan);
      RunPendingOk(now, init);
      StepNoGapExactly(Run(Start(now), init), last, user, plan);
    } else {
      EmptyNoGap(user, plan, now);
    }
  }

  lemma EmptyNoGap(user: string, plan: string, now: int)
    ensures NoGap([], user, plan, now)
  {
  }

  /** One payment between the start and the commit of a revocation leaves a gap exactly if the
      user's plan was running: its interval starts behind the one the revocation ends. */
  lemma LateRevocationGap(s: State, id: nat, admin: string, at: int)
    requires PendingOk(s) && at <= s.now && id < |s.db.orders| && s.db.orders[id].paidAt.None? && s.db.orders[id].user in s.db.users
    ensures var order := s.db.orders[id];
      var t := Step(Step(Step(s, RevokeStart(order.user)), MarkPaid(id, admin, at)), RevokeCommit(order.user));
      NoGap(t.db.subs, order.user, order.plan, t.now) <==> !exists c <- s.db.subs :: Running(c, order.user, order.plan, s.now)
  {
    var order := s.db.orders[id];
    var sub := Purchased(s.db, order, at);
    var paid := Step(Step(s, RevokeStart(order.user)), MarkPaid(id, admin, at));
    assert paid.db.subs == s.db.subs + [sub];
    assert paid.db.subs[|s.db.subs|..] == [sub] && paid.revoking[order.user] == Pending(|s.db.subs|, s.now);
    hide Purchased;
    OwnRevokeGapExactly(paid.db, |s.db.subs|, s.now, s.now, order.user, order.plan);
    OneNoGap(sub, order.user, order.plan, s.now) by { PurchasedShape(s.db, order, at); }
    StartsLater(s.db, order, at, s.now);
    hide NoGap, RevokeFirst;
  }

  lemma OneNoGap(sub: Subscription, user: string, plan: string, now: int)
    requires sub.user == user && sub.plan == plan && sub.expiresAt.Some? && sub.startedAt <= sub.expiresAt.value
    ensures NoGap([sub], user, plan, now) <==> sub.startedAt <= now
  {
    if sub.startedAt > now {
      assert sub in [sub] && Running(sub, user, plan, now) && !Covered([sub], user, plan, now);
    } else {
      assert forall t :: t >= now && Running(sub, user, plan, t) ==> sub in [sub] && CoveredBy(sub, t);
    }
  }

  lemma StartsLater(db: Db, order: Order, at: int, now: int)
    requires at <= now
    ensures Purchased(db, order, at).startedAt > now <==> exists c <- db.subs :: Running(c, order.user, order.plan, now)
  {
    hide Current;
  }

  /** A payment on any reachable state extends the plan by the full ordered time: no finite
      subscription to it ends later than the new one starts, and from now on every moment up to
      the new end is covered. */
  lemma PurchaseExtends(now: int, events: seq<Event>, id: nat, admin: string, at: int, t: int)
    requires var s := Run(Start(now), events);
      && at <= s.now <= t && id < |s.db.orders| && s.db.orders[id].paidAt.None? && s.db.orders[id].user in s.db.users
    ensures var s := Run(Start(now), events);
      var (order, sub) := (s.db.orders[id], MarkPaidSpec(s.db, id, admin, at).1.value.subscription.value);
      && (forall c <- s.db.subs :: c.user == order.user && c.plan == order.plan && c.expiresAt.Some? ==>
            c.expiresAt.value + order.durationDays * DAY_MS <= sub.expiresAt.value)
      && (NoLateGap(now, events, order.user, order.plan) && t < sub.expiresAt.value ==>
            Covered(MarkPaidSpec(s.db, id, admin, at).0.subs, order.user, order.plan, t))
  {
    hide Run, NoGap, Covered, NoLateGap;
    var s := Run(Start(now), events);
    var (order, sub) := (s.db.orders[id], MarkPaidSpec(s.db, id, admin, at).1.value.subscription.value);
    if NoLateGap(now, events, order.user, order.plan) && t < sub.expiresAt.value {
      RunNoGap(now, events, order.user, order.plan);
      MarkPaidNoGap(s.db, id, admin, at, s.now, order.user, order.plan);
      var after := MarkPaidSpec(s.db, id, admin, at).0.subs;
      assert sub == after[|s.db.subs|] && sub in after;
      NoGapUse(after, sub, order.user, order.plan, s.now, t);
    }
  }

  lemma NoGapUse(subs: seq<Subscription>, s: Subscription, user: string, plan: string, now: int, t: int)
    requires NoGap(subs, user, plan, now) && s in subs && Running(s, user, plan, t) && t >= now
    ensures Covered(subs, user, plan, t)
  {
  }
}
