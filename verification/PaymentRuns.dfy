/** Runs of the payment desk together with everything else that writes subscriptions. */
module PaymentRuns {
  import opened Wrappers
  import opened Payments

  /** A revocation under way: how many subscriptions its statement saw, and the moment it writes. */
  datatype Pending = Pending(seen: nat, at: int)

  datatype State = State(db: Db, now: int, revoking: map<string, Pending>)

  /** A payment reads its clock before it locks the user's row, so `at` may lie in the past. */
  datatype Event =
    | Tick(to: int)
    | CreateOrder(user: string, plan: string)
    | MarkPaid(order: nat, admin: string, at: int)
    | AdminGrant(user: string, plan: string, days: int)
    | RedeemCoupon(user: string, plan: string, expiresAt: int, code: string)
    | AdminRevoke(user: string)
    | RevokeStart(user: string)
    | RevokeCommit(user: string)
    | Configure(users: map<string, string>, plans: map<string, Plan>, configured: bool)

  function AddSub(db: Db, s: Subscription): Db {
    db.(subs := db.subs + [s])
  }

  function Revoked(s: Subscription, user: string, now: int): Subscription {
    if s.user == user then s.(expiresAt := Some(now)) else s
  }

  /** The un-locked UPDATE of the first `n` subscriptions, those its statement saw. */
  function RevokeFirst(db: Db, n: nat, user: string, at: int): Db {
    db.(subs := seq(|db.subs|, i requires 0 <= i < |db.subs| => if i < n then Revoked(db.subs[i], user, at) else db.subs[i]),
        users := if user in db.users then db.users[user := "free"] else db.users)
  }

  function RevokeSpec(db: Db, user: string, now: int): Db {
    RevokeFirst(db, |db.subs|, user, now)
  }

  function GrantSpec(db: Db, user: string, plan: string, days: int, now: int): Db {
    if user !in db.users then db
    else
      var expiresAt := if days > 0 then Some(now + days * DAY_MS) else None;
      AddSub(db, Subscription(user, plan, now, expiresAt, true, None)).(users := db.users[user := plan])
  }

  function Step(s: State, e: Event): State {
    match e
    case Tick(to) => if to >= s.now then s.(now := to) else s
    case CreateOrder(user, plan) => s.(db := CreateOrderSpec(s.db, user, plan, s.now).0)
    case MarkPaid(order, admin, at) => if at <= s.now then s.(db := MarkPaidSpec(s.db, order, admin, at).0) else s
    case AdminGrant(user, plan, days) => s.(db := GrantSpec(s.db, user, plan, days, s.now))
    case RedeemCoupon(user, plan, expiresAt, code) =>
      s.(db := AddSub(s.db, Subscription(user, plan, s.now, Some(expiresAt), false, Some(code))))
    case AdminRevoke(user) => s.(db := RevokeSpec(s.db, user, s.now))
    case RevokeStart(user) => s.(revoking := s.revoking[user := Pending(|s.db.subs|, s.now)])
    case RevokeCommit(user) =>
      // waits for locked rows and ends them, but never sees one inserted since its start
      if user in s.revoking then
        s.(db := RevokeFirst(s.db, s.revoking[user].seen, user, s.revoking[user].at), revoking := s.revoking - {user})
      else s
    case Configure(users, plans, configured) => s.(db := s.db.(users := users, plans := plans, configured := configured))
  }

  function Run(s: State, events: seq<Event>): State
    decreases |events|
  {
    if events == [] then s else Step(Run(s, events[..|events| - 1]), events[|events| - 1])
  }

  function Start(now: int): State {
    State(Db([], [], [], map[], map[], false), now, map[])
  }

  // ----- paid orders and payment subscriptions are in bijection -----

  predicate ByPayment(s: Subscription) {
    !s.byAdmin && s.coupon.None?
  }

  predicate Receipt(db: Db, k: int) {
    0 <= k < |db.audit| && db.audit[k].MarkedPaid?
  }

  predicate ReceiptOk(db: Db, e: Audit)
    requires e.MarkedPaid?
  {
    && e.order < |db.orders| && db.orders[e.order].paidAt.Some? && db.orders[e.order].reviewedBy == Some(e.admin)
    && e.subscription < |db.subs| && ByPayment(db.subs[e.subscription])
    && db.subs[e.subscription].user == db.orders[e.order].user && db.subs[e.subscription].plan == db.orders[e.order].plan
  }

  ghost predicate HasReceipt(db: Db, order: int) {
    exists k :: Receipt(db, k) && db.audit[k].order == order
  }

  ghost predicate HasSale(db: Db, sub: int) {
    exists k :: Receipt(db, k) && db.audit[k].subscription == sub
  }

  /** The audit log pairs each paid order with one payment subscription of the same user and
      plan, one to one. */
  ghost predicate Paired(db: Db) {
    && (forall k :: Receipt(db, k) ==> ReceiptOk(db, db.audit[k]))
    && (forall k, k' :: Receipt(db, k) && Receipt(db, k') && k != k' ==>
          db.audit[k].order != db.audit[k'].order && db.audit[k].subscription != db.audit[k'].subscription)
    && (forall order :: 0 <= order < |db.orders| && db.orders[order].paidAt.Some? ==> HasReceipt(db, order))
    && (forall sub :: 0 <= sub < |db.subs| && ByPayment(db.subs[sub]) ==> HasSale(db, sub))
  }

  /** `after` extends `before` without writing a receipt or a payment. */
  predicate Untouched(before: Db, after: Db) {
    && |before.audit| <= |after.audit| && |before.orders| <= |after.orders| && |before.subs| <= |after.subs|
    && (forall k :: 0 <= k < |after.audit| ==>
          if k < |before.audit| then after.audit[k] == before.audit[k] else !after.audit[k].MarkedPaid?)
    && (forall i :: 0 <= i < |after.orders| ==>
          if i < |before.orders| then after.orders[i] == before.orders[i] else after.orders[i].paidAt.None?)
    && (forall i :: 0 <= i < |before.subs| ==> after.subs[i] == before.subs[i].(expiresAt := after.subs[i].expiresAt))
    && (forall i :: |before.subs| <= i < |after.subs| ==> !ByPayment(after.subs[i]))
  }

  lemma ReceiptsGrow(before: Db, after: Db)
    requires |before.audit| <= |after.audit| && forall k :: 0 <= k < |before.audit| ==> after.audit[k] == before.audit[k]
    ensures forall order :: HasReceipt(before, order) ==> HasReceipt(after, order)
    ensures forall sub :: HasSale(before, sub) ==> HasSale(after, sub)
  {
    forall order | HasReceipt(before, order)
      ensures HasReceipt(after, order)
    {
      var k :| Receipt(before, k) && before.audit[k].order == order;
      assert Receipt(after, k);
    }
    forall sub | HasSale(before, sub)
      ensures HasSale(after, sub)
    {
      var k :| Receipt(before, k) && before.audit[k].subscription == sub;
      assert Receipt(after, k);
    }
  }

  lemma PairedKept(before: Db, after: Db)
    requires Paired(before) && Untouched(before, after)
    ensures Paired(after)
  {
    ReceiptsGrow(before, after);
    hide HasReceipt, HasSale;
    assert forall k :: Receipt(after, k) <==> Receipt(before, k);
  }

  lemma PurchasedShape(db: Db, order: Order, at: int)
    ensures var s := Purchased(db, order, at);
      ByPayment(s) && s.user == order.user && s.plan == order.plan && s.startedAt >= at
      && s.expiresAt == Some(s.startedAt + order.durationDays * DAY_MS)
  {
  }

  lemma MarkPaidPairs(db: Db, id: nat, admin: string, at: int)
    requires Paired(db)
    ensures Paired(MarkPaidSpec(db, id, admin, at).0)
  {
    hide Purchased;
    var after := MarkPaidSpec(db, id, admin, at).0;
    if after != db {
      PurchasedShape(db, db.orders[id], at);
      ReceiptsGrow(db, after);
      assert Receipt(after, |db.audit|) && HasReceipt(after, id) && HasSale(after, |db.subs|);
      hide HasReceipt, HasSale;
      assert forall k :: Receipt(after, k) <==> Receipt(db, k) || k == |db.audit|;
    }
  }

  lemma StepUntouched(s: State, e: Event)
    requires !e.MarkPaid?
    ensures Untouched(s.db, Step(s, e).db)
  {
  }

  lemma StepPairs(s: State, e: Event)
    requires Paired(s.db)
    ensures Paired(Step(s, e).db)
  {
    hide MarkPaidSpec, Paired;
    match e {
      case MarkPaid(order, admin, at) => MarkPaidPairs(s.db, order, admin, at);
      case _ =>
        StepUntouched(s, e);
        PairedKept(s.db, Step(s, e).db);
    }
  }

  /** Over every run, revocations and grants included. */
  lemma {:induction false} RunPairs(now: int, events: seq<Event>)
    ensures Paired(Run(Start(now), events).db)
    decreases |events|
  {
    if events != [] {
      hide Paired, Step;
      RunPairs(now, events[..|events| - 1]);
      StepPairs(Run(Start(now), events[..|events| - 1]), events[|events| - 1]);
    }
  }

  /** No order buys two subscriptions and no subscription is sold twice. */
  lemma OneSubscriptionPerOrder(now: int, events: seq<Event>, k: nat, k': nat)
    requires var db := Run(Start(now), events).db; Receipt(db, k) && Receipt(db, k')
    ensures var audit := Run(Start(now), events).db.audit;
      audit[k].order == audit[k'].order <==> audit[k].subscription == audit[k'].subscription
  {
    hide Run;
    RunPairs(now, events);
  }
}
