/** Bank-transfer orders and the subscription intervals they buy. */
module Payments {
  import opened Wrappers

  const DAY_MS := 86_400_000
  const PURCHASE_DURATION_DAYS := 30
  const ORDER_VALIDITY_MS := 24 * 3_600_000
  const MAX_VIETQR_AMOUNT := 9_999_999_999_999

  datatype Plan = Plan(active: bool, price: int)

  datatype Order = Order(user: string, plan: string, amount: int, durationDays: nat, expiresAt: int,
                         paidAt: Option<int>, reviewedBy: Option<string>)

  /** `expiresAt` is `None` for a permanent grant. */
  datatype Subscription = Subscription(user: string, plan: string, startedAt: int, expiresAt: Option<int>,
                                       byAdmin: bool, coupon: Option<string>)

  datatype Audit =
    | OrderCreated(order: nat, user: string)
    | MarkedPaid(order: nat, subscription: nat, admin: string)

  /** The tables; the ids of orders and subscriptions are their insertion numbers. */
  datatype Db = Db(orders: seq<Order>, subs: seq<Subscription>, audit: seq<Audit>,
                   users: map<string, string>, plans: map<string, Plan>, configured: bool)

  datatype PaymentError = NotPurchasable | NotConfigured | BadPrice | OrderNotFound | UserNotFound

  /** The answer to marking an order: its subscription, or none if it was paid before. */
  datatype Marked = Marked(order: Order, subscription: Option<Subscription>)

  function CreateOrderSpec(db: Db, user: string, plan: string, now: int): (Db, Result<nat, PaymentError>) {
    if plan !in db.plans || !db.plans[plan].active || plan == "free" then (db, Err(NotPurchasable))
    else if !db.configured then (db, Err(NotConfigured))
    else
      var price := db.plans[plan].price;
      if price <= 0 || price > MAX_VIETQR_AMOUNT then (db, Err(BadPrice))
      else
        var order := Order(user, plan, price, PURCHASE_DURATION_DAYS, now + ORDER_VALIDITY_MS, None, None);
        (db.(orders := db.orders + [order], audit := db.audit + [OrderCreated(|db.orders|, user)]), Ok(|db.orders|))
  }

  predicate Running(s: Subscription, user: string, plan: string, at: int) {
    s.user == user && s.plan == plan && s.expiresAt.Some? && s.expiresAt.value > at
  }

  /** The running subscription of the plan that ends last. */
  function Current(subs: seq<Subscription>, user: string, plan: string, at: int): (r: Option<Subscription>)
    ensures r.Some? ==> r.value in subs && Running(r.value, user, plan, at)
    ensures forall s <- subs :: Running(s, user, plan, at) ==> r.Some? && s.expiresAt.value <= r.value.expiresAt.value
  {
    if subs == [] then None
    else
      var earlier := Current(subs[..|subs| - 1], user, plan, at);
      var s := subs[|subs| - 1];
      assert subs == subs[..|subs| - 1] + [s];
      if Running(s, user, plan, at) && (earlier.None? || earlier.value.expiresAt.value < s.expiresAt.value) then Some(s) else earlier
  }

  /** Where a purchase starts: when the plan runs out, or now. */
  function StartsAt(subs: seq<Subscription>, user: string, plan: string, at: int): (start: int)
    ensures start >= at
    ensures forall s <- subs :: s.user == user && s.plan == plan && s.expiresAt.Some? ==> s.expiresAt.value <= start
    ensures start == at || exists s <- subs :: Running(s, user, plan, at) && s.expiresAt.value == start
  {
    var current := Current(subs, user, plan, at);
    if current.Some? then current.value.expiresAt.value else at
  }

  function Purchased(db: Db, order: Order, at: int): Subscription {
    var start := StartsAt(db.subs, order.user, order.plan, at);
    Subscription(order.user, order.plan, start, Some(start + order.durationDays * DAY_MS), false, None)
  }

  function MarkPaidSpec(db: Db, id: nat, admin: string, at: int): (Db, Result<Marked, PaymentError>) {
    if id >= |db.orders| then (db, Err(OrderNotFound))
    else
      var order := db.orders[id];
      if order.paidAt.Some? then (db, Ok(Marked(order, None)))
      else if order.user !in db.users then (db, Err(UserNotFound))
      else
        var sub := Purchased(db, order, at);
        var paid := order.(paidAt := Some(at), reviewedBy := Some(admin));
        (db.(orders := db.orders[id := paid],
             subs := db.subs + [sub],
             audit := db.audit + [MarkedPaid(id, |db.subs|, admin)],
             users := db.users[order.user := order.plan]),
         Ok(Marked(paid, Some(sub))))
  }

  class PaymentsService {
    var orders: seq<Order>
    var subs: seq<Subscription>
    var audit: seq<Audit>
    var users: map<string, string>
    var plans: map<string, Plan>
    var configured: bool

    constructor (db: Db)
      ensures Contents() == db
    {
      orders, subs, audit, users, plans, configured := db.orders, db.subs, db.audit, db.users, db.plans, db.configured;
    }

    function Contents(): Db
      reads this
    {
      Db(orders, subs, audit, users, plans, configured)
    }

    method CreateOrder(user: string, plan: string, now: int) returns (r: Result<nat, PaymentError>)
      modifies this
      ensures (Contents(), r) == CreateOrderSpec(old(Contents()), user, plan, now)
      ensures r.Ok? <==>
        plan in plans && plans[plan].active && plan != "free" && configured && 0 < plans[plan].price <= MAX_VIETQR_AMOUNT
      ensures r == Err(BadPrice) ==> plan in plans && (plans[plan].price <= 0 || plans[plan].price > MAX_VIETQR_AMOUNT)
      ensures r == Err(NotConfigured) ==> !configured
      ensures r.Err? ==> Contents() == old(Contents())
      ensures r.Ok? ==>
        && r.value == |old(orders)| && orders == old(orders) + [orders[r.value]]
        && audit == old(audit) + [OrderCreated(r.value, user)]
        && (subs, users, plans, configured) == old((subs, users, plans, configured))
        && orders[r.value].user == user && orders[r.value].plan == plan && orders[r.value].amount == plans[plan].price
        && orders[r.value].durationDays == 30 && orders[r.value].expiresAt == now + DAY_MS
        && orders[r.value].paidAt.None? && orders[r.value].reviewedBy.None?
    {
      if plan !in plans || !plans[plan].active || plan == "free" {
        return Err(NotPurchasable);
      }
      if !configured {
        return Err(NotConfigured);
      }
      var amount := plans[plan].price;
      if amount <= 0 || amount > MAX_VIETQR_AMOUNT {
        return Err(BadPrice);
      }
      var id := |orders|;
      orders := orders + [Order(user, plan, amount, PURCHASE_DURATION_DAYS, now + ORDER_VALIDITY_MS, None, None)];
      audit := audit + [OrderCreated(id, user)];
      return Ok(id);
    }

    /** The row `findOne` selects by descending expiry. */
    method FindCurrent(user: string, plan: string, at: int) returns (current: Option<Subscription>)
      ensures current == Current(subs, user, plan, at)
    {
      current := None;
      for i := 0 to |subs|
        invariant current == Current(subs[..i], user, plan, at)
      {
        assert subs[..i + 1][..i] == subs[..i];
        if Running(subs[i], user, plan, at) && (current.None? || current.value.expiresAt.value < subs[i].expiresAt.value) {
          current := Some(subs[i]);
        }
      }
      assert subs[..|subs|] == subs;
    }

    method FulfillPaymentOrder(id: nat, admin: string, at: int) returns (r: Result<Subscription, PaymentError>)
      requires id < |orders|
      modifies this
      ensures old(orders[id].user) !in old(users) ==> r == Err(UserNotFound) && Contents() == old(Contents())
      ensures old(orders[id].user) in old(users) ==>
        var (db, order) := (old(Contents()), old(orders[id]));
        && r == Ok(Purchased(db, order, at))
        && Contents() == db.(orders := db.orders[id := order.(paidAt := Some(at), reviewedBy := Some(admin))],
                             subs := db.subs + [r.value],
                             users := db.users[order.user := order.plan])
    {
      var order := orders[id];
      if order.user !in users {
        return Err(UserNotFound);
      }
      var current := FindCurrent(order.user, order.plan, at);
      var startsAt := if current.Some? then current.value.expiresAt.value else at;
      var expiresAt := startsAt + order.durationDays * DAY_MS;
      var subscription := Subscription(order.user, order.plan, startsAt, Some(expiresAt), false, None);
      subs := subs + [subscription];
      users := users[order.user := order.plan];
      orders := orders[id := order.(paidAt := Some(at), reviewedBy := Some(admin))];
      return Ok(subscription);
    }

    method MarkOrderPaid(id: nat, admin: string, at: int) returns (r: Result<Marked, PaymentError>)
      modifies this
      ensures (Contents(), r) == MarkPaidSpec(old(Contents()), id, admin, at)
      ensures r == Err(OrderNotFound) <==> id >= |old(orders)|
      ensures r == Err(UserNotFound) <==>
        id < |old(orders)| && old(orders)[id].paidAt.None? && old(orders)[id].user !in old(users)
      ensures r.Err? || r.value.subscription.None? ==> Contents() == old(Contents())
      ensures r.Ok? ==>
        && id < |orders| && r.value.order == orders[id] && orders[id].paidAt.Some?
        && (r.value.subscription.None? <==> old(orders)[id].paidAt.Some?)
      ensures r.Ok? && r.value.subscription.Some? ==>
        && orders == old(orders)[id := orders[id]] && orders[id].paidAt == Some(at) && orders[id].reviewedBy == Some(admin)
        && subs == old(subs) + [r.value.subscription.value] && audit == old(audit) + [MarkedPaid(id, |old(subs)|, admin)]
        && users == old(users)[orders[id].user := orders[id].plan]
    {
      if id >= |orders| {
        return Err(OrderNotFound);
      }
      if orders[id].paidAt.Some? {
        return Ok(Marked(orders[id], None));
      }
      var subscriptionId := |subs|;
      var fulfilled := FulfillPaymentOrder(id, admin, at);
      if fulfilled.Err? {
        return Err(fulfilled.error);
      }
      audit := audit + [MarkedPaid(id, subscriptionId, admin)];
      return Ok(Marked(orders[id], Some(fulfilled.value)));
    }
  }
}
