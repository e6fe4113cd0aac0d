/** Runs of the quota ledger: any interleaving of consumes, refunds, bonus requests and quota
    reads, and what they conserve.  Each request holds one reservation and its `refunded` flag. */
module QuotaRuns {
  import opened Numbers
  import opened Wrappers
  import opened Quota

  /** The ledger, the reservations handed out, which of them were refunded, and the bonus
      granted per day. */
  datatype Ledger = Ledger(rows: Rows, reservations: map<nat, Reservation>, refunded: set<nat>, granted: map<Date, int>)

  datatype Event =
    | Consume(id: nat, plan: Plan, entry: Date, today: Date)
    | RefundOnce(id: nat)
    | Bonus(plan: Plan, today: Date)
    | Read(plan: Plan, today: Date)

  function Granted(l: Ledger, d: Date): int {
    if d in l.granted then l.granted[d] else 0
  }

  /** A consume draws a new request id; a repeated id is not a new request. */
  function Step(l: Ledger, e: Event): Ledger {
    match e
    case Consume(id, plan, entry, today) =>
      if id in l.reservations then l
      else
        var (rows, r) := ConsumeSpec(l.rows, plan, entry, today);
        if r.Ok? then l.(rows := rows, reservations := l.reservations[id := r.value]) else l
    case RefundOnce(id) =>
      if id !in l.reservations || id in l.refunded then l
      else l.(rows := RefundSpec(l.rows, l.reservations[id]), refunded := l.refunded + {id})
    case Bonus(plan, today) =>
      var (rows, r) := BonusSpec(l.rows, plan, today);
      if r.Ok? then l.(rows := rows, granted := l.granted[today := Granted(l, today) + plan.bonusAmount]) else l
    case Read(plan, today) => l.(rows := WithRow(l.rows, today))
  }

  function Run(l: Ledger, events: seq<Event>): Ledger
    decreases |events|
  {
    if events == [] then l else Run(Step(l, events[0]), events[1..])
  }

  const EMPTY := Ledger(map[], map[], {}, map[])

  /** The two clock reads of the consume gave the same date. */
  predicate Steady(e: Event) {
    e.Consume? ==> e.entry == e.today
  }

  // ----- conservation -----

  /** The unrefunded requests that hold reservation `r`. */
  function Outstanding(l: Ledger, r: Reservation): set<nat> {
    set id | id in l.reservations && id !in l.refunded && l.reservations[id] == r
  }

  function PlainHeld(l: Ledger, d: Date): nat {
    |Outstanding(l, Reservation(d, false))|
  }

  function BonusHeld(l: Ledger, d: Date): nat {
    |Outstanding(l, Reservation(d, true))|
  }

  function RowOf(l: Ledger, d: Date): Usage {
    if d in l.rows then l.rows[d] else NO_USAGE
  }

  /** Every counter of day `d` is accounted for by outstanding requests and granted bonus. */
  predicate Balanced(l: Ledger, d: Date) {
    && RowOf(l, d).daily == PlainHeld(l, d) + BonusHeld(l, d)
    && RowOf(l, d).monthly == PlainHeld(l, d) + BonusHeld(l, d)
    && RowOf(l, d).bonusRemaining + BonusHeld(l, d) == Granted(l, d)
  }

  ghost predicate Conserved(l: Ledger) {
    && (forall d: Date :: Balanced(l, d))
    && l.refunded <= l.reservations.Keys
  }

  lemma ReserveAdds(l: Ledger, id: nat, r: Reservation, l': Ledger, q: Reservation)
    requires id !in l.reservations && l.refunded <= l.reservations.Keys
    requires l'.reservations == l.reservations[id := r] && l'.refunded == l.refunded
    ensures |Outstanding(l', q)| == |Outstanding(l, q)| + (if q == r then 1 else 0)
  {
    var (a, b) := (Outstanding(l, q), Outstanding(l', q));
    forall x: nat
      ensures x in b <==> x in a || (x == id && q == r)
    {
      assert x in b <==> x in l'.reservations && x !in l.refunded && l'.reservations[x] == q;
    }
    assert id !in a;
    hide Outstanding;
    assert b == if q == r then a + {id} else a;
  }

  lemma RefundRemoves(l: Ledger, id: nat, l': Ledger, q: Reservation)
    requires id in l.reservations && id !in l.refunded
    requires l'.reservations == l.reservations && l'.refunded == l.refunded + {id}
    ensures |Outstanding(l', q)| == |Outstanding(l, q)| - (if q == l.reservations[id] then 1 else 0)
  {
    assert q == l.reservations[id] <==> id in Outstanding(l, q);
    assert Outstanding(l', q) == Outstanding(l, q) - {id};
  }

  lemma SameReservations(l: Ledger, l': Ledger, q: Reservation)
    requires l'.reservations == l.reservations && l'.refunded == l.refunded
    ensures Outstanding(l', q) == Outstanding(l, q)
  {
  }

  /** How one step moves the two counts of a day. */
  lemma HeldChanges(l: Ledger, e: Event, d: Date)
    requires l.refunded <= l.reservations.Keys
    ensures var l' := Step(l, e);
      var added := if e.Consume? && l'.reservations != l.reservations then Some(l'.reservations[e.id]) else None;
      var removed := if e.RefundOnce? && l'.refunded != l.refunded then Some(l.reservations[e.id]) else None;
      && l'.refunded <= l'.reservations.Keys
      && PlainHeld(l', d) == PlainHeld(l, d) + (if added == Some(Reservation(d, false)) then 1 else 0)
                                             - (if removed == Some(Reservation(d, false)) then 1 else 0)
      && BonusHeld(l', d) == BonusHeld(l, d) + (if added == Some(Reservation(d, true)) then 1 else 0)
                                             - (if removed == Some(Reservation(d, true)) then 1 else 0)
  {
    var l' := Step(l, e);
    var (plain, bonus) := (Reservation(d, false), Reservation(d, true));
    match e
    case Consume(id, plan, entry, today) =>
      if l'.reservations != l.reservations {
        ReserveAdds(l, id, l'.reservations[id], l', plain);
        ReserveAdds(l, id, l'.reservations[id], l', bonus);
      }
    case RefundOnce(id) =>
      if l'.refunded != l.refunded {
        RefundRemoves(l, id, l', plain);
        RefundRemoves(l, id, l', bonus);
      }
    case _ =>
      SameReservations(l, l', plain);
      SameReservations(l, l', bonus);
  }

  /** A successful consume keeps the books exactly when its clock did not cross midnight. */
  lemma ConsumeConserves(l: Ledger, e: Event)
    requires Conserved(l) && e.Consume? && e.id !in l.reservations
    requires ConsumeSpec(l.rows, e.plan, e.entry, e.today).1.Ok?
    ensures Conserved(Step(l, e)) <==> Steady(e)
  {
    var l' := Step(l, e);
    if Steady(e) {
      forall d: Date
        ensures Balanced(l', d)
      {
        assert Balanced(l, d);
        HeldChanges(l, e, d);
      }
    } else {
      assert Balanced(l, e.today);
      HeldChanges(l, e, e.today);
      assert !Balanced(l', e.today);
    }
  }

  /** A reservation that was not refunded is still counted in its row, so the guard of
      `refundQuota` never drops its refund. */
  lemma RefundNeverDropped(l: Ledger, id: nat)
    requires Conserved(l) && id in l.reservations && id !in l.refunded
    ensures var r := l.reservations[id];
      && r.date in l.rows && l.rows[r.date].daily > 0
      && RefundSpec(l.rows, r)[r.date].daily == l.rows[r.date].daily - 1
      && RefundSpec(l.rows, r)[r.date].monthly == l.rows[r.date].monthly - 1
      && RefundSpec(l.rows, r)[r.date].bonusRemaining == l.rows[r.date].bonusRemaining + (if r.usedBonus then 1 else 0)
  {
    var r := l.reservations[id];
    assert Balanced(l, r.date);
    assert r == Reservation(r.date, r.usedBonus);
    assert id in Outstanding(l, r);
    assert |Outstanding(l, r)| > 0;
  }

  lemma StepConserves(l: Ledger, e: Event)
    requires Conserved(l) && Steady(e)
    ensures Conserved(Step(l, e))
  {
    var l' := Step(l, e);
    if e.Consume? && e.id !in l.reservations && ConsumeSpec(l.rows, e.plan, e.entry, e.today).1.Ok? {
      ConsumeConserves(l, e);
    } else {
      if e.RefundOnce? && l' != l { RefundNeverDropped(l, e.id); }
      forall d: Date
        ensures Balanced(l', d)
      {
        assert Balanced(l, d);
        HeldChanges(l, e, d);
      }
    }
  }

  lemma {:induction false} RunConserves(l: Ledger, events: seq<Event>)
    requires Conserved(l) && forall e <- events :: Steady(e)
    ensures Conserved(Run(l, events))
    decreases |events|
  {
    if events != [] {
      StepConserves(l, events[0]);
      RunConserves(Step(l, events[0]), events[1..]);
    }
  }

  /** Conservation: over any interleaving each day's two counters equal the number of its
      unrefunded reservations, and remaining bonus plus bonus in use is the bonus granted. */
  lemma QuotaConservation(events: seq<Event>, d: Date)
    requires forall e <- events :: Steady(e)
    ensures Balanced(Run(EMPTY, events), d)
    ensures Conserved(Run(EMPTY, events))
  {
    forall d: Date
      ensures Balanced(EMPTY, d)
    {
      assert Outstanding(EMPTY, Reservation(d, false)) == {};
      assert Outstanding(EMPTY, Reservation(d, true)) == {};
    }
    RunConserves(EMPTY, events);
    assert Balanced(Run(EMPTY, events), d);
  }

  /** The assumption is needed: entered before midnight and booked after it, a refunded question
      stays charged to the new day. */
  lemma MidnightLeak()
    ensures var plan := Plan(1, -1, false, 0, 0);
      var l := Run(EMPTY, [Consume(0, plan, Calendar(1, 1), Calendar(1, 2)), RefundOnce(0)]);
      && l.refunded == {0} && RowOf(l, Calendar(1, 2)).daily == 1
      && !StatusSpec(l.rows, plan, Calendar(1, 2)).canAsk
  {
    var plan := Plan(1, -1, false, 0, 0);
    var first := Consume(0, plan, Calendar(1, 1), Calendar(1, 2));
    var l1 := Step(EMPTY, first);
    var l2 := Step(l1, RefundOnce(0));
    assert [first, RefundOnce(0)][1..] == [RefundOnce(0)];
    assert Run(EMPTY, [first, RefundOnce(0)]) == Run(l1, [RefundOnce(0)]) == Run(l2, []) == l2;
  }

  // ----- exact capacity -----

  /** `n` consumes in a row on one date, with the number that succeeded. */
  function ConsumeMany(rows: Rows, plan: Plan, today: Date, n: nat): (Rows, nat)
    decreases n
  {
    if n == 0 then (rows, 0)
    else
      var (next, r) := ConsumeSpec(rows, plan, today, today);
      var (last, k) := ConsumeMany(next, plan, today, n - 1);
      (last, if r.Ok? then k + 1 else k)
  }

  function HalfUp(x: int): int {
    if x <= 0 then 0 else (x + 1) / 2
  }

  /** How many consumes a day with limit `limit`, `d` used and `b` bonus left still admits: a
      bonus question spends one bonus and one of the remaining count, so bonus counts half. */
  function DayCapacity(limit: int, d: int, b: int): int {
    if b <= 0 then Max(0, limit + b - d)
    else if d <= limit then limit - d + HalfUp(b)
    else HalfUp(limit + b - d)
  }

  /** The capacity of a day and its month under `plan`; unlimited plans admit any `n`. */
  function Capacity(rows: Rows, plan: Plan, today: Date, n: nat): int {
    var usage := WithRow(rows, today)[today];
    var byDay := if plan.dailyLimit == -1 then n else DayCapacity(plan.dailyLimit, usage.daily, usage.bonusRemaining);
    var byMonth := if plan.monthlyLimit == -1 then n else Max(0, plan.monthlyLimit - MonthTotal(rows, today.month));
    Min(n, Min(byDay, byMonth))
  }

  lemma DayCapacityStep(limit: int, d: int, b: int)
    ensures DayCapacity(limit, d, b) >= 0
    ensures d >= limit + b <==> DayCapacity(limit, d, b) == 0
    ensures d < limit + b ==>
      DayCapacity(limit, d + 1, if b > 0 && d >= limit then b - 1 else b) == DayCapacity(limit, d, b) - 1
  {
  }

  /** Exactly `Capacity` of `n` consecutive consumes succeed. */
  lemma {:induction false} ExactCapacity(rows: Rows, plan: Plan, today: Date, n: nat)
    ensures ConsumeMany(rows, plan, today, n).1 == Capacity(rows, plan, today, n)
    decreases n
  {
    if n > 0 {
      CapacityStep(rows, plan, today, n);
      ExactCapacity(ConsumeSpec(rows, plan, today, today).0, plan, today, n - 1);
    }
  }

  /** A success uses up one unit of capacity; a refusal means there was none. */
  lemma CapacityStep(rows: Rows, plan: Plan, today: Date, n: nat)
    requires n > 0
    ensures var (next, r) := ConsumeSpec(rows, plan, today, today);
      Capacity(next, plan, today, n - 1) == if r.Ok? then Capacity(rows, plan, today, n) - 1 else Capacity(rows, plan, today, n)
    ensures ConsumeSpec(rows, plan, today, today).1.Err? ==> Capacity(rows, plan, today, n) == 0
  {
    hide DayCapacity, MonthTotal, SumDaily;
    var ready := WithRow(rows, today);
    var usage := ready[today];
    var (next, r) := ConsumeSpec(rows, plan, today, today);
    TotalChanges(rows, today, NO_USAGE, today.month);
    DayCapacityStep(plan.dailyLimit, usage.daily, usage.bonusRemaining);
    if r.Ok? { TotalChanges(ready, today, next[today], today.month); }
  }

  /** Under a daily limit the `remaining` a user is shown is never too low, and exactly right if at
      most one question is left or the bonus is at most one, and the month admits as many. */
  lemma RemainingExactly(rows: Rows, plan: Plan, today: Date, n: nat)
    requires plan.dailyLimit != -1 && n >= StatusSpec(rows, plan, today).remaining
    ensures var usage := WithRow(rows, today)[today];
      var shown := StatusSpec(rows, plan, today).remaining;
      var admitted := ConsumeMany(rows, plan, today, n).1;
      && admitted <= shown
      && (admitted == shown <==>
            && (usage.bonusRemaining <= 1 || plan.dailyLimit + usage.bonusRemaining - usage.daily <= 1)
            && (plan.monthlyLimit == -1 || shown <= Max(0, plan.monthlyLimit - MonthTotal(rows, today.month))))
  {
    hide MonthTotal;
    ExactCapacity(rows, plan, today, n);
  }

  /** Without a daily limit it is right whenever there is a monthly one; without either it is a
      constant and every consume succeeds. */
  lemma RemainingWithoutDailyLimit(rows: Rows, plan: Plan, today: Date, n: nat)
    requires plan.dailyLimit == -1 && n >= StatusSpec(rows, plan, today).remaining
    ensures var admitted := ConsumeMany(rows, plan, today, n).1;
      if plan.monthlyLimit == -1 then admitted == n && StatusSpec(rows, plan, today).remaining == 9999
      else admitted == StatusSpec(rows, plan, today).remaining
  {
    TotalChanges(rows, today, NO_USAGE, today.month);
    hide MonthTotal;
    ExactCapacity(rows, plan, today, n);
  }

  /** From a day with `d` questions used within the limit, `b` bonus left and the month not
      binding, exactly (limit - d) + ceil(b/2) of any longer series succeed.  The `remaining`
      the user is shown counts every bonus fully: it is right exactly when b <= 1. */
  lemma BonusCountsHalf(rows: Rows, plan: Plan, today: Date, n: nat)
    requires plan.dailyLimit != -1
    requires var usage := WithRow(rows, today)[today];
      var admitted := plan.dailyLimit - usage.daily + (usage.bonusRemaining + 1) / 2;
      && usage.daily <= plan.dailyLimit && 0 <= usage.bonusRemaining && n >= admitted
      && (plan.monthlyLimit == -1 || MonthTotal(rows, today.month) + admitted <= plan.monthlyLimit)
    ensures var usage := WithRow(rows, today)[today];
      var shown := StatusSpec(rows, plan, today).remaining;
      var admitted := ConsumeMany(rows, plan, today, n).1;
      && admitted == plan.dailyLimit - usage.daily + (usage.bonusRemaining + 1) / 2
      && admitted <= shown
      && (admitted == shown <==> usage.bonusRemaining <= 1)
  {
    ExactCapacity(rows, plan, today, n);
  }

  /** A user who just asked for a bonus of two is shown one question too many. */
  lemma RemainingTooHigh(n: nat)
    requires n >= 7
    ensures var (plan, today) := (Plan(5, -1, true, 2, 1), Calendar(1, 1));
      var rows := Run(EMPTY, [Bonus(plan, today)]).rows;
      StatusSpec(rows, plan, today).remaining == 7 && ConsumeMany(rows, plan, today, n).1 == 6
  {
    var (plan, today) := (Plan(5, -1, true, 2, 1), Calendar(1, 1));
    var next := Step(EMPTY, Bonus(plan, today));
    assert [Bonus(plan, today)][1..] == [] && Run(next, []) == next;
    assert RowOf(next, today) == Usage(0, 0, 1, 2);
    BonusCountsHalf(next.rows, plan, today, n);
  }
}
