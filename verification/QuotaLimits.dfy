/** How far a run of the quota ledger can exceed the limits: by the consumes whose two clock reads
    fell on different sides of a date or month boundary, and by nothing else. */
module QuotaLimits {
  import opened Wrappers
  import opened Quota
  import opened QuotaRuns

  /** Every plan in force limits the day to at most `cap` questions. */
  predicate DayCapped(e: Event, cap: int) {
    e.Consume? ==> 0 <= e.plan.dailyLimit <= cap
  }

  predicate MonthCapped(e: Event, cap: int) {
    e.Consume? ==> 0 <= e.plan.monthlyLimit <= cap
  }

  predicate NoNegative(rows: Rows) {
    forall d <- rows :: 0 <= rows[d].daily
  }

  lemma StepNoNegative(l: Ledger, e: Event)
    requires NoNegative(l.rows)
    ensures NoNegative(Step(l, e).rows)
  {
  }

  predicate Succeeds(l: Ledger, e: Event) {
    e.Consume? && e.id !in l.reservations && ConsumeSpec(l.rows, e.plan, e.entry, e.today).1.Ok?
  }

  lemma RunSnoc(l: Ledger, events: seq<Event>, e: Event)
    ensures Run(l, events + [e]) == Step(Run(l, events), e)
    decreases |events|
  {
    hide Step;
    if events == [] {
      assert [] + [e] == [e] && [e][1..] == [];
      assert Run(l, [e]) == Run(Step(l, e), []);
    } else {
      assert (events + [e])[1..] == events[1..] + [e];
      RunSnoc(Step(l, events[0]), events[1..], e);
    }
  }

  // ----- the month -----

  /** A successful consume keeps its month within a cap no plan exceeds exactly if it was entered
      in that month or the cap was not reached. */
  lemma MonthStepExactly(rows: Rows, plan: Plan, entry: Date, today: Date, cap: int)
    requires 0 <= plan.monthlyLimit <= cap && ConsumeSpec(rows, plan, entry, today).1.Ok?
    requires MonthTotal(rows, today.month) <= cap
    ensures MonthTotal(ConsumeSpec(rows, plan, entry, today).0, today.month) <= cap <==>
              entry.month == today.month || MonthTotal(rows, today.month) < cap
  {
    TotalChanges(rows, today, NO_USAGE, today.month);
    TotalChanges(rows, today, NO_USAGE, entry.month);
    TotalChanges(WithRow(rows, today), today, ConsumeSpec(rows, plan, entry, today).0[today], today.month);
  }

  /** A question booked in `month` although it was entered in another. */
  predicate CrossesInto(l: Ledger, e: Event, month: int) {
    Succeeds(l, e) && e.today.month == month && e.entry.month != month
  }

  function CrossedIn(l: Ledger, events: seq<Event>, month: int): nat
    decreases |events|
  {
    if events == [] then 0
    else (if CrossesInto(l, events[0], month) then 1 else 0) + CrossedIn(Step(l, events[0]), events[1..], month)
  }

  lemma MonthWithinStep(l: Ledger, e: Event, cap: int, month: int)
    requires NoNegative(l.rows) && MonthCapped(e, cap) && MonthTotal(l.rows, month) <= cap
    ensures MonthTotal(Step(l, e).rows, month) <= cap + (if CrossesInto(l, e, month) then 1 else 0)
  {
    var l' := Step(l, e);
    match e
    case Consume(id, plan, entry, today) =>
      if l' != l {
        TotalChanges(l.rows, today, NO_USAGE, month);
        TotalChanges(l.rows, today, NO_USAGE, entry.month);
        TotalChanges(WithRow(l.rows, today), today, l'.rows[today], month);
      }
    case RefundOnce(id) =>
      if l'.rows != l.rows {
        var d := l.reservations[id].date;
        TotalChanges(l.rows, d, l'.rows[d], month);
      }
    case Bonus(plan, today) =>
      TotalChanges(l.rows, today, NO_USAGE, month);
      if l' != l { TotalChanges(WithRow(l.rows, today), today, l'.rows[today], month); }
    case Read(plan, today) => TotalChanges(l.rows, today, NO_USAGE, month);
  }

  lemma {:induction false} RunMonthWithin(l: Ledger, events: seq<Event>, limit: int, cap: int, month: int)
    requires NoNegative(l.rows) && MonthTotal(l.rows, month) <= cap && limit <= cap
    requires forall e <- events :: MonthCapped(e, limit)
    ensures MonthTotal(Run(l, events).rows, month) <= cap + CrossedIn(l, events, month)
    decreases |events|
  {
    if events != [] {
      hide Step, NoNegative, MonthTotal, CrossesInto;
      assert MonthCapped(events[0], limit) && MonthCapped(events[0], cap);
      var next := cap + if CrossesInto(l, events[0], month) then 1 else 0;
      StepNoNegative(l, events[0]);
      MonthWithinStep(l, events[0], cap, month);
      RunMonthWithin(Step(l, events[0]), events[1..], limit, next, month);
    }
  }

  lemma {:induction false} EmptyTotal(month: int, n: nat)
    requires n <= 31
    ensures SumDaily(map[], month, n) == 0
  {
    if n > 0 { EmptyTotal(month, n - 1); }
  }

  /** Over every run, no month is charged beyond the largest monthly limit in force and the
      questions that crossed into it. */
  lemma MonthBound(events: seq<Event>, cap: nat, month: int)
    requires forall e <- events :: MonthCapped(e, cap)
    ensures MonthTotal(Run(EMPTY, events).rows, month) <= cap + CrossedIn(EMPTY, events, month)
  {
    EmptyTotal(month, 31);
    RunMonthWithin(EMPTY, events, cap, cap, month);
  }

  /** The two clock reads of the consume fell into one month. */
  predicate SameMonth(e: Event) {
    e.Consume? ==> e.entry.month == e.today.month
  }

  lemma {:induction false} NoneCrossedIn(l: Ledger, events: seq<Event>, month: int)
    requires forall e <- events :: SameMonth(e)
    ensures CrossedIn(l, events, month) == 0
    decreases |events|
  {
    if events != [] {
      assert SameMonth(events[0]);
      NoneCrossedIn(Step(l, events[0]), events[1..], month);
    }
  }

  /** Without such a question the limit holds. */
  lemma MonthSafety(events: seq<Event>, cap: nat, month: int)
    requires forall e <- events :: SameMonth(e) && MonthCapped(e, cap)
    ensures MonthTotal(Run(EMPTY, events).rows, month) <= cap
  {
    MonthBound(events, cap, month);
    NoneCrossedIn(EMPTY, events, month);
  }

  /** Across a month boundary the cap fails: two questions entered on 31 January and booked on
      1 February, under a limit of one a month. */
  lemma MonthBoundaryExceeds()
    ensures var plan := Plan(9, 1, false, 0, 0);
      var late := (id: nat) => Consume(id, plan, Calendar(1, 31), Calendar(2, 1));
      MonthTotal(Run(EMPTY, [late(0), late(1)]).rows, 2) == 2
  {
    var plan := Plan(9, 1, false, 0, 0);
    var (first, second) := (Consume(0, plan, Calendar(1, 31), Calendar(2, 1)), Consume(1, plan, Calendar(1, 31), Calendar(2, 1)));
    var (l1, l2) := (Step(EMPTY, first), Step(Step(EMPTY, first), second));
    EmptyTotal(1, 31);
    EmptyTotal(2, 31);
    hide MonthTotal;
    LateConsume(EMPTY, first);
    LateConsume(l1, second);
    assert [first, second][1..] == [second] && [second][1..] == [];
    assert Run(EMPTY, [first, second]) == Run(l1, [second]) == Run(l2, []) == l2;
  }

  lemma LateConsume(l: Ledger, e: Event)
    requires e.Consume? && e.plan == Plan(9, 1, false, 0, 0) && e.id !in l.reservations
    requires e.entry == Calendar(1, 31) && e.today == Calendar(2, 1)
    requires MonthTotal(l.rows, 1) == 0 && RowOf(l, Calendar(2, 1)).daily < 9 && RowOf(l, Calendar(2, 1)).bonusRemaining == 0
    ensures var l' := Step(l, e);
      && MonthTotal(l'.rows, 1) == 0 && MonthTotal(l'.rows, 2) == MonthTotal(l.rows, 2) + 1
      && (var row := RowOf(l, Calendar(2, 1));
          RowOf(l', Calendar(2, 1)) == row.(daily := row.daily + 1, monthly := row.monthly + 1))
      && l'.reservations.Keys == l.reservations.Keys + {e.id}
  {
    hide SumDaily;
    TotalChanges(l.rows, e.today, NO_USAGE, 1);
    TotalChanges(l.rows, e.today, NO_USAGE, 2);
    var row := ConsumeSpec(l.rows, e.plan, e.entry, e.today).0[e.today];
    TotalChanges(WithRow(l.rows, e.today), e.today, row, 1);
    TotalChanges(WithRow(l.rows, e.today), e.today, row, 2);
  }

  // ----- the day -----

  /** What the counter of day `d` misses of its outstanding reservations. */
  function Missing(l: Ledger, d: Date): int {
    PlainHeld(l, d) + BonusHeld(l, d) - Daily(l.rows, d)
  }

  /** A successful consume outside the bonus keeps its day within a cap no plan exceeds exactly if
      the cap was not reached; on a date whose counter misses nothing a steady one always does, and
      on balanced books only a crossing of midnight can break it. */
  lemma DayStepExactly(l: Ledger, e: Event, cap: int)
    requires Succeeds(l, e) && l.refunded <= l.reservations.Keys && PlainHeld(l, e.entry) <= cap
    requires !ConsumeSpec(l.rows, e.plan, e.entry, e.today).1.value.usedBonus && 0 <= e.plan.dailyLimit <= cap
    ensures var within := PlainHeld(Step(l, e), e.entry) <= cap;
      && (within <==> PlainHeld(l, e.entry) < cap)
      && (Steady(e) && Missing(l, e.entry) <= 0 ==> within)
      && (Conserved(l) ==> (within <==> Steady(e) || PlainHeld(l, e.entry) < cap))
  {
    HeldChanges(l, e, e.entry);
    hide Outstanding;
    if Conserved(l) { assert Balanced(l, e.entry); }
  }

  /** A question entered on `d` and booked on another day. */
  predicate CrossesOut(l: Ledger, e: Event, d: Date) {
    Succeeds(l, e) && e.entry == d && e.today != d
  }

  function CrossedOut(l: Ledger, events: seq<Event>, d: Date): nat
    decreases |events|
  {
    if events == [] then 0
    else (if CrossesOut(l, events[0], d) then 1 else 0) + CrossedOut(Step(l, events[0]), events[1..], d)
  }

  /** After `c` crossings out of `d`. */
  predicate DayWithin(l: Ledger, d: Date, cap: int, c: int) {
    l.refunded <= l.reservations.Keys && NoNegative(l.rows) && Missing(l, d) <= c && PlainHeld(l, d) <= cap + c
  }

  lemma DayWithinStep(l: Ledger, e: Event, d: Date, cap: int, c: nat)
    requires DayWithin(l, d, cap, c) && DayCapped(e, cap)
    ensures DayWithin(Step(l, e), d, cap, c + (if CrossesOut(l, e, d) then 1 else 0))
  {
    HeldChanges(l, e, d);
    StepNoNegative(l, e);
    hide PlainHeld, BonusHeld, NoNegative;
    if e.Consume? && !Succeeds(l, e) { assert Step(l, e) == l; }
  }

  lemma {:induction false} RunDayWithin(l: Ledger, events: seq<Event>, d: Date, cap: int, c: nat)
    requires DayWithin(l, d, cap, c) && forall e <- events :: DayCapped(e, cap)
    ensures DayWithin(Run(l, events), d, cap, c + CrossedOut(l, events, d))
    decreases |events|
  {
    if events != [] {
      hide Step, DayWithin, CrossesOut;
      DayWithinStep(l, events[0], d, cap, c);
      RunDayWithin(Step(l, events[0]), events[1..], d, cap, c + if CrossesOut(l, events[0], d) then 1 else 0);
    }
  }

  /** Over every run, no day holds more questions outside the bonus than the largest daily limit in
      force and the questions that were entered on it and booked on another. */
  lemma DayBound(events: seq<Event>, cap: nat, d: Date)
    requires forall e <- events :: DayCapped(e, cap)
    ensures PlainHeld(Run(EMPTY, events), d) <= cap + CrossedOut(EMPTY, events, d)
  {
    assert Outstanding(EMPTY, Reservation(d, false)) == {} && Outstanding(EMPTY, Reservation(d, true)) == {};
    RunDayWithin(EMPTY, events, d, cap, 0);
  }

  lemma {:induction false} NoneCrossedOut(l: Ledger, events: seq<Event>, d: Date)
    requires forall e <- events :: Steady(e)
    ensures CrossedOut(l, events, d) == 0
    decreases |events|
  {
    if events != [] {
      assert Steady(events[0]);
      NoneCrossedOut(Step(l, events[0]), events[1..], d);
    }
  }

  /** Without such a question the limit holds. */
  lemma DaySafety(events: seq<Event>, cap: nat, d: Date)
    requires forall e <- events :: Steady(e) && DayCapped(e, cap)
    ensures PlainHeld(Run(EMPTY, events), d) <= cap
  {
    DayBound(events, cap, d);
    NoneCrossedOut(EMPTY, events, d);
  }

  // ----- the bound is attained -----

  const FIRST := Calendar(1, 1)
  const SECOND := Calendar(1, 2)

  /** `k` questions entered on the first day and booked on the second, then `j` within the first. */
  function CrossThenFill(cap: nat, k: nat, j: nat): seq<Event> {
    if j > 0 then CrossThenFill(cap, k, j - 1) + [Consume(k + j - 1, Plan(cap, -1, false, 0, 0), FIRST, FIRST)]
    else if k > 0 then CrossThenFill(cap, k - 1, 0) + [Consume(k - 1, Plan(cap, -1, false, 0, 0), FIRST, SECOND)]
    else []
  }

  lemma {:induction false} CrossedSnoc(l: Ledger, events: seq<Event>, e: Event, d: Date)
    ensures CrossedOut(l, events + [e], d) == CrossedOut(l, events, d) + (if CrossesOut(Run(l, events), e, d) then 1 else 0)
    decreases |events|
  {
    hide Step, CrossesOut;
    if events == [] {
      assert [] + [e] == [e] && [e][1..] == [];
      assert CrossedOut(l, [e], d) == (if CrossesOut(l, e, d) then 1 else 0) + CrossedOut(Step(l, e), [], d);
    } else {
      assert (events + [e])[1..] == events[1..] + [e];
      CrossedSnoc(Step(l, events[0]), events[1..], e, d);
    }
  }

  predicate Crossed(l: Ledger, k: nat, j: nat) {
    && l.refunded == {} && (forall id <- l.reservations :: id < k + j)
    && Daily(l.rows, SECOND) == k && Daily(l.rows, FIRST) == j
    && RowOf(l, FIRST).bonusRemaining == 0 && RowOf(l, SECOND).bonusRemaining == 0
    && PlainHeld(l, FIRST) == k + j
  }

  lemma CrossStep(l: Ledger, cap: nat, k: nat, e: Event)
    requires k < cap && Crossed(l, k, 0) && e == Consume(k, Plan(cap, -1, false, 0, 0), FIRST, SECOND)
    ensures Crossed(Step(l, e), k + 1, 0) && CrossesOut(l, e, FIRST)
  {
    hide PlainHeld, BonusHeld;
    HeldChanges(l, e, FIRST);
  }

  lemma FillStep(l: Ledger, cap: nat, k: nat, j: nat, e: Event)
    requires j < cap && Crossed(l, k, j) && e == Consume(k + j, Plan(cap, -1, false, 0, 0), FIRST, FIRST)
    ensures Crossed(Step(l, e), k, j + 1) && !CrossesOut(l, e, FIRST)
  {
    hide PlainHeld, BonusHeld;
    HeldChanges(l, e, FIRST);
  }

  lemma {:induction false} CrossThenFillRuns(cap: nat, k: nat, j: nat)
    requires k <= cap && j <= cap
    ensures var events := CrossThenFill(cap, k, j);
      && Crossed(Run(EMPTY, events), k, j) && CrossedOut(EMPTY, events, FIRST) == k
      && forall e <- events :: DayCapped(e, cap)
    decreases k + j
  {
    hide Run, CrossedOut, Crossed, CrossesOut;
    var plan := Plan(cap, -1, false, 0, 0);
    if j > 0 {
      var before := CrossThenFill(cap, k, j - 1);
      var e := Consume(k + j - 1, plan, FIRST, FIRST);
      CrossThenFillRuns(cap, k, j - 1);
      RunSnoc(EMPTY, before, e);
      CrossedSnoc(EMPTY, before, e, FIRST);
      FillStep(Run(EMPTY, before), cap, k, j - 1, e);
    } else if k > 0 {
      var before := CrossThenFill(cap, k - 1, 0);
      var e := Consume(k - 1, plan, FIRST, SECOND);
      CrossThenFillRuns(cap, k - 1, 0);
      RunSnoc(EMPTY, before, e);
      CrossedSnoc(EMPTY, before, e, FIRST);
      CrossStep(Run(EMPTY, before), cap, k - 1, e);
    } else {
      NothingYet();
    }
  }

  lemma NothingYet()
    ensures Crossed(EMPTY, 0, 0) && Run(EMPTY, []) == EMPTY && CrossedOut(EMPTY, [], FIRST) == 0
  {
    assert Outstanding(EMPTY, Reservation(FIRST, false)) == {};
  }

  /** For every daily limit and every number of crossings a day's counter can take, a run reaches
      the bound exactly. */
  lemma DayBoundAttained(cap: nat, k: nat)
    requires k <= cap
    ensures var events := CrossThenFill(cap, k, cap);
      && (forall e <- events :: DayCapped(e, cap))
      && PlainHeld(Run(EMPTY, events), FIRST) == cap + CrossedOut(EMPTY, events, FIRST) == cap + k
  {
    CrossThenFillRuns(cap, k, cap);
  }

  /** The smallest case: under a limit of one a day, a question entered on the first
      day and booked on the second leaves room for another one on the first. */
  lemma MidnightExceeds()
    ensures var plan := Plan(1, -1, false, 0, 0);
      var events := [Consume(0, plan, Calendar(1, 1), Calendar(1, 2)), Consume(1, plan, Calendar(1, 1), Calendar(1, 1))];
      PlainHeld(Run(EMPTY, events), Calendar(1, 1)) == 2
  {
    var plan := Plan(1, -1, false, 0, 0);
    var (first, second) := (Consume(0, plan, Calendar(1, 1), Calendar(1, 2)), Consume(1, plan, Calendar(1, 1), Calendar(1, 1)));
    var (l1, l2) := (Step(EMPTY, first), Step(Step(EMPTY, first), second));
    assert [first, second][1..] == [second] && [second][1..] == [];
    assert Run(EMPTY, [first, second]) == Run(l1, [second]) == Run(l2, []) == l2;
    assert Outstanding(EMPTY, Reservation(Calendar(1, 1), false)) == {};
    HeldChanges(EMPTY, first, Calendar(1, 1));
    HeldChanges(l1, second, Calendar(1, 1));
  }
}
