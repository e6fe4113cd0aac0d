/** What the numbers of the quota status mean over a run, and how many bonus requests a day
    admits. */
module QuotaStatus {
  import opened Wrappers
  import opened Quota
  import opened QuotaRuns
  import opened QuotaLimits

  // ----- bonus requests -----

  predicate BonusSucceeds(l: Ledger, e: Event, d: Date) {
    e.Bonus? && e.today == d && BonusSpec(l.rows, e.plan, e.today).1.Ok?
  }

  /** The bonus requests that were granted on day `d`. */
  function BonusGrants(l: Ledger, events: seq<Event>, d: Date): nat
    decreases |events|
  {
    if events == [] then 0
    else (if BonusSucceeds(l, events[0], d) then 1 else 0) + BonusGrants(Step(l, events[0]), events[1..], d)
  }

  lemma BonusStep(l: Ledger, e: Event, d: Date)
    ensures RowOf(Step(l, e), d).bonusUsed == RowOf(l, d).bonusUsed + if BonusSucceeds(l, e, d) then 1 else 0
  {
    hide MonthTotal;
  }

  /** Every grant is counted once, and nothing else touches the count. */
  lemma {:induction false} BonusCounted(l: Ledger, events: seq<Event>, d: Date)
    ensures RowOf(Run(l, events), d).bonusUsed == RowOf(l, d).bonusUsed + BonusGrants(l, events, d)
    decreases |events|
  {
    hide Step, BonusSucceeds;
    if events != [] {
      BonusStep(l, events[0], d);
      BonusCounted(Step(l, events[0]), events[1..], d);
    }
  }

  /** After any run a bonus request is granted exactly if the plan has the feature and fewer
      requests were granted that day than it allows, and then the plan's amount is added to what
      is left; a refused request changes nothing. */
  lemma BonusDecided(events: seq<Event>, plan: Plan, today: Date)
    ensures var l := Run(EMPTY, events);
      var (rows, r) := BonusSpec(l.rows, plan, today);
      && r == (if !plan.canBonus then Err(BonusNotAllowed)
               else if plan.bonusMaxPerDay != -1 && BonusGrants(EMPTY, events, today) >= plan.bonusMaxPerDay then Err(BonusExhausted)
               else Ok(RowOf(l, today).bonusRemaining + plan.bonusAmount))
      && (r.Err? ==> rows == l.rows)
      && (r.Ok? ==> rows[today] == RowOf(l, today).(bonusUsed := BonusGrants(EMPTY, events, today) + 1, bonusRemaining := r.value))
      && (forall d <- l.rows :: d != today ==> d in rows && rows[d] == l.rows[d])
  {
    hide BonusGrants;
    BonusCounted(EMPTY, events, today);
  }

  /** Every plan in force limits the bonus requests of a day to at most `cap`. */
  predicate BonusCapped(e: Event, cap: int) {
    e.Bonus? ==> 0 <= e.plan.bonusMaxPerDay <= cap
  }

  lemma {:induction false} BonusWithin(l: Ledger, events: seq<Event>, d: Date, cap: nat)
    requires RowOf(l, d).bonusUsed <= cap && forall e <- events :: BonusCapped(e, cap)
    ensures RowOf(Run(l, events), d).bonusUsed <= cap
    decreases |events|
  {
    hide Step;
    if events != [] {
      assert BonusCapped(events[0], cap);
      BonusStep(l, events[0], d);
      BonusWithin(Step(l, events[0]), events[1..], d, cap);
    }
  }

  /** No run grants more bonus requests on a day than the largest daily limit in force. */
  lemma BonusLimit(events: seq<Event>, d: Date, cap: nat)
    requires forall e <- events :: BonusCapped(e, cap)
    ensures BonusGrants(EMPTY, events, d) <= cap
  {
    BonusWithin(EMPTY, events, d, cap);
    BonusCounted(EMPTY, events, d);
  }

  // ----- the status -----

  /** The unrefunded questions of a day, */
  function AskedOn(l: Ledger, d: Date): set<nat> {
    set id | id in l.reservations && id !in l.refunded && l.reservations[id].date == d
  }

  /** and of the first `n` days of a month. */
  function AskedWithin(l: Ledger, month: int, n: nat): set<nat> {
    set id | id in l.reservations && id !in l.refunded
             && l.reservations[id].date.month == month && l.reservations[id].date.day <= n
  }

  lemma AskedOnHeld(l: Ledger, d: Date)
    ensures |AskedOn(l, d)| == PlainHeld(l, d) + BonusHeld(l, d)
  {
    var (plain, bonus) := (Outstanding(l, Reservation(d, false)), Outstanding(l, Reservation(d, true)));
    assert plain !! bonus;
    assert AskedOn(l, d) == plain + bonus;
  }

  lemma {:induction false} MonthCountsAsked(l: Ledger, month: int, n: nat)
    requires Conserved(l) && n <= 31
    ensures SumDaily(l.rows, month, n) == |AskedWithin(l, month, n)|
  {
    if n == 0 {
      assert AskedWithin(l, month, 0) == {};
    } else {
      MonthCountsAsked(l, month, n - 1);
      var d: Date := Calendar(month, n);
      assert Balanced(l, d);
      AskedOnHeld(l, d);
      var (earlier, last) := (AskedWithin(l, month, n - 1), AskedOn(l, d));
      DaysSplit(l, month, n);
      assert earlier !! last;
    }
  }

  lemma DaysSplit(l: Ledger, month: int, n: nat)
    requires 1 <= n <= 31
    ensures AskedWithin(l, month, n) == AskedWithin(l, month, n - 1) + AskedOn(l, Calendar(month, n))
    ensures AskedWithin(l, month, n - 1) !! AskedOn(l, Calendar(month, n))
  {
  }

  /** While no clock crosses midnight, the status after any run counts people's questions: the
      unrefunded ones of the day and of the month, and the bonus granted but not in use. */
  lemma StatusCounts(events: seq<Event>, plan: Plan, today: Date)
    requires forall e <- events :: Steady(e)
    ensures var l := Run(EMPTY, events);
      var status := StatusSpec(l.rows, plan, today);
      && status.dailyUsed == |AskedOn(l, today)|
      && status.monthlyUsed == |AskedWithin(l, today.month, 31)|
      && status.bonusRemaining == Granted(l, today) - BonusHeld(l, today)
  {
    hide Run, Conserved;
    var l := Run(EMPTY, events);
    QuotaConservation(events, today);
    AskedOnHeld(l, today);
    MonthCountsAsked(l, today.month, 31);
    TotalChanges(l.rows, today, NO_USAGE, today.month);
  }

  /** So a question is admitted exactly while the day's unrefunded questions are fewer than its
      limit and unused bonus, and the month's fewer than its own limit; a refusal names the month
      exactly if the month is full, and charges nothing. */
  lemma ConsumeDecided(events: seq<Event>, plan: Plan, today: Date)
    requires forall e <- events :: Steady(e)
    ensures var l := Run(EMPTY, events);
      var dayFull := plan.dailyLimit != -1 && |AskedOn(l, today)| >= plan.dailyLimit + Granted(l, today) - BonusHeld(l, today);
      var monthFull := plan.monthlyLimit != -1 && |AskedWithin(l, today.month, 31)| >= plan.monthlyLimit;
      var (rows, r) := ConsumeSpec(l.rows, plan, today, today);
      && (r.Ok? <==> !dayFull && !monthFull)
      && (r.Err? ==> r == Err(QuotaExceeded(monthFull)) && rows == l.rows)
      && (r.Ok? ==> r.value.date == today && |AskedOn(l, today)| + 1 == rows[today].daily)
  {
    hide Run, AskedOn, AskedWithin, Granted, BonusHeld;
    var l := Run(EMPTY, events);
    StatusCounts(events, plan, today);
    TotalChanges(l.rows, today, NO_USAGE, today.month);
  }
}
