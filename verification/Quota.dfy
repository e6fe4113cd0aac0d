/** The AI quota ledger of one user and application: one usage row per UTC date, changed under
    the advisory lock of `ai-quota:<user>:<app>:<month>`, with the month read on entry. */
module Quota {
  import opened Numbers
  import opened Wrappers

  datatype Calendar = Calendar(month: int, day: int)

  /** A UTC date `YYYY-MM-DD`; `month` stands for its prefix `YYYY-MM`. */
  type Date = d: Calendar | 1 <= d.day <= 31 witness Calendar(0, 1)

  datatype Usage = Usage(daily: int, monthly: int, bonusUsed: int, bonusRemaining: int)

  /** The limits of the effective plan; -1 means unlimited. */
  datatype Plan = Plan(dailyLimit: int, monthlyLimit: int, canBonus: bool, bonusAmount: int, bonusMaxPerDay: int)

  datatype Reservation = Reservation(date: Date, usedBonus: bool)

  datatype QuotaError = QuotaExceeded(monthly: bool) | BonusNotAllowed | BonusExhausted

  datatype Status = Status(dailyUsed: int, monthlyUsed: int, bonusRemaining: int, canAsk: bool, remaining: int)

  type Rows = map<Date, Usage>

  const NO_USAGE := Usage(0, 0, 0, 0)

  function Daily(rows: Rows, d: Date): int {
    if d in rows then rows[d].daily else 0
  }

  /** The database's `SUM(dailyCount)` over the first `n` days of a month. */
  function SumDaily(rows: Rows, month: int, n: nat): int
    requires n <= 31
  {
    if n == 0 then 0 else SumDaily(rows, month, n - 1) + Daily(rows, Calendar(month, n))
  }

  function MonthTotal(rows: Rows, month: int): int {
    SumDaily(rows, month, 31)
  }

  /** `INSERT ... ON CONFLICT DO NOTHING` of an empty row. */
  function WithRow(rows: Rows, d: Date): Rows {
    if d in rows then rows else rows[d := NO_USAGE]
  }

  predicate DailyExceeded(plan: Plan, usage: Usage) {
    plan.dailyLimit != -1 && usage.daily >= plan.dailyLimit + usage.bonusRemaining
  }

  predicate MonthlyExceeded(plan: Plan, used: int) {
    plan.monthlyLimit != -1 && used >= plan.monthlyLimit
  }

  /** `consumeQuota` entered on date `entry` whose row is opened on date `today`: a refusal rolls
      the transaction back, a success is reserved under the entry date. */
  function ConsumeSpec(rows: Rows, plan: Plan, entry: Date, today: Date): (Rows, Result<Reservation, QuotaError>) {
    var ready := WithRow(rows, today);
    var usage := ready[today];
    var monthlyExceeded := MonthlyExceeded(plan, MonthTotal(ready, entry.month));
    if DailyExceeded(plan, usage) || monthlyExceeded then (rows, Err(QuotaExceeded(monthlyExceeded)))
    else
      var useBonus := plan.dailyLimit != -1 && usage.bonusRemaining > 0 && usage.daily >= plan.dailyLimit;
      (ready[today := usage.(
         daily := usage.daily + 1,
         monthly := usage.monthly + 1,
         bonusRemaining := usage.bonusRemaining - (if useBonus then 1 else 0))],
       Ok(Reservation(entry, useBonus)))
  }

  function RefundSpec(rows: Rows, r: Reservation): Rows {
    if r.date !in rows || rows[r.date].daily <= 0 then rows
    else
      var usage := rows[r.date];
      rows[r.date := usage.(
        daily := usage.daily - 1,
        monthly := Max(0, usage.monthly - 1),
        bonusRemaining := usage.bonusRemaining + (if r.usedBonus then 1 else 0))]
  }

  function BonusSpec(rows: Rows, plan: Plan, today: Date): (Rows, Result<int, QuotaError>) {
    if !plan.canBonus then (rows, Err(BonusNotAllowed))
    else
      var ready := WithRow(rows, today);
      var usage := ready[today];
      if plan.bonusMaxPerDay != -1 && usage.bonusUsed >= plan.bonusMaxPerDay then (rows, Err(BonusExhausted))
      else
        (ready[today := usage.(bonusUsed := usage.bonusUsed + 1, bonusRemaining := usage.bonusRemaining + plan.bonusAmount)],
         Ok(usage.bonusRemaining + plan.bonusAmount))
  }

  function StatusSpec(rows: Rows, plan: Plan, today: Date): Status {
    var ready := WithRow(rows, today);
    var usage := ready[today];
    var monthlyUsed := MonthTotal(ready, today.month);
    Status(
      usage.daily,
      monthlyUsed,
      usage.bonusRemaining,
      !DailyExceeded(plan, usage) && !MonthlyExceeded(plan, monthlyUsed),
      if plan.dailyLimit == -1 then
        (if plan.monthlyLimit == -1 then 9999 else Max(0, plan.monthlyLimit - monthlyUsed))
      else Max(0, plan.dailyLimit + usage.bonusRemaining - usage.daily))
  }

  /** The service object; `rows` is the `ai_usage` table of one user and application. */
  class PlansService {
    var rows: Rows

    constructor ()
      ensures rows == map[]
    {
      rows := map[];
    }

    method GetOrCreateUsage(today: Date) returns (usage: Usage)
      modifies this
      ensures rows == WithRow(old(rows), today) && usage == rows[today]
    {
      if today !in rows {
        rows := rows[today := NO_USAGE];
      }
      usage := rows[today];
    }

    method SumMonth(month: int) returns (total: int)
      ensures total == MonthTotal(rows, month)
    {
      total := 0;
      for day := 1 to 32
        invariant total == SumDaily(rows, month, day - 1)
      {
        if Calendar(month, day) in rows {
          total := total + rows[Calendar(month, day)].daily;
        }
      }
    }

    method CheckQuota(plan: Plan, today: Date) returns (status: Status)
      modifies this
      ensures rows == WithRow(old(rows), today) && status == StatusSpec(old(rows), plan, today)
    {
      var usage := GetOrCreateUsage(today);
      var monthlyUsed := SumMonth(today.month);
      var canAsk := !DailyExceeded(plan, usage) && !MonthlyExceeded(plan, monthlyUsed);
      var remaining;
      if plan.dailyLimit == -1 {
        remaining := if plan.monthlyLimit == -1 then 9999 else Max(0, plan.monthlyLimit - monthlyUsed);
      } else {
        remaining := Max(0, plan.dailyLimit + usage.bonusRemaining - usage.daily);
      }
      status := Status(usage.daily, monthlyUsed, usage.bonusRemaining, canAsk, remaining);
    }

    method ConsumeQuota(plan: Plan, entry: Date, today: Date) returns (r: Result<Reservation, QuotaError>)
      modifies this
      ensures (rows, r) == ConsumeSpec(old(rows), plan, entry, today)
    {
      var before := rows;
      var usage := GetOrCreateUsage(today);
      var monthlyUsed := SumMonth(entry.month);
      var dailyExceeded := DailyExceeded(plan, usage);
      var monthlyExceeded := MonthlyExceeded(plan, monthlyUsed);
      if dailyExceeded || monthlyExceeded {
        rows := before;
        return Err(QuotaExceeded(monthlyExceeded));
      }
      var useBonus := plan.dailyLimit != -1 && usage.bonusRemaining > 0 && usage.daily >= plan.dailyLimit;
      if useBonus {
        usage := usage.(bonusRemaining := usage.bonusRemaining - 1);
      }
      usage := usage.(daily := usage.daily + 1, monthly := usage.monthly + 1);
      rows := rows[today := usage];
      return Ok(Reservation(entry, useBonus));
    }

    method RefundQuota(r: Reservation)
      modifies this
      ensures rows == RefundSpec(old(rows), r)
    {
      if r.date !in rows || rows[r.date].daily <= 0 {
        return;
      }
      var usage := rows[r.date];
      usage := usage.(daily := usage.daily - 1, monthly := Max(0, usage.monthly - 1));
      if r.usedBonus {
        usage := usage.(bonusRemaining := usage.bonusRemaining + 1);
      }
      rows := rows[r.date := usage];
    }

    method RequestBonus(plan: Plan, today: Date) returns (r: Result<int, QuotaError>)
      modifies this
      ensures (rows, r) == BonusSpec(old(rows), plan, today)
    {
      if !plan.canBonus {
        return Err(BonusNotAllowed);
      }
      var before := rows;
      var usage := GetOrCreateUsage(today);
      if plan.bonusMaxPerDay != -1 && usage.bonusUsed >= plan.bonusMaxPerDay {
        rows := before;
        return Err(BonusExhausted);
      }
      usage := usage.(bonusUsed := usage.bonusUsed + 1, bonusRemaining := usage.bonusRemaining + plan.bonusAmount);
      rows := rows[today := usage];
      return Ok(usage.bonusRemaining);
    }
  }

  // ----- what one call undoes -----

  lemma {:induction false} SumUnchanged(rows: Rows, rows': Rows, month: int, n: nat)
    requires n <= 31
    requires forall d: Date :: d.month == month && d.day <= n ==> Daily(rows, d) == Daily(rows', d)
    ensures SumDaily(rows, month, n) == SumDaily(rows', month, n)
  {
    if n > 0 {
      SumUnchanged(rows, rows', month, n - 1);
      var d: Date := Calendar(month, n);
      assert Daily(rows, d) == Daily(rows', d);
    }
  }

  /** Rewriting one row moves the sum by exactly that row's change. */
  lemma {:induction false} SumChanges(rows: Rows, d: Date, usage: Usage, n: nat)
    requires d.day <= n <= 31
    ensures SumDaily(rows[d := usage], d.month, n) == SumDaily(rows, d.month, n) - Daily(rows, d) + usage.daily
  {
    if n == d.day {
      SumUnchanged(rows, rows[d := usage], d.month, n - 1);
      assert d == Calendar(d.month, n);
    } else {
      SumChanges(rows, d, usage, n - 1);
    }
  }

  lemma TotalChanges(rows: Rows, d: Date, usage: Usage, month: int)
    ensures MonthTotal(rows[d := usage], month) ==
            MonthTotal(rows, month) + (if month == d.month then usage.daily - Daily(rows, d) else 0)
    ensures MonthTotal(WithRow(rows, d), month) == MonthTotal(rows, month)
  {
    if month == d.month {
      SumChanges(rows, d, usage, 31);
      SumChanges(rows, d, NO_USAGE, 31);
    } else {
      SumUnchanged(rows, rows[d := usage], month, 31);
      SumUnchanged(rows, WithRow(rows, d), month, 31);
    }
  }

  /** Refunding a consume restores the ledger exactly when both of its clock reads gave the same
      date; over midnight the row of the new day stays charged. */
  lemma RefundUndoesConsume(rows: Rows, plan: Plan, entry: Date, today: Date)
    requires forall d <- rows :: 0 <= rows[d].daily && 0 <= rows[d].monthly
    requires ConsumeSpec(rows, plan, entry, today).1.Ok?
    ensures var (charged, r) := ConsumeSpec(rows, plan, entry, today);
      RefundSpec(charged, r.value) == WithRow(rows, today) <==> entry == today
  {
    var (charged, r) := ConsumeSpec(rows, plan, entry, today);
    var ready := WithRow(rows, today);
    var back := RefundSpec(charged, r.value);
    if entry == today {
      assert back == ready[today := ready[today]];
    } else {
      assert back[today].daily == ready[today].daily + 1;
    }
  }

  /** `canAsk` promises exactly that a consume on the same date succeeds. */
  lemma CanAskIffConsumeSucceeds(rows: Rows, plan: Plan, today: Date)
    ensures StatusSpec(rows, plan, today).canAsk <==> ConsumeSpec(rows, plan, today, today).1.Ok?
    ensures StatusSpec(WithRow(rows, today), plan, today) == StatusSpec(rows, plan, today)
  {
  }
}
