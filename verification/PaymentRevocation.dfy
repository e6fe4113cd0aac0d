/** What a revocation does to the intervals a user bought: it ends all of them at one moment,
    also those that had ended before or not begun, and so can make them overlap. */
module PaymentRevocation {
  import opened Wrappers
  import opened Payments
  import opened PaymentRuns
  import opened PaymentStacking

  /** Two bought intervals cover the moment `t`. */
  predicate BothCover(subs: seq<Subscription>, user: string, plan: string, i: int, j: int, t: int) {
    && 0 <= i < j < |subs|
    && Bought(subs[i], user, plan) && Bought(subs[j], user, plan)
    && CoveredBy(subs[i], t) && CoveredBy(subs[j], t)
  }

  ghost predicate DoublyCovered(subs: seq<Subscription>, user: string, plan: string) {
    exists i, j, t :: BothCover(subs, user, plan, i, j, t)
  }

  predicate BothBegan(subs: seq<Subscription>, user: string, plan: string, i: int, j: int, now: int) {
    && 0 <= i < j < |subs|
    && Bought(subs[i], user, plan) && Bought(subs[j], user, plan)
    && subs[i].startedAt < now && subs[j].startedAt < now
  }

  /** Two bought intervals, ended or not, have begun. */
  ghost predicate TwoBegan(subs: seq<Subscription>, user: string, plan: string, now: int) {
    exists i, j :: BothBegan(subs, user, plan, i, j, now)
  }

  // ----- one revocation -----

  /** A revocation makes two bought intervals overlap exactly if two of them have begun. */
  lemma RevokeOverlapsExactly(db: Db, user: string, plan: string, now: int)
    ensures DoublyCovered(RevokeSpec(db, user, now).subs, user, plan) <==> TwoBegan(db.subs, user, plan, now)
  {
    var after := RevokeSpec(db, user, now).subs;
    assert forall i :: 0 <= i < |after| ==> after[i] == Revoked(db.subs[i], user, now);
    if TwoBegan(db.subs, user, plan, now) {
      var i, j :| BothBegan(db.subs, user, plan, i, j, now);
      assert BothCover(after, user, plan, i, j, now - 1);
    }
    if DoublyCovered(after, user, plan) {
      var i, j, t :| BothCover(after, user, plan, i, j, t);
      assert BothBegan(db.subs, user, plan, i, j, now);
    }
  }

  /** It leaves them lined up exactly if all have begun and none but the first did so before. */
  lemma RevokeStacksExactly(db: Db, user: string, plan: string, now: int)
    ensures Stacked(RevokeSpec(db, user, now).subs, user, plan) <==>
      && (forall i :: 0 <= i < |db.subs| && Bought(db.subs[i], user, plan) ==> db.subs[i].startedAt <= now)
      && (forall i, j :: 0 <= i < j < |db.subs| && Bought(db.subs[i], user, plan) && Bought(db.subs[j], user, plan) ==>
            now <= db.subs[j].startedAt)
  {
    var after := RevokeSpec(db, user, now).subs;
    assert forall i :: 0 <= i < |after| ==> after[i] == Revoked(db.subs[i], user, now) && after[i] in after;
  }

  // ----- whole runs -----

  predicate PaymentsFinite(subs: seq<Subscription>) {
    forall i :: 0 <= i < |subs| && ByPayment(subs[i]) ==> subs[i].expiresAt.Some?
  }

  lemma StepFinite(s: State, e: Event)
    requires PaymentsFinite(s.db.subs)
    ensures PaymentsFinite(Step(s, e).db.subs)
  {
    hide StartsAt;
  }

  lemma {:induction false} RunFinite(now: int, events: seq<Event>)
    ensures PaymentsFinite(Run(Start(now), events).db.subs)
    decreases |events|
  {
    if events != [] {
      RunFinite(now, events[..|events| - 1]);
      hide PaymentsFinite, Step;
      StepFinite(Run(Start(now), events[..|events| - 1]), events[|events| - 1]);
    }
  }

  lemma OverlapGrows(subs: seq<Subscription>, s: Subscription, user: string, plan: string)
    requires PaymentsFinite(subs)
    requires Bought(s, user, plan) ==>
      forall c <- subs :: c.user == user && c.plan == plan && c.expiresAt.Some? ==> c.expiresAt.value <= s.startedAt
    ensures DoublyCovered(subs + [s], user, plan) <==> DoublyCovered(subs, user, plan)
  {
    var all := subs + [s];
    if DoublyCovered(subs, user, plan) {
      var i, j, t :| BothCover(subs, user, plan, i, j, t);
      assert BothCover(all, user, plan, i, j, t);
    }
    if DoublyCovered(all, user, plan) {
      var i, j, t :| BothCover(all, user, plan, i, j, t);
      assert subs[i] in subs && all[i] == subs[i];
      assert j < |subs|;
      assert BothCover(subs, user, plan, i, j, t);
    }
  }

  lemma SameOverlap(a: seq<Subscription>, b: seq<Subscription>, user: string, plan: string)
    requires |a| == |b| && forall i :: 0 <= i < |a| ==> a[i] == b[i] || (a[i].user != user && b[i].user != user)
    ensures DoublyCovered(a, user, plan) ==> DoublyCovered(b, user, plan)
  {
    if DoublyCovered(a, user, plan) {
      var i, j, t :| BothCover(a, user, plan, i, j, t);
      assert BothCover(b, user, plan, i, j, t);
    }
  }

  /** Only a revocation creates or removes an overlap. */
  lemma StepKeepsOverlap(s: State, e: Event, user: string, plan: string)
    requires PaymentsFinite(s.db.subs) && !Revokes(e, user)
    ensures DoublyCovered(Step(s, e).db.subs, user, plan) <==> DoublyCovered(s.db.subs, user, plan)
  {
    hide DoublyCovered, PaymentsFinite;
    match e {
      case MarkPaid(id, admin, at) =>
        if at <= s.now && id < |s.db.orders| && s.db.orders[id].paidAt.None? && s.db.orders[id].user in s.db.users {
          OverlapGrows(s.db.subs, Purchased(s.db, s.db.orders[id], at), user, plan);
        }
      case AdminGrant(user', plan', days) =>
        if user' in s.db.users {
          var expiresAt := if days > 0 then Some(s.now + days * DAY_MS) else None;
          OverlapGrows(s.db.subs, Subscription(user', plan', s.now, expiresAt, true, None), user, plan);
        }
      case RedeemCoupon(user', plan', expiresAt, code) =>
        OverlapGrows(s.db.subs, Subscription(user', plan', s.now, Some(expiresAt), false, Some(code)), user, plan);
      case AdminRevoke(user') =>
        SameOverlap(s.db.subs, RevokeSpec(s.db, user', s.now).subs, user, plan);
        SameOverlap(RevokeSpec(s.db, user', s.now).subs, s.db.subs, user, plan);
      case RevokeCommit(user') =>
        if user' in s.revoking {
          var after := RevokeFirst(s.db, s.revoking[user'].seen, user', s.revoking[user'].at).subs;
          SameOverlap(s.db.subs, after, user, plan);
          SameOverlap(after, s.db.subs, user, plan);
        }
      case _ =>
    }
  }

  lemma {:induction false} RunKeepsOverlap(now: int, events: seq<Event>, after: seq<Event>, user: string, plan: string)
    requires forall e <- after :: !Revokes(e, user)
    ensures DoublyCovered(Run(Start(now), events + after).db.subs, user, plan) <==>
            DoublyCovered(Run(Start(now), events).db.subs, user, plan)
    decreases |after|
  {
    if after == [] {
      assert events + after == events;
    } else {
      var (init, last) := (after[..|after| - 1], after[|after| - 1]);
      hide DoublyCovered, Step, PaymentsFinite, Run;
      assert events + after == events + init + [last];
      RunSnoc(Start(now), events + init, last);
      RunKeepsOverlap(now, events, init, user, plan);
      RunFinite(now, events + init);
      StepKeepsOverlap(Run(Start(now), events + init), last, user, plan);
    }
  }

  /** Over every run with a revocation for the user, whatever went before and follows: some moment
      is covered by two bought intervals of one plan exactly if two of them had begun when the
      last revocation was made. */
  lemma OverlapExactly(now: int, before: seq<Event>, after: seq<Event>, user: string, plan: string)
    requires forall e <- after :: !Revokes(e, user)
    ensures var s := Run(Start(now), before);
      DoublyCovered(Run(Start(now), before + [AdminRevoke(user)] + after).db.subs, user, plan) <==>
        TwoBegan(s.db.subs, user, plan, s.now)
  {
    hide DoublyCovered, TwoBegan, Run;
    var s := Run(Start(now), before);
    RunSnoc(Start(now), before, AdminRevoke(user));
    RevokeOverlapsExactly(s.db, user, plan, s.now);
    RunKeepsOverlap(now, before + [AdminRevoke(user)], after, user, plan);
  }

  /** An interval the statement saw and one it did not see have a common moment afterwards. */
  predicate Meet(subs: seq<Subscription>, user: string, plan: string, n: nat, at: int, i: int, j: int) {
    && 0 <= i < n <= j < |subs| && Bought(subs[i], user, plan) && Bought(subs[j], user, plan) && subs[j].expiresAt.Some?
    && subs[i].startedAt < at && subs[j].startedAt < at
    && subs[i].startedAt < subs[j].expiresAt.value && subs[j].startedAt < subs[j].expiresAt.value
  }

  /** A revocation that saw the first `n` subscriptions: bought intervals overlap afterwards exactly
      if two it saw had begun, two it did not see overlap, or one of each meet. */
  lemma LateRevokeOverlapsExactly(db: Db, n: nat, at: int, user: string, plan: string)
    requires n <= |db.subs| && PaymentsFinite(db.subs)
    ensures DoublyCovered(RevokeFirst(db, n, user, at).subs, user, plan) <==>
              TwoBegan(db.subs[..n], user, plan, at) || DoublyCovered(db.subs[n..], user, plan)
              || exists i, j :: Meet(db.subs, user, plan, n, at, i, j)
  {
    hide RevokeFirst, TwoBegan, DoublyCovered;
    if TwoBegan(db.subs[..n], user, plan, at) || DoublyCovered(db.subs[n..], user, plan) {
      PartsOverlap(db, n, at, user, plan);
    }
    if exists i, j :: Meet(db.subs, user, plan, n, at, i, j) {
      var i, j :| Meet(db.subs, user, plan, n, at, i, j);
      MeetOverlaps(db, n, at, user, plan, i, j);
    }
    if DoublyCovered(RevokeFirst(db, n, user, at).subs, user, plan) {
      OverlapComesFrom(db, n, at, user, plan);
    }
  }

  lemma RevokedAt(db: Db, n: nat, at: int, user: string, i: nat)
    requires i < |db.subs|
    ensures RevokeFirst(db, n, user, at).subs[i] == if i < n then Revoked(db.subs[i], user, at) else db.subs[i]
  {
  }

  lemma PartsOverlap(db: Db, n: nat, at: int, user: string, plan: string)
    requires n <= |db.subs|
    requires TwoBegan(db.subs[..n], user, plan, at) || DoublyCovered(db.subs[n..], user, plan)
    ensures DoublyCovered(RevokeFirst(db, n, user, at).subs, user, plan)
  {
    var after := RevokeFirst(db, n, user, at).subs;
    SameLength(db, n, at, user);
    hide RevokeFirst;
    if TwoBegan(db.subs[..n], user, plan, at) {
      var i, j :| BothBegan(db.subs[..n], user, plan, i, j, at);
      RevokedAt(db, n, at, user, i);
      RevokedAt(db, n, at, user, j);
      assert BothCover(after, user, plan, i, j, at - 1);
    } else {
      var i, j, t :| BothCover(db.subs[n..], user, plan, i, j, t);
      RevokedAt(db, n, at, user, n + i);
      RevokedAt(db, n, at, user, n + j);
      assert BothCover(after, user, plan, n + i, n + j, t);
    }
  }

  lemma MeetOverlaps(db: Db, n: nat, at: int, user: string, plan: string, i: int, j: int)
    requires Meet(db.subs, user, plan, n, at, i, j)
    ensures DoublyCovered(RevokeFirst(db, n, user, at).subs, user, plan)
  {
    var after := RevokeFirst(db, n, user, at).subs;
    RevokedAt(db, n, at, user, i);
    RevokedAt(db, n, at, user, j);
    hide RevokeFirst;
    var t := if db.subs[i].startedAt < db.subs[j].startedAt then db.subs[j].startedAt else db.subs[i].startedAt;
    assert BothCover(after, user, plan, i, j, t);
  }

  lemma OverlapComesFrom(db: Db, n: nat, at: int, user: string, plan: string)
    requires n <= |db.subs| && PaymentsFinite(db.subs)
    requires DoublyCovered(RevokeFirst(db, n, user, at).subs, user, plan)
    ensures TwoBegan(db.subs[..n], user, plan, at) || DoublyCovered(db.subs[n..], user, plan)
            || exists i, j :: Meet(db.subs, user, plan, n, at, i, j)
  {
    var after := RevokeFirst(db, n, user, at).subs;
    SameLength(db, n, at, user);
    hide RevokeFirst;
    var i, j, t :| BothCover(after, user, plan, i, j, t);
    RevokedAt(db, n, at, user, i);
    RevokedAt(db, n, at, user, j);
    if j < n {
      assert BothBegan(db.subs[..n], user, plan, i, j, at);
    } else if i >= n {
      assert BothCover(db.subs[n..], user, plan, i - n, j - n, t);
    } else {
      assert Meet(db.subs, user, plan, n, at, i, j);
    }
  }

  lemma SameLength(db: Db, n: nat, at: int, user: string)
    ensures |RevokeFirst(db, n, user, at).subs| == |db.subs|
  {
  }

  /** The same over every run whose last revocation for the user committed behind its start. */
  lemma LateOverlapExactly(now: int, before: seq<Event>, after: seq<Event>, user: string, plan: string)
    requires (forall e <- after :: !Revokes(e, user)) && user in Run(Start(now), before).revoking
    ensures var s := Run(Start(now), before);
      var (n, at) := (s.revoking[user].seen, s.revoking[user].at);
      && n <= |s.db.subs|
      && (DoublyCovered(Run(Start(now), before + [RevokeCommit(user)] + after).db.subs, user, plan) <==>
            TwoBegan(s.db.subs[..n], user, plan, at) || DoublyCovered(s.db.subs[n..], user, plan)
            || exists i, j :: Meet(s.db.subs, user, plan, n, at, i, j))
  {
    var s := Run(Start(now), before);
    RunPendingOk(now, before);
    RunFinite(now, before);
    hide DoublyCovered, TwoBegan, Run, PaymentsFinite;
    RunSnoc(Start(now), before, RevokeCommit(user));
    LateRevokeOverlapsExactly(s.db, s.revoking[user].seen, s.revoking[user].at, user, plan);
    RunKeepsOverlap(now, before + [RevokeCommit(user)], after, user, plan);
  }

  // ----- the bought time -----

  function TimeSince(subs: seq<Subscription>, user: string, plan: string, now: int): int {
    if subs == [] then 0
    else
      var s := subs[|subs| - 1];
      TimeSince(subs[..|subs| - 1], user, plan, now) + (if Bought(s, user, plan) then now - s.startedAt else 0)
  }

  /** After a revocation the bought intervals are as long as the time since each of them began,
      negative for those that had not. */
  lemma {:induction false} RevokedTime(db: Db, user: string, plan: string, now: int)
    ensures BoughtTime(RevokeSpec(db, user, now).subs, user, plan) == TimeSince(db.subs, user, plan, now)
    decreases |db.subs|
  {
    if db.subs != [] {
      var n := |db.subs| - 1;
      var shorter := db.(subs := db.subs[..n]);
      RevokedTime(shorter, user, plan, now);
      assert RevokeSpec(db, user, now).subs[..n] == RevokeSpec(shorter, user, now).subs;
    }
  }

  // ----- runs that show it -----

  lemma RunSnoc(s: State, events: seq<Event>, e: Event)
    ensures Run(s, events + [e]) == Step(Run(s, events), e)
  {
    hide Step;
    assert (events + [e])[..|events|] == events;
  }

  const CONFIGURE := Configure(map["u" := "free"], map["lite" := Plan(true, 1000)], true)

  /** Two orders of one user, */
  function TwoOrders(): seq<Event> {
    [] + [CONFIGURE] + [CreateOrder("u", "lite")] + [CreateOrder("u", "lite")]
  }

  lemma TwoOrdersOpen()
    ensures var order := Order("u", "lite", 1000, 30, ORDER_VALIDITY_MS, None, None);
      var s := Run(Start(0), TwoOrders());
      s.now == 0 && s.db.subs == [] && s.db.orders == [order, order] && "u" in s.db.users
  {
    TwoOrdersRun();
    hide TwoOrders, Run, Step;
    var s1 := Step(Start(0), CONFIGURE);
    ConfigureStep();
    CreateStep(s1);
    CreateStep(Step(s1, CreateOrder("u", "lite")));
  }

  lemma TwoOrdersRun()
    ensures Run(Start(0), TwoOrders()) ==
            Step(Step(Step(Start(0), CONFIGURE), CreateOrder("u", "lite")), CreateOrder("u", "lite"))
  {
    var e0: seq<Event> := [];
    assert Run(Start(0), e0) == Start(0);
    hide Run, Step;
    RunSnoc(Start(0), e0, CONFIGURE);
    RunSnoc(Start(0), e0 + [CONFIGURE], CreateOrder("u", "lite"));
    RunSnoc(Start(0), e0 + [CONFIGURE] + [CreateOrder("u", "lite")], CreateOrder("u", "lite"));
  }

  lemma ConfigureStep()
    ensures var s := Step(Start(0), CONFIGURE);
      s.now == 0 && s.db == Start(0).db.(users := map["u" := "free"], plans := map["lite" := Plan(true, 1000)], configured := true)
  {
  }

  lemma CreateStep(s: State)
    requires s.db.plans == map["lite" := Plan(true, 1000)] && s.db.configured && s.now == 0
    ensures var order := Order("u", "lite", 1000, 30, ORDER_VALIDITY_MS, None, None);
      var after := Step(s, CreateOrder("u", "lite"));
      after.now == 0 && after.db == s.db.(orders := s.db.orders + [order], audit := after.db.audit)
  {
  }

  /** marked paid one after the other. */
  function TwoPurchases(): seq<Event> {
    TwoOrders() + [MarkPaid(0, "a", 0)] + [MarkPaid(1, "a", 0)]
  }

  lemma FirstPurchase()
    ensures var s := Run(Start(0), TwoOrders() + [MarkPaid(0, "a", 0)]);
      && s.now == 0 && s.db.subs == [Subscription("u", "lite", 0, Some(30 * DAY_MS), false, None)]
      && |s.db.orders| == 2
      && Share(s.db.orders[0], "u", "lite") == 30 * DAY_MS
      && s.db.orders[1] == Order("u", "lite", 1000, 30, ORDER_VALIDITY_MS, None, None) && "u" in s.db.users
  {
    TwoOrdersOpen();
    hide TwoOrders;
    RunSnoc(Start(0), TwoOrders(), MarkPaid(0, "a", 0));
    hide Run, Running;
  }

  lemma SecondStart(s: Subscription)
    requires Running(s, "u", "lite", 0)
    ensures StartsAt([s], "u", "lite", 0) == s.expiresAt.value
  {
    assert s in [s];
  }

  lemma TwoPurchasesStack()
    ensures var s := Run(Start(0), TwoPurchases());
      && s.now == 0 && |s.db.subs| == 2 && Bought(s.db.subs[0], "u", "lite") && Bought(s.db.subs[1], "u", "lite")
      && s.db.subs[0].startedAt == 0 && s.db.subs[1].startedAt == 30 * DAY_MS
      && PaidTime(s.db.orders, "u", "lite") == 60 * DAY_MS
  {
    hide TwoOrders, StartsAt;
    FirstPurchase();
    var before := TwoOrders() + [MarkPaid(0, "a", 0)];
    RunSnoc(Start(0), before, MarkPaid(1, "a", 0));
    hide Run;
    SecondStart(Run(Start(0), before).db.subs[0]);
    TwoShares(Run(Start(0), TwoPurchases()).db.orders);
  }

  lemma TwoShares(orders: seq<Order>)
    requires |orders| == 2
    ensures PaidTime(orders, "u", "lite") == Share(orders[0], "u", "lite") + Share(orders[1], "u", "lite")
  {
    hide Share;
    assert orders[..1] == [orders[0]] && orders[..1][..0] == [];
    assert PaidTime(orders[..1], "u", "lite") == PaidTime([], "u", "lite") + Share(orders[0], "u", "lite");
  }

  /** Revoked on the fortieth day, both intervals cover the thirty-fifth, and the bought time falls
      ten days short of the ordered time. */
  lemma RevocationOverlaps()
    ensures var events := TwoPurchases() + [Tick(40 * DAY_MS)] + [AdminRevoke("u")];
      var db := Run(Start(0), events).db;
      && BothCover(db.subs, "u", "lite", 0, 1, 35 * DAY_MS)
      && BoughtTime(db.subs, "u", "lite") == 50 * DAY_MS && PaidTime(db.orders, "u", "lite") == 60 * DAY_MS
  {
    hide TwoPurchases;
    TwoPurchasesStack();
    var s := Run(Start(0), TwoPurchases());
    RunSnoc(Start(0), TwoPurchases(), Tick(40 * DAY_MS));
    RunSnoc(Start(0), TwoPurchases() + [Tick(40 * DAY_MS)], AdminRevoke("u"));
    hide Run;
    var revoked := RevokeSpec(s.db, "u", 40 * DAY_MS).subs;
    assert revoked[0].expiresAt == Some(40 * DAY_MS) && revoked[1].startedAt == 30 * DAY_MS;
    RevokedTime(s.db, "u", "lite", 40 * DAY_MS);
    TwoTimes(s.db.subs, 40 * DAY_MS);
  }

  lemma TwoTimes(subs: seq<Subscription>, now: int)
    requires |subs| == 2 && Bought(subs[0], "u", "lite") && Bought(subs[1], "u", "lite")
    ensures TimeSince(subs, "u", "lite", now) == now - subs[0].startedAt + (now - subs[1].startedAt)
  {
    assert subs[..1] == [subs[0]] && subs[..1][..0] == [];
    assert TimeSince(subs[..1], "u", "lite", now) == TimeSince([], "u", "lite", now) + (now - subs[0].startedAt);
  }

  /** A revocation that started before the second payment and commits after it: the first interval
      is over and the second begins in thirty days. */
  lemma LateRevocationLeavesGap()
    ensures var s := Run(Start(0), TwoOrders() + [MarkPaid(0, "a", 0)]);
      var t := Step(Step(Step(s, RevokeStart("u")), MarkPaid(1, "a", 0)), RevokeCommit("u"));
      NoGap(s.db.subs, "u", "lite", 0) && !NoGap(t.db.subs, "u", "lite", 0)
  {
    hide TwoOrders;
    FirstPurchase();
    RunPendingOk(0, TwoOrders() + [MarkPaid(0, "a", 0)]);
    hide Run, NoGap, Step;
    var s := Run(Start(0), TwoOrders() + [MarkPaid(0, "a", 0)]);
    OneNoGap(s.db.subs[0], "u", "lite", 0);
    assert s.db.subs[0] in s.db.subs && Running(s.db.subs[0], "u", "lite", 0);
    LateRevocationGap(s, 1, "a", 0);
    LateTime(s);
  }

  lemma LateTime(s: State)
    requires s.now == 0
    ensures Step(Step(Step(s, RevokeStart("u")), MarkPaid(1, "a", 0)), RevokeCommit("u")).now == 0
  {
  }
}
