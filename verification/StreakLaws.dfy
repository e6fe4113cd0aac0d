/** Laws of the streak service: the merge is a left-biased lexicographic join, activities only
    move up in its order, and so a committed request can be replayed at any later time. */
module StreakLaws {
  import opened Wrappers
  import opened Calendar
  import opened Streak

  // ----- the merge as an algebra -----

  lemma MergeIdempotent(a: Row)
    ensures Merge(a, a) == a
  {
  }

  lemma MergeAssociative(a: Row, b: Row, c: Row)
    requires ChecksPass(a) && ChecksPass(b) && ChecksPass(c)
    ensures Merge(Merge(a, b), c) == Merge(a, Merge(b, c))
  {
  }

  lemma MergeLeftRegular(a: Row, b: Row)
    requires ChecksPass(a) && ChecksPass(b)
    ensures Merge(Merge(a, b), a) == Merge(a, b)
  {
  }

  /** Order of arrival matters only for the card id of one and the same card date. */
  lemma MergeCommutes(a: Row, b: Row)
    requires ChecksPass(a) && ChecksPass(b)
    ensures Merge(a, b) == Merge(b, a) <==>
            !(a.cardDate == b.cardDate && a.cardId.Some? && b.cardId.Some? && a.cardId != b.cardId)
    ensures Merge(a, b).(cardId := None) == Merge(b, a).(cardId := None)
  {
  }

  /** `stored` already contains everything `s` could bring. */
  predicate Absorbs(stored: Row, s: Row) {
    Merge(stored, s) == stored
  }

  /** The order behind the merge, field by field. */
  predicate Dominates(y: Row, s: Row) {
    && s.longest <= y.longest && s.total <= y.total
    && (s.lastActive.Some? ==>
          && y.lastActive.Some?
          && (s.lastActive.value < y.lastActive.value
              || (s.lastActive == y.lastActive && s.current <= y.current && (s.freezeUsed ==> y.freezeUsed))))
    && (s.cardDate.Some? ==>
          && y.cardDate.Some?
          && (s.cardDate.value < y.cardDate.value
              || (s.cardDate == y.cardDate && (s.cardId.Some? ==> y.cardId.Some?))))
  }

  lemma AbsorbsIffDominates(y: Row, s: Row)
    requires ChecksPass(y) && ChecksPass(s)
    ensures Absorbs(y, s) <==> Dominates(y, s)
  {
  }

  lemma MergeIsJoin(y: Row, s: Row, upper: Row)
    requires ChecksPass(y) && ChecksPass(s)
    ensures Dominates(Merge(y, s), y) && Dominates(Merge(y, s), s)
    ensures Dominates(upper, y) && Dominates(upper, s) ==> Dominates(upper, Merge(y, s))
  {
  }

  lemma DominatesTransitive(a: Row, b: Row, c: Row)
    requires Dominates(a, b) && Dominates(b, c)
    ensures Dominates(a, c)
  {
  }

  /** An activity only moves up, although it may reset the current streak. */
  lemma ApplyInflates(row: Row, day: int)
    requires RowOk(row)
    ensures Dominates(ApplyDay(row, day), row)
  {
  }

  // ----- runs -----

  datatype Op =
    | UpsertOp(dto: SnapshotDto, today: string)
    | RecordOp(event: EventId, date: string, dto: SnapshotDto, today: string)

  predicate OpOk(op: Op) {
    IsValidDate(op.today)
  }

  function Perform(st: Store, op: Op): (r: Store)
    requires StoreOk(st) && OpOk(op)
    ensures StoreOk(r)
  {
    match op
    case UpsertOp(dto, today) =>
      UpsertKeepsOk(st, dto, today);
      UpsertSpec(st, dto, today)
    case RecordOp(event, date, dto, today) =>
      RecordKeepsOk(st, event, date, dto, today);
      RecordSpec(st, event, date, dto, today).0
  }

  ghost predicate OpsOk(ops: seq<Op>) {
    forall op <- ops :: OpOk(op)
  }

  function Run(st: Store, ops: seq<Op>): (r: Store)
    requires StoreOk(st) && OpsOk(ops)
    ensures StoreOk(r)
    decreases |ops|
  {
    if ops == [] then st
    else
      Run(Perform(st, ops[0]), ops[1..])
  }

  /** From the empty tables no write ever violates a CHECK constraint, not even between the
      upsert and the update of one transaction. */
  lemma NoCheckFires(ops: seq<Op>, dto: SnapshotDto, today: string)
    requires OpsOk(ops) && IsValidDate(today)
    ensures var st := Run(Store(None, map[]), ops);
      (st.row.Some? ==> ChecksPass(st.row.value)) && ChecksPass(UpsertSpec(st, dto, today).row.value)
  {
    UpsertKeepsOk(Run(Store(None, map[]), ops), dto, today);
  }

  /** The row and the event table of `later` contain those of `st`. */
  ghost predicate Grows(st: Store, later: Store) {
    && (st.row.Some? ==> later.row.Some? && Dominates(later.row.value, st.row.value))
    && (forall e <- st.events :: e in later.events && later.events[e] == st.events[e])
  }

  lemma PerformGrows(st: Store, op: Op)
    requires StoreOk(st) && OpOk(op)
    ensures Grows(st, Perform(st, op)) && Perform(st, op).row.Some? == (st.row.Some? || Accepted(op))
  {
    NormalizeOk(op.dto, op.today);
    var s := ToRow(Normalize(op.dto, op.today));
    var merged := UpsertSpec(st, op.dto, op.today).row.value;
    UpsertKeepsOk(st, op.dto, op.today);
    if st.row.Some? { MergeIsJoin(st.row.value, s, st.row.value); }
    if op.RecordOp? && Accepted(op) && op.event !in st.events {
      ApplyAgrees(merged, op.date);
      ApplyInflates(merged, DayNumber(op.date));
      if st.row.Some? { DominatesTransitive(Perform(st, op).row.value, merged, st.row.value); }
    }
  }

  predicate Accepted(op: Op)
    requires OpOk(op)
  {
    op.UpsertOp? || IsPlausible(op.date, op.today)
  }

  lemma {:induction false} RunGrows(st: Store, ops: seq<Op>)
    requires StoreOk(st) && OpsOk(ops)
    ensures Grows(st, Run(st, ops))
    decreases |ops|
  {
    if ops != [] {
      var next := Perform(st, ops[0]);
      PerformGrows(st, ops[0]);
      RunGrows(next, ops[1..]);
      if st.row.Some? { DominatesTransitive(Run(next, ops[1..]).row.value, next.row.value, st.row.value); }
    }
  }

  // ----- exactly once -----

  /** After an accepted request the row contains its snapshot and the event is recorded. */
  lemma CommittedContains(st: Store, op: Op)
    requires StoreOk(st) && OpOk(op) && Accepted(op)
    ensures var t := Perform(st, op);
      && ValidDates(Normalize(op.dto, op.today))
      && t.row.Some? && Dominates(t.row.value, ToRow(Normalize(op.dto, op.today)))
      && (op.RecordOp? ==> op.event in t.events)
  {
    NormalizeOk(op.dto, op.today);
    var s := ToRow(Normalize(op.dto, op.today));
    UpsertKeepsOk(st, op.dto, op.today);
    var merged := UpsertSpec(st, op.dto, op.today).row.value;
    if st.row.Some? { MergeIsJoin(st.row.value, s, s); }
    if op.RecordOp? && op.event !in st.events {
      ApplyAgrees(merged, op.date);
      ApplyInflates(merged, DayNumber(op.date));
      DominatesTransitive(Perform(st, op).row.value, merged, s);
    }
  }

  /** A snapshot the row contains changes nothing, and a recorded event is a duplicate. */
  lemma ContainedIsNoop(st: Store, op: Op)
    requires StoreOk(st) && OpOk(op) && st.row.Some?
    requires ValidDates(Normalize(op.dto, op.today))
    requires Dominates(st.row.value, ToRow(Normalize(op.dto, op.today)))
    requires op.RecordOp? ==> op.event in st.events
    ensures Perform(st, op) == st
    ensures op.RecordOp? ==>
      RecordSpec(st, op.event, op.date, op.dto, op.today).1 ==
        if IsPlausible(op.date, op.today) then Ok(Reply(MapRow(st.row.value), true)) else Err(InvalidActivityDate)
  {
    NormalizeOk(op.dto, op.today);
    AbsorbsIffDominates(st.row.value, ToRow(Normalize(op.dto, op.today)));
  }

  /** Exactly-once effect: after a committed request and any later writes, replaying it with the
      same normalised snapshot changes nothing and reports a duplicate. */
  lemma ReplayChangesNothing(st: Store, op: Op, between: seq<Op>, replay: Op)
    requires StoreOk(st) && op.RecordOp? && OpOk(op) && Accepted(op) && OpsOk(between)
    requires replay.RecordOp? && OpOk(replay) && replay.event == op.event
    requires Normalize(replay.dto, replay.today) == Normalize(op.dto, op.today)
    ensures var later := Run(Perform(st, op), between);
      && Perform(later, replay) == later
      && later.row.Some?
      && RecordSpec(later, replay.event, replay.date, replay.dto, replay.today).1 ==
           (if IsPlausible(replay.date, replay.today) then Ok(Reply(MapRow(later.row.value), true))
            else Err(InvalidActivityDate))
  {
    CommittedContains(st, op);
    var first := Perform(st, op);
    RunGrows(first, between);
    var later := Run(first, between);
    DominatesTransitive(later.row.value, first.row.value, ToRow(Normalize(op.dto, op.today)));
    ContainedIsNoop(later, replay);
  }

  // ----- replaying the request body itself -----

  /** The snapshot date cannot come into force later: it is no date, it was not ahead of the
      first request, or the activity date is refused before the snapshot date is reached. */
  predicate CannotMature(date: Option<string>, op: Op)
    requires op.RecordOp? && OpOk(op) && IsValidDate(op.date)
  {
    date.Some? && IsValidDate(date.value) ==>
      DaysBetween(op.today, date.value) <= 1 || DaysBetween(op.date, date.value) > 3651
  }

  /** Sending the same request body again on any later day, after any other writes, changes
      nothing. */
  ghost predicate ReplaySafe(op: Op)
    requires op.RecordOp? && OpOk(op)
  {
    forall st, between, day |
      StoreOk(st) && OpsOk(between) && IsValidDate(day) && DaysBetween(op.today, day) >= 0 ::
      Resend(st, op, between, day)
  }

  ghost predicate Resend(st: Store, op: Op, between: seq<Op>, day: string)
    requires op.RecordOp? && OpOk(op) && StoreOk(st) && OpsOk(between) && IsValidDate(day)
  {
    var later := Run(Perform(st, op), between);
    Perform(later, op.(today := day)) == later
  }

  lemma PlausibleDays(date: string, today: string)
    requires IsValidDate(date) && IsValidDate(today)
    ensures IsPlausible(date, today) <==> -3650 <= DayNumber(date) - DayNumber(today) <= 1
  {
    OrderAgrees(today, date);
  }

  /** A later day keeps or drops each date of the snapshot, never adds to it. */
  lemma LaterSnapshotIsWeaker(op: Op, day: string)
    requires op.RecordOp? && OpOk(op) && Accepted(op) && IsValidDate(day) && DaysBetween(op.today, day) >= 0
    requires CannotMature(op.dto.lastActive, op) && CannotMature(op.dto.cardDate, op)
    requires IsPlausible(op.date, day)
    ensures ValidDates(Normalize(op.dto, op.today)) && ValidDates(Normalize(op.dto, day))
    ensures Dominates(ToRow(Normalize(op.dto, op.today)), ToRow(Normalize(op.dto, day)))
  {
    NormalizeOk(op.dto, op.today);
    NormalizeOk(op.dto, day);
    KeptOrDropped(op.dto.lastActive, op, day);
    KeptOrDropped(op.dto.cardDate, op, day);
    hide IsPlausible, IsValidDate, DaysBetween, DayNumber, IsDay;
  }

  lemma KeptOrDropped(date: Option<string>, op: Op, day: string)
    requires op.RecordOp? && OpOk(op) && Accepted(op) && IsValidDate(day) && DaysBetween(op.today, day) >= 0
    requires CannotMature(date, op) && IsPlausible(op.date, day)
    ensures PlausibleOrNull(date, day) == PlausibleOrNull(date, op.today) || PlausibleOrNull(date, day) == None
  {
    hide IsValidDate, DayNumber;
    if date.Some? && IsValidDate(date.value) {
      OrderAgrees(op.today, day);
      OrderAgrees(op.today, date.value);
      OrderAgrees(op.date, date.value);
      OrderAgrees(day, date.value);
      OrderAgrees(day, op.date);
    }
  }

  /** Exactly when a request body may be sent again: `CannotMature` for both snapshot dates. */
  lemma ReplaySafeExactly(op: Op)
    requires op.RecordOp? && OpOk(op) && Accepted(op)
    ensures ReplaySafe(op) <==> CannotMature(op.dto.lastActive, op) && CannotMature(op.dto.cardDate, op)
  {
    if CannotMature(op.dto.lastActive, op) && CannotMature(op.dto.cardDate, op) {
      forall st, between, day | StoreOk(st) && OpsOk(between) && IsValidDate(day) && DaysBetween(op.today, day) >= 0
        ensures Resend(st, op, between, day)
      {
        ResendChangesNothing(st, op, between, day);
      }
    } else {
      MaturingDateShows(op);
    }
  }

  lemma ResendChangesNothing(st: Store, op: Op, between: seq<Op>, day: string)
    requires op.RecordOp? && OpOk(op) && Accepted(op) && StoreOk(st) && OpsOk(between)
    requires IsValidDate(day) && DaysBetween(op.today, day) >= 0
    requires CannotMature(op.dto.lastActive, op) && CannotMature(op.dto.cardDate, op)
    ensures Resend(st, op, between, day)
  {
    var first := Perform(st, op);
    var later := Run(first, between);
    if IsPlausible(op.date, day) {
      CommittedContains(st, op);
      RunGrows(first, between);
      LaterSnapshotIsWeaker(op, day);
      var s := ToRow(Normalize(op.dto, op.today));
      DominatesTransitive(later.row.value, first.row.value, s);
      DominatesTransitive(later.row.value, s, ToRow(Normalize(op.dto, day)));
      ContainedIsNoop(later, op.(today := day));
    }
  }

  /** The day on which a maturing snapshot date comes into force. */
  lemma MaturityDay(date: Option<string>, op: Op) returns (day: string)
    requires op.RecordOp? && OpOk(op) && Accepted(op) && !CannotMature(date, op)
    ensures IsValidDate(day) && DaysBetween(op.today, day) >= 0
    ensures IsPlausible(op.date, day)
    ensures date.Some? && PlausibleOrNull(date, op.today) == None && PlausibleOrNull(date, day) == date
    ensures IsValidDate(date.value) && DayNumber(op.date) < DayNumber(date.value)
  {
    var target := DayNumber(date.value);
    TextRoundTrip(date.value);
    TextRoundTrip(op.today);
    OrderAgrees(op.today, date.value);
    OrderAgrees(op.date, date.value);
    day := DateText(target - 1);
    DayRoundTrip(target - 1);
    OrderAgrees(op.today, day);
    PlausibleDays(op.date, day);
    PlausibleDays(op.date, op.today);
    PlausibleDays(date.value, day);
    PlausibleDays(date.value, op.today);
  }

  /** A snapshot date that matures is missing from the first row and present after the replay. */
  lemma MaturingDateShows(op: Op)
    requires op.RecordOp? && OpOk(op) && Accepted(op)
    requires !CannotMature(op.dto.lastActive, op) || !CannotMature(op.dto.cardDate, op)
    ensures !ReplaySafe(op)
  {
    hide ReadsBack, DaysBetween, DayNumber, IsDay, DateText;
    var streakDate := !CannotMature(op.dto.lastActive, op);
    var day := MaturityDay(if streakDate then op.dto.lastActive else op.dto.cardDate, op);
    NormalizeOk(op.dto, op.today);
    NormalizeOk(op.dto, day);
    var empty := Store(None, map[]);
    var s := ToRow(Normalize(op.dto, op.today));
    ApplyAgrees(s, op.date);
    var first := Perform(empty, op);
    assert first.row == Some(ApplyDay(s, DayNumber(op.date)));
    var again := ToRow(Normalize(op.dto, day));
    assert Perform(first, op.(today := day)).row == Some(Merge(first.row.value, again));
    assert Merge(first.row.value, again) != first.row.value;
    assert !Resend(empty, op, [], day);
  }

  /** A body sent on New Year's Day whose snapshot was last active five days later. */
  const AHEAD := RecordOp(0, "2024-01-01",
    SnapshotDto(NotFinite, NotFinite, NotFinite, Some("2024-01-06"), false, None, DtoOther), "2024-01-01")

  /** It is accepted, but sending it again later changes the row. */
  lemma AheadIsUnsafe()
    ensures OpOk(AHEAD) && Accepted(AHEAD) && !ReplaySafe(AHEAD)
  {
    NewYear();
    hide IsValidDate, DaysBetween, DayNumber, ReplaySafe;
    PlausibleDays("2024-01-01", "2024-01-01");
    ReplaySafeExactly(AHEAD);
  }

  lemma NewYearFields()
    ensures var (a, b) := ("2024-01-01", "2024-01-06");
      && DateShaped(a) && Year(a) == 2024 && Month(a) == 1 && Day(a) == 1
      && DateShaped(b) && Year(b) == 2024 && Month(b) == 1 && Day(b) == 6
  {
  }

  lemma NewYear()
    ensures IsValidDate("2024-01-01") && IsValidDate("2024-01-06")
    ensures DaysBetween("2024-01-01", "2024-01-06") == 5
  {
    hide DateShaped, Year, Month, Day, IsValidDate, DaysBetween, DateUtc, DayFromYear;
    NewYearFields();
    ValidDateExactly("2024-01-01");
    ValidDateExactly("2024-01-06");
    DifferenceOfDays("2024-01-01", "2024-01-06");
  }
}
