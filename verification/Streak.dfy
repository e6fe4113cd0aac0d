/** The streak service for one user and application: the merge of `UPSERT_SNAPSHOT_SQL`,
    the activity automaton and the two write operations.

    `D` is text in the service's snapshots and a day number in the table, whose `date`
    columns the database compares as days. */
module Streak {
  import opened Numbers
  import opened Wrappers
  import opened Text
  import opened Calendar

  const STREAK_CAP := 1_000_000
  const READINGS_CAP := 2_000_000_000

  datatype CardId = TextId(text: string) | NumberId(value: real)

  datatype Snapshot<D> = Snapshot(
    current: int,
    longest: int,
    total: int,
    lastActive: Option<D>,
    freezeUsed: bool,
    cardDate: Option<D>,
    cardId: Option<CardId>
  )

  type Row = Snapshot<int>

  /** A JavaScript number, with NaN and the infinities as one case. */
  datatype JsNumber = Finite(value: real) | NotFinite

  datatype DtoCard = DtoText(text: string) | DtoNumber(number: JsNumber) | DtoOther

  datatype SnapshotDto = SnapshotDto(
    current: JsNumber,
    longest: JsNumber,
    total: JsNumber,
    lastActive: Option<string>,
    freezeUsed: bool,
    cardDate: Option<string>,
    cardId: DtoCard
  )

  function Counter(value: JsNumber, maximum: int): int {
    if value.Finite? then Min(maximum, Max(0, value.value.Floor)) else 0
  }

  function WholeCounter(value: int, maximum: int): int {
    Counter(Finite(value as real), maximum)
  }

  predicate IsPlausible(date: string, today: string)
    requires IsValidDate(today)
  {
    IsValidDate(date) && -3650 <= DaysBetween(today, date) <= 1
  }

  function PlausibleOrNull(date: Option<string>, today: string): Option<string>
    requires IsValidDate(today)
  {
    if date.Some? && IsPlausible(date.value, today) then date else None
  }

  function ValidCardId(id: DtoCard): Option<CardId> {
    match id
    case DtoText(text) => if |text| <= 128 then Some(TextId(text)) else None
    case DtoNumber(Finite(value)) => Some(NumberId(value))
    case _ => None
  }

  function Normalize(dto: SnapshotDto, today: string): Snapshot<string>
    requires IsValidDate(today)
  {
    var lastActive := PlausibleOrNull(dto.lastActive, today);
    var cardDate := PlausibleOrNull(dto.cardDate, today);
    var current := if lastActive.Some? then Counter(dto.current, STREAK_CAP) else 0;
    Snapshot(
      current,
      Max(current, Counter(dto.longest, STREAK_CAP)),
      Counter(dto.total, READINGS_CAP),
      lastActive,
      lastActive.Some? && dto.freezeUsed,
      cardDate,
      if cardDate.Some? then ValidCardId(dto.cardId) else None)
  }

  // ----- text and table form -----

  predicate ValidDates(s: Snapshot<string>) {
    && (s.lastActive.Some? ==> IsValidDate(s.lastActive.value))
    && (s.cardDate.Some? ==> IsValidDate(s.cardDate.value))
  }

  function SqlDate(date: Option<string>): Option<int>
    requires date.Some? ==> IsValidDate(date.value)
  {
    if date.Some? then Some(DayNumber(date.value)) else None
  }

  function ToRow(s: Snapshot<string>): Row
    requires ValidDates(s)
  {
    Snapshot(s.current, s.longest, s.total, SqlDate(s.lastActive), s.freezeUsed, SqlDate(s.cardDate), s.cardId)
  }

  function ColumnText(day: Option<int>): Option<string> {
    if day.Some? && IsValidDate(DateText(day.value)) then Some(DateText(day.value)) else None
  }

  function MapRow(row: Row): Snapshot<string> {
    Snapshot(row.current, row.longest, row.total, ColumnText(row.lastActive), row.freezeUsed, ColumnText(row.cardDate), row.cardId)
  }

  // ----- the merge: `Merge(stored, excluded)` -----

  function Later(a: Option<int>, b: Option<int>): Option<int> {
    if a.None? then b
    else if b.None? then a
    else Some(Max(a.value, b.value))
  }

  function Merge(stored: Row, excluded: Row): Row {
    Snapshot(
      if stored.lastActive.None? then excluded.current
      else if excluded.lastActive.None? then stored.current
      else if excluded.lastActive.value > stored.lastActive.value then excluded.current
      else if excluded.lastActive.value == stored.lastActive.value then Max(stored.current, excluded.current)
      else stored.current,
      Max(stored.longest, excluded.longest),
      Max(stored.total, excluded.total),
      Later(stored.lastActive, excluded.lastActive),
      if stored.lastActive.None? then excluded.freezeUsed
      else if excluded.lastActive.None? then stored.freezeUsed
      else if excluded.lastActive.value > stored.lastActive.value then excluded.freezeUsed
      else if excluded.lastActive.value == stored.lastActive.value then stored.freezeUsed || excluded.freezeUsed
      else stored.freezeUsed,
      Later(stored.cardDate, excluded.cardDate),
      if stored.cardDate.None? then excluded.cardId
      else if excluded.cardDate.Some? && excluded.cardDate.value > stored.cardDate.value then excluded.cardId
      else if excluded.cardDate == stored.cardDate then
        (if stored.cardId.Some? then stored.cardId else excluded.cardId)
      else stored.cardId)
  }

  // ----- the automaton -----

  function ApplyActivity(s: Snapshot<string>, activityDate: string): Snapshot<string>
    requires ValidDates(s) && IsValidDate(activityDate)
  {
    var counted := s.(total := WholeCounter(s.total + 1, READINGS_CAP));
    if s.lastActive == Some(activityDate) then counted
    else if s.lastActive.Some? && Less(activityDate, s.lastActive.value) then counted
    else
      var gap := if s.lastActive.Some? then DaysBetween(s.lastActive.value, activityDate) else -1;
      var streak :=
        if s.lastActive.None? then 1
        else if gap <= 0 then s.current
        else if gap == 1 then s.current + 1
        else if gap == 2 && s.current > 0 && !s.freezeUsed then s.current + 1
        else 1;
      var current := WholeCounter(streak, STREAK_CAP);
      counted.(
        current := current,
        longest := Max(s.longest, current),
        lastActive := Some(activityDate),
        freezeUsed := gap == 2 && s.current > 0 && !s.freezeUsed)
  }

  /** The same step on day numbers, without the branch the ordering of dates rules out. */
  function ApplyDay(row: Row, day: int): Row {
    var counted := row.(total := Min(READINGS_CAP, row.total + 1));
    if row.lastActive.Some? && day <= row.lastActive.value then counted
    else
      var bridged := row.lastActive.Some? && day - row.lastActive.value == 2 && row.current > 0 && !row.freezeUsed;
      var extended := bridged || (row.lastActive.Some? && day - row.lastActive.value == 1);
      var current := if extended then Min(STREAK_CAP, row.current + 1) else 1;
      counted.(current := current, longest := Max(row.longest, current), lastActive := Some(day), freezeUsed := bridged)
  }

  // ----- well-formed rows -----

  predicate DayOk(day: Option<int>) {
    day.Some? ==> IsDay(day.value)
  }

  /** The table's CHECK constraints. */
  predicate ChecksPass(row: Row) {
    && 0 <= row.current <= row.longest && 0 <= row.total
    && (row.lastActive.Some? || (row.current == 0 && !row.freezeUsed))
    && (row.cardDate.Some? || row.cardId.None?)
  }

  predicate RowOk(row: Row) {
    && ChecksPass(row)
    && row.longest <= STREAK_CAP && row.total <= READINGS_CAP
    && DayOk(row.lastActive) && DayOk(row.cardDate)
  }

  lemma CounterRange(value: JsNumber, maximum: int)
    requires 0 <= maximum
    ensures 0 <= Counter(value, maximum) <= maximum
  {
  }

  lemma NormalizeOk(dto: SnapshotDto, today: string)
    requires IsValidDate(today)
    ensures ValidDates(Normalize(dto, today)) && RowOk(ToRow(Normalize(dto, today)))
  {
    hide IsValidDate, DateText, DaysBetween, DayNumber, IsDay;
    var s := Normalize(dto, today);
    if s.lastActive.Some? { TextRoundTrip(s.lastActive.value); }
    if s.cardDate.Some? { TextRoundTrip(s.cardDate.value); }
  }

  /** A sent number becomes the nearest whole number below it within the range; nothing that is no
      number counts. */
  ghost predicate ClampedTo(value: JsNumber, maximum: int, n: int) {
    match value
    case NotFinite => n == 0
    case Finite(x) =>
      0 <= n <= maximum && (x < 0.0 ==> n == 0) && (x >= maximum as real ==> n == maximum)
      && (0.0 <= x < maximum as real ==> n as real <= x < n as real + 1.0)
  }

  lemma CounterClamps(value: JsNumber, maximum: int)
    requires 0 <= maximum
    ensures ClampedTo(value, maximum, Counter(value, maximum))
  {
    if value.Finite? && 0.0 <= value.value < maximum as real { FloorBelow(value.value, maximum); }
  }

  lemma FloorBelow(x: real, maximum: int)
    requires 0.0 <= x < maximum as real
    ensures 0 <= x.Floor < maximum
  {
  }

  /** The date is kept if it lies within ten years (of 365 days) before and one day after today. */
  ghost predicate KeptDate(sent: Option<string>, today: string, kept: Option<string>)
    requires IsValidDate(today)
  {
    if sent.Some? && IsValidDate(sent.value) && DayNumber(today) - 3650 <= DayNumber(sent.value) <= DayNumber(today) + 1
    then kept == sent
    else kept == None
  }

  lemma PlausibleKept(sent: Option<string>, today: string)
    requires IsValidDate(today)
    ensures KeptDate(sent, today, PlausibleOrNull(sent, today))
  {
    hide DayNumber, DaysBetween;
    if sent.Some? && IsValidDate(sent.value) { DifferenceOfDays(today, sent.value); }
  }

  /** What of a request body reaches the table, field by field. */
  lemma NormalizeKeeps(dto: SnapshotDto, today: string)
    requires IsValidDate(today)
    ensures var s := Normalize(dto, today);
      && KeptDate(dto.lastActive, today, s.lastActive) && KeptDate(dto.cardDate, today, s.cardDate)
      && (if s.lastActive.Some? then ClampedTo(dto.current, STREAK_CAP, s.current) && s.freezeUsed == dto.freezeUsed
          else s.current == 0 && !s.freezeUsed)
      && (ClampedTo(dto.longest, STREAK_CAP, s.longest) || s.longest == s.current) && s.longest >= s.current
      && (forall n :: ClampedTo(dto.longest, STREAK_CAP, n) ==> n <= s.longest)
      && ClampedTo(dto.total, READINGS_CAP, s.total)
      && s.cardId == (if s.cardDate.None? then None
                      else if dto.cardId.DtoText? && |dto.cardId.text| <= 128 then Some(TextId(dto.cardId.text))
                      else if dto.cardId.DtoNumber? && dto.cardId.number.Finite? then Some(NumberId(dto.cardId.number.value))
                      else None)
  {
    hide IsValidDate, DayNumber, DateText, Counter, ClampedTo, KeptDate, PlausibleOrNull;
    PlausibleKept(dto.lastActive, today);
    PlausibleKept(dto.cardDate, today);
    CounterClamps(dto.current, STREAK_CAP);
    CounterClamps(dto.longest, STREAK_CAP);
    CounterClamps(dto.total, READINGS_CAP);
    forall n | ClampedTo(dto.longest, STREAK_CAP, n)
      ensures n == Counter(dto.longest, STREAK_CAP)
    {
      ClampUnique(dto.longest, STREAK_CAP, n, Counter(dto.longest, STREAK_CAP));
    }
  }

  lemma ClampUnique(value: JsNumber, maximum: int, m: int, n: int)
    requires ClampedTo(value, maximum, m) && ClampedTo(value, maximum, n)
    ensures m == n
  {
  }

  /** A snapshot as a client sends it. */
  function ToDto(s: Snapshot<string>): SnapshotDto {
    SnapshotDto(Finite(s.current as real), Finite(s.longest as real), Finite(s.total as real), s.lastActive, s.freezeUsed,
                s.cardDate,
                match s.cardId
                case None => DtoOther
                case Some(TextId(text)) => DtoText(text)
                case Some(NumberId(value)) => DtoNumber(Finite(value)))
  }

  predicate ShortCard(id: Option<CardId>) {
    id.Some? && id.value.TextId? ==> |id.value.text| <= 128
  }

  /** What the service answered may be sent back as it is: a well-formed snapshot with plausible
      dates is normalised to itself. */
  lemma NormalizeKeepsOwn(s: Snapshot<string>, today: string)
    requires IsValidDate(today) && ValidDates(s) && ChecksPass(ToRow(s)) && ShortCard(s.cardId)
    requires s.longest <= STREAK_CAP && s.total <= READINGS_CAP
    requires PlausibleOrNull(s.lastActive, today) == s.lastActive && PlausibleOrNull(s.cardDate, today) == s.cardDate
    ensures Normalize(ToDto(s), today) == s
  {
    hide IsValidDate, DayNumber, DateText, IsPlausible;
  }

  lemma MergeOk(stored: Row, excluded: Row)
    requires RowOk(stored) && RowOk(excluded)
    ensures RowOk(Merge(stored, excluded))
  {
  }

  lemma MapRowOk(row: Row)
    requires RowOk(row)
    ensures ValidDates(MapRow(row)) && ToRow(MapRow(row)) == row
  {
    if row.lastActive.Some? { DayRoundTrip(row.lastActive.value); }
    if row.cardDate.Some? { DayRoundTrip(row.cardDate.value); }
  }

  /** Comparing a stored day, printed as text, with a date text. */
  lemma DayAgainstText(day: int, date: string)
    requires IsDay(day) && IsValidDate(date)
    ensures IsValidDate(DateText(day)) && DayNumber(DateText(day)) == day
    ensures DateText(day) == date <==> day == DayNumber(date)
    ensures Less(date, DateText(day)) <==> DayNumber(date) < day
    ensures DaysBetween(DateText(day), date) == DayNumber(date) - day
  {
    DayRoundTrip(day);
    OrderAgrees(DateText(day), date);
    OrderAgrees(date, DateText(day));
  }

  /** The service's text automaton is the day automaton: string order, string equality and
      `daysBetween` agree, so its `gap <= 0` branch is never taken. */
  lemma ApplyAgrees(row: Row, date: string)
    requires RowOk(row) && IsValidDate(date)
    ensures ValidDates(MapRow(row)) && ValidDates(ApplyActivity(MapRow(row), date))
    ensures ToRow(ApplyActivity(MapRow(row), date)) == ApplyDay(row, DayNumber(date))
    ensures var s := MapRow(row);
      s.lastActive.Some? && s.lastActive.value != date && !Less(date, s.lastActive.value) ==> DaysBetween(s.lastActive.value, date) > 0
  {
    hide IsValidDate, DateText, DaysBetween, DayNumber, IsDay, Less;
    MapRowOk(row);
    if row.lastActive.Some? { DayAgainstText(row.lastActive.value, date); }
  }

  lemma ApplyOk(row: Row, day: int)
    requires RowOk(row) && IsDay(day)
    ensures RowOk(ApplyDay(row, day))
  {
  }

  // ----- the write operations -----

  type EventId = nat

  /** The streak row and the recorded activity events of one user and application. */
  datatype Store = Store(row: Option<Row>, events: map<EventId, int>)

  datatype StreakError = InvalidActivityDate

  datatype Reply = Reply(streak: Snapshot<string>, duplicate: bool)

  function UpsertRow(stored: Option<Row>, s: Snapshot<string>): Row
    requires ValidDates(s)
  {
    if stored.Some? then Merge(stored.value, ToRow(s)) else ToRow(s)
  }

  ghost predicate StoreOk(st: Store) {
    (st.row.Some? ==> RowOk(st.row.value)) && forall e <- st.events :: IsDay(st.events[e])
  }

  function UpsertSpec(st: Store, dto: SnapshotDto, today: string): Store
    requires IsValidDate(today)
  {
    NormalizeOk(dto, today);
    st.(row := Some(UpsertRow(st.row, Normalize(dto, today))))
  }

  function RecordSpec(st: Store, event: EventId, date: string, dto: SnapshotDto, today: string)
    : (Store, Result<Reply, StreakError>)
    requires StoreOk(st) && IsValidDate(today)
  {
    if !IsPlausible(date, today) then (st, Err(InvalidActivityDate))
    else
      var merged := UpsertSpec(st, dto, today);
      if event in st.events then (merged, Ok(Reply(MapRow(merged.row.value), true)))
      else
        UpsertKeepsOk(st, dto, today);
        ApplyAgrees(merged.row.value, date);
        var applied := ToRow(ApplyActivity(MapRow(merged.row.value), date));
        (Store(Some(applied), st.events[event := DayNumber(date)]), Ok(Reply(MapRow(applied), false)))
  }

  lemma UpsertKeepsOk(st: Store, dto: SnapshotDto, today: string)
    requires StoreOk(st) && IsValidDate(today)
    ensures StoreOk(UpsertSpec(st, dto, today))
  {
    NormalizeOk(dto, today);
    if st.row.Some? { MergeOk(st.row.value, ToRow(Normalize(dto, today))); }
  }

  lemma PlausibleIsShaped(date: string, today: string)
    requires IsValidDate(today) && IsPlausible(date, today)
    ensures IsValidDate(date) && DateShaped(date)
  {
  }

  lemma RecordKeepsOk(st: Store, event: EventId, date: string, dto: SnapshotDto, today: string)
    requires StoreOk(st) && IsValidDate(today)
    ensures StoreOk(RecordSpec(st, event, date, dto, today).0)
  {
    hide IsValidDate, DaysBetween, DayNumber, DateText, IsDay, Normalize, Merge, ApplyActivity, MapRow, ToRow;
    UpsertKeepsOk(st, dto, today);
    if IsPlausible(date, today) && event !in st.events {
      PlausibleIsShaped(date, today);
      var merged := UpsertSpec(st, dto, today).row.value;
      ApplyAgrees(merged, date);
      TextRoundTrip(date);
      ApplyOk(merged, DayNumber(date));
    }
  }

  /** What an upsert leaves as the record: the larger of the stored and the sent one. */
  function KnownRecord(stored: Option<Row>, dto: SnapshotDto, today: string): int
    requires IsValidDate(today)
  {
    var sent := Normalize(dto, today).longest;
    if stored.Some? then Max(stored.value.longest, sent) else sent
  }

  /** A newly recorded activity raises the record only to the new current streak; a resent one
      leaves it as the snapshots give it. */
  lemma RecordedLongest(st: Store, event: EventId, date: string, dto: SnapshotDto, today: string)
    requires StoreOk(st) && IsValidDate(today) && RecordSpec(st, event, date, dto, today).1.Ok?
    ensures var (after, r) := RecordSpec(st, event, date, dto, today);
      && r.value.duplicate == (event in st.events) && after.row.Some? && r.value.streak == MapRow(after.row.value)
      && after.row.value.longest ==
           if event in st.events then KnownRecord(st.row, dto, today)
           else Max(KnownRecord(st.row, dto, today), after.row.value.current)
  {
    hide IsValidDate, DaysBetween, DayNumber, DateText, IsDay, IsPlausible, Normalize;
    UpsertKeepsOk(st, dto, today);
    RecordIsKnown(st, dto, today);
    if event !in st.events {
      PlausibleIsShaped(date, today);
      AppliedLongest(UpsertSpec(st, dto, today).row.value, date);
    }
  }

  lemma RecordIsKnown(st: Store, dto: SnapshotDto, today: string)
    requires IsValidDate(today)
    ensures UpsertSpec(st, dto, today).row.value.longest == KnownRecord(st.row, dto, today)
  {
    hide IsValidDate, Normalize;
    NormalizeOk(dto, today);
  }

  lemma AppliedLongest(row: Row, date: string)
    requires RowOk(row) && IsValidDate(date)
    ensures ValidDates(MapRow(row)) && ValidDates(ApplyActivity(MapRow(row), date))
    ensures var applied := ToRow(ApplyActivity(MapRow(row), date));
      applied.longest == Max(row.longest, applied.current)
  {
    hide IsValidDate, DaysBetween, DayNumber, DateText, IsDay;
    ApplyAgrees(row, date);
  }

  /** The service object; its fields are the two tables. */
  class StreakService {
    var row: Option<Row>
    var events: map<EventId, int>

    constructor ()
      ensures Contents() == Store(None, map[])
    {
      row, events := None, map[];
    }

    function Contents(): Store
      reads this
    {
      Store(row, events)
    }

    method Get() returns (streak: Option<Snapshot<string>>)
      ensures streak.Some? <==> row.Some?
      ensures row.Some? && RowOk(row.value) ==> ValidDates(streak.value) && ToRow(streak.value) == row.value
    {
      if row == None { return None; }
      if RowOk(row.value) { MapRowOk(row.value); }
      return Some(MapRow(row.value));
    }

    method Upsert(dto: SnapshotDto, today: string) returns (streak: Snapshot<string>)
      requires StoreOk(Contents()) && IsValidDate(today)
      modifies this`row
      ensures StoreOk(Contents()) && Contents() == UpsertSpec(old(Contents()), dto, today)
      ensures streak == MapRow(row.value)
    {
      NormalizeOk(dto, today);
      UpsertKeepsOk(Contents(), dto, today);
      var state := Normalize(dto, today);
      if row == None {
        row := Some(ToRow(state));
      } else {
        row := Some(Merge(row.value, ToRow(state)));
      }
      streak := MapRow(row.value);
    }

    method RecordActivity(event: EventId, date: string, dto: SnapshotDto, today: string)
      returns (r: Result<Reply, StreakError>)
      requires StoreOk(Contents()) && IsValidDate(today)
      modifies this
      ensures StoreOk(Contents()) && (Contents(), r) == RecordSpec(old(Contents()), event, date, dto, today)
      ensures r.Ok? ==>
        && r.value.duplicate == (event in old(events)) && row.Some? && r.value.streak == MapRow(row.value)
        && row.value.longest ==
             if event in old(events) then KnownRecord(old(row), dto, today)
             else Max(KnownRecord(old(row), dto, today), row.value.current)
    {
      hide IsValidDate, DaysBetween, DayNumber, DateText, Normalize, Merge, RowOk, IsDay;
      if !IsPlausible(date, today) {
        return Err(InvalidActivityDate);
      }
      PlausibleIsShaped(date, today);
      RecordKeepsOk(Contents(), event, date, dto, today);
      RecordedLongest(Contents(), event, date, dto, today);
      var current := Upsert(dto, today);
      var inserted := event !in events;
      if inserted {
        MapRowOk(row.value);
        ApplyAgrees(row.value, date);
        var state := ApplyActivity(current, date);
        events := events[event := DayNumber(date)];
        // the card columns are not part of this UPDATE
        row := Some(row.value.(
          current := state.current,
          longest := state.longest,
          total := state.total,
          lastActive := SqlDate(state.lastActive),
          freezeUsed := state.freezeUsed));
      }
      return Ok(Reply(MapRow(row.value), !inserted));
    }
  }
}
