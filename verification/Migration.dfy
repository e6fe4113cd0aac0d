/** The re-encryption migration of the readings table: what happens to one row, and the paged
    pass over all rows in the order of their ids. */
module Migration {
  import opened Wrappers
  import opened Text
  import opened Envelope

  // ----- historical client ciphertext -----

  const LEGACY_PREFIX := "enc_v1::"

  function LegacyClientValue(text: Envelope.Text, user: string): Result<Value, CryptoError> {
    if |text| < 8 || text[..8] != Chars(LEGACY_PREFIX) then Ok(Str(text))
    else if user == "" then Err(MissingId)
    else
      var parts := Split(text[8..]);
      if |parts| == 2 && |parts[1]| == 1 && parts[1][0].Legacy? && parts[0] == [Iv(parts[1][0].of.iv)]
         && parts[1][0].of.key == ClientKey(user) && parts[1][0].of.aad == ""
      then Ok(parts[1][0].of.plain)
      else Err(InvalidLegacy)
  }

  /** Every string of a JSON value, at any depth. */
  function LegacyClientTree(value: Value, user: string): Result<Value, CryptoError> {
    match value
    case Str(text) => LegacyClientValue(text, user)
    case Arr(items) =>
      if forall i :: 0 <= i < |items| ==> LegacyClientTree(items[i], user).Ok?
      then Ok(Arr(seq(|items|, i requires 0 <= i < |items| => LegacyClientTree(items[i], user).value)))
      else Err(InvalidLegacy)
    case Obj(fields) =>
      if forall k <- fields :: LegacyClientTree(fields[k], user).Ok?
      then Ok(Obj(map k <- fields :: LegacyClientTree(fields[k], user).value))
      else Err(InvalidLegacy)
    case _ => Ok(value)
  }

  /** `toLegacyText`: a text, or null where the value has none. */
  function LegacyText(value: Value): Value {
    match value
    case Str(_) => value
    case Number(printed) => Str(Chars(printed))
    case Bool(flag) => Str(Chars(if flag then "true" else "false"))
    case _ => Null
  }

  // ----- rows -----

  datatype Reading = Reading(id: string, user: string, app: string, kind: string, question: Value, title: Value, data: Value)

  datatype Options = Options(apply: bool, reencrypt: bool, rollback: bool, idsFile: bool, expected: set<string>, batchSize: nat)

  datatype MigrationError =
    | UnsupportedRecord
    | UnreadableLegacy
    | CryptoFailure(reason: CryptoError)
    | UnexpectedIds

  /** What a pass does with one row. */
  datatype Outcome =
    | Rewritten(row: Reading)
    | AlreadyCurrent
    | LegacyFailed(expected: bool)
    | LegacyKept
    | Fatal(error: MigrationError)

  predicate HasEnvelope(data: Value) {
    data.Obj? && "_enc" in data.fields
  }

  function LegacyPayload(row: Reading): Result<Value, CryptoError> {
    var question := LegacyClientTree(row.question, row.user);
    var title := LegacyClientTree(row.title, row.user);
    var data := LegacyClientTree(row.data, row.user);
    if question.Err? || title.Err? || data.Err? then Err(InvalidLegacy)
    else if LegacyText(title.value).Null? || !data.value.Obj? then Err(InvalidLegacy)
    else Ok(Obj(map["question" := LegacyText(question.value), "title" := LegacyText(title.value), "data" := data.value]))
  }

  function SafeChar(c: char): char {
    if IsKeyIdChar(c) then c else '_'
  }

  function Slice(s: string, n: nat): string {
    if |s| <= n then s else s[..n]
  }

  function Safe(s: string, n: nat, fallback: string): string {
    var safe := Slice(seq(|s|, i requires 0 <= i < |s| => SafeChar(s[i])), n);
    if safe == "" then fallback else safe
  }

  function StorageTitle(app: string, kind: string): string {
    Safe(app, 20, "app") + ":" + Safe(kind, 50, "reading")
  }

  function Rewrite(ring: KeyRing, row: Reading, payload: Value, iv: nat): Outcome {
    match EncryptPayload(ring, payload, row.user, row.id, iv)
    case Err(e) => Fatal(CryptoFailure(e))
    case Ok(data) => Rewritten(row.(question := Null, title := Str(Chars(StorageTitle(row.app, row.kind))), data := data))
  }

  function RowOutcome(options: Options, ring: KeyRing, row: Reading, iv: nat): Outcome {
    var version := EnvelopeVersion(row.data);
    if HasEnvelope(row.data) && version.None? then Fatal(UnsupportedRecord)
    else if options.rollback then RollbackOutcome(ring, row, iv)
    else if version.Some? then
      match DecryptEnvelope(ring, row.data, row.user, row.id)
      case Err(e) => Fatal(CryptoFailure(e))
      case Ok(payload) => if version == Some(V3) && !options.reencrypt then AlreadyCurrent else Rewrite(ring, row, payload, iv)
    else
      match LegacyPayload(row)
      case Ok(payload) => Rewrite(ring, row, payload, iv)
      case Err(_) =>
        if row.id in options.expected then LegacyFailed(true)
        else if options.apply then Fatal(UnreadableLegacy)
        else LegacyFailed(false)
  }

  function RollbackOutcome(ring: KeyRing, row: Reading, iv: nat): Outcome {
    if EnvelopeVersion(row.data).None? then LegacyKept
    else
      match DecryptEnvelope(ring, row.data, row.user, row.id)
      case Err(e) => Fatal(CryptoFailure(e))
      case Ok(payload) =>
        if EnvelopeVersion(row.data) == Some(V2) then AlreadyCurrent
        else
          match EncryptForRollback(ring, payload, row.user, iv)
          case Err(e) => Fatal(CryptoFailure(e))
          case Ok(data) => Rewritten(row.(data := data))
  }

  // ----- counting -----

  datatype Tally = Tally(eligible: nat, alreadyCurrent: nat, legacyFailed: nat, legacyPreserved: nat, failedIds: set<string>)

  const ZERO := Tally(0, 0, 0, 0, {})

  function Plus(a: Tally, b: Tally): Tally {
    Tally(a.eligible + b.eligible, a.alreadyCurrent + b.alreadyCurrent, a.legacyFailed + b.legacyFailed,
          a.legacyPreserved + b.legacyPreserved, a.failedIds + b.failedIds)
  }

  function TallyOf(id: string, outcome: Outcome): Tally {
    match outcome
    case Rewritten(_) => ZERO.(eligible := 1)
    case AlreadyCurrent => ZERO.(alreadyCurrent := 1)
    case LegacyFailed(expected) => Tally(0, 0, 1, if expected then 1 else 0, {id})
    case LegacyKept => ZERO.(legacyPreserved := 1)
    case Fatal(_) => ZERO
  }

  /** The pass settings and the random values it draws, one per row. */
  datatype Pass = Pass(options: Options, ring: KeyRing, draws: string -> nat) {
    function Of(row: Reading): Outcome {
      RowOutcome(options, ring, row, draws(row.id))
    }

    function After(row: Reading): Reading {
      var outcome := Of(row);
      if options.apply && outcome.Rewritten? then outcome.row else row
    }
  }

  function TallyAll(p: Pass, rows: seq<Reading>): Tally {
    if rows == [] then ZERO
    else Plus(TallyAll(p, rows[..|rows| - 1]), TallyOf(rows[|rows| - 1].id, p.Of(rows[|rows| - 1])))
  }

  function AfterAll(p: Pass, rows: seq<Reading>): seq<Reading> {
    seq(|rows|, i requires 0 <= i < |rows| => p.After(rows[i]))
  }

  ghost predicate NoFatal(p: Pass, rows: seq<Reading>) {
    forall row <- rows :: !p.Of(row).Fatal?
  }

  function Pending(p: Pass, rows: seq<Reading>): seq<Reading> {
    if rows == [] then []
    else
      var earlier := Pending(p, rows[..|rows| - 1]);
      var outcome := p.Of(rows[|rows| - 1]);
      if outcome.Rewritten? then earlier + [outcome.row] else earlier
  }

  // ----- the table -----

  /** Distinct, non-empty ids in ascending order, as the primary key index delivers them. */
  ghost predicate TableOk(rows: seq<Reading>) {
    && (forall i :: 0 <= i < |rows| ==> rows[i].id != "")
    && (forall i, j :: 0 <= i < j < |rows| ==> Less(rows[i].id, rows[j].id))
  }

  /** `WHERE id > cursor ORDER BY id LIMIT n` */
  function RowsAfter(rows: seq<Reading>, cursor: string): seq<Reading> {
    if rows == [] then []
    else if Less(cursor, rows[0].id) then [rows[0]] + RowsAfter(rows[1..], cursor)
    else RowsAfter(rows[1..], cursor)
  }

  function LoadBatch(rows: seq<Reading>, cursor: Option<string>, n: nat): seq<Reading> {
    var later := if cursor.Some? && cursor.value != "" then RowsAfter(rows, cursor.value) else rows;
    if |later| <= n then later else later[..n]
  }

  /** The saved version of a row, if any. */
  function Saved(pending: seq<Reading>, row: Reading): Reading {
    if pending == [] then row
    else if pending[|pending| - 1].id == row.id then pending[|pending| - 1]
    else Saved(pending[..|pending| - 1], row)
  }

  function SaveAll(rows: seq<Reading>, pending: seq<Reading>): seq<Reading> {
    seq(|rows|, i requires 0 <= i < |rows| => Saved(pending, rows[i]))
  }

  lemma {:induction false} AfterAllGreater(rows: seq<Reading>, cursor: string)
    requires forall i :: 0 <= i < |rows| ==> Less(cursor, rows[i].id)
    ensures RowsAfter(rows, cursor) == rows
  {
    if rows != [] { AfterAllGreater(rows[1..], cursor); }
  }

  /** The cursor of row `k - 1` selects exactly the rows from `k` on. */
  lemma {:induction false} AfterSkips(rows: seq<Reading>, k: nat)
    requires TableOk(rows) && 0 < k <= |rows|
    ensures RowsAfter(rows, rows[k - 1].id) == rows[k..]
  {
    var cursor := rows[k - 1].id;
    if k == 1 {
      LessIrreflexive(cursor);
      AfterAllGreater(rows[1..], cursor);
    } else {
      if Less(cursor, rows[0].id) {
        LessTransitive(cursor, rows[0].id, cursor);
        LessIrreflexive(cursor);
      }
      AfterSkips(rows[1..], k - 1);
      assert rows[1..][k - 1..] == rows[k..];
    }
  }

  lemma IdsDistinct(rows: seq<Reading>, i: nat, j: nat)
    requires TableOk(rows) && i < |rows| && j < |rows| && rows[i].id == rows[j].id
    ensures i == j
  {
    LessIrreflexive(rows[i].id);
  }

  // ----- batches and passes -----

  lemma PendingRow(p: Pass, row: Reading)
    ensures p.Of(row).Rewritten? ==> p.Of(row).row.id == row.id && p.Of(row).row.user == row.user
  {
  }

  /** What saving the pending rows of a batch does to a row: its own rewrite if it is in the
      batch, nothing otherwise. */
  lemma {:induction false} SavedOfPending(p: Pass, batch: seq<Reading>, row: Reading)
    requires forall i :: 0 <= i < |batch| && batch[i].id == row.id ==> batch[i] == row
    ensures Saved(Pending(p, batch), row) == if row in batch && p.Of(row).Rewritten? then p.Of(row).row else row
  {
    if batch != [] {
      var (init, last) := (batch[..|batch| - 1], batch[|batch| - 1]);
      assert batch == init + [last];
      SavedOfPending(p, init, row);
      PendingRow(p, last);
      var pending := Pending(p, batch);
      if p.Of(last).Rewritten? { assert pending[..|pending| - 1] == Pending(p, init); }
    }
  }
}
