/** What the migration guarantees: payloads survive every sequence of passes, the counts add up,
    and an accepted preflight means the apply run cannot stop half-way. */
module MigrationSafety {
  import opened Wrappers
  import opened Text
  import opened Envelope
  import opened Migration
  import opened MigrationPass

  // ----- payloads are preserved -----

  /** What a reader holding the keys of `ring` gets from a row. */
  function PayloadOf(ring: KeyRing, row: Reading): Result<Value, CryptoError> {
    if EnvelopeVersion(row.data).Some? then DecryptEnvelope(ring, row.data, row.user, row.id)
    else if HasEnvelope(row.data) then Err(UnsupportedEnvelope)
    else LegacyPayload(row)
  }

  predicate Contains(ring: KeyRing, part: KeyRing) {
    forall id <- part.keys :: id in ring.keys && ring.keys[id] == part.keys[id]
  }

  predicate SameRecord(a: Reading, b: Reading) {
    a.id == b.id && a.user == b.user && a.app == b.app && a.kind == b.kind
  }

  lemma LegacyPayloadIsReading(row: Reading)
    ensures LegacyPayload(row).Ok? ==> IsReadingPayload(LegacyPayload(row).value)
  {
    hide LegacyClientTree;
  }

  lemma DecryptedIsReading(ring: KeyRing, data: Value, user: string, id: string)
    ensures DecryptEnvelope(ring, data, user, id).Ok? ==> IsReadingPayload(DecryptEnvelope(ring, data, user, id).value)
  {
    hide Open, IsReadingPayload;
  }

  lemma OpenGrows(ring: KeyRing, part: KeyRing, data: Value, aadOf: Version -> Result<string, CryptoError>)
    requires Contains(ring, part) && Open(part, data, aadOf).Ok?
    ensures Open(ring, data, aadOf) == Open(part, data, aadOf)
  {
    hide Split, VersionOf, Plain, EnvelopeField;
  }

  /** More keys never change what a readable row says. */
  lemma PayloadGrows(ring: KeyRing, part: KeyRing, row: Reading)
    requires Contains(ring, part) && PayloadOf(part, row).Ok?
    ensures PayloadOf(ring, row) == PayloadOf(part, row)
  {
    hide Open, LegacyPayload, EnvelopeVersion;
    if EnvelopeVersion(row.data).Some? {
      OpenGrows(ring, part, row.data, (v: Version) => if v.V2? then Ok(RollbackAad(row.user)) else ReadingAad(row.user, row.id));
    }
  }

  lemma RewriteReadsBack(ring: KeyRing, row: Reading, payload: Value, iv: nat)
    requires RingOk(ring) && IsReadingPayload(payload) && Rewrite(ring, row, payload, iv).Rewritten?
    ensures var row' := Rewrite(ring, row, payload, iv).row;
      && SameRecord(row', row) && EnvelopeVersion(row'.data) == Some(V3) && PayloadOf(ring, row') == Ok(payload)
  {
    assert ring.active.Some? && row.user != "" && row.id != "";
    hide IsReadingPayload, EncryptPayload, DecryptEnvelope, EnvelopeVersion, Tuple4, Split, StorageTitle;
    RoundTrip(ring, payload, row.user, row.id, iv);
  }

  lemma RollbackReadsBack(ring: KeyRing, row: Reading, iv: nat)
    requires RingOk(ring) && RollbackOutcome(ring, row, iv).Rewritten?
    ensures var row' := RollbackOutcome(ring, row, iv).row;
      && SameRecord(row', row) && EnvelopeVersion(row'.data) == Some(V2)
      && PayloadOf(ring, row).Ok? && PayloadOf(ring, row') == PayloadOf(ring, row)
  {
    hide IsReadingPayload, DecryptEnvelope, EnvelopeVersion, Split, LegacyPayload;
    var payload := DecryptEnvelope(ring, row.data, row.user, row.id).value;
    DecryptedIsReading(ring, row.data, row.user, row.id);
    RollbackRoundTrip(ring, payload, row.user, row.id, iv);
  }

  /** A rewritten row was readable and says afterwards what it said before. */
  lemma RewrittenKeepsPayload(p: Pass, row: Reading)
    requires RingOk(p.ring) && p.Of(row).Rewritten?
    ensures var row' := p.Of(row).row;
      && SameRecord(row', row) && EnvelopeVersion(row'.data) == Some(if p.options.rollback then V2 else V3)
      && PayloadOf(p.ring, row).Ok? && PayloadOf(p.ring, row') == PayloadOf(p.ring, row)
  {
    hide DecryptEnvelope, EnvelopeVersion, Rewrite, RollbackOutcome, LegacyPayload, IsReadingPayload;
    var iv := p.draws(row.id);
    if p.options.rollback {
      RollbackReadsBack(p.ring, row, iv);
    } else {
      LegacyPayloadIsReading(row);
      DecryptedIsReading(p.ring, row.data, row.user, row.id);
      RewriteReadsBack(p.ring, row, PayloadOf(p.ring, row).value, iv);
    }
  }

  /** One pass over one row, seen by a reader who holds at least the keys of the pass. */
  lemma AfterKeepsPayload(p: Pass, ring: KeyRing, row: Reading)
    requires RingOk(p.ring) && Contains(ring, p.ring)
    ensures SameRecord(p.After(row), row) && PayloadOf(ring, p.After(row)) == PayloadOf(ring, row)
  {
    hide PayloadOf, RowOutcome, EnvelopeVersion;
    if p.Of(row).Rewritten? {
      RewrittenKeepsPayload(p, row);
      PayloadGrows(ring, p.ring, row);
      PayloadGrows(ring, p.ring, p.Of(row).row);
    }
  }

  /** The table when a pass returns or fails. */
  function TableAfter(p: Pass, rows: seq<Reading>): (table: seq<Reading>)
    requires p.options.batchSize > 0
    ensures |table| == |rows|
  {
    var f := FatalIndex(p, rows);
    if f == |rows| then AfterAll(p, rows) else Frontier(p, rows, BatchStart(f, p.options.batchSize))
  }

  function AfterPasses(passes: seq<Pass>, rows: seq<Reading>): seq<Reading>
    requires forall p <- passes :: p.options.batchSize > 0
  {
    if passes == [] then rows else AfterPasses(passes[1..], TableAfter(passes[0], rows))
  }

  lemma PassKeepsPayloads(p: Pass, rows: seq<Reading>, ring: KeyRing, i: nat)
    requires i < |rows| && p.options.batchSize > 0 && RingOk(p.ring) && Contains(ring, p.ring)
    ensures var row := TableAfter(p, rows)[i];
      SameRecord(row, rows[i]) && PayloadOf(ring, row) == PayloadOf(ring, rows[i])
  {
    hide PayloadOf, BatchStart, RowOutcome, RingOk, Contains;
    AfterKeepsPayload(p, ring, rows[i]);
  }

  /** Every run of passes, forward, re-encrypting or rolling back, complete or stopped by a fatal
      row, leaves in every row the payload it held before. */
  lemma {:induction false} PassesKeepPayloads(passes: seq<Pass>, rows: seq<Reading>, ring: KeyRing)
    requires forall p <- passes :: p.options.batchSize > 0 && RingOk(p.ring) && Contains(ring, p.ring)
    ensures var table := AfterPasses(passes, rows);
      && |table| == |rows|
      && forall i :: 0 <= i < |rows| ==>
           SameRecord(table[i], rows[i]) && PayloadOf(ring, table[i]) == PayloadOf(ring, rows[i])
  {
    hide PayloadOf, TableAfter, RingOk, Contains;
    if passes != [] {
      var next := TableAfter(passes[0], rows);
      forall i | 0 <= i < |rows|
        ensures SameRecord(next[i], rows[i]) && PayloadOf(ring, next[i]) == PayloadOf(ring, rows[i])
      {
        PassKeepsPayloads(passes[0], rows, ring, i);
      }
      PassesKeepPayloads(passes[1..], next, ring);
    }
  }

  lemma SealedUnderActive(ring: KeyRing, payload: Value, user: string, id: string, iv: nat)
    requires RingOk(ring) && EncryptPayload(ring, payload, user, id, iv).Ok? && IsReadingPayload(payload)
    ensures ring.active.Some? && ring.active.value in ring.keys
    ensures var active := ring.active.value;
      var only := KeyRing(map[active := ring.keys[active]], Some(active));
      DecryptEnvelope(only, EncryptPayload(ring, payload, user, id, iv).value, user, id) == Ok(payload)
  {
    var active := ring.active.value;
    var only := KeyRing(map[active := ring.keys[active]], Some(active));
    hide IsReadingPayload, DecryptEnvelope, EnvelopeOf, Tuple4;
    assert EncryptPayload(only, payload, user, id, iv) == EncryptPayload(ring, payload, user, id, iv);
    RoundTrip(only, payload, user, id, iv);
  }

  /** After a re-encrypting run the older keys can be retired: the active key alone opens every
      envelope, and the envelope says what the row said under the old ring. */
  lemma OldKeysRetire(p: Pass, row: Reading)
    requires RingOk(p.ring) && p.options.apply && p.options.reencrypt && !p.options.rollback
    requires !p.Of(row).Fatal? && EnvelopeVersion(p.After(row).data).Some?
    ensures p.ring.active.Some? && p.ring.active.value in p.ring.keys
    ensures var active := p.ring.active.value;
      PayloadOf(KeyRing(map[active := p.ring.keys[active]], Some(active)), p.After(row)) == PayloadOf(p.ring, row)
  {
    hide DecryptEnvelope, EnvelopeVersion, EncryptPayload, LegacyPayload, IsReadingPayload, StorageTitle;
    LegacyPayloadIsReading(row);
    DecryptedIsReading(p.ring, row.data, row.user, row.id);
    RewrittenKeepsPayload(p, row);
    SealedUnderActive(p.ring, PayloadOf(p.ring, row).value, row.user, row.id, p.draws(row.id));
  }

  // ----- counts -----

  /** Every scanned row is counted exactly once, and `eligible` counts the rows to write. */
  lemma {:induction false} CountsPartition(p: Pass, rows: seq<Reading>)
    requires NoFatal(p, rows)
    ensures var t := TallyAll(p, rows);
      && (!p.options.rollback ==> |rows| == t.eligible + t.alreadyCurrent + t.legacyFailed && t.legacyPreserved <= t.legacyFailed)
      && (p.options.rollback ==> |rows| == t.eligible + t.alreadyCurrent + t.legacyPreserved && t.legacyFailed == 0)
      && t.eligible == |Pending(p, rows)|
  {
    hide RowOutcome, TallyOf;
    if rows != [] {
      var last := rows[|rows| - 1];
      CountsPartition(p, rows[..|rows| - 1]);
      CountedOnce(p, last);
    }
  }

  function Positions(rows: seq<Reading>, counts: Reading -> bool): set<nat> {
    set i: nat | i < |rows| && counts(rows[i])
  }

  lemma PositionsSnoc(init: seq<Reading>, last: Reading, counts: Reading -> bool)
    ensures |Positions(init + [last], counts)| == |Positions(init, counts)| + if counts(last) then 1 else 0
  {
    var (before, after) := (Positions(init, counts), Positions(init + [last], counts));
    assert forall i :: i in after <==> i in before || (i == |init| && counts(last));
    assert |init| !in before;
    assert after == before + if counts(last) then {|init|} else {};
  }

  /** What each counter counts. */
  lemma {:induction false} CountersAre(p: Pass, rows: seq<Reading>)
    ensures var t := TallyAll(p, rows);
      && t.eligible == |Positions(rows, (row: Reading) => p.Of(row).Rewritten?)|
      && t.alreadyCurrent == |Positions(rows, (row: Reading) => p.Of(row).AlreadyCurrent?)|
      && t.legacyFailed == |Positions(rows, (row: Reading) => p.Of(row).LegacyFailed?)|
      && t.legacyPreserved == |Positions(rows, (row: Reading) => p.Of(row).LegacyKept? || p.Of(row) == LegacyFailed(true))|
  {
    hide RowOutcome, Positions;
    if rows == [] {
      NoPositions((row: Reading) => p.Of(row).Rewritten?);
      NoPositions((row: Reading) => p.Of(row).AlreadyCurrent?);
      NoPositions((row: Reading) => p.Of(row).LegacyFailed?);
      NoPositions((row: Reading) => p.Of(row).LegacyKept? || p.Of(row) == LegacyFailed(true));
    } else {
      var (init, last) := (rows[..|rows| - 1], rows[|rows| - 1]);
      assert rows == init + [last];
      CountersAre(p, init);
      PositionsSnoc(init, last, (row: Reading) => p.Of(row).Rewritten?);
      PositionsSnoc(init, last, (row: Reading) => p.Of(row).AlreadyCurrent?);
      PositionsSnoc(init, last, (row: Reading) => p.Of(row).LegacyFailed?);
      PositionsSnoc(init, last, (row: Reading) => p.Of(row).LegacyKept? || p.Of(row) == LegacyFailed(true));
    }
  }

  lemma NoPositions(counts: Reading -> bool)
    ensures Positions([], counts) == {}
  {
  }

  lemma CountedOnce(p: Pass, row: Reading)
    requires !p.Of(row).Fatal?
    ensures var t := TallyOf(row.id, p.Of(row));
      && (!p.options.rollback ==> t.eligible + t.alreadyCurrent + t.legacyFailed == 1 && t.legacyPreserved <= t.legacyFailed)
      && (p.options.rollback ==> t.eligible + t.alreadyCurrent + t.legacyPreserved == 1 && t.legacyFailed == 0)
      && t.eligible == (if p.Of(row).Rewritten? then 1 else 0)
  {
    hide EnvelopeVersion, DecryptEnvelope, LegacyPayload, EncryptPayload, EncryptForRollback;
  }

  /** The reported ids are exactly those of the unreadable legacy rows, */
  lemma {:induction false} FailedIdsAre(p: Pass, rows: seq<Reading>)
    ensures forall id :: id in TallyAll(p, rows).failedIds <==> exists row <- rows :: row.id == id && p.Of(row).LegacyFailed?
  {
    hide RowOutcome, Less;
    if rows != [] {
      var (init, last) := (rows[..|rows| - 1], rows[|rows| - 1]);
      assert rows == init + [last];
      FailedIdsAre(p, init);
    }
  }

  lemma LastIdIsNew(p: Pass, rows: seq<Reading>)
    requires TableOk(rows) && rows != []
    ensures TableOk(rows[..|rows| - 1]) && rows[|rows| - 1].id !in TallyAll(p, rows[..|rows| - 1]).failedIds
  {
    hide RowOutcome, Less, TallyAll;
    var (init, last) := (rows[..|rows| - 1], rows[|rows| - 1]);
    FailedIdsAre(p, init);
    if last.id in TallyAll(p, init).failedIds {
      var row :| row in init && row.id == last.id;
      var i :| 0 <= i < |init| && init[i] == row;
      IdsDistinct(rows, i, |rows| - 1);
    }
  }

  /** one per such row. */
  lemma {:induction false} FailedIdsCounted(p: Pass, rows: seq<Reading>)
    requires TableOk(rows)
    ensures |TallyAll(p, rows).failedIds| == TallyAll(p, rows).legacyFailed
  {
    hide RowOutcome, TableOk, Plus, TallyOf;
    if rows != [] {
      var (init, last) := (rows[..|rows| - 1], rows[|rows| - 1]);
      LastIdIsNew(p, rows);
      FailedIdsCounted(p, init);
      OneMoreId(TallyAll(p, init), last.id, p.Of(last));
    }
  }

  lemma OneMoreId(t: Tally, id: string, outcome: Outcome)
    requires |t.failedIds| == t.legacyFailed && id !in t.failedIds
    ensures var after := Plus(t, TallyOf(id, outcome));
      |after.failedIds| == after.legacyFailed
  {
    assert outcome.LegacyFailed? ==> t.failedIds + {id} - {id} == t.failedIds;
  }

  // ----- a second pass -----

  /** A row a forward apply pass accepted needs no more work in a later forward pass that does
      not re-encrypt, whatever keys were added since. */
  lemma SettledRow(p: Pass, q: Pass, row: Reading)
    requires RingOk(p.ring) && p.options.apply && !p.options.rollback && !p.Of(row).Fatal?
    requires Contains(q.ring, p.ring) && !q.options.rollback && !q.options.reencrypt && q.options.expected == p.options.expected
    ensures q.Of(p.After(row)) == if p.Of(row).LegacyFailed? then LegacyFailed(true) else AlreadyCurrent
    ensures q.After(p.After(row)) == p.After(row) && !p.Of(row).LegacyKept?
  {
    hide DecryptEnvelope, EnvelopeVersion, EncryptPayload, LegacyPayload, IsReadingPayload, StorageTitle;
    if p.Of(row).Rewritten? {
      RewrittenKeepsPayload(p, row);
      PayloadGrows(q.ring, p.ring, p.Of(row).row);
    } else if p.Of(row).AlreadyCurrent? {
      PayloadGrows(q.ring, p.ring, row);
    }
  }

  lemma {:induction false} SettledTally(p: Pass, q: Pass, rows: seq<Reading>)
    requires RingOk(p.ring) && p.options.apply && !p.options.rollback && NoFatal(p, rows)
    requires Contains(q.ring, p.ring) && !q.options.rollback && !q.options.reencrypt && q.options.expected == p.options.expected
    ensures var (before, again) := (TallyAll(p, rows), TallyAll(q, AfterAll(p, rows)));
      && again.eligible == 0 && again.alreadyCurrent == before.eligible + before.alreadyCurrent
      && again.legacyFailed == before.legacyFailed && again.failedIds == before.failedIds
  {
    hide RowOutcome, RingOk, Contains;
    if rows != [] {
      var (init, last) := (rows[..|rows| - 1], rows[|rows| - 1]);
      var table := AfterAll(p, rows);
      assert table[..|table| - 1] == AfterAll(p, init);
      assert table[|table| - 1] == p.After(last);
      SettledTally(p, q, init);
      SettledRow(p, q, last);
      AfterKeepsId(p, last);
    }
  }

  /** A forward pass after a completed forward apply finds nothing to do. */
  lemma SecondPassIdle(p: Pass, q: Pass, rows: seq<Reading>)
    requires RingOk(p.ring) && p.options.apply && !p.options.rollback && NoFatal(p, rows)
    requires Contains(q.ring, p.ring) && !q.options.rollback && !q.options.reencrypt && q.options.expected == p.options.expected
    ensures var table := AfterAll(p, rows);
      NoFatal(q, table) && AfterAll(q, table) == table && TallyAll(q, table).eligible == 0
  {
    hide RowOutcome, RingOk, Contains, TallyAll;
    SettledTally(p, q, rows);
    var table := AfterAll(p, rows);
    forall i | 0 <= i < |rows|
      ensures !q.Of(table[i]).Fatal? && q.After(table[i]) == table[i]
    {
      SettledRow(p, q, rows[i]);
    }
  }

  // ----- preflight and apply -----

  /** The same pass as a trial run, with its own random draws. */
  ghost predicate TrialOf(pre: Pass, p: Pass) {
    pre.options == p.options.(apply := false) && pre.ring == p.ring && p.options.apply
  }

  predicate SameKind(a: Outcome, b: Outcome) {
    a == b || (a.Rewritten? && b.Rewritten?)
  }

  lemma RewriteKind(ring: KeyRing, row: Reading, payload: Value, iv: nat, iv': nat)
    ensures SameKind(Rewrite(ring, row, payload, iv), Rewrite(ring, row, payload, iv'))
    ensures Rewrite(ring, row, payload, iv).Rewritten? || Rewrite(ring, row, payload, iv).Fatal?
  {
    hide Tuple4, EnvelopeOf, StorageTitle;
  }

  /** A trial run classifies a row as the apply run does, except that it only counts the
      unexpected unreadable rows the apply run stops at. */
  lemma TrialKind(pre: Pass, p: Pass, row: Reading)
    requires TrialOf(pre, p)
    ensures pre.Of(row) != LegacyFailed(false) ==> SameKind(pre.Of(row), p.Of(row))
    ensures pre.Of(row) == LegacyFailed(false) ==> p.Of(row) == Fatal(UnreadableLegacy)
    ensures pre.Of(row).LegacyFailed? ==> (pre.Of(row).expected <==> row.id in p.options.expected)
  {
    hide DecryptEnvelope, EnvelopeVersion, Rewrite, LegacyPayload, EnvelopeOf;
    var (a, b) := (pre.draws(row.id), p.draws(row.id));
    var payload := PayloadOf(p.ring, row);
    if payload.Ok? { RewriteKind(p.ring, row, payload.value, a, b); }
  }

  /** The apply pass completes exactly if the trial pass does and reports no unexpected row. */
  lemma TrialDecides(pre: Pass, p: Pass, rows: seq<Reading>)
    requires TrialOf(pre, p)
    ensures NoFatal(p, rows) <==> NoFatal(pre, rows) && TallyAll(pre, rows).failedIds <= p.options.expected
  {
    hide RowOutcome, TallyAll, Less;
    FailedIdsAre(pre, rows);
    forall row <- rows
      ensures !p.Of(row).Fatal? <==> !pre.Of(row).Fatal? && (pre.Of(row).LegacyFailed? ==> row.id in p.options.expected)
    {
      TrialKind(pre, p, row);
    }
  }

  lemma {:induction false} TrialTally(pre: Pass, p: Pass, rows: seq<Reading>)
    requires TrialOf(pre, p) && NoFatal(p, rows)
    ensures TallyAll(pre, rows) == TallyAll(p, rows)
  {
    hide RowOutcome;
    if rows != [] {
      TrialTally(pre, p, rows[..|rows| - 1]);
      TrialKind(pre, p, rows[|rows| - 1]);
    }
  }

  /** `assertExpectedUnreadableIdsMatch` */
  predicate IdsMatch(actual: set<string>, expected: set<string>) {
    |actual| == |expected| && forall id <- actual :: id in expected
  }

  lemma IdsMatchExactly(actual: set<string>, expected: set<string>)
    ensures IdsMatch(actual, expected) <==> actual == expected
  {
    if IdsMatch(actual, expected) && actual != expected {
      assert actual <= expected;
      var id :| id in expected && id !in actual;
      SubsetSize(actual, expected - {id});
    }
  }

  lemma {:induction false} SubsetSize(a: set<string>, b: set<string>)
    requires a <= b
    ensures |a| <= |b|
    decreases a
  {
    if a != {} {
      var id :| id in a;
      SubsetSize(a - {id}, b - {id});
    }
  }

  /** The condition under which a run goes ahead: every envelope opens and the unreadable legacy
      rows are exactly the expected ones. */
  ghost predicate Accepts(pre: Pass, rows: seq<Reading>) {
    NoFatal(pre, rows) && TallyAll(pre, rows).failedIds == pre.options.expected
  }

  /** An accepted preflight: the apply pass cannot stop half-way, counts the same, and what it
      leaves unconverted is exactly the expected set, untouched. */
  lemma AcceptedApply(pre: Pass, p: Pass, rows: seq<Reading>)
    requires TableOk(rows) && TrialOf(pre, p) && RingOk(p.ring) && Accepts(pre, rows)
    ensures NoFatal(p, rows) && TallyAll(p, rows) == TallyAll(pre, rows)
    ensures !p.options.rollback ==> forall row <- rows ::
              && (EnvelopeVersion(p.After(row).data) == Some(V3) <==> row.id !in p.options.expected)
              && (row.id in p.options.expected ==> p.After(row) == row)
    ensures p.options.rollback ==> forall row <- rows :: EnvelopeVersion(p.After(row).data) != Some(V3)
  {
    hide RowOutcome, TallyAll, TableOk, EnvelopeVersion;
    TrialDecides(pre, p, rows);
    TrialTally(pre, p, rows);
    FailedIdsAre(p, rows);
    forall row <- rows
      ensures !p.options.rollback ==>
                && (EnvelopeVersion(p.After(row).data) == Some(V3) <==> !p.Of(row).LegacyFailed?)
                && (p.Of(row).LegacyFailed? ==> p.After(row) == row)
      ensures p.options.rollback ==> EnvelopeVersion(p.After(row).data) != Some(V3)
      ensures row.id in p.options.expected <==> p.Of(row).LegacyFailed?
    {
      AppliedVersion(p, row);
      if row.id in p.options.expected {
        var other :| other in rows && other.id == row.id && p.Of(other).LegacyFailed?;
        SameRow(rows, row, other);
      }
    }
  }

  lemma SameRow(rows: seq<Reading>, a: Reading, b: Reading)
    requires TableOk(rows) && a in rows && b in rows && a.id == b.id
    ensures a == b
  {
    hide TableOk;
    var i :| 0 <= i < |rows| && rows[i] == a;
    var j :| 0 <= j < |rows| && rows[j] == b;
    IdsDistinct(rows, i, j);
  }

  lemma AppliedVersion(p: Pass, row: Reading)
    requires RingOk(p.ring) && p.options.apply && !p.Of(row).Fatal?
    ensures !p.options.rollback ==> (EnvelopeVersion(p.After(row).data) == Some(V3) <==> !p.Of(row).LegacyFailed?)
    ensures p.options.rollback ==> EnvelopeVersion(p.After(row).data) != Some(V3)
  {
    hide DecryptEnvelope, EnvelopeVersion, EncryptPayload, EncryptForRollback, LegacyPayload, IsReadingPayload, StorageTitle;
    if p.Of(row).Rewritten? { RewrittenKeepsPayload(p, row); }
  }

  // ----- the drivers -----

  datatype RunError = Failed(reason: MigrationError) | WrongMode

  /** `applyWithExpectedUnreadableLegacyIds`: both passes in one transaction. */
  method ApplyWithExpected(repo: ReadingRepo, options: Options, ring: KeyRing, draws: string -> nat, draws': string -> nat)
    returns (r: Result<Summary, RunError>)
    requires TableOk(repo.rows) && options.batchSize >= 1 && RingOk(ring)
    modifies repo
    ensures var rows := old(repo.rows);
      var pre := Pass(options.(apply := false), ring, draws);
      var p := Pass(options, ring, draws');
      && (r.Ok? <==> options.apply && options.idsFile && Accepts(pre, rows))
      && (r.Ok? ==> r.value == PassSummary(p, rows) && repo.rows == AfterAll(p, rows))
      && (r.Err? ==> repo.rows == rows)
  {
    if !options.apply || !options.idsFile {
      return Err(WrongMode);
    }
    hide RowOutcome, TallyAll, TableOk, RingOk, AfterAll, Frontier, NoFatal, IdsMatch;
    var snapshot := repo.rows;
    var pre := Pass(options.(apply := false), ring, draws);
    var p := Pass(options, ring, draws');
    var preflight := RunPass(repo, pre);
    TrialLeavesTable(pre, snapshot);
    if preflight.Err? {
      repo.Restore(snapshot);
      return Err(Failed(preflight.error));
    }
    IdsMatchExactly(preflight.value.tally.failedIds, options.expected);
    if !IdsMatch(preflight.value.tally.failedIds, options.expected) {
      repo.Restore(snapshot);
      return Err(Failed(UnexpectedIds));
    }
    var applied := RunPass(repo, p);
    if applied.Err? {
      repo.Restore(snapshot);
      r := Err(Failed(applied.error));
      AcceptedApply(pre, p, snapshot);
      assert false;
      return;
    }
    IdsMatchExactly(applied.value.tally.failedIds, options.expected);
    if !IdsMatch(applied.value.tally.failedIds, options.expected) {
      repo.Restore(snapshot);
      r := Err(Failed(UnexpectedIds));
      AcceptedApply(pre, p, snapshot);
      assert false;
      return;
    }
    AcceptedApply(pre, p, snapshot);
    return Ok(applied.value);
  }

  /** A trial pass writes nothing, however it ends. */
  lemma TrialLeavesTable(pre: Pass, rows: seq<Reading>)
    requires !pre.options.apply
    ensures AfterAll(pre, rows) == rows && forall k :: 0 <= k <= |rows| ==> Frontier(pre, rows, k) == rows
  {
    hide RowOutcome;
  }

  method ValidatedDryRun(repo: ReadingRepo, options: Options, ring: KeyRing, draws: string -> nat)
    returns (r: Result<Summary, RunError>)
    requires TableOk(repo.rows) && options.batchSize >= 1
    modifies repo
    ensures repo.rows == old(repo.rows)
    ensures var p := Pass(options, ring, draws);
      && (r.Ok? <==> !options.apply && Accepts(p, old(repo.rows)))
      && (r.Ok? ==> r.value == PassSummary(p, old(repo.rows)))
  {
    if options.apply {
      return Err(WrongMode);
    }
    hide RowOutcome, TallyAll, TableOk, AfterAll, Frontier, NoFatal, IdsMatch;
    var p := Pass(options, ring, draws);
    TrialLeavesTable(p, repo.rows);
    var summary := RunPass(repo, p);
    if summary.Err? {
      return Err(Failed(summary.error));
    }
    IdsMatchExactly(summary.value.tally.failedIds, options.expected);
    if !IdsMatch(summary.value.tally.failedIds, options.expected) {
      return Err(Failed(UnexpectedIds));
    }
    return Ok(summary.value);
  }

  /** `migrate`: it succeeds exactly if the trial run accepts the table; a failed run has written
      nothing, a successful apply has visited every row. */
  method Migrate(repo: ReadingRepo, options: Options, ring: KeyRing, draws: string -> nat, draws': string -> nat)
    returns (r: Result<Summary, RunError>)
    requires TableOk(repo.rows) && options.batchSize >= 1 && RingOk(ring)
    modifies repo
    ensures var rows := old(repo.rows);
      && (r.Ok? <==> Accepts(Pass(options.(apply := false), ring, draws), rows))
      && (r.Err? || !options.apply ==> repo.rows == rows)
      && (r.Ok? && options.apply ==>
            var p := Pass(options, ring, draws');
            r.value == PassSummary(p, rows) && repo.rows == AfterAll(p, rows))
  {
    hide RowOutcome, TallyAll, TableOk, RingOk, AfterAll, Frontier, NoFatal, IdsMatch, Accepts;
    if options.apply && options.idsFile {
      r := ApplyWithExpected(repo, options, ring, draws, draws');
      return;
    }
    if options.apply {
      r := ValidatedDryRun(repo, options.(apply := false), ring, draws);
      if r.Err? {
        return;
      }
    } else {
      r := ValidatedDryRun(repo, options, ring, draws);
      return;
    }
    ghost var rows := repo.rows;
    var p := Pass(options, ring, draws');
    AcceptedApply(Pass(options.(apply := false), ring, draws), p, rows);
    var summary := RunPass(repo, p);
    return Ok(summary.value);
  }
}
