/** The loops of the migration over the readings table: one batch, and one whole pass. */
module MigrationPass {
  import opened Wrappers
  import opened Text
  import opened Envelope
  import opened Migration

  class ReadingRepo {
    var rows: seq<Reading>

    constructor (rows: seq<Reading>)
      ensures this.rows == rows
    {
      this.rows := rows;
    }

    method Save(pending: seq<Reading>)
      modifies this
      ensures rows == SaveAll(old(rows), pending)
    {
      rows := SaveAll(rows, pending);
    }

    /** A rolled back transaction. */
    method Restore(snapshot: seq<Reading>)
      modifies this
      ensures rows == snapshot
    {
      rows := snapshot;
    }
  }

  datatype BatchResult = BatchResult(batch: seq<Reading>, tally: Tally)

  datatype Summary = Summary(scanned: nat, tally: Tally, updated: nat)

  /** The index of the first row whose record is fatal, or the number of rows. */
  function FatalIndex(p: Pass, rows: seq<Reading>): (i: nat)
    ensures i <= |rows|
  {
    hide RowOutcome;
    if rows == [] || p.Of(rows[0]).Fatal? then 0 else 1 + FatalIndex(p, rows[1..])
  }

  lemma {:induction false} BeforeFatal(p: Pass, rows: seq<Reading>)
    ensures forall k :: 0 <= k < FatalIndex(p, rows) ==> !p.Of(rows[k]).Fatal?
    ensures FatalIndex(p, rows) < |rows| ==> p.Of(rows[FatalIndex(p, rows)]).Fatal?
    ensures NoFatal(p, rows) <==> FatalIndex(p, rows) == |rows|
  {
    hide RowOutcome;
    if rows != [] {
      BeforeFatal(p, rows[1..]);
      assert rows == [rows[0]] + rows[1..];
    }
  }

  function FatalError(p: Pass, rows: seq<Reading>): MigrationError
    requires !NoFatal(p, rows)
  {
    hide RowOutcome;
    BeforeFatal(p, rows);
    p.Of(rows[FatalIndex(p, rows)]).error
  }

  lemma FatalIndexIs(p: Pass, rows: seq<Reading>, i: nat)
    requires i < |rows| && p.Of(rows[i]).Fatal? && forall k :: 0 <= k < i ==> !p.Of(rows[k]).Fatal?
    ensures FatalIndex(p, rows) == i && !NoFatal(p, rows) && FatalError(p, rows) == p.Of(rows[i]).error
  {
    hide RowOutcome;
    BeforeFatal(p, rows);
    assert rows[i] in rows;
  }

  method ProcessBatch(repo: ReadingRepo, cursor: Option<string>, p: Pass) returns (r: Result<BatchResult, MigrationError>)
    modifies repo
    ensures var batch := LoadBatch(old(repo.rows), cursor, p.options.batchSize);
      if NoFatal(p, batch) then
        && r == Ok(BatchResult(batch, TallyAll(p, batch)))
        && repo.rows == if p.options.apply then SaveAll(old(repo.rows), Pending(p, batch)) else old(repo.rows)
      else r == Err(FatalError(p, batch)) && repo.rows == old(repo.rows)
  {
    hide RowOutcome, LoadBatch, SaveAll, Plus, TallyOf, FatalIndex, FatalError;
    var batch := LoadBatch(repo.rows, cursor, p.options.batchSize);
    var tally := ZERO;
    var pending: seq<Reading> := [];
    for i := 0 to |batch|
      invariant tally == TallyAll(p, batch[..i]) && pending == Pending(p, batch[..i])
      invariant forall k :: 0 <= k < i ==> !p.Of(batch[k]).Fatal?
    {
      assert batch[..i + 1][..i] == batch[..i];
      var outcome := p.Of(batch[i]);
      match outcome {
        case Fatal(error) =>
          FatalIndexIs(p, batch, i);
          return Err(error);
        case Rewritten(row) =>
          pending := pending + [row];
        case _ =>
      }
      tally := Plus(tally, TallyOf(batch[i].id, outcome));
    }
    assert batch[..|batch|] == batch;
    if p.options.apply && |pending| > 0 {
      repo.Save(pending);
    } else if p.options.apply {
      SaveNothing(repo.rows);
    }
    return Ok(BatchResult(batch, tally));
  }

  lemma SaveNothing(rows: seq<Reading>)
    ensures SaveAll(rows, []) == rows
  {
  }

  // ----- one batch moves the frontier -----

  /** The table when the first `k` rows were visited. */
  function Frontier(p: Pass, rows: seq<Reading>, k: nat): seq<Reading>
    requires k <= |rows|
  {
    seq(|rows|, i requires 0 <= i < |rows| => if i < k then p.After(rows[i]) else rows[i])
  }

  lemma AfterKeepsId(p: Pass, row: Reading)
    ensures p.After(row).id == row.id
  {
  }

  lemma FrontierOk(p: Pass, rows: seq<Reading>, k: nat)
    requires TableOk(rows) && k <= |rows|
    ensures TableOk(Frontier(p, rows, k))
  {
    forall i | 0 <= i < |rows|
      ensures Frontier(p, rows, k)[i].id == rows[i].id
    {
      AfterKeepsId(p, rows[i]);
    }
  }

  lemma FrontierBatch(p: Pass, rows: seq<Reading>, k: nat, cursor: Option<string>, n: nat)
    requires TableOk(rows) && k <= |rows|
    requires cursor == if k == 0 then None else Some(rows[k - 1].id)
    ensures LoadBatch(Frontier(p, rows, k), cursor, n) == rows[k..if k + n <= |rows| then k + n else |rows|]
  {
    hide RowOutcome, Less;
    var table := Frontier(p, rows, k);
    FrontierOk(p, rows, k);
    if k > 0 {
      AfterKeepsId(p, rows[k - 1]);
      AfterSkips(table, k);
      assert table[k..] == rows[k..];
    } else {
      assert table == rows;
    }
  }

  lemma FrontierMoves(p: Pass, rows: seq<Reading>, k: nat, m: nat)
    requires TableOk(rows) && k <= m <= |rows| && p.options.apply
    ensures SaveAll(Frontier(p, rows, k), Pending(p, rows[k..m])) == Frontier(p, rows, m)
  {
    hide RowOutcome, Less;
    var batch := rows[k..m];
    forall i | 0 <= i < |rows|
      ensures Saved(Pending(p, batch), Frontier(p, rows, k)[i]) == Frontier(p, rows, m)[i]
    {
      var row := Frontier(p, rows, k)[i];
      AfterKeepsId(p, rows[i]);
      forall j | 0 <= j < |batch| && batch[j].id == row.id
        ensures k + j == i
      {
        IdsDistinct(rows, k + j, i);
      }
      SavedOfPending(p, batch, row);
      if k <= i < m { assert batch[i - k] == row; }
    }
  }

  lemma PlusLaws(a: Tally, b: Tally, c: Tally)
    ensures Plus(Plus(a, b), c) == Plus(a, Plus(b, c)) && Plus(a, ZERO) == a
  {
  }

  lemma {:induction false} TallyAppend(p: Pass, a: seq<Reading>, b: seq<Reading>)
    ensures TallyAll(p, a + b) == Plus(TallyAll(p, a), TallyAll(p, b))
  {
    hide RowOutcome, Plus, TallyOf;
    if b == [] {
      assert a + b == a;
      PlusLaws(TallyAll(p, a), ZERO, ZERO);
    } else {
      var (init, last) := (b[..|b| - 1], b[|b| - 1]);
      assert (a + b)[..|a + b| - 1] == a + init && (a + b)[|a + b| - 1] == last;
      TallyAppend(p, a, init);
      PlusLaws(TallyAll(p, a), TallyAll(p, init), TallyOf(last.id, p.Of(last)));
    }
  }

  /** Where the batch that contains row `f` starts. */
  function BatchStart(f: nat, n: nat): (k: nat)
    requires n > 0
    ensures k <= f < k + n
    decreases f
  {
    if f < n then 0 else n + BatchStart(f - n, n)
  }

  lemma {:induction false} BatchStartInside(k: nat, j: nat, n: nat)
    requires n > 0 && BatchStart(k, n) == k && j < n
    ensures BatchStart(k + j, n) == k
    decreases k
  {
    if k >= n { BatchStartInside(k - n, j, n); }
  }

  /** The state of a pass between two batches. */
  ghost predicate Progress(p: Pass, rows: seq<Reading>, table: seq<Reading>, cursor: Option<string>, summary: Summary) {
    var k := summary.scanned;
    && p.options.batchSize > 0
    && k <= |rows| && table == Frontier(p, rows, k)
    && cursor == (if k == 0 then None else Some(rows[k - 1].id))
    && summary.tally == TallyAll(p, rows[..k])
    && summary.updated == (if p.options.apply then summary.tally.eligible else 0)
    && (forall i :: 0 <= i < k ==> !p.Of(rows[i]).Fatal?)
    && (k < |rows| ==> BatchStart(k, p.options.batchSize) == k)
  }

  lemma ProgressStart(p: Pass, rows: seq<Reading>)
    requires p.options.batchSize > 0
    ensures Progress(p, rows, rows, None, Summary(0, ZERO, 0))
  {
    assert Frontier(p, rows, 0) == rows && rows[..0] == [];
  }

  /** The batch a pass reads is the next stretch of the original rows. */
  lemma ProgressBatch(p: Pass, rows: seq<Reading>, table: seq<Reading>, cursor: Option<string>, summary: Summary)
    requires TableOk(rows) && Progress(p, rows, table, cursor, summary)
    ensures var (k, n) := (summary.scanned, p.options.batchSize);
      LoadBatch(table, cursor, n) == rows[k..if k + n <= |rows| then k + n else |rows|]
  {
    FrontierBatch(p, rows, summary.scanned, cursor, p.options.batchSize);
  }

  /** The running totals after one more batch. */
  function Counted(p: Pass, summary: Summary, result: BatchResult): Summary {
    Summary(
      summary.scanned + |result.batch|,
      Plus(summary.tally, result.tally),
      summary.updated + if p.options.apply then result.tally.eligible else 0)
  }

  lemma ProgressStep(p: Pass, rows: seq<Reading>, table: seq<Reading>, cursor: Option<string>, summary: Summary, batch: seq<Reading>)
    requires TableOk(rows) && Progress(p, rows, table, cursor, summary)
    requires batch == LoadBatch(table, cursor, p.options.batchSize) && batch != [] && NoFatal(p, batch)
    ensures var table' := if p.options.apply then SaveAll(table, Pending(p, batch)) else table;
      Progress(p, rows, table', Some(batch[|batch| - 1].id), Counted(p, summary, BatchResult(batch, TallyAll(p, batch))))
  {
    hide RowOutcome, TableOk, LoadBatch, Frontier, TallyAll, NoFatal, BatchStart, SaveAll, Pending;
    var (k, n) := (summary.scanned, p.options.batchSize);
    ProgressBatch(p, rows, table, cursor, summary);
    var m := k + |batch|;
    assert batch == rows[k..m];
    NextFrontier(p, rows, k, m);
    assert batch[|batch| - 1] == rows[m - 1];
    if m < |rows| { NextStart(k, n); }
  }

  lemma NextStart(k: nat, n: nat)
    requires n > 0 && BatchStart(k, n) == k
    ensures BatchStart(k + n, n) == k + n
  {
  }

  lemma NextFrontier(p: Pass, rows: seq<Reading>, k: nat, m: nat)
    requires TableOk(rows) && k <= m <= |rows| && NoFatal(p, rows[k..m])
    requires forall i :: 0 <= i < k ==> !p.Of(rows[i]).Fatal?
    ensures var table := Frontier(p, rows, k);
      (if p.options.apply then SaveAll(table, Pending(p, rows[k..m])) else table) == Frontier(p, rows, m)
    ensures TallyAll(p, rows[..m]) == Plus(TallyAll(p, rows[..k]), TallyAll(p, rows[k..m]))
    ensures forall i :: 0 <= i < m ==> !p.Of(rows[i]).Fatal?
  {
    if p.options.apply { FrontierMoves(p, rows, k, m); }
    hide RowOutcome, TableOk;
    assert rows[..m] == rows[..k] + rows[k..m];
    TallyAppend(p, rows[..k], rows[k..m]);
    forall i | k <= i < m
      ensures !p.Of(rows[i]).Fatal?
    {
      assert rows[i] == rows[k..m][i - k];
    }
  }

  lemma FatalInside(p: Pass, rows: seq<Reading>, k: nat, m: nat)
    requires k <= m <= |rows| && !NoFatal(p, rows[k..m])
    requires forall i :: 0 <= i < k ==> !p.Of(rows[i]).Fatal?
    ensures !NoFatal(p, rows) && FatalError(p, rows) == FatalError(p, rows[k..m])
    ensures FatalIndex(p, rows) == k + FatalIndex(p, rows[k..m]) < m
  {
    hide RowOutcome, FatalIndex;
    var batch := rows[k..m];
    var j := FatalIndex(p, batch);
    BeforeFatal(p, batch);
    assert batch[j] == rows[k + j];
    forall i | 0 <= i < k + j
      ensures !p.Of(rows[i]).Fatal?
    {
      if i >= k { assert rows[i] == batch[i - k]; }
    }
    FatalIndexIs(p, rows, k + j);
  }

  lemma ProgressFatal(p: Pass, rows: seq<Reading>, table: seq<Reading>, cursor: Option<string>, summary: Summary, batch: seq<Reading>)
    requires TableOk(rows) && Progress(p, rows, table, cursor, summary)
    requires batch == LoadBatch(table, cursor, p.options.batchSize) && !NoFatal(p, batch)
    ensures !NoFatal(p, rows) && FatalError(p, rows) == FatalError(p, batch)
    ensures BatchStart(FatalIndex(p, rows), p.options.batchSize) == summary.scanned
  {
    hide RowOutcome, TableOk, LoadBatch, Frontier, TallyAll, BatchStart, FatalIndex, FatalError, NoFatal;
    var (k, n) := (summary.scanned, p.options.batchSize);
    ProgressBatch(p, rows, table, cursor, summary);
    var m := if k + n <= |rows| then k + n else |rows|;
    FatalInside(p, rows, k, m);
    BatchStartInside(k, FatalIndex(p, batch), n);
  }

  lemma ProgressEnd(p: Pass, rows: seq<Reading>, table: seq<Reading>, cursor: Option<string>, summary: Summary)
    requires TableOk(rows) && Progress(p, rows, table, cursor, summary)
    requires LoadBatch(table, cursor, p.options.batchSize) == []
    ensures NoFatal(p, rows) && table == AfterAll(p, rows)
    ensures summary == PassSummary(p, rows)
  {
    hide RowOutcome, TableOk, LoadBatch, TallyAll;
    ProgressBatch(p, rows, table, cursor, summary);
    assert summary.scanned == |rows| && rows[..|rows|] == rows;
    assert Frontier(p, rows, |rows|) == AfterAll(p, rows);
  }

  function PassSummary(p: Pass, rows: seq<Reading>): Summary {
    Summary(|rows|, TallyAll(p, rows), if p.options.apply then TallyAll(p, rows).eligible else 0)
  }

  /** One pass: a success visits every row exactly once, whatever the batch size; a fatal row
      stops it with the rows of the completed batches processed and all others untouched. */
  method RunPass(repo: ReadingRepo, p: Pass) returns (r: Result<Summary, MigrationError>)
    requires TableOk(repo.rows) && p.options.batchSize >= 1
    modifies repo
    ensures NoFatal(p, old(repo.rows)) ==>
      r == Ok(PassSummary(p, old(repo.rows))) && repo.rows == AfterAll(p, old(repo.rows))
    ensures !NoFatal(p, old(repo.rows)) ==>
      && r == Err(FatalError(p, old(repo.rows)))
      && repo.rows == Frontier(p, old(repo.rows), BatchStart(FatalIndex(p, old(repo.rows)), p.options.batchSize))
  {
    ghost var rows := repo.rows;
    var cursor: Option<string> := None;
    var summary := Summary(0, ZERO, 0);
    ProgressStart(p, rows);
    while true
      invariant Progress(p, rows, repo.rows, cursor, summary)
      decreases |rows| - summary.scanned
    {
      hide RowOutcome, TableOk, LoadBatch, Frontier, TallyAll, NoFatal;
      hide FatalIndex, FatalError, SaveAll, Pending, BatchStart, AfterAll, Plus;
      ghost var table := repo.rows;
      var result := ProcessBatch(repo, cursor, p);
      if result.Err? {
        ProgressFatal(p, rows, table, cursor, summary, LoadBatch(table, cursor, p.options.batchSize));
        return Err(result.error);
      }
      var batch := result.value.batch;
      if |batch| == 0 {
        ProgressEnd(p, rows, table, cursor, summary);
        SaveNothing(table);
        break;
      }
      ProgressStep(p, rows, table, cursor, summary, batch);
      cursor := Some(batch[|batch| - 1].id);
      summary := Counted(p, summary, result.value);
    }
    return Ok(summary);
  }
}
