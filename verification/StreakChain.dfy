/** What `currentStreak` means: the length of the trailing chain of active days.

    The record days are the activities that were later than everything recorded before them.
    A chain joins record days one day apart, and days two apart as long as no two such
    bridges follow each other. */
module StreakChain {
  import opened Numbers
  import opened Wrappers
  import opened Calendar
  import opened Streak
  import opened StreakLaws

  const EMPTY_ROW: Row := Snapshot(0, 0, 0, None, false, None, None)

  function Last(s: seq<int>): int
    requires s != []
  {
    s[|s| - 1]
  }

  function RecordDays(days: seq<int>): (m: seq<int>)
    ensures |m| <= |days| && (days != [] ==> m != [])
  {
    if days == [] then []
    else
      var m := RecordDays(days[..|days| - 1]);
      if m == [] || Last(days) > Last(m) then m + [Last(days)] else m
  }

  /** The row after the activities of `days`, in their order of arrival. */
  function Feed(days: seq<int>): Row {
    if days == [] then EMPTY_ROW else ApplyDay(Feed(days[..|days| - 1]), Last(days))
  }

  /** Record day `i` opens a new chain: the first one, one after a gap of three or more days,
      or one after a gap of two when the day before it already bridged such a gap. */
  predicate OpensChain(m: seq<int>, i: nat)
    requires i < |m|
    decreases i, 0
  {
    i == 0 || m[i] - m[i - 1] > 2 || (m[i] - m[i - 1] == 2 && Bridges(m, i - 1))
  }

  predicate Bridges(m: seq<int>, i: nat)
    requires i < |m|
    decreases i, 1
  {
    i > 0 && m[i] - m[i - 1] == 2 && !OpensChain(m, i)
  }

  lemma {:induction false} OpensChainPrefix(m: seq<int>, d: int, i: nat)
    requires i < |m|
    ensures OpensChain(m + [d], i) == OpensChain(m, i)
    ensures Bridges(m + [d], i) == Bridges(m, i)
  {
    if i > 0 { OpensChainPrefix(m, d, i - 1); }
  }

  /** Gaps of one or two days, never two bridged gaps in a row. */
  predicate IsChain(c: seq<int>) {
    && c != []
    && (forall i :: 1 <= i < |c| ==> 1 <= c[i] - c[i - 1] <= 2)
    && (forall i :: 2 <= i < |c| ==> c[i] - c[i - 1] == 1 || c[i - 1] - c[i - 2] == 1)
  }

  /** The chain that ends at the last record day has length `k`. */
  ghost predicate TrailingChain(m: seq<int>, k: nat) {
    && 1 <= k <= |m|
    && OpensChain(m, |m| - k)
    && forall i :: |m| - k < i < |m| ==> !OpensChain(m, i)
  }

  lemma TrailingChainUnique(m: seq<int>, j: nat, k: nat)
    requires TrailingChain(m, j) && TrailingChain(m, k)
    ensures j == k
  {
  }

  lemma {:induction false} RecordsIncrease(days: seq<int>, i: nat)
    requires 1 <= i < |RecordDays(days)|
    ensures RecordDays(days)[i - 1] < RecordDays(days)[i]
  {
    var rest := days[..|days| - 1];
    if i < |RecordDays(rest)| { RecordsIncrease(rest, i); }
  }

  /** The automaton computes the trailing chain: `currentStreak` is its length up to the cap,
      and the freeze flag says whether its last gap was bridged. */
  lemma {:induction false} StreakIsTrailingChain(days: seq<int>) returns (k: nat)
    requires days != []
    ensures var (m, row) := (RecordDays(days), Feed(days));
      && TrailingChain(m, k)
      && row.lastActive == Some(Last(m))
      && row.current == Min(STREAK_CAP, k)
      && row.freezeUsed == Bridges(m, |m| - 1)
      && row.total == Min(READINGS_CAP, |days|)
  {
    var rest := days[..|days| - 1];
    if rest == [] {
      k := 1;
      assert RecordDays(days) == [Last(days)];
    } else {
      var j := StreakIsTrailingChain(rest);
      var m, d := RecordDays(rest), Last(days);
      if d <= Last(m) {
        k := j;
      } else {
        OpensChainPrefix(m, d, |m| - 1);
        k := if OpensChain(m + [d], |m|) then 1 else j + 1;
        forall i | |m| + 1 - k < i < |m|
          ensures !OpensChain(m + [d], i)
        {
          OpensChainPrefix(m, d, i);
        }
        OpensChainPrefix(m, d, |m| - j);
      }
    }
  }

  /** The longest chain so far: the greatest length a trailing chain had after any of the days. */
  ghost predicate LongestChain(days: seq<int>, best: nat) {
    && (exists i :: 1 <= i <= |days| && TrailingChain(RecordDays(days[..i]), best))
    && (forall i, k: nat :: 1 <= i <= |days| && TrailingChain(RecordDays(days[..i]), k) ==> k <= best)
  }

  /** `longestStreak` is its length up to the cap. */
  lemma {:induction false} LongestIsGreatest(days: seq<int>) returns (best: nat)
    requires days != []
    ensures LongestChain(days, best) && Feed(days).longest == Min(STREAK_CAP, best)
  {
    hide RecordDays, TrailingChain, OpensChain, Bridges, ApplyDay;
    var rest := days[..|days| - 1];
    var k := StreakIsTrailingChain(days);
    assert days[..|days|] == days && rest + [Last(days)] == days;
    if rest == [] {
      best := k;
      FirstDay(days[0]);
      OnlyDay(days, k);
    } else {
      var earlier := LongestIsGreatest(rest);
      best := if k > earlier then k else earlier;
      LongerBy(rest, Last(days), earlier, k);
      var j := StreakIsTrailingChain(rest);
      LongestStep(rest, Last(days));
      assert TrailingChain(RecordDays(rest[..|rest|]), j) by { assert rest[..|rest|] == rest; }
      if Last(days) <= Last(RecordDays(rest)) { TrailingChainUnique(RecordDays(rest), j, k); }
    }
  }

  lemma FirstDay(d: int)
    ensures Feed([d]).longest == 1 && Feed([d]).current == 1
  {
    assert [d][..0] == [];
  }

  lemma OnlyDay(days: seq<int>, k: nat)
    requires |days| == 1 && TrailingChain(RecordDays(days), k)
    ensures LongestChain(days, k)
  {
    hide RecordDays, TrailingChain;
    assert days[..1] == days;
    forall i, j: nat | 1 <= i <= |days| && TrailingChain(RecordDays(days[..i]), j)
      ensures j <= k
    {
      TrailingChainUnique(RecordDays(days), j, k);
    }
  }

  lemma LongerBy(rest: seq<int>, d: int, earlier: nat, k: nat)
    requires rest != [] && LongestChain(rest, earlier) && TrailingChain(RecordDays(rest + [d]), k)
    ensures LongestChain(rest + [d], if k > earlier then k else earlier)
  {
    hide RecordDays, TrailingChain;
    var days := rest + [d];
    var best := if k > earlier then k else earlier;
    assert days[..|days|] == days;
    assert forall i :: 1 <= i <= |rest| ==> days[..i] == rest[..i];
    if k <= earlier {
      var i :| 1 <= i <= |rest| && TrailingChain(RecordDays(rest[..i]), earlier);
      assert days[..i] == rest[..i];
    }
    forall i, j: nat | 1 <= i <= |days| && TrailingChain(RecordDays(days[..i]), j)
      ensures j <= best
    {
      if i == |days| {
        TrailingChainUnique(RecordDays(days), j, k);
      } else {
        assert days[..i] == rest[..i];
      }
    }
  }

  /** One more day raises the record only to the new current streak, and a late one not at all. */
  lemma LongestStep(rest: seq<int>, d: int)
    requires rest != []
    ensures Feed(rest + [d]).longest ==
            if d <= Last(RecordDays(rest)) then Feed(rest).longest else Max(Feed(rest).longest, Feed(rest + [d]).current)
    ensures d <= Last(RecordDays(rest)) ==> RecordDays(rest + [d]) == RecordDays(rest)
  {
    hide Feed, RecordDays, TrailingChain;
    FeedDates(rest);
    FeedAppend(rest, d);
  }

  lemma TrailingChainIsChain(days: seq<int>, k: nat)
    requires TrailingChain(RecordDays(days), k)
    ensures var m := RecordDays(days); IsChain(m[|m| - k..])
  {
    hide OpensChain, Bridges, RecordDays, IsChain;
    var m := RecordDays(days);
    var first := |m| - k;
    forall i | first < i < |m|
      ensures 1 <= m[i] - m[i - 1] <= 2
      ensures i - 1 > first ==> m[i] - m[i - 1] == 1 || m[i - 1] - m[i - 2] == 1
    {
      RecordsIncrease(days, i);
      ChainStep(m, k, i);
      if i - 1 > first {
        RecordsIncrease(days, i - 1);
        ChainStep(m, k, i - 1);
      }
    }
    SliceIsChain(m, first);
  }

  lemma SliceIsChain(m: seq<int>, first: nat)
    requires first < |m|
    requires forall i :: first < i < |m| ==> 1 <= m[i] - m[i - 1] <= 2
    requires forall i :: first + 1 < i < |m| ==> m[i] - m[i - 1] == 1 || m[i - 1] - m[i - 2] == 1
    ensures IsChain(m[first..])
  {
    var c := m[first..];
    assert forall i :: 0 <= i < |c| ==> c[i] == m[first + i];
  }

  /** Inside the trailing chain no day opens a chain, which bounds its gaps. */
  lemma ChainStep(m: seq<int>, k: nat, i: nat)
    requires TrailingChain(m, k) && |m| - k < i < |m|
    ensures m[i] - m[i - 1] <= 2
    ensures |m| - k < i - 1 && m[i] - m[i - 1] == 2 ==> m[i - 1] - m[i - 2] != 2
  {
    assert !OpensChain(m, i);
    if |m| - k < i - 1 && m[i] - m[i - 1] == 2 {
      assert !Bridges(m, i - 1);
      assert !OpensChain(m, i - 1);
    }
  }

  /** A chain of `k` days spans at least k-1 days and at most one extra day per two gaps. */
  lemma {:induction false} ChainSpan(c: seq<int>)
    requires IsChain(c)
    ensures |c| - 1 <= Last(c) - c[0] <= |c| - 1 + |c| / 2
    ensures |c| >= 2 && c[|c| - 1] - c[|c| - 2] == 1 ==> Last(c) - c[0] <= |c| - 1 + (|c| - 1) / 2
  {
    if |c| > 1 {
      var shorter := c[..|c| - 1];
      assert IsChain(shorter) && Last(shorter) == c[|c| - 2];
      ChainSpan(shorter);
      hide IsChain;
    }
  }

  // ----- requests with empty snapshots -----

  /** The day an operation newly records; duplicates and refused dates record none. */
  function JustRecorded(st: Store, op: Op): seq<int>
    requires OpOk(op)
  {
    if op.RecordOp? && Accepted(op) && op.event !in st.events then [DayNumber(op.date)] else []
  }

  /** The days newly recorded by a run, in order. */
  function NewDays(st: Store, ops: seq<Op>): seq<int>
    requires StoreOk(st) && OpsOk(ops)
    decreases |ops|
  {
    if ops == [] then []
    else JustRecorded(st, ops[0]) + NewDays(Perform(st, ops[0]), ops[1..])
  }

  /** A request whose snapshot carries nothing. */
  predicate EmptySnapshot(op: Op)
    requires OpOk(op)
  {
    op.RecordOp? && Normalize(op.dto, op.today) == Snapshot(0, 0, 0, None, false, None, None)
  }

  lemma MergeEmpty(row: Row)
    requires ChecksPass(row)
    ensures Merge(row, EMPTY_ROW) == row
  {
  }

  lemma {:induction false} FeedRun(st: Store, before: seq<int>, ops: seq<Op>)
    requires StoreOk(st) && OpsOk(ops) && (forall op <- ops :: EmptySnapshot(op))
    requires if before == [] then st == Store(None, map[]) else st.row == Some(Feed(before))
    ensures var days := before + NewDays(st, ops);
      if days == [] then Run(st, ops) == Store(None, map[]) else Run(st, ops).row == Some(Feed(days))
    decreases |ops|
  {
    hide Perform, ReadsBack, JustRecorded, Normalize, Feed;
    if ops == [] {
      assert before + [] == before;
    } else {
      var op := ops[0];
      var next := Perform(st, op);
      var now := JustRecorded(st, op);
      EmptyRequest(st, before, op);
      FeedRun(next, before + now, ops[1..]);
      assert before + now + NewDays(next, ops[1..]) == before + NewDays(st, ops);
    }
  }

  lemma EmptyRequest(st: Store, before: seq<int>, op: Op)
    requires StoreOk(st) && OpOk(op) && EmptySnapshot(op)
    requires if before == [] then st == Store(None, map[]) else st.row == Some(Feed(before))
    ensures var now := JustRecorded(st, op);
      if before + now == [] then Perform(st, op) == st else Perform(st, op).row == Some(Feed(before + now))
  {
    hide ReadsBack, DaysBetween, DayNumber, IsDay, DateText;
    NormalizeOk(op.dto, op.today);
    if before != [] { MergeEmpty(Feed(before)); }
    if Accepted(op) {
      var row := if before == [] then EMPTY_ROW else Feed(before);
      assert UpsertSpec(st, op.dto, op.today).row == Some(row);
      if op.event !in st.events {
        ApplyAgrees(row, op.date);
        var day := DayNumber(op.date);
        assert (before + [day])[..|before|] == before;
      } else {
        assert before + [] == before;
      }
    } else {
      assert before + [] == before;
    }
  }

  /** From the empty tables and with empty snapshots, whatever the order and repetition of the
      events, the stored streak is the trailing chain of the newly recorded days, which spans
      between k-1 and (k-1) + ceil((k-1)/2) days, and the stored record is the longest chain that
      ever trailed. */
  lemma StreakMeaning(ops: seq<Op>) returns (k: nat, best: nat)
    requires OpsOk(ops) && (forall op <- ops :: EmptySnapshot(op))
    requires NewDays(Store(None, map[]), ops) != []
    ensures var m := RecordDays(NewDays(Store(None, map[]), ops));
      var row := Run(Store(None, map[]), ops).row;
      && TrailingChain(m, k) && IsChain(m[|m| - k..])
      && row.Some? && row.value.current == Min(1_000_000, k)
      && row.value.total == Min(2_000_000_000, |NewDays(Store(None, map[]), ops)|)
      && row.value.lastActive == Some(Last(m))
      && k - 1 <= Last(m) - m[|m| - k] <= k - 1 + k / 2
      && LongestChain(NewDays(Store(None, map[]), ops), best) && row.value.longest == Min(1_000_000, best)
  {
    hide Run, NewDays, RecordDays, Feed, IsChain, OpensChain, Bridges, TrailingChain, LongestChain;
    RowOfRun(ops);
    k := ChainOfDays(NewDays(Store(None, map[]), ops));
    FeedDates(NewDays(Store(None, map[]), ops));
    best := LongestIsGreatest(NewDays(Store(None, map[]), ops));
  }

  lemma RowOfRun(ops: seq<Op>)
    requires OpsOk(ops) && (forall op <- ops :: EmptySnapshot(op))
    requires NewDays(Store(None, map[]), ops) != []
    ensures Run(Store(None, map[]), ops).row == Some(Feed(NewDays(Store(None, map[]), ops)))
  {
    FeedRun(Store(None, map[]), [], ops);
    var days := NewDays(Store(None, map[]), ops);
    assert [] + days == days;
  }

  lemma ChainOfDays(days: seq<int>) returns (k: nat)
    requires days != []
    ensures var m := RecordDays(days);
      && TrailingChain(m, k) && IsChain(m[|m| - k..])
      && Feed(days).current == Min(STREAK_CAP, k)
      && Feed(days).lastActive == Some(Last(m))
      && k - 1 <= Last(m) - m[|m| - k] <= k - 1 + k / 2
  {
    hide OpensChain, Bridges, Feed, RecordDays, IsChain;
    k := StreakIsTrailingChain(days);
    TrailingChainIsChain(days, k);
    var m := RecordDays(days);
    ChainSpan(m[|m| - k..]);
  }

  lemma FeedDates(days: seq<int>)
    requires days != []
    ensures RecordDays(days) != [] && Feed(days).lastActive == Some(Last(RecordDays(days)))
    ensures Feed(days).total == Min(READINGS_CAP, |days|)
  {
    var k := StreakIsTrailingChain(days);
  }

  /** Activities that are not later than the last record day never change the streak. */
  lemma OutOfOrderIgnored(days: seq<int>, late: int)
    requires days != [] && late <= Last(RecordDays(days))
    ensures RecordDays(days + [late]) == RecordDays(days)
    ensures Feed(days + [late]) == Feed(days).(total := Min(READINGS_CAP, |days| + 1))
  {
    hide ApplyDay, Feed, RecordDays;
    FeedDates(days);
    FeedAppend(days, late);
    LateDay(Feed(days), late);
  }

  lemma FeedAppend(days: seq<int>, d: int)
    ensures Feed(days + [d]) == ApplyDay(Feed(days), d)
    ensures var m := RecordDays(days);
      RecordDays(days + [d]) == if m == [] || d > Last(m) then m + [d] else m
  {
    hide ApplyDay;
    var all := days + [d];
    assert all[..|all| - 1] == days && Last(all) == d;
  }

  lemma LateDay(row: Row, day: int)
    requires row.lastActive.Some? && day <= row.lastActive.value
    ensures ApplyDay(row, day) == row.(total := Min(READINGS_CAP, row.total + 1))
  {
  }
}
