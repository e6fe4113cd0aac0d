/** Listing journal entries: the batched scan for a tag against filtering the whole list.

    Tags live inside the encrypted payloads, so a tag filter has to open entries one by one. */
module Journal {
  import opened Wrappers
  import opened Envelope

  const MAX_LIST_SIZE := 500
  const TAG_FILTER_SCAN_SIZE := 100

  datatype Entry = Entry(id: string, user: string, readingId: string, encrypted: Value)

  datatype Found = Found(entry: Entry, payload: Value)

  datatype Summary = Summary(app: string, kind: string, createdAt: int)

  datatype View = View(found: Found, reading: Summary)

  datatype JournalError = Unreadable

  function Decrypt(ring: KeyRing, e: Entry): Result<Value, JournalError> {
    match DecryptJournalPayload(ring, e.encrypted, e.user, e.id)
    case Ok(payload) => Ok(payload)
    case Err(_) => Err(Unreadable)
  }

  predicate HasTag(payload: Value, tag: string) {
    payload.Obj? && "tags" in payload.fields && payload.fields["tags"].Arr? && Str(Chars(tag)) in payload.fields["tags"].items
  }

  predicate Selected(ring: KeyRing, tag: Option<string>, e: Entry) {
    Decrypt(ring, e).Ok? && (tag.None? || HasTag(Decrypt(ring, e).value, tag.value))
  }

  /** The readable entries with the tag, in listing order: the simple form of the scan. */
  function Matching(ring: KeyRing, tag: Option<string>, rows: seq<Entry>): (r: seq<Found>)
    ensures |r| <= |rows|
  {
    if rows == [] then []
    else
      var earlier := Matching(ring, tag, rows[..|rows| - 1]);
      var e := rows[|rows| - 1];
      if Selected(ring, tag, e) then earlier + [Found(e, Decrypt(ring, e).value)] else earlier
  }

  function Drop<T>(s: seq<T>, n: nat): seq<T> {
    if n <= |s| then s[n..] else []
  }

  function Take<T>(s: seq<T>, n: nat): seq<T> {
    if n <= |s| then s[..n] else s
  }

  function Page(found: seq<Found>, offset: nat, limit: nat): seq<Found> {
    Take(Drop(found, offset), limit)
  }

  /** Row `i` cannot be opened and comes before the page is complete. */
  predicate Blocks(ring: KeyRing, tag: Option<string>, rows: seq<Entry>, wanted: nat, i: int) {
    0 <= i < |rows| && Decrypt(ring, rows[i]).Err? && |Matching(ring, tag, rows[..i])| < wanted
  }

  ghost predicate Blocked(ring: KeyRing, tag: Option<string>, rows: seq<Entry>, wanted: nat) {
    exists i :: Blocks(ring, tag, rows, wanted, i)
  }

  function Limit(limit: Option<nat>): nat {
    if limit.Some? && limit.value < MAX_LIST_SIZE then limit.value else MAX_LIST_SIZE
  }

  function Views(page: seq<Found>, readings: map<string, Summary>): seq<View> {
    if page == [] then []
    else if page[0].entry.readingId in readings
    then [View(page[0], readings[page[0].entry.readingId])] + Views(page[1..], readings)
    else Views(page[1..], readings)
  }

  // ----- which entries a listing shows -----

  /** The views are those of the found entries at the positions `at`, in order: exactly the ones
      whose reading is available, each with its own reading. */
  ghost predicate Shows(page: seq<Found>, readings: map<string, Summary>, views: seq<View>, at: seq<nat>) {
    && |at| == |views|
    && (forall j, k :: 0 <= j < k < |at| ==> at[j] < at[k])
    && (forall j :: 0 <= j < |at| ==>
          at[j] < |page| && page[at[j]].entry.readingId in readings
          && views[j] == View(page[at[j]], readings[page[at[j]].entry.readingId]))
    && (forall i :: 0 <= i < |page| && page[i].entry.readingId in readings ==> i in at)
  }

  lemma {:induction false} ViewsShow(page: seq<Found>, readings: map<string, Summary>) returns (at: seq<nat>)
    ensures Shows(page, readings, Views(page, readings), at)
  {
    hide Views;
    if page == [] {
      at := [];
      NothingShown(readings);
    } else {
      var (init, last) := (page[..|page| - 1], page[|page| - 1]);
      assert page == init + [last];
      at := ViewsShow(init, readings);
      ViewsSnoc(init, last, readings);
      if last.entry.readingId in readings { at := at + [|init|]; }
    }
  }

  lemma NothingShown(readings: map<string, Summary>)
    ensures Views([], readings) == []
  {
  }

  /** The number that pages count row `i` by: matching rows before it, or rows without a filter. */
  function Rank(ring: KeyRing, tag: Option<string>, rows: seq<Entry>, i: nat): nat
    requires i <= |rows|
  {
    if tag.Some? then |Matching(ring, tag, rows[..i])| else i
  }

  /** With every reading available nothing is left out. */
  lemma {:induction false} AllShown(page: seq<Found>, readings: map<string, Summary>)
    ensures (forall f <- page :: f.entry.readingId in readings) ==>
              |Views(page, readings)| == |page| && forall i :: 0 <= i < |page| ==> Views(page, readings)[i].found == page[i]
  {
    if page != [] && forall f <- page :: f.entry.readingId in readings {
      AllShown(page[1..], readings);
      assert forall i :: 1 <= i < |page| ==> page[i] == page[1..][i - 1];
    }
  }

  /** Row `i` is readable, has the tag and falls on the page. */
  predicate OnPage(ring: KeyRing, tag: Option<string>, rows: seq<Entry>, offset: nat, size: nat, i: int) {
    0 <= i < |rows| && Selected(ring, tag, rows[i]) && offset <= Rank(ring, tag, rows, i) < offset + size
  }

  /** The views are those of the rows at the positions `at`, in order: exactly the rows on the page
      whose reading is available, each with its own payload and reading. */
  ghost predicate ListsRows(ring: KeyRing, tag: Option<string>, rows: seq<Entry>, offset: nat, size: nat,
                            readings: map<string, Summary>, views: seq<View>, at: seq<nat>)
  {
    && |at| == |views|
    && (forall j, k :: 0 <= j < k < |at| ==> at[j] < at[k])
    && (forall j :: 0 <= j < |at| ==>
          OnPage(ring, tag, rows, offset, size, at[j]) && rows[at[j]].readingId in readings
          && views[j] == View(Found(rows[at[j]], Decrypt(ring, rows[at[j]]).value), readings[rows[at[j]].readingId]))
    && (forall i :: OnPage(ring, tag, rows, offset, size, i) && rows[i].readingId in readings ==> i in at)
  }

  /** The entries of one page before their readings are looked up. */
  function Window(ring: KeyRing, tag: Option<string>, rows: seq<Entry>, offset: nat, size: nat): seq<Found> {
    if tag.Some? then Page(Matching(ring, tag, rows), offset, size)
    else Matching(ring, None, Take(Drop(rows, offset), size))
  }

  lemma TakeDropSnoc<T>(s: seq<T>, x: T, offset: nat, size: nat)
    ensures Take(Drop(s + [x], offset), size) ==
            Take(Drop(s, offset), size) + (if offset <= |s| < offset + size then [x] else [])
  {
  }

  lemma WindowSnoc(ring: KeyRing, tag: Option<string>, init: seq<Entry>, e: Entry, offset: nat, size: nat)
    ensures Window(ring, tag, init + [e], offset, size) ==
            Window(ring, tag, init, offset, size)
            + (if OnPage(ring, tag, init + [e], offset, size, |init|) then [Found(e, Decrypt(ring, e).value)] else [])
  {
    hide Decrypt, Take, Drop;
    var rows := init + [e];
    assert rows[..|init|] == init && rows[|init|] == e;
    if tag.Some? {
      if Selected(ring, tag, e) { TakeDropSnoc(Matching(ring, tag, init), Found(e, Decrypt(ring, e).value), offset, size); }
    } else {
      TakeDropSnoc(init, e, offset, size);
      var slice := Take(Drop(init, offset), size);
      assert (slice + [e])[..|slice|] == slice;
      assert slice + [] == slice;
    }
  }

  lemma OnPageSnoc(ring: KeyRing, tag: Option<string>, init: seq<Entry>, e: Entry, offset: nat, size: nat, i: nat)
    requires i < |init|
    ensures OnPage(ring, tag, init + [e], offset, size, i) == OnPage(ring, tag, init, offset, size, i)
  {
    hide Decrypt, Matching;
    assert (init + [e])[..i] == init[..i];
  }

  /** What a page lists, entry by entry. */
  lemma {:induction false} PageLists(ring: KeyRing, tag: Option<string>, rows: seq<Entry>, offset: nat, size: nat,
                                     readings: map<string, Summary>)
    returns (at: seq<nat>)
    ensures ListsRows(ring, tag, rows, offset, size, readings, Views(Window(ring, tag, rows, offset, size), readings), at)
  {
    hide Window, OnPage, Decrypt, Views;
    if rows == [] {
      at := [];
      EmptyWindow(ring, tag, offset, size, readings);
    } else {
      var (init, e) := (rows[..|rows| - 1], rows[|rows| - 1]);
      assert rows == init + [e];
      at := PageLists(ring, tag, init, offset, size, readings);
      WindowSnoc(ring, tag, init, e, offset, size);
      forall i | 0 <= i < |init|
        ensures OnPage(ring, tag, rows, offset, size, i) == OnPage(ring, tag, init, offset, size, i)
      {
        OnPageSnoc(ring, tag, init, e, offset, size, i);
      }
      var window := Window(ring, tag, init, offset, size);
      OnPageRange(ring, tag, rows, offset, size);
      OnPageRange(ring, tag, init, offset, size);
      if OnPage(ring, tag, rows, offset, size, |init|) {
        ViewsSnoc(window, Found(e, Decrypt(ring, e).value), readings);
        if e.readingId in readings { at := at + [|init|]; }
      } else {
        assert window + [] == window;
      }
    }
  }

  lemma OnPageRange(ring: KeyRing, tag: Option<string>, rows: seq<Entry>, offset: nat, size: nat)
    ensures forall i :: OnPage(ring, tag, rows, offset, size, i) ==> 0 <= i < |rows| && Decrypt(ring, rows[i]).Ok?
  {
  }

  lemma EmptyWindow(ring: KeyRing, tag: Option<string>, offset: nat, size: nat, readings: map<string, Summary>)
    ensures Views(Window(ring, tag, [], offset, size), readings) == []
    ensures forall i :: !OnPage(ring, tag, [], offset, size, i)
  {
  }

  lemma ViewsSnoc(page: seq<Found>, f: Found, readings: map<string, Summary>)
    ensures Views(page + [f], readings) ==
            Views(page, readings) + if f.entry.readingId in readings then [View(f, readings[f.entry.readingId])] else []
  {
    ViewsAppend(page, [f], readings);
    assert [f][1..] == [];
  }

  /** The answer of the listing in terms of the whole ordered list. */
  ghost function ListSpec(ring: KeyRing, rows: seq<Entry>, tag: Option<string>, offset: nat, limit: Option<nat>,
                          readings: map<string, Summary>): Result<seq<View>, JournalError>
  {
    var size := Limit(limit);
    var slice := Take(Drop(rows, offset), size);
    if tag.Some? then
      if size > 0 && Blocked(ring, tag, rows, offset + size) then Err(Unreadable)
      else Ok(Views(Page(Matching(ring, tag, rows), offset, size), readings))
    else if exists e <- slice :: Decrypt(ring, e).Err? then Err(Unreadable)
    else Ok(Views(Matching(ring, None, slice), readings))
  }

  // ----- prefixes of the list -----

  lemma {:induction false} MatchingPrefix(ring: KeyRing, tag: Option<string>, rows: seq<Entry>, i: nat)
    requires i <= |rows|
    ensures Matching(ring, tag, rows[..i]) <= Matching(ring, tag, rows)
    ensures |Matching(ring, tag, rows)| <= |Matching(ring, tag, rows[..i])| + |rows| - i
  {
    hide Selected, Decrypt;
    if i == |rows| {
      assert rows[..i] == rows;
    } else {
      var init := rows[..|rows| - 1];
      assert init[..i] == rows[..i];
      MatchingPrefix(ring, tag, init, i);
    }
  }

  /** A page that is full does not change when more entries follow. */
  lemma FullPage(ring: KeyRing, tag: Option<string>, rows: seq<Entry>, i: nat, offset: nat, limit: nat)
    requires i <= |rows| && |Matching(ring, tag, rows[..i])| == offset + limit
    ensures Page(Matching(ring, tag, rows), offset, limit) == Matching(ring, tag, rows[..i])[offset..]
    ensures var wanted := offset + limit; forall j :: i <= j ==> !Blocks(ring, tag, rows, wanted, j)
  {
    hide Decrypt, Matching;
    MatchingPrefix(ring, tag, rows, i);
    var (part, all) := (Matching(ring, tag, rows[..i]), Matching(ring, tag, rows));
    assert all[..|part|] == part;
    forall j | i <= j < |rows|
      ensures |Matching(ring, tag, rows[..j])| >= offset + limit
    {
      assert rows[..j][..i] == rows[..i];
      MatchingPrefix(ring, tag, rows[..j], i);
    }
  }

  // ----- the scan -----

  /** The rows of the scanned prefix are all readable and the page is what the prefix yields. */
  ghost predicate Scanned(ring: KeyRing, tag: Option<string>, rows: seq<Entry>, i: nat, offset: nat, limit: nat,
                          skip: nat, page: seq<Found>)
  {
    && i <= |rows|
    && (forall k :: 0 <= k < i ==> Decrypt(ring, rows[k]).Ok?)
    && var found := Matching(ring, tag, rows[..i]);
       && |found| <= offset + limit
       && page == Drop(found, offset)
       && skip == (if |found| < offset then offset - |found| else 0)
  }

  lemma ScanStart(ring: KeyRing, tag: Option<string>, rows: seq<Entry>, offset: nat, limit: nat)
    ensures Scanned(ring, tag, rows, 0, offset, limit, offset, [])
  {
    assert rows[..0] == [];
  }

  lemma ScanRow(ring: KeyRing, tag: string, rows: seq<Entry>, i: nat, offset: nat, limit: nat, skip: nat, page: seq<Found>)
    requires Scanned(ring, Some(tag), rows, i, offset, limit, skip, page) && i < |rows| && Decrypt(ring, rows[i]).Ok? && |page| < limit
    ensures var payload := Decrypt(ring, rows[i]).value;
      if !HasTag(payload, tag) then Scanned(ring, Some(tag), rows, i + 1, offset, limit, skip, page)
      else if skip > 0 then Scanned(ring, Some(tag), rows, i + 1, offset, limit, skip - 1, page)
      else Scanned(ring, Some(tag), rows, i + 1, offset, limit, skip, page + [Found(rows[i], payload)])
  {
    hide Decrypt, HasTag;
    assert rows[..i + 1][..i] == rows[..i];
  }

  /** An unreadable row met by the scan blocks the page, and the ones passed do not. */
  lemma ScanBlocked(ring: KeyRing, tag: Option<string>, rows: seq<Entry>, i: nat, offset: nat, limit: nat, skip: nat, page: seq<Found>)
    requires Scanned(ring, tag, rows, i, offset, limit, skip, page) && i < |rows| && Decrypt(ring, rows[i]).Err? && |page| < limit
    ensures limit > 0 && Blocked(ring, tag, rows, offset + limit)
  {
    hide Decrypt, Matching;
    assert Blocks(ring, tag, rows, offset + limit, i);
  }

  lemma ScanDone(ring: KeyRing, tag: Option<string>, rows: seq<Entry>, i: nat, offset: nat, limit: nat, skip: nat, page: seq<Found>)
    requires Scanned(ring, tag, rows, i, offset, limit, skip, page) && (|page| == limit || i == |rows|)
    ensures page == Page(Matching(ring, tag, rows), offset, limit)
    ensures limit > 0 ==> !Blocked(ring, tag, rows, offset + limit)
  {
    hide Decrypt, Matching;
    if limit == 0 {
    } else if i == |rows| {
      assert rows[..i] == rows;
    } else {
      FullPage(ring, tag, rows, i, offset, limit);
    }
  }

  class JournalService {
    /** The user's entries that pass the date and app filters, newest first. */
    var rows: seq<Entry>
    const ring: KeyRing

    constructor (ring: KeyRing, rows: seq<Entry>)
      ensures this.ring == ring && this.rows == rows
    {
      this.ring := ring;
      this.rows := rows;
    }

    method Find(skip: nat, take: nat) returns (batch: seq<Entry>)
      ensures batch == Take(Drop(rows, skip), take)
    {
      batch := Take(Drop(rows, skip), take);
    }

    /** The batched scan yields exactly what filtering the whole list and cutting out the page
        yields, at every alignment of the batches; it fails exactly if some row it needs cannot
        be opened. */
    method ScanForTag(tag: string, offset: nat, limit: nat) returns (r: Result<seq<Found>, JournalError>)
      ensures r.Err? <==> limit > 0 && Blocked(ring, Some(tag), rows, offset + limit)
      ensures r.Ok? ==> r.value == Page(Matching(ring, Some(tag), rows), offset, limit)
    {
      hide Decrypt, HasTag, Matching, Scanned, Blocked;
      var page: seq<Found> := [];
      var scanOffset, matchingRowsToSkip, reachedEnd := 0, offset, false;
      ScanStart(ring, Some(tag), rows, offset, limit);
      ghost var at := 0;
      while |page| < limit && !reachedEnd
        invariant at <= scanOffset <= |rows| && |page| <= limit
        invariant Scanned(ring, Some(tag), rows, at, offset, limit, matchingRowsToSkip, page)
        invariant |page| < limit ==> at == scanOffset && (reachedEnd ==> at == |rows|)
        decreases |rows| - scanOffset, !reachedEnd
      {
        var batch := Find(scanOffset, TAG_FILTER_SCAN_SIZE);
        scanOffset := scanOffset + |batch|;
        reachedEnd := |batch| < TAG_FILTER_SCAN_SIZE;
        var i := 0;
        while i < |batch|
          invariant 0 <= i <= |batch| && at == scanOffset - |batch| + i && |page| < limit
          invariant Scanned(ring, Some(tag), rows, at, offset, limit, matchingRowsToSkip, page)
        {
          var entry := batch[i];
          assert entry == rows[at];
          var payload := Decrypt(ring, entry);
          if payload.Err? {
            ScanBlocked(ring, Some(tag), rows, at, offset, limit, matchingRowsToSkip, page);
            return Err(payload.error);
          }
          ScanRow(ring, tag, rows, at, offset, limit, matchingRowsToSkip, page);
          i, at := i + 1, at + 1;
          if !HasTag(payload.value, tag) {
            continue;
          }
          if matchingRowsToSkip > 0 {
            matchingRowsToSkip := matchingRowsToSkip - 1;
            continue;
          }
          page := page + [Found(entry, payload.value)];
          if |page| == limit {
            break;
          }
        }
      }
      ScanDone(ring, Some(tag), rows, at, offset, limit, matchingRowsToSkip, page);
      return Ok(page);
    }

    /** `listEntries` after its argument checks: the page, without the entries whose reading is
        not available. */
    method ListEntries(tag: Option<string>, offset: nat, limit: Option<nat>, readings: map<string, Summary>)
      returns (r: Result<seq<View>, JournalError>)
      ensures r == ListSpec(ring, rows, tag, offset, limit, readings)
      ensures r.Ok? ==> exists at :: ListsRows(ring, tag, rows, offset, Limit(limit), readings, r.value, at)
      ensures Limit(limit) == if limit.Some? && limit.value < 500 then limit.value else 500
    {
      hide Decrypt, Matching, Blocked, Views, ListsRows, Shows;
      var size := Limit(limit);
      var page: seq<Found>;
      if tag.Some? {
        var scan := ScanForTag(tag.value, offset, size);
        if scan.Err? {
          return Err(Unreadable);
        }
        page := scan.value;
      } else {
        var batch := Find(offset, size);
        var all := DecryptAll(batch);
        if all.Err? {
          return Err(Unreadable);
        }
        page := all.value;
      }
      var views := CollectViews(page, readings);
      ghost var at := PageLists(ring, tag, rows, offset, size, readings);
      return Ok(views);
    }

    method DecryptAll(batch: seq<Entry>) returns (r: Result<seq<Found>, JournalError>)
      ensures r.Err? <==> exists e <- batch :: Decrypt(ring, e).Err?
      ensures r.Ok? ==> r.value == Matching(ring, None, batch)
    {
      hide Decrypt;
      var page: seq<Found> := [];
      for i := 0 to |batch|
        invariant page == Matching(ring, None, batch[..i])
        invariant forall k :: 0 <= k < i ==> Decrypt(ring, batch[k]).Ok?
      {
        assert batch[..i + 1][..i] == batch[..i];
        var payload := Decrypt(ring, batch[i]);
        if payload.Err? {
          return Err(payload.error);
        }
        page := page + [Found(batch[i], payload.value)];
      }
      assert batch[..|batch|] == batch;
      return Ok(page);
    }

    method CollectViews(page: seq<Found>, readings: map<string, Summary>) returns (views: seq<View>)
      ensures views == Views(page, readings)
      ensures exists at :: Shows(page, readings, views, at)
      ensures (forall f <- page :: f.entry.readingId in readings) ==>
                |views| == |page| && forall i :: 0 <= i < |page| ==> views[i].found == page[i]
    {
      hide Shows;
      ghost var at := ViewsShow(page, readings);
      AllShown(page, readings);
      views := [];
      for i := 0 to |page|
        invariant views + Views(page[i..], readings) == Views(page, readings)
      {
        assert page[i..][0] == page[i] && page[i..][1..] == page[i + 1..];
        if page[i].entry.readingId in readings {
          views := views + [View(page[i], readings[page[i].entry.readingId])];
        }
      }
    }
  }

  // ----- pages over the whole list -----

  lemma {:induction false} ViewsAppend(a: seq<Found>, b: seq<Found>, readings: map<string, Summary>)
    ensures Views(a + b, readings) == Views(a, readings) + Views(b, readings)
  {
    if a == [] {
      assert a + b == b;
    } else {
      assert (a + b)[1..] == a[1..] + b;
      ViewsAppend(a[1..], b, readings);
    }
  }

  lemma {:induction false} MatchingAppend(ring: KeyRing, tag: Option<string>, a: seq<Entry>, b: seq<Entry>)
    ensures Matching(ring, tag, a + b) == Matching(ring, tag, a) + Matching(ring, tag, b)
  {
    hide Decrypt, Selected;
    if b == [] {
      assert a + b == a;
    } else {
      assert (a + b)[..|a + b| - 1] == a + b[..|b| - 1];
      MatchingAppend(ring, tag, a, b[..|b| - 1]);
    }
  }

  lemma TakePage<T>(s: seq<T>, before: nat, n: nat)
    ensures Take(s, before + n) == Take(s, before) + Take(Drop(s, before), n)
  {
  }

  /** The offset of page `k`. */
  function At(k: nat, n: nat): nat {
    k * n
  }

  /** None of the first `k` pages of size `n` fails. */
  ghost predicate PagesRead(ring: KeyRing, rows: seq<Entry>, tag: Option<string>, readings: map<string, Summary>, n: nat, k: nat) {
    hide ListSpec;
    k == 0 || (PagesRead(ring, rows, tag, readings, n, k - 1) && ListSpec(ring, rows, tag, At(k - 1, n), Some(n), readings).Ok?)
  }

  /** What a client collects from them. */
  ghost function Pages(ring: KeyRing, rows: seq<Entry>, tag: Option<string>, readings: map<string, Summary>, n: nat, k: nat): seq<View>
    requires PagesRead(ring, rows, tag, readings, n, k)
  {
    hide ListSpec;
    if k == 0 then []
    else Pages(ring, rows, tag, readings, n, k - 1) + ListSpec(ring, rows, tag, At(k - 1, n), Some(n), readings).value
  }

  lemma PrefixGrows(ring: KeyRing, rows: seq<Entry>, tag: Option<string>, readings: map<string, Summary>, before: nat, n: nat)
    requires 0 < n <= MAX_LIST_SIZE && ListSpec(ring, rows, tag, before, Some(n), readings).Ok?
    ensures Views(Window(ring, tag, rows, 0, before + n), readings) ==
            Views(Window(ring, tag, rows, 0, before), readings) + ListSpec(ring, rows, tag, before, Some(n), readings).value
  {
    hide Views, Take, Drop, Matching, Blocked, Decrypt;
    DropNone(rows);
    DropNone(Matching(ring, tag, rows));
    if tag.Some? {
      var found := Matching(ring, tag, rows);
      TakePage(found, before, n);
      ViewsAppend(Take(found, before), Page(found, before, n), readings);
    } else {
      var (head, slice) := (Take(rows, before), Take(Drop(rows, before), n));
      TakePage(rows, before, n);
      MatchingAppend(ring, None, head, slice);
      ViewsAppend(Matching(ring, None, head), Matching(ring, None, slice), readings);
    }
  }

  /** Listing page after page of any admitted size yields every readable entry with the tag and an
      available reading once, in order, with its own payload and reading. */
  lemma {:induction false} PagesTile(ring: KeyRing, rows: seq<Entry>, tag: Option<string>, readings: map<string, Summary>, n: nat, k: nat)
    requires 0 < n <= MAX_LIST_SIZE && PagesRead(ring, rows, tag, readings, n, k)
    ensures Pages(ring, rows, tag, readings, n, k) == Views(Window(ring, tag, rows, 0, At(k, n)), readings)
    ensures exists at :: ListsRows(ring, tag, rows, 0, At(k, n), readings, Pages(ring, rows, tag, readings, n, k), at)
    ensures At(k, n) >= |rows| ==>
              forall i :: 0 <= i < |rows| && Selected(ring, tag, rows[i]) ==> OnPage(ring, tag, rows, 0, At(k, n), i)
  {
    hide ListSpec, Window, OnPage, Selected, ListsRows;
    if k == 0 {
      EmptyPrefix(ring, rows, tag, readings);
    } else {
      var before := At(k - 1, n);
      assert At(k, n) == before + n;
      PagesTile(ring, rows, tag, readings, n, k - 1);
      PrefixGrows(ring, rows, tag, readings, before, n);
    }
    var at := PageLists(ring, tag, rows, 0, At(k, n), readings);
    if At(k, n) >= |rows| { AllOnPage(ring, tag, rows, At(k, n)); }
  }

  lemma EmptyPrefix(ring: KeyRing, rows: seq<Entry>, tag: Option<string>, readings: map<string, Summary>)
    ensures Views(Window(ring, tag, rows, 0, 0), readings) == []
  {
    hide Decrypt;
  }

  lemma DropNone<T>(s: seq<T>)
    ensures Drop(s, 0) == s
  {
  }

  /** Pages that reach the end of the list leave no matching row out. */
  lemma AllOnPage(ring: KeyRing, tag: Option<string>, rows: seq<Entry>, size: nat)
    requires size >= |rows|
    ensures forall i :: 0 <= i < |rows| && Selected(ring, tag, rows[i]) ==> OnPage(ring, tag, rows, 0, size, i)
  {
    hide Decrypt, Matching;
  }

  /** The simple form: exactly the readable entries that carry the tag. */
  lemma {:induction false} MatchingIs(ring: KeyRing, tag: Option<string>, rows: seq<Entry>, f: Found)
    ensures f in Matching(ring, tag, rows) <==>
              f.entry in rows && Decrypt(ring, f.entry) == Ok(f.payload) && (tag.None? || HasTag(f.payload, tag.value))
  {
    hide Decrypt, HasTag;
    if rows != [] {
      MatchingIs(ring, tag, rows[..|rows| - 1], f);
      assert rows == rows[..|rows| - 1] + [rows[|rows| - 1]];
    }
  }

  /** An entry as `createEntry` stores it is listed for exactly the tags it was written with, and
      its ciphertext is unreadable in any other row. */
  lemma StoredEntryMatches(ring: KeyRing, payload: Value, user: string, id: string, iv: nat, tag: string, e: Entry)
    requires RingOk(ring) && ring.active.Some? && user != "" && id != "" && IsJournalPayload(payload)
    requires e.encrypted == EncryptJournalPayload(ring, payload, user, id, iv).value
    ensures Decrypt(ring, e).Ok? <==> e.user == user && e.id == id
    ensures e.user == user && e.id == id ==> (Selected(ring, Some(tag), e) <==> Str(Chars(tag)) in payload.fields["tags"].items)
  {
    hide DecryptJournalPayload, EncryptJournalPayload, IsJournalPayload;
    RoundTrip(ring, payload, user, id, iv);
    JournalOpensOnlyForItsEntry(ring, payload, user, id, iv, e.user, e.id);
    JournalPayloadFields(payload);
  }

  lemma JournalPayloadFields(payload: Value)
    requires IsJournalPayload(payload)
    ensures payload.Obj? && "tags" in payload.fields && payload.fields["tags"].Arr?
  {
  }
}
