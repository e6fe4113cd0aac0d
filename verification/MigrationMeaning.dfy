/** What the payload of a converted historical row says in terms of the columns it came from. */
module MigrationMeaning {
  import opened Numbers
  import opened Wrappers
  import opened Envelope
  import opened Migration
  import opened MigrationPass
  import opened MigrationSafety

  // ----- what a column stands for -----

  predicate Prefixed(text: Envelope.Text) {
    Chars(LEGACY_PREFIX) <= text
  }

  /** The text the historical client stored for a value it sealed. */
  function ClientText(s: Sealed): Envelope.Text {
    Chars(LEGACY_PREFIX) + [Iv(s.iv), COLON, Legacy(s)]
  }

  /** A stored value stands for a plain one: a prefixed text for what the user's client sealed in
      it, every other text, number, flag and null for itself, and lists and objects for the same
      list or object of what their parts stand for. */
  ghost predicate StandsFor(stored: Value, plain: Value, user: string) {
    match stored
    case Str(text) =>
      if Prefixed(text) then user != "" && exists iv :: text == ClientText(Sealed(ClientKey(user), iv, "", plain))
      else plain == stored
    case Arr(items) =>
      plain.Arr? && |plain.items| == |items| && forall i :: 0 <= i < |items| ==> StandsFor(items[i], plain.items[i], user)
    case Obj(fields) =>
      plain.Obj? && plain.fields.Keys == fields.Keys && forall k <- fields :: StandsFor(fields[k], plain.fields[k], user)
    case _ => plain == stored
  }

  /** The text a value is shown as; lists, objects and null have none. */
  ghost predicate PrintedAs(value: Value, text: Value) {
    match value
    case Str(_) => text == value
    case Number(printed) => text == Str(Chars(printed))
    case Bool(flag) => text == Str(Chars(if flag then "true" else "false"))
    case _ => text == Null
  }

  ghost predicate ShownAs(column: Value, text: Value, user: string) {
    exists plain :: StandsFor(column, plain, user) && PrintedAs(plain, text)
  }

  /** The payload consists of the row's question, title and data, each in its own place. */
  ghost predicate SaysColumns(row: Reading, payload: Value) {
    && payload.Obj? && payload.fields.Keys == {"question", "title", "data"}
    && ShownAs(row.question, payload.fields["question"], row.user)
    && ShownAs(row.title, payload.fields["title"], row.user) && payload.fields["title"] != Null
    && StandsFor(row.data, payload.fields["data"], row.user) && payload.fields["data"].Obj?
  }

  // ----- the decryption of the columns -----

  lemma JoinTwo(a: Envelope.Text, b: Envelope.Text)
    ensures Join([a, b]) == a + [COLON] + b
  {
    assert [a, b][1..] == [b];
  }

  lemma ClientParts(s: Sealed)
    ensures Split(ClientText(s)[8..]) == [[Iv(s.iv)], [Legacy(s)]]
  {
    hide Split;
    JoinTwo([Iv(s.iv)], [Legacy(s)]);
    assert ClientText(s)[8..] == [Iv(s.iv)] + [COLON] + [Legacy(s)];
    SplitJoin([[Iv(s.iv)], [Legacy(s)]]);
  }

  /** The parts of a client text determine it. */
  lemma ClientTextOf(text: Envelope.Text, s: Sealed)
    requires Prefixed(text) && Split(text[8..]) == [[Iv(s.iv)], [Legacy(s)]]
    ensures text == ClientText(s)
  {
    hide Split;
    JoinSplit(text[8..]);
    JoinTwo([Iv(s.iv)], [Legacy(s)]);
    assert text == text[..8] + text[8..];
  }

  /** The client's value is found exactly in a text that stands for one. */
  lemma ValueStands(text: Envelope.Text, plain: Value, user: string)
    ensures LegacyClientValue(text, user) == Ok(plain) <==> StandsFor(Str(text), plain, user)
  {
    hide Split;
    assert Prefixed(text) <==> |text| >= 8 && text[..8] == Chars(LEGACY_PREFIX);
    if Prefixed(text) && user != "" {
      var parts: seq<Envelope.Text> := Split(text[8..]);
      if LegacyClientValue(text, user) == Ok(plain) {
        var s: Sealed := parts[1][0].of;
        assert parts[1] == [Legacy(s)] && parts == [parts[0], parts[1]];
        ClientTextOf(text, s);
        assert s == Sealed(ClientKey(user), s.iv, "", plain);
      }
      if StandsFor(Str(text), plain, user) {
        var iv :| text == ClientText(Sealed(ClientKey(user), iv, "", plain));
        ClientParts(Sealed(ClientKey(user), iv, "", plain));
      }
    }
  }

  /** Decrypting a tree succeeds exactly if it stands for something, and gives what it stands for. */
  lemma {:induction false} TreeStands(stored: Value, plain: Value, user: string)
    ensures LegacyClientTree(stored, user) == Ok(plain) <==> StandsFor(stored, plain, user)
    decreases stored
  {
    hide LegacyClientValue;
    match stored
    case Str(text) => ValueStands(text, plain, user);
    case Arr(items) =>
      forall i, part | 0 <= i < |items|
        ensures LegacyClientTree(items[i], user) == Ok(part) <==> StandsFor(items[i], part, user)
      {
        TreeStands(items[i], part, user);
      }
      ListStands(items, plain, user);
    case Obj(fields) =>
      forall k, part | k in fields
        ensures LegacyClientTree(fields[k], user) == Ok(part) <==> StandsFor(fields[k], part, user)
      {
        TreeStands(fields[k], part, user);
      }
      ObjectStands(fields, plain, user);
    case _ =>
  }

  lemma ListStands(items: seq<Value>, plain: Value, user: string)
    requires forall i, part :: 0 <= i < |items| ==>
               (LegacyClientTree(items[i], user) == Ok(part) <==> StandsFor(items[i], part, user))
    ensures LegacyClientTree(Arr(items), user) == Ok(plain) <==> StandsFor(Arr(items), plain, user)
  {
    if StandsFor(Arr(items), plain, user) {
      assert forall i :: 0 <= i < |items| ==> LegacyClientTree(items[i], user) == Ok(plain.items[i]);
      assert LegacyClientTree(Arr(items), user).value.items == plain.items;
    }
  }

  lemma ObjectStands(fields: map<string, Value>, plain: Value, user: string)
    requires forall k, part :: k in fields ==>
               (LegacyClientTree(fields[k], user) == Ok(part) <==> StandsFor(fields[k], part, user))
    ensures LegacyClientTree(Obj(fields), user) == Ok(plain) <==> StandsFor(Obj(fields), plain, user)
  {
    if StandsFor(Obj(fields), plain, user) {
      assert forall k <- fields :: LegacyClientTree(fields[k], user) == Ok(plain.fields[k]);
      assert LegacyClientTree(Obj(fields), user).value.fields == plain.fields;
    }
  }

  lemma TextPrints(value: Value, text: Value)
    ensures LegacyText(value) == text <==> PrintedAs(value, text)
  {
  }

  lemma ColumnShows(column: Value, text: Value, user: string)
    ensures LegacyClientTree(column, user).Ok? && LegacyText(LegacyClientTree(column, user).value) == text <==>
              ShownAs(column, text, user)
  {
    hide LegacyClientTree, StandsFor;
    var plain := LegacyClientTree(column, user);
    if plain.Ok? {
      TreeStands(column, plain.value, user);
      TextPrints(plain.value, text);
    }
    if ShownAs(column, text, user) {
      var shown :| StandsFor(column, shown, user) && PrintedAs(shown, text);
      TreeStands(column, shown, user);
      TextPrints(shown, text);
    }
  }

  /** A historical row has a payload exactly if its columns say one, and it is that one. */
  lemma LegacyPayloadSays(row: Reading, payload: Value)
    ensures LegacyPayload(row) == Ok(payload) <==> SaysColumns(row, payload)
  {
    hide LegacyClientTree, StandsFor, ShownAs, LegacyText;
    if payload.Obj? && payload.fields.Keys == {"question", "title", "data"} {
      ColumnShows(row.question, payload.fields["question"], row.user);
      ColumnShows(row.title, payload.fields["title"], row.user);
      TreeStands(row.data, payload.fields["data"], row.user);
      assert payload.fields == map["question" := payload.fields["question"], "title" := payload.fields["title"],
                                   "data" := payload.fields["data"]];
    }
  }

  // ----- after the migration -----

  predicate IsHistorical(row: Reading) {
    !HasEnvelope(row.data)
  }

  lemma HistoricalReads(ring: KeyRing, row: Reading, payload: Value)
    requires IsHistorical(row)
    ensures PayloadOf(ring, row) == Ok(payload) <==> SaysColumns(row, payload)
  {
    hide SaysColumns, LegacyPayload, Split;
    LegacyPayloadSays(row, payload);
  }

  /** A forward pass converts a historical row exactly into an envelope for its user and row that
      opens to what the row's own columns said. */
  lemma ConvertedSaysColumns(p: Pass, row: Reading)
    requires RingOk(p.ring) && IsHistorical(row) && p.Of(row).Rewritten?
    ensures var r := DecryptEnvelope(p.ring, p.Of(row).row.data, row.user, row.id);
      r.Ok? && SaysColumns(row, r.value)
  {
    hide SaysColumns, RowOutcome, PayloadOf, EnvelopeVersion, DecryptEnvelope;
    RewrittenKeepsPayload(p, row);
    var payload := PayloadOf(p.ring, row).value;
    HistoricalReads(p.ring, row, payload);
    EnvelopeReads(p.ring, p.Of(row).row);
  }

  lemma EnvelopeReads(ring: KeyRing, row: Reading)
    requires EnvelopeVersion(row.data).Some?
    ensures PayloadOf(ring, row) == DecryptEnvelope(ring, row.data, row.user, row.id)
  {
    hide EnvelopeVersion, DecryptEnvelope;
  }

  /** Whatever passes run, complete or stopped, a row that was historical at the start is readable
      at the end exactly if its original columns said something, and says that. */
  lemma PassesKeepColumns(passes: seq<Pass>, rows: seq<Reading>, ring: KeyRing, i: nat, payload: Value)
    requires forall p <- passes :: p.options.batchSize > 0 && RingOk(p.ring) && Contains(ring, p.ring)
    requires i < |rows| && IsHistorical(rows[i])
    ensures |AfterPasses(passes, rows)| == |rows|
    ensures PayloadOf(ring, AfterPasses(passes, rows)[i]) == Ok(payload) <==> SaysColumns(rows[i], payload)
  {
    hide SaysColumns, PayloadOf, AfterPasses, RingOk, Contains, IsHistorical;
    PassesKeepPayloads(passes, rows, ring);
    HistoricalReads(ring, rows[i], payload);
  }

  // ----- what stays in the clear -----

  /** A name cut to `n` characters with every other character replaced, or the fallback. */
  ghost predicate Cleaned(s: string, n: nat, fallback: string, safe: string) {
    if s == "" then safe == fallback
    else |safe| == Min(|s|, n) && forall i :: 0 <= i < |safe| ==> safe[i] == if IsKeyIdChar(s[i]) then s[i] else '_'
  }

  lemma SafeCleans(s: string, n: nat, fallback: string)
    requires n > 0
    ensures Cleaned(s, n, fallback, Safe(s, n, fallback))
  {
    hide IsKeyIdChar;
  }

  /** A converted row shows its id, user, app and kind, the cleaned names of the last two as its
      title, and the envelope; question and data are gone from the clear. */
  lemma ConvertedHidesText(p: Pass, row: Reading)
    requires RingOk(p.ring) && !p.options.rollback && p.Of(row).Rewritten?
    ensures var row' := p.Of(row).row;
      && SameRecord(row', row) && row'.question == Null && row'.data.Obj? && row'.data.fields.Keys == {"_enc"}
      && exists app, kind :: Cleaned(row.app, 20, "app", app) && Cleaned(row.kind, 50, "reading", kind)
                             && row'.title == Str(Chars(app + ":" + kind))
  {
    hide RowOutcome, Cleaned;
    ForwardRewrites(p, row);
    TitleCleans(row.app, row.kind);
  }

  lemma ForwardRewrites(p: Pass, row: Reading)
    requires !p.options.rollback && p.Of(row).Rewritten?
    ensures exists envelope :: Hidden(row, p.Of(row).row, envelope)
  {
    hide EnvelopeVersion, DecryptEnvelope, LegacyPayload, EncryptPayload, StorageTitle, Rewrite;
    RewriteHides(p.ring, row, PayloadOf(p.ring, row).value, p.draws(row.id));
  }

  /** The row with nothing but the envelope left of its content. */
  predicate Hidden(row: Reading, row': Reading, envelope: Value) {
    row' == row.(question := Null, title := Str(Chars(StorageTitle(row.app, row.kind))), data := Obj(map["_enc" := envelope]))
  }

  lemma RewriteHides(ring: KeyRing, row: Reading, payload: Value, iv: nat)
    ensures var outcome := Rewrite(ring, row, payload, iv);
      outcome.Rewritten? ==> exists envelope :: Hidden(row, outcome.row, envelope)
  {
    hide StorageTitle, Join, Tuple4;
    var data := EncryptPayload(ring, payload, row.user, row.id, iv);
    if data.Ok? { assert Hidden(row, Rewrite(ring, row, payload, iv).row, data.value.fields["_enc"]); }
  }

  lemma TitleCleans(app: string, kind: string)
    ensures exists a, k :: Cleaned(app, 20, "app", a) && Cleaned(kind, 50, "reading", k) && StorageTitle(app, kind) == a + ":" + k
  {
    hide Safe, Cleaned;
    SafeCleans(app, 20, "app");
    SafeCleans(kind, 50, "reading");
  }

  /** Rolling back changes the envelope only. */
  lemma RollbackKeepsColumns(p: Pass, row: Reading)
    requires p.options.rollback && p.Of(row).Rewritten?
    ensures p.Of(row).row == row.(data := p.Of(row).row.data) && p.Of(row).row.data.Obj?
  {
    hide EnvelopeVersion, DecryptEnvelope, LegacyPayload;
  }
}
