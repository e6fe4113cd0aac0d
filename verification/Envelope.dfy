/** Encrypted envelopes of readings and journal entries, and the bytes they are bound to.

    Encryption is symbolic: `Sealed(key, iv, aad, plain)` is the result of AES-GCM, and the
    base64 text of its pieces is one symbol of a text.  Everything else of a text, in
    particular the separators, is an ordinary character. */
module Envelope {
  import opened Wrappers

  /** A configured key, or the one the historical client derived from the user id. */
  datatype Key = Key(id: nat) | ClientKey(user: string)

  /** The iv, authentication tag and ciphertext of a sealed value as they appear in base64. */
  datatype Symbol =
    | Ch(c: char)
    | Iv(iv: nat)
    | Tag(of: Sealed)
    | Body(of: Sealed)
    | Legacy(of: Sealed)    // ciphertext and tag of the historical client, in one piece

  datatype Sealed = Sealed(key: Key, iv: nat, aad: string, plain: Value)

  type Text = seq<Symbol>

  /** JSON values; texts may carry base64 pieces.  A number is its printed form. */
  datatype Value =
    | Null
    | Bool(flag: bool)
    | Number(printed: string)
    | Str(text: Text)
    | Arr(items: seq<Value>)
    | Obj(fields: map<string, Value>)

  function Chars(s: string): Text {
    seq(|s|, i requires 0 <= i < |s| => Ch(s[i]))
  }

  // ----- additional authenticated data -----

  function HexDigit(n: int): char
    requires 0 <= n < 16
  {
    "0123456789abcdef"[n]
  }

  /** One character inside a JSON string literal, section 7 of RFC 8259. */
  function Escape(c: char): string {
    var n := c as int;
    if c == '"' then ['\\', '"']
    else if c == '\\' then ['\\', '\\']
    else if n == 8 then "\\b"
    else if n == 9 then "\\t"
    else if n == 10 then "\\n"
    else if n == 12 then "\\f"
    else if n == 13 then "\\r"
    else if n < 32 then "\\u00" + [HexDigit(n / 16), HexDigit(n % 16)]
    else [c]
  }

  function EscapeAll(s: string): string {
    if s == "" then "" else Escape(s[0]) + EscapeAll(s[1..])
  }

  function Quote(s: string): string {
    "\"" + EscapeAll(s) + "\""
  }

  /** `JSON.stringify` of an array of four strings. */
  function Tuple4(a: string, b: string, c: string, d: string): string {
    "[" + (Quote(a) + ("," + (Quote(b) + ("," + (Quote(c) + ("," + (Quote(d) + "]")))))))
  }

  datatype CryptoError =
    | MissingId
    | NotConfigured
    | InvalidEnvelope
    | UnsupportedEnvelope
    | KeyUnavailable
    | AuthenticationFailed
    | InvalidPayload
    | InvalidLegacy

  function ReadingAad(user: string, reading: string): Result<string, CryptoError> {
    if user == "" || reading == "" then Err(MissingId) else Ok(Tuple4("reading", user, reading, "payload"))
  }

  function JournalAad(user: string, entry: string): Result<string, CryptoError> {
    if user == "" || entry == "" then Err(MissingId) else Ok(Tuple4("journal", user, entry, "payload"))
  }

  function RollbackAad(user: string): string {
    "reading:" + user
  }

  /** An escape is one character, a backslash and a letter, or `\u00` and two hex digits, and
      says which of the three it is at its start. */
  lemma EscapeShape(c: char)
    ensures var e := Escape(c);
      && |e| == (if e[0] != '\\' then 1 else if e[1] != 'u' then 2 else 6)
      && (e[0] != '\\' ==> e[0] == c)
  {
  }

  lemma EscapeInjective(c: char, d: char)
    requires Escape(c) == Escape(d)
    ensures c == d
  {
    var (e, f) := (Escape(c), Escape(d));
    if |e| == 6 { assert e[4] == f[4] && e[5] == f[5]; }
  }

  /** Escapes are prefix-free: where one ends is determined by the text. */
  lemma EscapePrefixFree(c: char, d: char, x: string, y: string)
    requires Escape(c) + x == Escape(d) + y
    ensures c == d && x == y
  {
    hide Escape;
    var (e, f) := (Escape(c), Escape(d));
    EscapeShape(c);
    EscapeShape(d);
    assert (e + x)[0] == e[0] && (f + y)[0] == f[0];
    if e[0] == '\\' { assert (e + x)[1] == e[1] && (f + y)[1] == f[1]; }
    assert e == (e + x)[..|e|] && f == (f + y)[..|f|];
    assert x == (e + x)[|e|..] && y == (f + y)[|f|..];
    EscapeInjective(c, d);
  }

  lemma EscapeHead(c: char, x: string)
    ensures (Escape(c) + x) != "" && (Escape(c) + x)[0] != '"'
  {
  }

  /** What follows an opening quote: the closing quote, or an escape that is none. */
  lemma QuotedHead(s: string, x: string)
    ensures s == "" ==> EscapeAll(s) + "\"" + x == "\"" + x
    ensures s != "" ==> EscapeAll(s) + "\"" + x == Escape(s[0]) + (EscapeAll(s[1..]) + "\"" + x)
    ensures (EscapeAll(s) + "\"" + x)[0] == '"' <==> s == ""
  {
    hide Escape;
    if s != "" { EscapeHead(s[0], EscapeAll(s[1..]) + "\"" + x); }
  }

  /** No escape starts with a quote, so the closing quote is found unambiguously. */
  lemma {:induction false} EscapedUnambiguous(s: string, t: string, x: string, y: string)
    requires EscapeAll(s) + "\"" + x == EscapeAll(t) + "\"" + y
    ensures s == t && x == y
  {
    hide Escape, EscapeAll;
    QuotedHead(s, x);
    QuotedHead(t, y);
    if s == "" || t == "" {
      assert x == ("\"" + x)[1..] && y == ("\"" + y)[1..];
    } else {
      EscapePrefixFree(s[0], t[0], EscapeAll(s[1..]) + "\"" + x, EscapeAll(t[1..]) + "\"" + y);
      EscapedUnambiguous(s[1..], t[1..], x, y);
      assert s == [s[0]] + s[1..] && t == [t[0]] + t[1..];
    }
  }

  lemma QuoteUnambiguous(s: string, t: string, x: string, y: string)
    requires Quote(s) + x == Quote(t) + y
    ensures s == t && x == y
  {
    hide Escape, EscapeAll;
    assert (Quote(s) + x)[1..] == EscapeAll(s) + "\"" + x;
    assert (Quote(t) + y)[1..] == EscapeAll(t) + "\"" + y;
    EscapedUnambiguous(s, t, x, y);
  }

  // ----- reading JSON strings, section 7 of RFC 8259 -----

  function HexValue(c: char): Option<int> {
    if '0' <= c <= '9' then Some(c as int - '0' as int)
    else if 'a' <= c <= 'f' then Some(c as int - 'a' as int + 10)
    else if 'A' <= c <= 'F' then Some(c as int - 'A' as int + 10)
    else None
  }

  /** The character that follows a backslash in one of the two-character escapes. */
  function ShortEscape(c: char): Option<char> {
    match c
    case '"' => Some('"')
    case '\\' => Some('\\')
    case '/' => Some('/')
    case 'b' => Some(8 as char)
    case 'f' => Some(12 as char)
    case 'n' => Some(10 as char)
    case 'r' => Some(13 as char)
    case 't' => Some(9 as char)
    case _ => None
  }

  /** A `\u` escape, up to the surrogates. */
  function UnicodeEscape(t: string): Option<char> {
    if |t| < 4 || HexValue(t[0]).None? || HexValue(t[1]).None? || HexValue(t[2]).None? || HexValue(t[3]).None? then None
    else
      var n := ((HexValue(t[0]).value * 16 + HexValue(t[1]).value) * 16 + HexValue(t[2]).value) * 16 + HexValue(t[3]).value;
      if 0 <= n < 0xD800 then Some(n as char) else None
  }

  /** The first character a string literal stands for, and the rest of the text. */
  function ReadChar(t: string): Option<(char, string)> {
    if t == "" || t[0] == '"' || t[0] as int < 32 then None
    else if t[0] != '\\' then Some((t[0], t[1..]))
    else if |t| == 1 then None
    else if t[1] == 'u' then
      (if UnicodeEscape(t[2..]).Some? then Some((UnicodeEscape(t[2..]).value, t[6..])) else None)
    else if ShortEscape(t[1]).Some? then Some((ShortEscape(t[1]).value, t[2..]))
    else None
  }

  /** The string up to the closing quote, and the text after it. */
  function ReadString(t: string): Option<(string, string)>
    decreases |t|
  {
    if t != "" && t[0] == '"' then Some(("", t[1..]))
    else
      var first := ReadChar(t);
      if first.None? || |first.value.1| >= |t| then None
      else
        var later := ReadString(first.value.1);
        if later.None? then None else Some(([first.value.0] + later.value.0, later.value.1))
  }

  lemma EscapeReads(c: char, x: string)
    ensures ReadChar(Escape(c) + x) == Some((c, x))
  {
    var (e, n) := (Escape(c), c as int);
    var t := e + x;
    assert t[|e|..] == x;
    assert forall i :: 0 <= i < |e| ==> t[i] == e[i];
    if |e| == 6 {
      HexReads(n / 16);
      HexReads(n % 16);
      assert t[2..][0] == '0' && t[2..][1] == '0' && t[2..][2] == HexDigit(n / 16) && t[2..][3] == HexDigit(n % 16);
    }
  }

  lemma HexReads(n: int)
    requires 0 <= n < 16
    ensures HexValue(HexDigit(n)) == Some(n)
  {
  }

  /** A quoted string reads back as itself, whatever its characters and whatever follows. */
  lemma {:induction false} QuoteReads(s: string, x: string)
    ensures ReadString(EscapeAll(s) + "\"" + x) == Some((s, x))
    ensures Quote(s) + x == "\"" + (EscapeAll(s) + "\"" + x)
  {
    hide Escape, ReadChar;
    QuotedHead(s, x);
    if s != "" {
      var rest := EscapeAll(s[1..]) + "\"" + x;
      EscapeReads(s[0], rest);
      EscapeShape(s[0]);
      QuoteReads(s[1..], x);
      assert [s[0]] + s[1..] == s;
    }
  }

  lemma TupleInjective(a: string, b: string, c: string, d: string, a': string, b': string, c': string, d': string)
    requires Tuple4(a, b, c, d) == Tuple4(a', b', c', d')
    ensures a == a' && b == b' && c == c' && d == d'
  {
    hide Quote;
    var (z, z') := (Quote(d) + "]", Quote(d') + "]");
    var (y, y') := (Quote(c) + ("," + z), Quote(c') + ("," + z'));
    var (x, x') := (Quote(b) + ("," + y), Quote(b') + ("," + y'));
    StripFirst("[", Quote(a) + ("," + x), Quote(a') + ("," + x'));
    QuoteUnambiguous(a, a', "," + x, "," + x');
    StripFirst(",", x, x');
    QuoteUnambiguous(b, b', "," + y, "," + y');
    StripFirst(",", y, y');
    QuoteUnambiguous(c, c', "," + z, "," + z');
    StripFirst(",", z, z');
    QuoteUnambiguous(d, d', "]", "]");
  }

  lemma StripFirst(first: string, x: string, y: string)
    requires |first| == 1 && first + x == first + y
    ensures x == y
  {
    assert x == (first + x)[1..] && y == (first + y)[1..];
  }

  /** Whatever characters the ids contain, the bound bytes name one resource: reading, journal
      and rollback bindings are injective in their ids and pairwise different. */
  lemma AadSeparates(user: string, id: string, user': string, id': string)
    ensures ReadingAad(user, id).Ok? && ReadingAad(user, id) == ReadingAad(user', id') ==> user == user' && id == id'
    ensures JournalAad(user, id).Ok? && JournalAad(user, id) == JournalAad(user', id') ==> user == user' && id == id'
    ensures RollbackAad(user) == RollbackAad(user') ==> user == user'
    ensures ReadingAad(user, id).Ok? ==> ReadingAad(user, id) != JournalAad(user', id') && ReadingAad(user, id) != Ok(RollbackAad(user'))
    ensures JournalAad(user, id).Ok? ==> JournalAad(user, id) != Ok(RollbackAad(user'))
  {
    var (r, r') := (Tuple4("reading", user, id, "payload"), Tuple4("reading", user', id', "payload"));
    var (j, j') := (Tuple4("journal", user, id, "payload"), Tuple4("journal", user', id', "payload"));
    if r == r' { TupleInjective("reading", user, id, "payload", "reading", user', id', "payload"); }
    if j == j' { TupleInjective("journal", user, id, "payload", "journal", user', id', "payload"); }
    if r == j' { TupleInjective("reading", user, id, "payload", "journal", user', id', "payload"); }
    assert user == RollbackAad(user)[8..] && user' == RollbackAad(user')[8..];
    assert r[0] == '[' && j[0] == '[' && RollbackAad(user')[0] == 'r';
  }

  // ----- keys -----

  /** `ReadingEncryption`: the configured keys and the one new envelopes are sealed with. */
  datatype KeyRing = KeyRing(keys: map<string, Key>, active: Option<string>)

  predicate IsKeyIdChar(c: char) {
    'A' <= c <= 'Z' || 'a' <= c <= 'z' || '0' <= c <= '9' || c == '_' || c == '-'
  }

  predicate IsKeyId(id: string) {
    1 <= |id| <= 32 && forall c <- id :: IsKeyIdChar(c)
  }

  predicate RingOk(ring: KeyRing) {
    && (forall id <- ring.keys :: IsKeyId(id))
    && (ring.active.Some? ==> ring.active.value in ring.keys)
  }

  datatype KeyError = InvalidKeys | DuplicateKeyId | KeysRequired | ActiveKeyRequired | ActiveKeyUnknown

  function IndexOf(s: string, c: char): (i: nat)
    ensures i <= |s|
    ensures i < |s| ==> s[i] == c
    ensures c !in s[..i]
  {
    if s == "" || s[0] == c then 0
    else
      var i := 1 + IndexOf(s[1..], c);
      assert s[..i] == [s[0]] + s[1..][..i - 1];
      i
  }

  /** An entry `<id>:<base64 of 32 bytes>`; `decode` stands for the canonical base64 test. */
  function ParseEntry(entry: string, decode: string -> Option<Key>): Option<(string, Key)> {
    var i := IndexOf(entry, ':');
    if i < 1 || i == |entry| then None
    else if !IsKeyId(entry[..i]) || decode(entry[i + 1..]).None? then None
    else Some((entry[..i], decode(entry[i + 1..]).value))
  }

  /** Entry `i` is present and says this. */
  predicate EntrySays(entries: seq<string>, decode: string -> Option<Key>, i: int, parsed: Option<(string, Key)>) {
    0 <= i < |entries| && entries[i] != "" && ParseEntry(entries[i], decode) == parsed
  }

  /** The keys are exactly what the first `n` entries list. */
  ghost predicate Collected(entries: seq<string>, decode: string -> Option<Key>, n: nat, keys: map<string, Key>) {
    && (forall id <- keys :: exists i :: i < n && EntrySays(entries, decode, i, Some((id, keys[id]))))
    && (forall i, id, key :: i < n && EntrySays(entries, decode, i, Some((id, key))) ==> id in keys && keys[id] == key)
  }

  // the faults of a configuration

  ghost predicate HasMalformed(entries: seq<string>, decode: string -> Option<Key>) {
    exists i :: EntrySays(entries, decode, i, None)
  }

  /** Two entries with one id. */
  ghost predicate HasDuplicate(entries: seq<string>, decode: string -> Option<Key>) {
    exists i, j, id, a, b :: i < j && EntrySays(entries, decode, i, Some((id, a))) && EntrySays(entries, decode, j, Some((id, b)))
  }

  predicate AllBlank(entries: seq<string>) {
    forall i :: 0 <= i < |entries| ==> entries[i] == ""
  }

  ghost predicate Lists(entries: seq<string>, decode: string -> Option<Key>, id: string) {
    exists i, key :: EntrySays(entries, decode, i, Some((id, key)))
  }

  /** The loop over the entries. */
  method CollectKeys(entries: seq<string>, decode: string -> Option<Key>) returns (r: Result<map<string, Key>, KeyError>)
    ensures r.Ok? <==> !HasMalformed(entries, decode) && !HasDuplicate(entries, decode)
    ensures r.Ok? ==> Collected(entries, decode, |entries|, r.value)
    ensures r.Err? ==> if r.error == InvalidKeys then HasMalformed(entries, decode)
                       else r.error == DuplicateKeyId && HasDuplicate(entries, decode)
  {
    hide ParseEntry;
    var keys: map<string, Key> := map[];
    for n := 0 to |entries|
      invariant Collected(entries, decode, n, keys)
      invariant forall i :: i < n ==> !EntrySays(entries, decode, i, None)
      invariant forall i, j, id, a, b :: i < j < n && EntrySays(entries, decode, i, Some((id, a))) ==>
                  !EntrySays(entries, decode, j, Some((id, b)))
    {
      if entries[n] == "" {
        continue;
      }
      var entry := ParseEntry(entries[n], decode);
      if entry.None? {
        assert EntrySays(entries, decode, n, None);
        return Err(InvalidKeys);
      }
      var (id, key) := entry.value;
      assert EntrySays(entries, decode, n, Some((id, key)));
      if id in keys {
        var i :| i < n && EntrySays(entries, decode, i, Some((id, keys[id])));
        assert HasDuplicate(entries, decode);
        return Err(DuplicateKeyId);
      }
      keys := keys[id := key];
    }
    return Ok(keys);
  }

  lemma EntryIdOk(entries: seq<string>, decode: string -> Option<Key>, i: int, id: string, key: Key)
    requires EntrySays(entries, decode, i, Some((id, key)))
    ensures IsKeyId(id)
  {
  }

  /** `parseReadingEncryptionKeys` on the trimmed, comma-separated entries: a configuration is
      accepted exactly if it has none of the five faults, and then the ring holds exactly the
      listed keys; every rejection names a fault the configuration has. */
  method ParseKeys(entries: seq<string>, active: string, required: bool, decode: string -> Option<Key>)
    returns (r: Result<KeyRing, KeyError>)
    ensures r.Ok? <==>
      && !HasMalformed(entries, decode) && !HasDuplicate(entries, decode)
      && !(required && AllBlank(entries))
      && !(active == "" && (required || !AllBlank(entries)))
      && !(active != "" && !Lists(entries, decode, active))
    ensures r.Ok? ==> RingOk(r.value) && Collected(entries, decode, |entries|, r.value.keys)
    ensures r.Ok? ==> r.value.active == if active == "" then None else Some(active)
    ensures r == Err(InvalidKeys) ==> HasMalformed(entries, decode)
    ensures r == Err(DuplicateKeyId) ==> HasDuplicate(entries, decode)
    ensures r == Err(KeysRequired) ==> required && AllBlank(entries)
    ensures r == Err(ActiveKeyRequired) ==> active == "" && (required || !AllBlank(entries))
    ensures r == Err(ActiveKeyUnknown) ==> active != "" && !Lists(entries, decode, active)
  {
    hide ParseEntry, EntrySays, HasDuplicate;
    var collected := CollectKeys(entries, decode);
    if collected.Err? {
      return Err(collected.error);
    }
    var keys := collected.value;
    CollectedFacts(entries, decode, keys);
    if required && keys == map[] {
      return Err(KeysRequired);
    }
    if required && active == "" {
      return Err(ActiveKeyRequired);
    }
    if active != "" && active !in keys {
      return Err(ActiveKeyUnknown);
    }
    if keys != map[] && active == "" {
      return Err(ActiveKeyRequired);
    }
    return Ok(KeyRing(keys, if active == "" then None else Some(active)));
  }

  lemma CollectedFacts(entries: seq<string>, decode: string -> Option<Key>, keys: map<string, Key>)
    requires Collected(entries, decode, |entries|, keys) && !HasMalformed(entries, decode)
    ensures forall id <- keys :: IsKeyId(id)
    ensures forall id :: id in keys <==> Lists(entries, decode, id)
    ensures keys == map[] <==> AllBlank(entries)
  {
    hide IsKeyId, ParseEntry;
    forall id | id in keys
      ensures IsKeyId(id) && Lists(entries, decode, id) && !AllBlank(entries)
    {
      var i :| i < |entries| && EntrySays(entries, decode, i, Some((id, keys[id])));
      EntryIdOk(entries, decode, i, id, keys[id]);
    }
    forall id | Lists(entries, decode, id)
      ensures id in keys
    {
      var i, key :| EntrySays(entries, decode, i, Some((id, key)));
    }
    if !AllBlank(entries) {
      var i :| 0 <= i < |entries| && entries[i] != "";
      assert !EntrySays(entries, decode, i, None);
      var (id, key) := ParseEntry(entries[i], decode).value;
      assert EntrySays(entries, decode, i, Some((id, key)));
      assert id in keys;
    }
  }

  // ----- the ':'-separated text -----

  const COLON := Ch(':')

  function IndexOfColon(t: Text): (i: nat)
    ensures i <= |t|
  {
    if t == [] || t[0] == COLON then 0 else 1 + IndexOfColon(t[1..])
  }

  /** `split(':')` */
  function Split(t: Text): (parts: seq<Text>)
    ensures parts != []
    decreases |t|
  {
    var i := IndexOfColon(t);
    if i == |t| then [t] else [t[..i]] + Split(t[i + 1..])
  }

  function Join(parts: seq<Text>): Text
    requires parts != []
  {
    if |parts| == 1 then parts[0] else parts[0] + [COLON] + Join(parts[1..])
  }

  lemma {:induction false} IndexOfFirstColon(part: Text, rest: Text)
    requires COLON !in part
    ensures IndexOfColon(part) == |part|
    ensures IndexOfColon(part + [COLON] + rest) == |part|
  {
    if part != [] {
      assert (part + [COLON] + rest)[1..] == part[1..] + [COLON] + rest;
      IndexOfFirstColon(part[1..], rest);
    } else {
      assert part + [COLON] + rest == [COLON] + rest;
    }
  }

  /** Splitting undoes joining when no part holds a separator. */
  lemma {:induction false} SplitJoin(parts: seq<Text>)
    requires parts != [] && forall p <- parts :: COLON !in p
    ensures Split(Join(parts)) == parts
  {
    var first := parts[0];
    assert first in parts;
    if |parts| == 1 {
      IndexOfFirstColon(first, []);
    } else {
      var rest := Join(parts[1..]);
      IndexOfFirstColon(first, rest);
      var t := first + [COLON] + rest;
      assert t[..|first|] == first && t[|first| + 1..] == rest;
      SplitJoin(parts[1..]);
      assert [first] + parts[1..] == parts;
    }
  }

  // ----- sealing and opening -----

  datatype Version = V2 | V3

  function VersionText(v: Version): string {
    if v.V2? then "v2" else "v3"
  }

  function VersionOf(part: Text): Option<Version> {
    if part == Chars("v2") then Some(V2) else if part == Chars("v3") then Some(V3) else None
  }

  predicate AllChars(t: Text) {
    forall s <- t :: s.Ch?
  }

  function Plain(t: Text): Option<string> {
    if AllChars(t) then Some(seq(|t|, i requires 0 <= i < |t| => var s := t[i]; assert s in t; s.c)) else None
  }

  function EnvelopeField(data: Value): Option<Text> {
    if data.Obj? && "_enc" in data.fields && data.fields["_enc"].Str? then Some(data.fields["_enc"].text) else None
  }

  /** `getReadingEnvelopeVersion` */
  function EnvelopeVersion(data: Value): Option<Version> {
    var text := EnvelopeField(data);
    if text.None? then None else VersionOf(Split(text.value)[0])
  }

  function EnvelopeParts(version: Version, keyId: string, s: Sealed): seq<Text> {
    [Chars(VersionText(version)), Chars(keyId), [Iv(s.iv)], [Tag(s)], [Body(s)]]
  }

  function EnvelopeOf(version: Version, keyId: string, s: Sealed): Value {
    Obj(map["_enc" := Str(Join(EnvelopeParts(version, keyId, s)))])
  }

  /** `encryptPayloadWithAAD`; `iv` is the fresh random value. */
  function Seal(ring: KeyRing, payload: Value, version: Version, aad: string, iv: nat): Result<Value, CryptoError> {
    if ring.active.None? || ring.active.value == "" then Err(NotConfigured)
    else if ring.active.value !in ring.keys then Err(KeyUnavailable)
    else Ok(EnvelopeOf(version, ring.active.value, Sealed(ring.keys[ring.active.value], iv, aad, payload)))
  }

  /** `decryptPayloadWithAAD`; only the untouched pieces of one sealing under the same key and
      bound bytes authenticate, anything else fails. */
  function Open(ring: KeyRing, data: Value, aadOf: Version -> Result<string, CryptoError>): Result<Value, CryptoError> {
    var text := EnvelopeField(data);
    if text.None? then Err(InvalidEnvelope)
    else
      var parts := Split(text.value);
      if |parts| != 5 || VersionOf(parts[0]).None? || parts[1] == [] || parts[2] == [] || parts[3] == [] || parts[4] == []
      then Err(UnsupportedEnvelope)
      else
        var keyId := Plain(parts[1]);
        if keyId.None? || keyId.value !in ring.keys then Err(KeyUnavailable)
        else
          var aad := aadOf(VersionOf(parts[0]).value);
          if aad.Err? then Err(aad.error)
          else if |parts[3]| != 1 || !parts[3][0].Tag? then Err(AuthenticationFailed)
          else
            var s := parts[3][0].of;
            if parts[2] == [Iv(s.iv)] && parts[4] == [Body(s)] && s.key == ring.keys[keyId.value] && s.aad == aad.value
            then Ok(s.plain)
            else Err(AuthenticationFailed)
  }

  predicate IsReadingPayload(v: Value) {
    && v.Obj?
    && "question" in v.fields && (v.fields["question"].Null? || v.fields["question"].Str?)
    && "title" in v.fields && v.fields["title"].Str?
    && "data" in v.fields && v.fields["data"].Obj?
  }

  predicate IsJournalPayload(v: Value) {
    && v.Obj?
    && "reflection" in v.fields && v.fields["reflection"].Str?
    && "tags" in v.fields && v.fields["tags"].Arr? && |v.fields["tags"].items| <= 5
    && (forall tag <- v.fields["tags"].items :: tag.Str?)
  }

  function EncryptPayload(ring: KeyRing, payload: Value, user: string, id: string, iv: nat): Result<Value, CryptoError> {
    match ReadingAad(user, id)
    case Err(e) => Err(e)
    case Ok(aad) => Seal(ring, payload, V3, aad, iv)
  }

  function EncryptJournalPayload(ring: KeyRing, payload: Value, user: string, id: string, iv: nat): Result<Value, CryptoError> {
    match JournalAad(user, id)
    case Err(e) => Err(e)
    case Ok(aad) => Seal(ring, payload, V3, aad, iv)
  }

  function EncryptForRollback(ring: KeyRing, payload: Value, user: string, iv: nat): Result<Value, CryptoError> {
    Seal(ring, payload, V2, RollbackAad(user), iv)
  }

  function DecryptEnvelope(ring: KeyRing, data: Value, user: string, id: string): Result<Value, CryptoError> {
    match Open(ring, data, (v: Version) => if v.V2? then Ok(RollbackAad(user)) else ReadingAad(user, id))
    case Err(e) => Err(e)
    case Ok(payload) => if IsReadingPayload(payload) then Ok(payload) else Err(InvalidPayload)
  }

  function DecryptJournalPayload(ring: KeyRing, data: Value, user: string, id: string): Result<Value, CryptoError> {
    if EnvelopeVersion(data) != Some(V3) then Err(UnsupportedEnvelope)
    else
      match Open(ring, data, (v: Version) => JournalAad(user, id))
      case Err(e) => Err(e)
      case Ok(payload) => if IsJournalPayload(payload) then Ok(payload) else Err(InvalidPayload)
  }

  lemma CharsInjective(a: string, b: string)
    requires Chars(a) == Chars(b)
    ensures a == b
  {
    assert forall i :: 0 <= i < |a| ==> Ch(a[i]) == Chars(a)[i] == Chars(b)[i] == Ch(b[i]);
  }

  lemma PlainChars(a: string)
    ensures Plain(Chars(a)) == Some(a)
  {
    assert AllChars(Chars(a));
    assert Plain(Chars(a)).value == a;
  }

  lemma VersionTextOf(v: Version)
    ensures VersionOf(Chars(VersionText(v))) == Some(v)
  {
    if Chars("v3") == Chars("v2") { CharsInjective("v3", "v2"); }
  }

  /** The printed envelope splits back into its five parts. */
  lemma EnvelopeSplits(version: Version, keyId: string, s: Sealed)
    requires IsKeyId(keyId)
    ensures Split(EnvelopeField(EnvelopeOf(version, keyId, s)).value) == EnvelopeParts(version, keyId, s)
    ensures EnvelopeVersion(EnvelopeOf(version, keyId, s)) == Some(version)
  {
    assert forall i :: 0 <= i < |keyId| ==> Chars(keyId)[i] == Ch(keyId[i]) && IsKeyIdChar(keyId[i]);
    assert COLON !in Chars(keyId);
    SplitJoin(EnvelopeParts(version, keyId, s));
    VersionTextOf(version);
  }

  /** Opening a sealed value: exactly under a ring that has its key under its id, with the bytes
      it was bound to. */
  lemma OpenSealed(ring: KeyRing, version: Version, keyId: string, s: Sealed, aadOf: Version -> Result<string, CryptoError>)
    requires IsKeyId(keyId)
    ensures var r := Open(ring, EnvelopeOf(version, keyId, s), aadOf);
      && (r.Ok? <==> keyId in ring.keys && ring.keys[keyId] == s.key && aadOf(version) == Ok(s.aad))
      && (r.Ok? ==> r.value == s.plain)
  {
    EnvelopeSplits(version, keyId, s);
    PlainChars(keyId);
    VersionTextOf(version);
  }

  lemma {:induction false} JoinSplit(t: Text)
    ensures Join(Split(t)) == t
    decreases |t|
  {
    ColonFound(t);
    var i := IndexOfColon(t);
    if i < |t| {
      JoinSplit(t[i + 1..]);
      var parts := Split(t);
      assert parts[1..] == Split(t[i + 1..]);
      assert t == t[..i] + [COLON] + t[i + 1..];
    }
  }

  lemma {:induction false} ColonFound(t: Text)
    ensures IndexOfColon(t) < |t| ==> t[IndexOfColon(t)] == COLON
  {
    if t != [] && t[0] != COLON { ColonFound(t[1..]); }
  }

  /** The data is the printed envelope of something sealed under a key of the ring, with its key's
      id, its version and the bytes that version binds to, and `plain` is what was sealed. */
  ghost predicate SealedAs(ring: KeyRing, data: Value, aadOf: Version -> Result<string, CryptoError>,
                           version: Version, keyId: string, s: Sealed)
  {
    && EnvelopeField(data) == Some(Join(EnvelopeParts(version, keyId, s)))
    && keyId in ring.keys && ring.keys[keyId] == s.key && aadOf(version) == Ok(s.aad)
  }

  /** Authenticity: whatever opens was sealed, with these very pieces. */
  lemma OpenedWasSealed(ring: KeyRing, data: Value, aadOf: Version -> Result<string, CryptoError>)
    returns (version: Version, keyId: string, s: Sealed)
    requires Open(ring, data, aadOf).Ok?
    ensures SealedAs(ring, data, aadOf, version, keyId, s) && Open(ring, data, aadOf).value == s.plain
  {
    hide Split, Join;
    var text := EnvelopeField(data).value;
    var parts: seq<Text> := Split(text);
    version := VersionOf(parts[0]).value;
    keyId := Plain(parts[1]).value;
    s := parts[3][0].of;
    JoinSplit(text);
    VersionIs(parts[0]);
    PlainIs(parts[1]);
    assert parts[3] == [Tag(s)];
    assert parts == EnvelopeParts(version, keyId, s);
  }

  lemma VersionIs(part: Text)
    ensures VersionOf(part).Some? ==> part == Chars(VersionText(VersionOf(part).value))
  {
  }

  lemma PlainIs(part: Text)
    ensures Plain(part).Some? ==> part == Chars(Plain(part).value)
  {
    if Plain(part).Some? {
      forall i | 0 <= i < |part|
        ensures part[i] == Chars(Plain(part).value)[i]
      {
        assert part[i] in part;
      }
    }
  }

  /** Encrypting needs both ids and a configured active key, and says which is missing. */
  lemma EncryptsExactly(ring: KeyRing, payload: Value, user: string, id: string, iv: nat)
    ensures var (ids, active) := (user != "" && id != "", ring.active.Some? && ring.active.value != "");
      var r := EncryptPayload(ring, payload, user, id, iv);
      && (r.Ok? <==> ids && active && ring.active.value in ring.keys)
      && (r == Err(MissingId) <==> !ids)
      && (r == Err(NotConfigured) <==> ids && !active)
      && (r == Err(KeyUnavailable) <==> ids && active && ring.active.value !in ring.keys)
  {
    hide Tuple4, EnvelopeOf;
  }

  /** A reading envelope opens exactly to a question that is text or null, a text title and an
      object of data; the reader of a journal entry wants a text and at most five text tags.
      Anything else is refused although it authenticates. */
  lemma OpenedShape(ring: KeyRing, data: Value, user: string, id: string)
    ensures DecryptEnvelope(ring, data, user, id).Ok? ==>
      var fields := DecryptEnvelope(ring, data, user, id).value;
      fields.Obj? && {"question", "title", "data"} <= fields.fields.Keys
      && (fields.fields["question"].Str? || fields.fields["question"].Null?)
      && fields.fields["title"].Str? && fields.fields["data"].Obj?
    ensures DecryptJournalPayload(ring, data, user, id).Ok? ==>
      var fields := DecryptJournalPayload(ring, data, user, id).value;
      fields.Obj? && {"reflection", "tags"} <= fields.fields.Keys
      && fields.fields["reflection"].Str? && fields.fields["tags"].Arr? && |fields.fields["tags"].items| <= 5
      && forall i :: 0 <= i < |fields.fields["tags"].items| ==> fields.fields["tags"].items[i].Str?
  {
    hide Open, EnvelopeVersion;
  }

  lemma ReadingRoundTrip(ring: KeyRing, payload: Value, user: string, id: string, iv: nat)
    requires RingOk(ring) && ring.active.Some? && user != "" && id != "" && IsReadingPayload(payload)
    ensures var r := EncryptPayload(ring, payload, user, id, iv);
      r.Ok? && EnvelopeVersion(r.value) == Some(V3) && DecryptEnvelope(ring, r.value, user, id) == Ok(payload)
  {
    var keyId := ring.active.value;
    var s := Sealed(ring.keys[keyId], iv, ReadingAad(user, id).value, payload);
    hide Open, EnvelopeOf, EnvelopeVersion, Tuple4, IsReadingPayload;
    OpenSealed(ring, V3, keyId, s, (v: Version) => if v.V2? then Ok(RollbackAad(user)) else ReadingAad(user, id));
    EnvelopeSplits(V3, keyId, s);
  }

  lemma JournalRoundTrip(ring: KeyRing, payload: Value, user: string, id: string, iv: nat)
    requires RingOk(ring) && ring.active.Some? && user != "" && id != "" && IsJournalPayload(payload)
    ensures var r := EncryptJournalPayload(ring, payload, user, id, iv);
      r.Ok? && EnvelopeVersion(r.value) == Some(V3) && DecryptJournalPayload(ring, r.value, user, id) == Ok(payload)
  {
    var keyId := ring.active.value;
    var s := Sealed(ring.keys[keyId], iv, JournalAad(user, id).value, payload);
    hide Open, EnvelopeOf, EnvelopeVersion, Tuple4, IsJournalPayload;
    OpenSealed(ring, V3, keyId, s, (v: Version) => JournalAad(user, id));
    EnvelopeSplits(V3, keyId, s);
  }

  /** Encryption and decryption are inverse for the same user and row. */
  lemma RoundTrip(ring: KeyRing, payload: Value, user: string, id: string, iv: nat)
    requires RingOk(ring) && ring.active.Some? && user != "" && id != ""
    ensures IsReadingPayload(payload) ==>
      && EncryptPayload(ring, payload, user, id, iv).Ok?
      && EnvelopeVersion(EncryptPayload(ring, payload, user, id, iv).value) == Some(V3)
      && DecryptEnvelope(ring, EncryptPayload(ring, payload, user, id, iv).value, user, id) == Ok(payload)
    ensures IsJournalPayload(payload) ==>
      && EncryptJournalPayload(ring, payload, user, id, iv).Ok?
      && DecryptJournalPayload(ring, EncryptJournalPayload(ring, payload, user, id, iv).value, user, id) == Ok(payload)
  {
    hide EncryptPayload, EncryptJournalPayload, DecryptEnvelope, DecryptJournalPayload, EnvelopeVersion, IsReadingPayload, IsJournalPayload;
    if IsReadingPayload(payload) { ReadingRoundTrip(ring, payload, user, id, iv); }
    if IsJournalPayload(payload) { JournalRoundTrip(ring, payload, user, id, iv); }
  }

  /** The same for the historical format, whose binding has no row id. */
  lemma RollbackRoundTrip(ring: KeyRing, payload: Value, user: string, id: string, iv: nat)
    requires RingOk(ring) && ring.active.Some? && IsReadingPayload(payload)
    ensures var r := EncryptForRollback(ring, payload, user, iv);
      r.Ok? && EnvelopeVersion(r.value) == Some(V2) && DecryptEnvelope(ring, r.value, user, id) == Ok(payload)
  {
    var keyId := ring.active.value;
    var s := Sealed(ring.keys[keyId], iv, RollbackAad(user), payload);
    hide Open, EnvelopeOf, EnvelopeVersion, Tuple4;
    OpenSealed(ring, V2, keyId, s, (v: Version) => if v.V2? then Ok(RollbackAad(user)) else ReadingAad(user, id));
    EnvelopeSplits(V2, keyId, s);
  }

  /** Separation: a reading envelope of one row opens for exactly that user and row, and never
      as a journal entry; */
  lemma ReadingOpensOnlyForItsRow(ring: KeyRing, payload: Value, user: string, id: string, iv: nat, user': string, id': string)
    requires RingOk(ring) && ring.active.Some? && user != "" && id != "" && IsReadingPayload(payload)
    ensures var sealedData := EncryptPayload(ring, payload, user, id, iv).value;
      && (DecryptEnvelope(ring, sealedData, user', id').Ok? <==> user' == user && id' == id)
      && DecryptJournalPayload(ring, sealedData, user', id').Err?
  {
    var s := Sealed(ring.keys[ring.active.value], iv, ReadingAad(user, id).value, payload);
    AadSeparates(user, id, user', id');
    hide Open, EnvelopeOf, EnvelopeVersion, Tuple4, JournalAad, RollbackAad;
    OpenSealed(ring, V3, ring.active.value, s, (v: Version) => if v.V2? then Ok(RollbackAad(user')) else ReadingAad(user', id'));
    OpenSealed(ring, V3, ring.active.value, s, (v: Version) => JournalAad(user', id'));
  }

  /** a journal envelope opens for exactly its user and entry, and never as a reading; */
  lemma JournalOpensOnlyForItsEntry(ring: KeyRing, payload: Value, user: string, id: string, iv: nat, user': string, id': string)
    requires RingOk(ring) && ring.active.Some? && user != "" && id != "" && IsJournalPayload(payload)
    ensures var sealedData := EncryptJournalPayload(ring, payload, user, id, iv).value;
      && (DecryptJournalPayload(ring, sealedData, user', id').Ok? <==> user' == user && id' == id)
      && DecryptEnvelope(ring, sealedData, user', id').Err?
  {
    var s := Sealed(ring.keys[ring.active.value], iv, JournalAad(user, id).value, payload);
    AadSeparates(user, id, user', id');
    AadSeparates(user', id', user, id);
    EnvelopeSplits(V3, ring.active.value, s);
    hide Open, EnvelopeOf, EnvelopeVersion, Tuple4, ReadingAad, RollbackAad;
    OpenSealed(ring, V3, ring.active.value, s, (v: Version) => JournalAad(user', id'));
    OpenSealed(ring, V3, ring.active.value, s, (v: Version) => if v.V2? then Ok(RollbackAad(user')) else ReadingAad(user', id'));
  }

  /** a rollback envelope is bound to its user only. */
  lemma RollbackOpensOnlyForItsUser(ring: KeyRing, payload: Value, user: string, iv: nat, user': string, id': string)
    requires RingOk(ring) && ring.active.Some? && IsReadingPayload(payload)
    ensures var sealedData := EncryptForRollback(ring, payload, user, iv).value;
      && (DecryptEnvelope(ring, sealedData, user', id').Ok? <==> user' == user)
      && DecryptJournalPayload(ring, sealedData, user', id').Err?
  {
    var s := Sealed(ring.keys[ring.active.value], iv, RollbackAad(user), payload);
    AadSeparates(user, "id", user', "id");
    EnvelopeSplits(V2, ring.active.value, s);
    hide Open, EnvelopeOf, EnvelopeVersion, Tuple4, ReadingAad, JournalAad, RollbackAad;
    OpenSealed(ring, V2, ring.active.value, s, (v: Version) => if v.V2? then Ok(RollbackAad(user')) else ReadingAad(user', id'));
  }

  /** Relabelling a row-bound envelope as the historical version does not open it. */
  lemma RelabelledVersionRefused(ring: KeyRing, payload: Value, user: string, id: string, iv: nat, user': string, id': string)
    requires RingOk(ring) && ring.active.Some? && user != "" && id != ""
    ensures var s := Sealed(ring.keys[ring.active.value], iv, ReadingAad(user, id).value, payload);
      DecryptEnvelope(ring, EnvelopeOf(V2, ring.active.value, s), user', id').Err?
  {
    var s := Sealed(ring.keys[ring.active.value], iv, ReadingAad(user, id).value, payload);
    AadSeparates(user, id, user', id');
    hide Open, EnvelopeOf, EnvelopeVersion, Tuple4, RollbackAad;
    OpenSealed(ring, V2, ring.active.value, s, (v: Version) => if v.V2? then Ok(RollbackAad(user')) else ReadingAad(user', id'));
  }
}
