/** The inspector against the event stream format of section 9.2.6 of the WHATWG HTML Standard.

    The standard's parser is written down on decoded text, after a byte order mark was dropped.
    The events it dispatches are judged as the inspector judges an event: by their type and by
    their data lines. */
module SseStandard {
  import opened Wrappers
  import opened SseInspector
  import opened SseVerdict

  // ----- the standard's parser -----

  function IndexOfEnd(s: string): (i: nat)
    ensures i <= |s|
  {
    if s == "" || s[0] == '\n' || s[0] == '\r' then 0 else 1 + IndexOfEnd(s[1..])
  }

  /** Lines end with a line feed, a carriage return, or both in this order. */
  function StandardLines(text: string): seq<string>
    decreases |text|
  {
    var i := IndexOfEnd(text);
    if i == |text| then (if text == "" then [] else [text])
    else
      var next := if text[i] == '\r' && i + 1 < |text| && text[i + 1] == '\n' then i + 2 else i + 1;
      [text[..i]] + StandardLines(text[next..])
  }

  function ColonIndex(s: string): (i: nat)
    ensures i <= |s|
  {
    if s == "" || s[0] == ':' then 0 else 1 + ColonIndex(s[1..])
  }

  function FieldName(line: string): string {
    line[..ColonIndex(line)]
  }

  function FieldValue(line: string): string {
    var i := ColonIndex(line);
    if i == |line| then "" else StripSpace(line[i + 1..])
  }

  datatype Dispatched = Dispatched(kind: string, data: seq<string>)

  /** The events dispatched by `lines` when `kind` and `data` are in the buffers.  A blank line
      dispatches if there is data; what is pending at the end is discarded. */
  function Dispatch(lines: seq<string>, kind: string, data: seq<string>): seq<Dispatched>
    decreases |lines|
  {
    if lines == [] then []
    else if lines[0] == "" then (if data == [] then [] else [Dispatched(kind, data)]) + Dispatch(lines[1..], "", [])
    else if ColonIndex(lines[0]) == 0 then Dispatch(lines[1..], kind, data)
    else if FieldName(lines[0]) == "event" then Dispatch(lines[1..], FieldValue(lines[0]), data)
    else if FieldName(lines[0]) == "data" then Dispatch(lines[1..], kind, data + [FieldValue(lines[0])])
    else Dispatch(lines[1..], kind, data)
  }

  function StandardEvents(text: string): seq<Dispatched> {
    Dispatch(StandardLines(text), "", [])
  }

  function DispatchedFlags(parse: Parser, events: seq<Dispatched>): Flags {
    if events == [] then NONE
    else
      Flags(false, events[0].kind == "error").Or(DataFlags(parse, events[0].data)).Or(DispatchedFlags(parse, events[1..]))
  }

  function StandardFlags(parse: Parser, text: string): Flags {
    DispatchedFlags(parse, StandardEvents(text))
  }

  // ----- lines -----

  predicate LoneCr(text: string, i: int) {
    0 <= i < |text| - 1 && text[i] == '\r' && text[i + 1] != '\n'
  }

  /** No carriage return stands alone inside the text. */
  ghost predicate CleanEnds(text: string) {
    forall i :: !LoneCr(text, i)
  }

  function Stripped(rawLines: seq<string>): seq<string> {
    seq(|rawLines|, i requires 0 <= i < |rawLines| => StripCr(rawLines[i]))
  }

  lemma {:induction false} EndIs(s: string, i: nat)
    requires i <= |s| && (forall k :: 0 <= k < i ==> s[k] != '\n' && s[k] != '\r')
    requires i < |s| ==> s[i] == '\n' || s[i] == '\r'
    ensures IndexOfEnd(s) == i
  {
    if i > 0 { EndIs(s[1..], i - 1); }
  }

  lemma NoEndBefore(text: string, i: nat)
    requires CleanEnds(text) && i <= |text| && (forall k :: 0 <= k < i ==> text[k] != '\n')
    requires i < |text| ==> text[i] == '\n'
    ensures var e := if i > 0 && text[i - 1] == '\r' then i - 1 else i;
      IndexOfEnd(text) == e && StripCr(text[..i]) == text[..e]
  {
    hide IndexOfEnd;
    forall k | 0 <= k < i - 1
      ensures text[k] != '\r'
    {
      assert !LoneCr(text, k) && text[k + 1] != '\n';
    }
    EndIs(text, if i > 0 && text[i - 1] == '\r' then i - 1 else i);
  }

  /** Where the first line of a text without lone carriage returns ends. */
  lemma FirstEnd(text: string)
    requires CleanEnds(text)
    ensures var (i, e) := (IndexOfNewline(text), IndexOfEnd(text));
      StripCr(text[..i]) == text[..e] && e == if i > 0 && text[i - 1] == '\r' then i - 1 else i
  {
    hide IndexOfNewline, IndexOfEnd, CleanEnds, StripCr;
    var i := IndexOfNewline(text);
    var line := text[..i];
    assert forall k :: 0 <= k < i ==> line[k] == text[k] && line[k] in line;
    NoEndBefore(text, i);
  }

  /** Apart from lone carriage returns both parsers see the same lines. */
  lemma {:induction false} SameLines(text: string)
    requires CleanEnds(text)
    ensures StandardLines(text) == Stripped(Lines(text))
    decreases |text|
  {
    hide IndexOfEnd, IndexOfNewline, StripCr;
    var i := IndexOfNewline(text);
    FirstEnd(text);
    if i < |text| {
      hide CleanEnds, StandardLines, Lines;
      SameRest(text);
      SameLines(text[i + 1..]);
      LinesCons(text);
      StrippedCons(text[..i], Lines(text[i + 1..]));
    } else if text != "" {
      assert text[..|text|] == text;
      LastStandardLine(text);
      assert Stripped([text]) == [StripCr(text)];
    }
  }

  lemma LinesCons(text: string)
    requires IndexOfNewline(text) < |text|
    ensures var i := IndexOfNewline(text);
      Lines(text) == [text[..i]] + Lines(text[i + 1..])
  {
    hide IndexOfNewline;
  }

  lemma StrippedCons(line: string, rest: seq<string>)
    ensures Stripped([line] + rest) == [StripCr(line)] + Stripped(rest)
  {
    hide StripCr;
  }

  lemma SameRest(text: string)
    requires CleanEnds(text) && IndexOfNewline(text) < |text|
    ensures var i := IndexOfNewline(text);
      CleanEnds(text[i + 1..]) && StandardLines(text) == [text[..IndexOfEnd(text)]] + StandardLines(text[i + 1..])
  {
    hide IndexOfEnd, IndexOfNewline, StripCr;
    var i := IndexOfNewline(text);
    FirstEnd(text);
    CleanRest(text, i + 1);
    hide CleanEnds;
  }

  lemma CleanRest(text: string, n: nat)
    requires CleanEnds(text) && n <= |text|
    ensures CleanEnds(text[n..])
  {
    var rest := text[n..];
    forall i
      ensures !LoneCr(rest, i)
    {
      assert !LoneCr(text, n + i);
    }
  }

  lemma LastStandardLine(text: string)
    requires CleanEnds(text) && text != "" && IndexOfNewline(text) == |text|
    ensures StandardLines(text) == [StripCr(text)]
  {
    assert text[..|text|] == text && text[|text|..] == "";
    FirstEnd(text);
    EndIs("", 0);
    hide IndexOfEnd, IndexOfNewline;
    assert StandardLines("") == [];
  }

  // ----- one line -----

  lemma {:induction false} ColonIs(s: string, i: nat)
    requires i <= |s| && (forall k :: 0 <= k < i ==> s[k] != ':') && (i < |s| ==> s[i] == ':')
    ensures ColonIndex(s) == i
  {
    if i > 0 { ColonIs(s[1..], i - 1); }
  }

  lemma {:induction false} BeforeColon(s: string)
    ensures forall k :: 0 <= k < ColonIndex(s) ==> s[k] != ':'
    ensures ColonIndex(s) < |s| ==> s[ColonIndex(s)] == ':'
  {
    if s != "" && s[0] != ':' { BeforeColon(s[1..]); }
  }

  /** A line starts with `name:` exactly if it is a field of that name with a colon. */
  lemma StartsWithField(line: string, name: string)
    requires forall k :: 0 <= k < |name| ==> name[k] != ':'
    ensures StartsWith(line, name + ":") <==> ColonIndex(line) < |line| && FieldName(line) == name
  {
    hide ColonIndex;
    BeforeColon(line);
    if StartsWith(line, name + ":") {
      PrefixFacts(line, name);
      ColonIs(line, |name|);
    }
    if ColonIndex(line) < |line| && FieldName(line) == name {
      assert line[..|name| + 1] == line[..|name|] + [line[|name|]];
    }
  }

  lemma PrefixFacts(line: string, name: string)
    requires StartsWith(line, name + ":")
    ensures |name| < |line| && line[|name|] == ':' && line[..|name|] == name
    ensures forall k :: 0 <= k < |name| ==> line[k] == name[k]
  {
    var p := name + ":";
    assert forall k :: 0 <= k < |p| ==> line[k] == line[..|p|][k] == p[k];
  }

  /** How the inspector's kinds of line relate to the standard's fields. */
  lemma LineAgrees(line: string)
    requires line != "data"
    ensures match ClassifyLine(line)
            case Blank => line == ""
            case Comment => line != "" && ColonIndex(line) == 0
            case EventName(name) => line != "" && ColonIndex(line) > 0 && FieldName(line) == "event"
                                  && (FieldValue(line) == "error" ==> name == "error")
            case Data(text) => line != "" && ColonIndex(line) > 0 && FieldName(line) == "data" && FieldValue(line) == text
            case Skipped => line != "" && ColonIndex(line) > 0 && FieldName(line) != "event" && FieldName(line) != "data"
            case Bare(_) => line != "" && ColonIndex(line) > 0 && FieldName(line) != "data"
                            && (FieldName(line) == "event" ==> line == "event" && FieldValue(line) == "")
  {
    BeforeColon(line);
    StartsWithField(line, "");
    StartsWithField(line, "event");
    StartsWithField(line, "data");
    StartsWithField(line, "id");
    StartsWithField(line, "retry");
    assert "" + ":" == ":" && "event" + ":" == "event:" && "data" + ":" == "data:" && "id" + ":" == "id:" && "retry" + ":" == "retry:";
    if ColonIndex(line) == |line| { assert FieldName(line) == line; }
    hide StartsWith, ColonIndex, Trim, Lower;
    if line != "" && ClassifyLine(line).EventName? && FieldValue(line) == "error" {
      ErrorName(line[6..]);
    }
  }

  lemma ErrorName(rest: string)
    requires StripSpace(rest) == "error"
    ensures Lower(Trim(rest)) == "error"
  {
    if rest != "error" { assert rest[1..] == "error" && TrimStart(rest) == TrimStart(rest[1..]); }
    assert TrimStart("error") == "error" && TrimEnd("error") == "error";
    assert Lower("error") == "error";
  }

  // ----- the inspector's verdict in the standard's terms -----

  /** What the inspector adds: error names and bare payloads as soon as they are read, and the
      data of an event the stream does not end. */
  function Beyond(parse: Parser, lines: seq<Line>): Flags {
    AllLineFlags(parse, lines).Or(DataFlags(parse, Pending(lines)))
  }

  function Pending(lines: seq<Line>): seq<string> {
    var events := Events(lines);
    events[|events| - 1]
  }

  function LineKinds(lines: seq<string>): seq<Line> {
    seq(|lines|, i requires 0 <= i < |lines| => ClassifyLine(lines[i]))
  }

  function LastOf(events: seq<seq<string>>): seq<string>
    requires events != []
  {
    events[|events| - 1]
  }

  // ----- one step of each parser -----

  lemma DispatchStep(line: string, rest: seq<string>, kind: string, data: seq<string>)
    requires line != "data"
    ensures Dispatch([line] + rest, kind, data) ==
              match ClassifyLine(line)
              case Blank => (if data == [] then [] else [Dispatched(kind, data)]) + Dispatch(rest, "", [])
              case EventName(_) => Dispatch(rest, FieldValue(line), data)
              case Data(text) => Dispatch(rest, kind, data + [text])
              case Bare(_) => Dispatch(rest, if line == "event" then "" else kind, data)
              case _ => Dispatch(rest, kind, data)
  {
    LineAgrees(line);
    assert ([line] + rest)[1..] == rest;
    if line == "event" { ColonIs("event", 5); }
    hide ClassifyLine, FieldValue, ColonIndex;
  }

  lemma DispatchEnd(kind: string, data: seq<string>)
    ensures Dispatch([], kind, data) == []
  {
  }

  lemma KindsCons(line: string, rest: seq<string>)
    ensures LineKinds([line] + rest) == [ClassifyLine(line)] + LineKinds(rest)
  {
    hide ClassifyLine;
  }

  lemma NoKinds()
    ensures LineKinds([]) == []
  {
  }

  lemma LinesStep(parse: Parser, line: Line, rest: seq<Line>)
    ensures AllLineFlags(parse, [line] + rest) == LineFlags(parse, line).Or(AllLineFlags(parse, rest))
    ensures Events([line] + rest) == EventsBefore(line, Events(rest))
  {
    hide LineFlags;
    assert ([line] + rest)[1..] == rest;
  }

  lemma EventsStep(parse: Parser, data: seq<string>, rest: seq<seq<string>>)
    ensures AllEventFlags(parse, [data] + rest) == DataFlags(parse, data).Or(AllEventFlags(parse, rest))
  {
    hide DataFlags;
    assert ([data] + rest)[1..] == rest;
  }

  lemma DispatchedStep(parse: Parser, event: Dispatched, rest: seq<Dispatched>)
    ensures DispatchedFlags(parse, [event] + rest) ==
            Flags(false, event.kind == "error").Or(DataFlags(parse, event.data)).Or(DispatchedFlags(parse, rest))
  {
    hide DataFlags;
    assert ([event] + rest)[1..] == rest;
  }

  lemma NamelessStep(rest: seq<string>, kind: string, data: seq<string>)
    ensures Dispatch(["data"] + rest, kind, data) == Dispatch(rest, kind, data + [""])
    ensures ClassifyLine("data") == Bare("data")
  {
    ColonIs("data", 4);
    assert FieldName("data") == "data" && FieldValue("data") == "";
    assert (["data"] + rest)[1..] == rest;
    NamelessKind();
    hide ClassifyLine, ColonIndex, FieldName, FieldValue;
  }

  lemma NamelessKind()
    ensures ClassifyLine("data") == Bare("data")
  {
    assert "data"[0] == 'd';
  }

  // ----- a line that is just `data` -----

  predicate SameFed(parse: Parser, a: string, b: string) {
    PayloadFlags(parse, a + "\n\n" + b) == PayloadFlags(parse, a + "\n" + b)
  }

  /** A second line feed changes nothing, as in JSON: outside of strings it is white space, and
      inside of strings neither one nor two are allowed. */
  ghost predicate IgnoresLineFeeds(parse: Parser) {
    forall a, b :: SameFed(parse, a, b)
  }

  /** `s` is `d` with empty lines inserted. */
  predicate Padded(s: seq<string>, d: seq<string>) {
    if s == [] then d == []
    else
      var (init, last) := (s[..|s| - 1], s[|s| - 1]);
      (last == "" && Padded(init, d)) || (d != [] && last == d[|d| - 1] && Padded(init, d[..|d| - 1]))
  }

  lemma {:induction false} PaddedSelf(d: seq<string>)
    ensures Padded(d, d)
  {
    if d != [] { PaddedSelf(d[..|d| - 1]); }
  }

  /** The lines of an event, each with its line feed. */
  function Terminated(data: seq<string>): string {
    if data == [] then "" else Terminated(data[..|data| - 1]) + data[|data| - 1] + "\n"
  }

  lemma {:induction false} TerminatedFlags(parse: Parser, s: seq<string>, d: seq<string>, x: string)
    requires IgnoresLineFeeds(parse) && Padded(s, d)
    ensures PayloadFlags(parse, Terminated(s) + x) == PayloadFlags(parse, Terminated(d) + x)
  {
    hide PayloadFlags, Terminated, IgnoresLineFeeds;
    if s != [] {
      var (init, last) := (s[..|s| - 1], s[|s| - 1]);
      TerminatedStep(s, x);
      if last == "" && Padded(init, d) {
        assert "" + "\n" + x == "\n" + x;
        TerminatedFlags(parse, init, d, "\n" + x);
        FeedAfter(parse, d, x);
      } else {
        TerminatedStep(d, x);
        TerminatedFlags(parse, init, d[..|d| - 1], last + "\n" + x);
      }
    }
  }

  lemma TerminatedStep(data: seq<string>, x: string)
    requires data != []
    ensures Terminated(data) + x == Terminated(data[..|data| - 1]) + (data[|data| - 1] + "\n" + x)
  {
  }

  /** One more line feed after terminated lines. */
  lemma FeedAfter(parse: Parser, d: seq<string>, x: string)
    requires IgnoresLineFeeds(parse)
    ensures PayloadFlags(parse, Terminated(d) + ("\n" + x)) == PayloadFlags(parse, Terminated(d) + x)
  {
    if d == [] {
      LeadingFeed(x);
      assert Terminated(d) + ("\n" + x) == "\n" + x && Terminated(d) + x == x;
    } else {
      var a := Terminated(d[..|d| - 1]) + d[|d| - 1];
      assert SameFed(parse, a, x);
      assert Terminated(d) + ("\n" + x) == a + "\n\n" + x && Terminated(d) + x == a + "\n" + x;
    }
  }

  lemma LeadingFeed(x: string)
    ensures Trim("\n" + x) == Trim(x)
  {
    assert ("\n" + x)[1..] == x;
  }

  lemma TrailingFeed(x: string)
    ensures Trim(x + "\n") == Trim(x)
  {
    TrimStartFeed(x);
    var t := TrimStart(x);
    assert (t + "\n")[..|t|] == t;
  }

  lemma {:induction false} TrimStartFeed(x: string)
    ensures TrimStart(x + "\n") == if TrimStart(x) == "" then "" else TrimStart(x) + "\n"
  {
    if x == "" {
      assert x + "\n" == "\n" && "\n"[1..] == "" && TrimStart("\n") == TrimStart("");
    } else {
      assert (x + "\n")[1..] == x[1..] + "\n";
      if IsSpace(x[0]) { TrimStartFeed(x[1..]); }
    }
  }

  lemma {:induction false} TerminatedIsJoin(data: seq<string>)
    requires data != []
    ensures Terminated(data) == JoinLines(data) + "\n"
  {
    var (init, last) := (data[..|data| - 1], data[|data| - 1]);
    if init == [] {
      assert data == [last] && Terminated(init) == "";
    } else {
      TerminatedIsJoin(init);
      JoinSnoc(init, last);
      assert data == init + [last];
    }
  }

  lemma {:induction false} JoinSnoc(init: seq<string>, last: string)
    requires init != []
    ensures JoinLines(init + [last]) == JoinLines(init) + "\n" + last
  {
    if |init| > 1 {
      assert (init + [last])[1..] == init[1..] + [last];
      JoinSnoc(init[1..], last);
    } else {
      assert init + [last] == [init[0], last] && [init[0], last][1..] == [last];
    }
  }

  lemma {:induction false} EachSnoc(parse: Parser, init: seq<string>, last: string)
    ensures EachFlags(parse, init + [last]) == EachFlags(parse, init).Or(PayloadFlags(parse, last).1)
  {
    hide PayloadFlags;
    if init == [] {
      assert init + [last] == [last] && [last][1..] == [];
      assert EachFlags(parse, [last]) == PayloadFlags(parse, last).1.Or(EachFlags(parse, []));
    } else {
      assert (init + [last])[1..] == init[1..] + [last];
      EachSnoc(parse, init[1..], last);
    }
  }

  lemma {:induction false} EachPadded(parse: Parser, s: seq<string>, d: seq<string>)
    requires Padded(s, d)
    ensures EachFlags(parse, s) == EachFlags(parse, d)
  {
    hide PayloadFlags;
    if s != [] {
      var (init, last) := (s[..|s| - 1], s[|s| - 1]);
      assert s == init + [last];
      EachSnoc(parse, init, last);
      if last == "" && Padded(init, d) {
        EachPadded(parse, init, d);
        EmptyPayload(parse);
      } else {
        assert d == d[..|d| - 1] + [last];
        EachPadded(parse, init, d[..|d| - 1]);
        EachSnoc(parse, d[..|d| - 1], last);
      }
    }
  }

  lemma EmptyPayload(parse: Parser)
    ensures PayloadFlags(parse, "") == (true, NONE)
  {
  }

  lemma NotUnderstood(parse: Parser, text: string)
    ensures !PayloadFlags(parse, text).0 ==> PayloadFlags(parse, text).1 == NONE
  {
  }

  lemma {:induction false} PaddedLength(s: seq<string>, d: seq<string>)
    requires Padded(s, d)
    ensures |d| <= |s|
  {
    if s != [] {
      if s[|s| - 1] == "" && Padded(s[..|s| - 1], d) {
        PaddedLength(s[..|s| - 1], d);
      } else {
        PaddedLength(s[..|s| - 1], d[..|d| - 1]);
      }
    }
  }

  lemma JoinedPayload(parse: Parser, data: seq<string>)
    ensures PayloadFlags(parse, JoinLines(data)) == PayloadFlags(parse, Terminated(data))
  {
    if data != [] {
      TerminatedIsJoin(data);
      TrailingFeed(JoinLines(data));
    }
  }

  /** Inserted empty data lines do not change what an event says. */
  lemma PaddedFlags(parse: Parser, s: seq<string>, d: seq<string>)
    requires IgnoresLineFeeds(parse) && Padded(s, d)
    ensures DataFlags(parse, s) == DataFlags(parse, d)
  {
    hide PayloadFlags, JoinLines, EachFlags, IgnoresLineFeeds, Padded, Terminated;
    PaddedLength(s, d);
    JoinedPayload(parse, s);
    JoinedPayload(parse, d);
    TerminatedFlags(parse, s, d, "");
    assert Terminated(s) + "" == Terminated(s) && Terminated(d) + "" == Terminated(d);
    EachPadded(parse, s, d);
    NotUnderstood(parse, JoinLines(d));
    if d == [] { NoData(parse); }
    if |d| == 1 {
      assert d == [d[0]];
      OneEach(parse, d[0]);
    }
  }

  lemma NoData(parse: Parser)
    ensures PayloadFlags(parse, JoinLines([])) == (true, NONE) && EachFlags(parse, []) == NONE
  {
  }

  lemma OneEach(parse: Parser, line: string)
    ensures EachFlags(parse, [line]) == PayloadFlags(parse, JoinLines([line])).1
  {
    hide PayloadFlags;
    assert [line][1..] == [] && JoinLines([line]) == line;
    assert EachFlags(parse, [line]) == PayloadFlags(parse, line).1.Or(EachFlags(parse, []));
  }

  /** The standard's data buffer against the inspector's data lines. */
  ghost predicate Fits(parse: Parser, s: seq<string>, d: seq<string>) {
    s == d || (IgnoresLineFeeds(parse) && Padded(s, d))
  }

  lemma FitsFlags(parse: Parser, s: seq<string>, d: seq<string>)
    requires Fits(parse, s, d)
    ensures DataFlags(parse, s) == DataFlags(parse, d)
  {
    if s != d { PaddedFlags(parse, s, d); }
  }

  lemma FitsMore(parse: Parser, s: seq<string>, d: seq<string>, x: string)
    requires Fits(parse, s, d)
    ensures Fits(parse, s + [x], d + [x])
    ensures IgnoresLineFeeds(parse) ==> Fits(parse, s + [""], d)
  {
    hide IgnoresLineFeeds;
    PaddedSelf(d);
    assert (s + [x])[..|s|] == s && (d + [x])[..|d|] == d && (s + [""])[..|s|] == s;
  }

  // ----- the two together -----

  /** All events are the dispatched ones and the pending one; errors are compared up to error
      names, which the inspector notes line by line. */
  predicate Splits(all: Flags, lines: Flags, dispatched: Flags, pending: Flags, named: bool) {
    && all.content == (dispatched.content || pending.content)
    && (all.error || lines.error || named) == (dispatched.error || pending.error || lines.error || named)
  }

  /** No line is just `data`, or the parser does not mind. */
  ghost predicate Comparable(parse: Parser, lines: seq<string>) {
    IgnoresLineFeeds(parse) || forall i :: 0 <= i < |lines| ==> lines[i] != "data"
  }

  lemma ComparableRest(parse: Parser, lines: seq<string>)
    requires Comparable(parse, lines) && lines != []
    ensures Comparable(parse, lines[1..]) && (lines[0] == "data" ==> IgnoresLineFeeds(parse))
  {
    hide IgnoresLineFeeds;
  }

  lemma {:induction false} DispatchSplits(parse: Parser, lines: seq<string>, kind: string, s: seq<string>, data: seq<string>)
    requires Comparable(parse, lines) && Fits(parse, s, data)
    ensures var all := Joined(data, Events(LineKinds(lines)));
      Splits(AllEventFlags(parse, all), AllLineFlags(parse, LineKinds(lines)), DispatchedFlags(parse, Dispatch(lines, kind, s)),
             DataFlags(parse, LastOf(all)), kind == "error")
    decreases |lines|
  {
    hide AllEventFlags, DataFlags, Joined, LastOf, Splits, LineKinds, Dispatch, DispatchedFlags, AllLineFlags, Events;
    hide Comparable, Fits, ClassifyLine, FieldValue;
    if lines == [] {
      PendingOnly(parse, kind, s, data);
    } else {
      var (line, rest) := (lines[0], lines[1..]);
      assert lines == [line] + rest;
      ComparableRest(parse, lines);
      if line == "" {
        FitsEmpty(parse);
        DispatchSplits(parse, rest, "", [], []);
        FitsFlags(parse, s, data);
        BlankSplits(parse, rest, kind, s, data);
      } else {
        var (kind', s', data') := Buffers(line, kind, s, data);
        BuffersFit(parse, line, kind, s, data);
        DispatchSplits(parse, rest, kind', s', data');
        FieldSplits(parse, line, rest, kind, s, data);
      }
    }
  }

  lemma FitsEmpty(parse: Parser)
    ensures Fits(parse, [], [])
  {
  }

  lemma PendingOnly(parse: Parser, kind: string, s: seq<string>, data: seq<string>)
    ensures var all := Joined(data, Events(LineKinds([])));
      Splits(AllEventFlags(parse, all), AllLineFlags(parse, LineKinds([])), DispatchedFlags(parse, Dispatch([], kind, s)),
             DataFlags(parse, LastOf(all)), kind == "error")
  {
    hide DataFlags;
    NoKinds();
    assert data + [] == data;
    EventsStep(parse, data, []);
    assert Joined(data, Events([])) == [data] + [];
  }

  lemma BlankSplits(parse: Parser, rest: seq<string>, kind: string, s: seq<string>, data: seq<string>)
    requires DataFlags(parse, s) == DataFlags(parse, data)
    requires var all := Joined([], Events(LineKinds(rest)));
      Splits(AllEventFlags(parse, all), AllLineFlags(parse, LineKinds(rest)), DispatchedFlags(parse, Dispatch(rest, "", [])),
             DataFlags(parse, LastOf(all)), false)
    ensures var all := Joined(data, Events(LineKinds([""] + rest)));
      Splits(AllEventFlags(parse, all), AllLineFlags(parse, LineKinds([""] + rest)),
             DispatchedFlags(parse, Dispatch([""] + rest, kind, s)), DataFlags(parse, LastOf(all)), kind == "error")
  {
    hide DataFlags, AllEventFlags, AllLineFlags, DispatchedFlags, Dispatch, Events, LineKinds;
    var later := Events(LineKinds(rest));
    assert ClassifyLine("") == Blank;
    KindsCons("", rest);
    LinesStep(parse, Blank, LineKinds(rest));
    EventsStep(parse, data, later);
    assert Joined([], later) == later by { assert [] + later[0] == later[0]; }
    assert Joined(data, [[]] + later) == [data] + later by { assert data + [] == data; }
    DispatchStep("", rest, kind, s);
    BlankFlags(parse, s, kind, Dispatch(rest, "", []));
  }

  /** The buffers of both parsers after a line that is not blank. */
  function Buffers(line: string, kind: string, s: seq<string>, data: seq<string>): (string, seq<string>, seq<string>) {
    match ClassifyLine(line)
    case EventName(_) => (FieldValue(line), s, data)
    case Data(text) => (kind, s + [text], data + [text])
    case Bare(_) => (if line == "event" then "" else kind, if line == "data" then s + [""] else s, data)
    case _ => (kind, s, data)
  }

  lemma BuffersFit(parse: Parser, line: string, kind: string, s: seq<string>, data: seq<string>)
    requires Fits(parse, s, data) && (line == "data" ==> IgnoresLineFeeds(parse))
    ensures var (_, s', data') := Buffers(line, kind, s, data); Fits(parse, s', data')
  {
    hide IgnoresLineFeeds, Fits, ClassifyLine, FieldValue;
    match ClassifyLine(line) {
      case Data(text) => FitsMore(parse, s, data, text);
      case Bare(_) => FitsMore(parse, s, data, "");
      case _ =>
    }
  }

  lemma FieldSplits(parse: Parser, line: string, rest: seq<string>, kind: string, s: seq<string>, data: seq<string>)
    requires line != ""
    requires var (kind', s', data') := Buffers(line, kind, s, data);
      var all := Joined(data', Events(LineKinds(rest)));
      Splits(AllEventFlags(parse, all), AllLineFlags(parse, LineKinds(rest)), DispatchedFlags(parse, Dispatch(rest, kind', s')),
             DataFlags(parse, LastOf(all)), kind' == "error")
    ensures var all := Joined(data, Events(LineKinds([line] + rest)));
      Splits(AllEventFlags(parse, all), AllLineFlags(parse, LineKinds([line] + rest)),
             DispatchedFlags(parse, Dispatch([line] + rest, kind, s)), DataFlags(parse, LastOf(all)), kind == "error")
  {
    hide DataFlags, PayloadFlags, AllEventFlags, AllLineFlags, DispatchedFlags, Dispatch, Events, LineKinds, ClassifyLine;
    hide FieldName, FieldValue, ColonIndex;
    var later := Events(LineKinds(rest));
    KindsCons(line, rest);
    LinesStep(parse, ClassifyLine(line), LineKinds(rest));
    if line == "data" {
      NamelessStep(rest, kind, s);
    } else {
      LineAgrees(line);
      DispatchStep(line, rest, kind, s);
    }
    JoinedAfter(ClassifyLine(line), data, later);
    hide Joined, LastOf;
  }

  lemma JoinedAfter(line: Line, data: seq<string>, later: seq<seq<string>>)
    requires later != [] && !line.Blank?
    ensures Joined(data, EventsBefore(line, later)) == if line.Data? then Joined(data + [line.text], later) else Joined(data, later)
  {
    if line.Data? { assert data + [line.text] + later[0] == data + ([line.text] + later[0]); }
  }

  lemma BlankFlags(parse: Parser, data: seq<string>, kind: string, later: seq<Dispatched>)
    ensures var now := if data == [] then [] else [Dispatched(kind, data)];
      var flags := DispatchedFlags(parse, now + later);
      && flags.content == (DataFlags(parse, data).content || DispatchedFlags(parse, later).content)
      && flags.error == ((data != [] && kind == "error") || DataFlags(parse, data).error || DispatchedFlags(parse, later).error)
  {
    if data == [] {
      assert [] + later == later;
    } else {
      DispatchedStep(parse, Dispatched(kind, data), later);
    }
  }

  // ----- agreement -----

  lemma KindsOfLines(rawLines: seq<string>)
    ensures Classified(rawLines) == LineKinds(Stripped(rawLines))
  {
    hide ClassifyLine, StripCr;
  }

  lemma FlatFlags(parse: Parser, events: seq<Dispatched>, lines: seq<string>)
    requires events == Dispatch(lines, "", []) && Comparable(parse, lines)
    ensures Meaning(parse, LineKinds(lines)) == DispatchedFlags(parse, events).Or(Beyond(parse, LineKinds(lines)))
  {
    hide ClassifyLine, DataFlags, Dispatch, AllLineFlags, AllEventFlags, Events;
    var all := Events(LineKinds(lines));
    assert Joined([], all) == all by { assert [] + all[0] == all[0]; }
    FitsEmpty(parse);
    DispatchSplits(parse, lines, "", [], []);
  }

  /** The inspector says what the standard's events say, and what it reads beyond them: for every
      text without lone carriage returns, and, if the parser tells one line feed from two, without a
      line that is just `data`. */
  lemma StandardPlusBeyond(parse: Parser, text: string)
    requires CleanEnds(text) && Comparable(parse, StandardLines(text))
    ensures var lines := Classified(Lines(text));
      Meaning(parse, lines) == StandardFlags(parse, text).Or(Beyond(parse, lines))
  {
    hide CleanEnds, StandardLines, Lines, Meaning, Beyond, DispatchedFlags, Dispatch, Comparable;
    SameLines(text);
    KindsOfLines(Lines(text));
    FlatFlags(parse, StandardEvents(text), StandardLines(text));
  }

  /** On such texts the two agree exactly if what is read beyond the events adds nothing. */
  lemma AgreesExactly(parse: Parser, text: string)
    requires CleanEnds(text) && Comparable(parse, StandardLines(text))
    ensures var beyond := Beyond(parse, Classified(Lines(text)));
      var standard := StandardFlags(parse, text);
      TextVerdict(parse, text) == VerdictOf(standard) <==>
        (beyond.content ==> standard.content) && (beyond.error ==> standard.error)
  {
    hide CleanEnds, StandardLines, Lines, Meaning, Beyond, StandardFlags, Comparable;
    StandardPlusBeyond(parse, text);
  }

  /** Comments, ids, retry hints, data and event names other than `error`. */
  predicate Regular(line: Line) {
    !line.Bare? && (line.EventName? ==> line.name != "error")
  }

  lemma {:induction false} RegularSaysNothing(parse: Parser, lines: seq<Line>)
    requires forall i :: 0 <= i < |lines| ==> Regular(lines[i])
    ensures AllLineFlags(parse, lines) == NONE
  {
    if lines != [] {
      assert forall i :: 0 <= i < |lines| - 1 ==> Regular(lines[1..][i]) by {
        assert forall i :: 0 <= i < |lines| - 1 ==> lines[1..][i] == lines[i + 1];
      }
      RegularSaysNothing(parse, lines[1..]);
    }
  }

  /** A stream of regular lines that ends with an event boundary is judged by its dispatched
      events. */
  lemma RegularAgrees(parse: Parser, text: string)
    requires CleanEnds(text) && Comparable(parse, StandardLines(text))
    requires var lines := Classified(Lines(text));
      (forall i :: 0 <= i < |lines| ==> Regular(lines[i])) && Pending(lines) == []
    ensures TextVerdict(parse, text) == VerdictOf(StandardFlags(parse, text))
  {
    hide CleanEnds, StandardLines, Lines, StandardFlags, Classified, Pending, Comparable, TextVerdict;
    RegularSaysNothing(parse, Classified(Lines(text)));
    AgreesExactly(parse, text);
  }
}
