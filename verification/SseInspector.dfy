/** The incremental inspector that decides whether an AI answer is refunded.

    It reads the server-sent events of the upstream chunk by chunk.  `parse` stands for
    `JSON.parse` (None when it throws) and `Decoder` for the streaming `TextDecoder`, any
    machine that consumes one byte at a time. */
module SseInspector {
  import opened Wrappers

  datatype Json =
    | JNull
    | JBool(flag: bool)
    | JNumber(value: real)
    | JString(text: string)
    | JArray(items: seq<Json>)
    | JObject(fields: map<string, Json>)

  type Parser = string -> Option<Json>

  // ----- strings -----

  predicate IsSpace(c: char) {
    var n := c as int;
    9 <= n <= 13 || n == 32 || n == 0xA0 || n == 0x1680 || 0x2000 <= n <= 0x200A
    || n == 0x2028 || n == 0x2029 || n == 0x202F || n == 0x205F || n == 0x3000 || n == 0xFEFF
  }

  function TrimStart(s: string): string {
    if s != [] && IsSpace(s[0]) then TrimStart(s[1..]) else s
  }

  function TrimEnd(s: string): string {
    if s != [] && IsSpace(s[|s| - 1]) then TrimEnd(s[..|s| - 1]) else s
  }

  function Trim(s: string): string {
    TrimEnd(TrimStart(s))
  }

  function LowerChar(c: char): char {
    if 'A' <= c <= 'Z' then (c as int + 32) as char else c
  }

  function Lower(s: string): string {
    seq(|s|, i requires 0 <= i < |s| => LowerChar(s[i]))
  }

  function JoinLines(lines: seq<string>): string {
    if lines == [] then ""
    else if |lines| == 1 then lines[0]
    else lines[0] + "\n" + JoinLines(lines[1..])
  }

  // ----- what one JSON value says -----

  /** What was seen: assistant content, an explicit error. */
  datatype Flags = Flags(content: bool, error: bool) {
    function Or(other: Flags): Flags {
      Flags(content || other.content, error || other.error)
    }
  }

  const NONE := Flags(false, false)

  function Field(j: Json, name: string): Option<Json> {
    if j.JObject? && name in j.fields then Some(j.fields[name]) else None
  }

  predicate IsErrorValue(v: Option<Json>) {
    v.Some? &&
    match v.value
    case JString(text) => Trim(text) != ""
    case JBool(flag) => flag
    case JNumber(value) => value != 0.0
    case JNull => false
    case _ => true
  }

  predicate HasContent(v: Option<Json>) {
    v.Some? &&
    match v.value
    case JString(text) => Trim(text) != ""
    case JArray(items) => exists part <- items :: PartHasContent(part)
    case _ => false
  }

  predicate PartHasContent(part: Json) {
    (part.JString? && Trim(part.text) != "")
    || (part.JObject? && "text" in part.fields && part.fields["text"].JString? && Trim(part.fields["text"].text) != "")
  }

  predicate IsText(v: Option<Json>, text: string) {
    v == Some(JString(text))
  }

  function ChoiceFlags(choice: Json): Flags {
    if !choice.JObject? then NONE
    else
      var delta := Field(choice, "delta");
      var message := Field(choice, "message");
      Flags(
        (delta.Some? && HasContent(Field(delta.value, "content")))
        || (message.Some? && HasContent(Field(message.value, "content")))
        || HasContent(Field(choice, "text")),
        IsErrorValue(Field(choice, "error")) || IsText(Field(choice, "finish_reason"), "error")
        || IsText(Field(choice, "finishReason"), "error"))
  }

  function ParsedFlags(parsed: Json): Flags {
    if !parsed.JObject? then NONE
    else
      var choices := Field(parsed, "choices");
      var items := if choices.Some? && choices.value.JArray? then choices.value.items else [];
      Flags(
        exists choice <- items :: ChoiceFlags(choice).content,
        IsErrorValue(Field(parsed, "error")) || IsText(Field(parsed, "type"), "error")
        || IsText(Field(parsed, "event"), "error") || IsText(Field(parsed, "object"), "error")
        || exists choice <- items :: ChoiceFlags(choice).error)
  }

  // ----- which JSON is an answer or an error, by path -----

  /** The value at a path of field names. */
  function At(j: Json, path: seq<string>): Option<Json>
    decreases |path|
  {
    if path == [] then Some(j)
    else if j.JObject? && path[0] in j.fields then At(j.fields[path[0]], path[1..])
    else None
  }

  predicate NonBlank(text: string) {
    exists i :: 0 <= i < |text| && !IsSpace(text[i])
  }

  predicate IsWords(v: Option<Json>) {
    v.Some? && v.value.JString? && NonBlank(v.value.text)
  }

  /** Words, or a list one of whose parts is words or carries them as its `text`. */
  predicate Speaks(v: Option<Json>) {
    IsWords(v)
    || (v.Some? && v.value.JArray? && exists part <- v.value.items :: IsWords(Some(part)) || IsWords(At(part, ["text"])))
  }

  /** Anything but null, false, zero and blank text. */
  predicate Alarms(v: Option<Json>) {
    v.Some? && v.value !in {JNull, JBool(false), JNumber(0.0)} && (v.value.JString? ==> NonBlank(v.value.text))
  }

  predicate IsChoice(parsed: Json, choice: Json) {
    var choices := At(parsed, ["choices"]);
    choices.Some? && choices.value.JArray? && choice in choices.value.items
  }

  const ANSWER_PLACES := {["delta", "content"], ["message", "content"], ["text"]}

  ghost predicate Answers(parsed: Json) {
    exists choice, place :: IsChoice(parsed, choice) && place in ANSWER_PLACES && Speaks(At(choice, place))
  }

  ghost predicate Reports(parsed: Json) {
    || Alarms(At(parsed, ["error"]))
    || (exists name :: name in {"type", "event", "object"} && At(parsed, [name]) == Some(JString("error")))
    || (exists choice :: IsChoice(parsed, choice) && Alarms(At(choice, ["error"])))
    || (exists choice, name ::
          IsChoice(parsed, choice) && name in {"finish_reason", "finishReason"} && At(choice, [name]) == Some(JString("error")))
  }

  lemma AtField(j: Json, name: string)
    ensures At(j, [name]) == Field(j, name)
  {
    assert [name][1..] == [];
  }

  lemma AtFields(j: Json, outer: string, inner: string)
    ensures At(j, [outer, inner]) == if Field(j, outer).Some? then Field(Field(j, outer).value, inner) else None
  {
    assert [outer, inner][1..] == [inner];
    if Field(j, outer).Some? { AtField(Field(j, outer).value, inner); }
  }

  lemma {:induction false} TrimStartBlank(s: string)
    ensures TrimStart(s) == "" <==> !NonBlank(s)
    ensures TrimStart(s) != "" ==> !IsSpace(TrimStart(s)[0])
  {
    if s != [] && IsSpace(s[0]) {
      TrimStartBlank(s[1..]);
      hide IsSpace;
      assert forall i :: 1 <= i < |s| ==> s[i] == s[1..][i - 1];
      assert forall i :: 0 <= i < |s| - 1 ==> s[1..][i] == s[i + 1];
    }
  }

  lemma {:induction false} TrimEndBlank(s: string)
    requires s != "" && !IsSpace(s[0])
    ensures TrimEnd(s) != ""
  {
    if IsSpace(s[|s| - 1]) { TrimEndBlank(s[..|s| - 1]); }
  }

  /** What is left after trimming is nothing exactly for blank text. */
  lemma TrimBlank(s: string)
    ensures Trim(s) == "" <==> !NonBlank(s)
  {
    hide IsSpace, TrimStart, TrimEnd, NonBlank;
    TrimStartBlank(s);
    if TrimStart(s) != "" { TrimEndBlank(TrimStart(s)); } else { NothingToTrim(); }
  }

  lemma NothingToTrim()
    ensures TrimEnd("") == ""
  {
  }

  lemma ContentSpeaks(v: Option<Json>)
    ensures HasContent(v) == Speaks(v)
  {
    hide IsSpace, Trim, NonBlank, At;
    if v.Some? && v.value.JString? { TrimBlank(v.value.text); }
    if v.Some? && v.value.JArray? {
      forall part <- v.value.items
        ensures PartHasContent(part) == (IsWords(Some(part)) || IsWords(At(part, ["text"])))
      {
        PartSpeaks(part);
      }
    }
  }

  lemma PartSpeaks(part: Json)
    ensures PartHasContent(part) == (IsWords(Some(part)) || IsWords(At(part, ["text"])))
  {
    hide IsSpace, Trim, NonBlank, At;
    AtField(part, "text");
    if part.JString? { TrimBlank(part.text); }
    if part.JObject? && "text" in part.fields && part.fields["text"].JString? { TrimBlank(part.fields["text"].text); }
  }

  lemma ErrorAlarms(v: Option<Json>)
    ensures IsErrorValue(v) == Alarms(v)
  {
    hide IsSpace, Trim, NonBlank;
    if v.Some? && v.value.JString? { TrimBlank(v.value.text); }
  }

  lemma ChoiceByPath(choice: Json)
    ensures ChoiceFlags(choice).content <==> exists place :: place in ANSWER_PLACES && Speaks(At(choice, place))
    ensures ChoiceFlags(choice).error <==>
              Alarms(At(choice, ["error"]))
              || exists name :: name in {"finish_reason", "finishReason"} && At(choice, [name]) == Some(JString("error"))
  {
    hide HasContent, IsErrorValue, Speaks, Alarms, At;
    AtFields(choice, "delta", "content");
    AtFields(choice, "message", "content");
    AtField(choice, "text");
    AtField(choice, "error");
    AtField(choice, "finish_reason");
    AtField(choice, "finishReason");
    ErrorAlarms(Field(choice, "error"));
    ContentSpeaks(At(choice, ["delta", "content"]));
    ContentSpeaks(At(choice, ["message", "content"]));
    ContentSpeaks(At(choice, ["text"]));
    SilentNone();
    assert ["delta", "content"] in ANSWER_PLACES && ["message", "content"] in ANSWER_PLACES && ["text"] in ANSWER_PLACES;
    assert "finish_reason" in {"finish_reason", "finishReason"} && "finishReason" in {"finish_reason", "finishReason"};
  }

  lemma SilentNone()
    ensures !Speaks(None) && !Alarms(None)
  {
  }

  lemma AnswersByChoice(parsed: Json)
    ensures Answers(parsed) <==> exists choice :: IsChoice(parsed, choice) && ChoiceFlags(choice).content
  {
    hide ChoiceFlags, Speaks, At, IsChoice;
    forall choice | IsChoice(parsed, choice)
      ensures ChoiceFlags(choice).content <==> exists place :: place in ANSWER_PLACES && Speaks(At(choice, place))
    {
      ChoiceByPath(choice);
    }
  }

  lemma ReportsByChoice(parsed: Json)
    ensures Reports(parsed) <==>
              || Alarms(At(parsed, ["error"]))
              || (exists name :: name in {"type", "event", "object"} && At(parsed, [name]) == Some(JString("error")))
              || (exists choice :: IsChoice(parsed, choice) && ChoiceFlags(choice).error)
  {
    hide ChoiceFlags, Alarms, At, IsChoice;
    forall choice | IsChoice(parsed, choice)
      ensures ChoiceFlags(choice).error <==>
                Alarms(At(choice, ["error"]))
                || exists name :: name in {"finish_reason", "finishReason"} && At(choice, [name]) == Some(JString("error"))
    {
      ChoiceByPath(choice);
    }
  }

  /** The choices are the objects of the list, so both readings quantify over the same ones. */
  lemma ChoicesOf(parsed: Json)
    ensures var choices := Field(parsed, "choices");
      var items := if choices.Some? && choices.value.JArray? then choices.value.items else [];
      forall choice :: IsChoice(parsed, choice) <==> choice in items
  {
    AtField(parsed, "choices");
  }

  /** The recursive reading of one JSON value is the reading by paths. */
  lemma FlagsByPath(parsed: Json)
    ensures ParsedFlags(parsed) == Flags(Answers(parsed), Reports(parsed))
  {
    hide ChoiceFlags, IsErrorValue, Alarms, At, Answers, Reports, IsChoice;
    AtField(parsed, "error");
    AtField(parsed, "type");
    AtField(parsed, "event");
    AtField(parsed, "object");
    ErrorAlarms(Field(parsed, "error"));
    SilentNone();
    ChoicesOf(parsed);
    AnswersByChoice(parsed);
    ReportsByChoice(parsed);
    assert "type" in {"type", "event", "object"} && "event" in {"type", "event", "object"} && "object" in {"type", "event", "object"};
  }

  /** `inspectDataPayload`: whether the payload was understood, and what it says. */
  function PayloadFlags(parse: Parser, raw: string): (bool, Flags) {
    var payload := Trim(raw);
    if payload == "" || payload == "[DONE]" then (true, NONE)
    else
      match parse(payload)
      case Some(parsed) => (true, ParsedFlags(parsed))
      case None => (false, NONE)
  }

  /** All data lines of an event: joined, or one by one when the whole is not JSON. */
  function DataFlags(parse: Parser, data: seq<string>): Flags {
    if data == [] then NONE
    else
      var (understood, flags) := PayloadFlags(parse, JoinLines(data));
      if !understood && |data| > 1 then flags.Or(EachFlags(parse, data)) else flags
  }

  function EachFlags(parse: Parser, data: seq<string>): Flags {
    if data == [] then NONE else PayloadFlags(parse, data[0]).1.Or(EachFlags(parse, data[1..]))
  }

  // ----- lines -----

  datatype Line =
    | Blank
    | Comment
    | EventName(name: string)
    | Data(text: string)
    | Skipped
    | Bare(text: string)

  predicate StartsWith(s: string, prefix: string) {
    |prefix| <= |s| && s[..|prefix|] == prefix
  }

  function StripCr(rawLine: string): string {
    if rawLine != [] && rawLine[|rawLine| - 1] == '\r' then rawLine[..|rawLine| - 1] else rawLine
  }

  function StripSpace(s: string): string {
    if s != [] && s[0] == ' ' then s[1..] else s
  }

  function Classify(rawLine: string): Line {
    ClassifyLine(StripCr(rawLine))
  }

  function ClassifyLine(line: string): Line {
    if line == "" then Blank
    else if StartsWith(line, ":") then Comment
    else if StartsWith(line, "event:") then EventName(Lower(Trim(line[6..])))
    else if StartsWith(line, "data:") then Data(StripSpace(line[5..]))
    else if StartsWith(line, "id:") || StartsWith(line, "retry:") then Skipped
    else Bare(line)
  }

  /** The inspector's variables apart from the buffered partial line. */
  datatype Core = Core(event: string, data: seq<string>, flags: Flags)

  const START := Core("", [], NONE)

  function Flush(parse: Parser, c: Core): Core {
    Core("", [], c.flags.Or(Flags(false, c.event == "error")).Or(DataFlags(parse, c.data)))
  }

  function ProcessLine(parse: Parser, c: Core, rawLine: string): Core {
    Apply(parse, c, Classify(rawLine))
  }

  function Apply(parse: Parser, c: Core, line: Line): Core {
    match line
    case Blank => Flush(parse, c)
    case EventName(name) => c.(event := name, flags := c.flags.Or(Flags(false, name == "error")))
    case Data(text) => c.(data := c.data + [text])
    case Bare(text) => c.(flags := c.flags.Or(PayloadFlags(parse, text).1))
    case _ => c
  }

  function IndexOfNewline(s: string): (i: nat)
    ensures i <= |s|
    ensures i < |s| ==> s[i] == '\n'
    ensures '\n' !in s[..i]
  {
    if s == [] || s[0] == '\n' then 0
    else
      var i := 1 + IndexOfNewline(s[1..]);
      assert s[..i] == [s[0]] + s[1..][..i - 1];
      i
  }

  /** Process every complete line of `text`; the rest is the partial line. */
  function Drain(parse: Parser, c: Core, text: string): (Core, string)
    decreases |text|
  {
    var i := IndexOfNewline(text);
    if i == |text| then (c, text) else Drain(parse, ProcessLine(parse, c, text[..i]), text[i + 1..])
  }

  // ----- the inspector -----

  /** A streaming decoder: bytes are 0 to 255, the state is any number. */
  datatype Decoder = Decoder(step: (nat, int) -> (nat, string), flush: nat -> string)

  function Decode(decoder: Decoder, state: nat, bytes: seq<int>): (nat, string)
    decreases |bytes|
  {
    if bytes == [] then (state, "")
    else
      var (next, text) := decoder.step(state, bytes[0]);
      var (last, rest) := Decode(decoder, next, bytes[1..]);
      (last, text + rest)
  }

  datatype Chunk = TextChunk(text: string) | ByteChunk(bytes: seq<int>)

  datatype Inspector = Inspector(decoder: nat, buffer: string, core: Core)

  datatype Verdict = Verdict(hasAssistantContent: bool, hasExplicitError: bool, shouldRefund: bool)

  const FRESH := Inspector(0, "", START)

  function PushText(parse: Parser, s: Inspector, text: string): Inspector {
    var (core, rest) := Drain(parse, s.core, s.buffer + text);
    s.(buffer := rest, core := core)
  }

  function Push(parse: Parser, decoder: Decoder, s: Inspector, chunk: Chunk): Inspector {
    match chunk
    case TextChunk(text) => PushText(parse, s, text)
    case ByteChunk(bytes) =>
      var (state, text) := Decode(decoder, s.decoder, bytes);
      PushText(parse, s.(decoder := state), text)
  }

  function VerdictOf(flags: Flags): Verdict {
    Verdict(flags.content, flags.error, flags.error || !flags.content)
  }

  function Finish(parse: Parser, decoder: Decoder, s: Inspector): (Inspector, Verdict) {
    var drained := PushText(parse, s, decoder.flush(s.decoder));
    var core := if drained.buffer != "" then ProcessLine(parse, drained.core, drained.buffer) else drained.core;
    var done := Flush(parse, core);
    (Inspector(s.decoder, "", done), VerdictOf(done.flags))
  }

  /** `createAiSseInspector`: the closure's variables are the fields. */
  class AiSseInspector {
    const parse: Parser
    const decoder: Decoder
    var decoderState: nat
    var lineBuffer: string
    var currentEvent: string
    var currentDataLines: seq<string>
    var hasAssistantContent: bool
    var hasExplicitError: bool

    constructor (parse: Parser, decoder: Decoder)
      ensures this.parse == parse && this.decoder == decoder && State() == FRESH
    {
      this.parse := parse;
      this.decoder := decoder;
      decoderState, lineBuffer, currentEvent, currentDataLines := 0, "", "", [];
      hasAssistantContent, hasExplicitError := false, false;
    }

    ghost function CoreState(): Core
      reads this
    {
      Core(currentEvent, currentDataLines, Flags(hasAssistantContent, hasExplicitError))
    }

    ghost function State(): Inspector
      reads this
    {
      Inspector(decoderState, lineBuffer, CoreState())
    }

    method InspectParsedEvent(parsed: Json)
      modifies this`hasAssistantContent, this`hasExplicitError
      ensures CoreState() == old(CoreState()).(flags := old(CoreState()).flags.Or(ParsedFlags(parsed)))
      ensures hasAssistantContent == (old(hasAssistantContent) || Answers(parsed))
      ensures hasExplicitError == (old(hasExplicitError) || Reports(parsed))
    {
      FlagsByPath(parsed);
      hide ChoiceFlags, IsErrorValue, Answers, Reports;
      if !parsed.JObject? {
        return;
      }
      if IsErrorValue(Field(parsed, "error")) || IsText(Field(parsed, "type"), "error")
         || IsText(Field(parsed, "event"), "error") || IsText(Field(parsed, "object"), "error") {
        hasExplicitError := true;
      }
      var choices := Field(parsed, "choices");
      if choices.None? || !choices.value.JArray? {
        return;
      }
      var items := choices.value.items;
      ghost var (content, error) := (hasAssistantContent, hasExplicitError);
      for i := 0 to |items|
        invariant hasAssistantContent == (content || exists choice <- items[..i] :: ChoiceFlags(choice).content)
        invariant hasExplicitError == (error || exists choice <- items[..i] :: ChoiceFlags(choice).error)
      {
        assert items[..i + 1] == items[..i] + [items[i]];
        var flags := ChoiceFlags(items[i]);
        if flags.error { hasExplicitError := true; }
        if flags.content { hasAssistantContent := true; }
      }
      assert items[..|items|] == items;
    }

    method InspectDataPayload(rawPayload: string) returns (understood: bool)
      modifies this`hasAssistantContent, this`hasExplicitError
      ensures understood == PayloadFlags(parse, rawPayload).0
      ensures CoreState() == old(CoreState()).(flags := old(CoreState()).flags.Or(PayloadFlags(parse, rawPayload).1))
    {
      var payload := Trim(rawPayload);
      if payload == "" || payload == "[DONE]" {
        return true;
      }
      match parse(payload)
      case None => return false;
      case Some(parsed) =>
        InspectParsedEvent(parsed);
        return true;
    }

    method FlushEvent()
      modifies this`currentEvent, this`currentDataLines, this`hasAssistantContent, this`hasExplicitError
      ensures CoreState() == Flush(parse, old(CoreState()))
    {
      if currentEvent == "error" {
        hasExplicitError := true;
      }
      if |currentDataLines| > 0 {
        var understood := InspectDataPayload(JoinLines(currentDataLines));
        if !understood && |currentDataLines| > 1 {
          ghost var before := CoreState().flags;
          for i := 0 to |currentDataLines|
            invariant currentDataLines == old(currentDataLines)
            invariant CoreState().flags.Or(EachFlags(parse, currentDataLines[i..])) == before.Or(EachFlags(parse, currentDataLines))
          {
            var _ := InspectDataPayload(currentDataLines[i]);
          }
        }
      }
      currentEvent, currentDataLines := "", [];
    }

    method ProcessOneLine(rawLine: string)
      modifies this`currentEvent, this`currentDataLines, this`hasAssistantContent, this`hasExplicitError
      ensures CoreState() == ProcessLine(parse, old(CoreState()), rawLine)
    {
      match Classify(rawLine)
      case Blank => FlushEvent();
      case EventName(name) =>
        currentEvent := name;
        if currentEvent == "error" {
          hasExplicitError := true;
        }
      case Data(text) => currentDataLines := currentDataLines + [text];
      case Bare(text) => var _ := InspectDataPayload(text);
      case _ =>
    }

    method DrainCompletedLines()
      modifies this`lineBuffer, this`currentEvent, this`currentDataLines, this`hasAssistantContent, this`hasExplicitError
      ensures (CoreState(), lineBuffer) == Drain(parse, old(CoreState()), old(lineBuffer))
    {
      hide IndexOfNewline, ProcessLine, Flush;
      var newline := IndexOfNewline(lineBuffer);
      while newline != |lineBuffer|
        invariant newline == IndexOfNewline(lineBuffer)
        invariant Drain(parse, CoreState(), lineBuffer) == Drain(parse, old(CoreState()), old(lineBuffer))
        decreases |lineBuffer|
      {
        var rawLine := lineBuffer[..newline];
        lineBuffer := lineBuffer[newline + 1..];
        ProcessOneLine(rawLine);
        newline := IndexOfNewline(lineBuffer);
      }
    }

    method PushChunk(chunk: Chunk)
      modifies this
      ensures State() == Push(parse, decoder, old(State()), chunk)
    {
      match chunk {
        case TextChunk(text) => lineBuffer := lineBuffer + text;
        case ByteChunk(bytes) =>
          var (state, text) := Decode(decoder, decoderState, bytes);
          decoderState := state;
          lineBuffer := lineBuffer + text;
      }
      DrainCompletedLines();
    }

    method FinishStream() returns (verdict: Verdict)
      modifies this
      ensures (State(), verdict) == Finish(parse, decoder, old(State()))
    {
      lineBuffer := lineBuffer + decoder.flush(decoderState);
      DrainCompletedLines();
      if |lineBuffer| > 0 {
        ProcessOneLine(lineBuffer);
        lineBuffer := "";
      }
      FlushEvent();
      verdict := Verdict(hasAssistantContent, hasExplicitError, hasExplicitError || !hasAssistantContent);
    }
  }
}
