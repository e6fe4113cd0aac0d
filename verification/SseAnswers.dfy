/** What the inspector's verdict means in terms of the JSON a stream carries. */
module SseAnswers {
  import opened Wrappers
  import opened SseInspector
  import opened SseVerdict
  import opened SseStandard
  import opened SseDifferences

  // ----- one payload, one event -----

  /** The JSON of a payload; blank payloads and the end mark carry none. */
  function Carried(parse: Parser, raw: string): Option<Json> {
    if Trim(raw) == "" || Trim(raw) == "[DONE]" then None else parse(Trim(raw))
  }

  predicate Understood(parse: Parser, raw: string) {
    Trim(raw) == "" || Trim(raw) == "[DONE]" || parse(Trim(raw)).Some?
  }

  ghost predicate PayloadAnswers(parse: Parser, raw: string) {
    Carried(parse, raw).Some? && Answers(Carried(parse, raw).value)
  }

  ghost predicate PayloadReports(parse: Parser, raw: string) {
    Carried(parse, raw).Some? && Reports(Carried(parse, raw).value)
  }

  /** The data lines of an event joined carry an answer, or, when the whole is not JSON, one line
      does. */
  ghost predicate EventAnswers(parse: Parser, data: seq<string>) {
    PayloadAnswers(parse, JoinLines(data))
    || (!Understood(parse, JoinLines(data)) && exists line <- data :: PayloadAnswers(parse, line))
  }

  ghost predicate EventReports(parse: Parser, data: seq<string>) {
    PayloadReports(parse, JoinLines(data))
    || (!Understood(parse, JoinLines(data)) && exists line <- data :: PayloadReports(parse, line))
  }

  /** What is cut off is white space, and all of it. */
  lemma TrimIsMiddle(s: string) returns (before: string, after: string)
    ensures s == before + Trim(s) + after && !NonBlank(before) && !NonBlank(after)
    ensures Trim(s) != "" ==> !IsSpace(Trim(s)[0]) && !IsSpace(Trim(s)[|Trim(s)| - 1])
  {
    hide IsSpace, TrimStart, TrimEnd, NonBlank;
    before := TrimStartCuts(s);
    after := TrimEndCuts(TrimStart(s));
    TrimStartBlank(s);
    assert Trim(s) != "" ==> Trim(s)[0] == TrimStart(s)[0];
  }

  lemma {:induction false} TrimStartCuts(s: string) returns (before: string)
    ensures s == before + TrimStart(s) && !NonBlank(before)
  {
    if s != "" && IsSpace(s[0]) {
      var rest := TrimStartCuts(s[1..]);
      before := [s[0]] + rest;
      hide IsSpace;
      assert forall i :: 1 <= i < |before| ==> before[i] == rest[i - 1];
    } else {
      before := "";
    }
  }

  lemma {:induction false} TrimEndCuts(s: string) returns (after: string)
    ensures s == TrimEnd(s) + after && !NonBlank(after)
    ensures TrimEnd(s) != "" ==> !IsSpace(TrimEnd(s)[|TrimEnd(s)| - 1])
  {
    if s != "" && IsSpace(s[|s| - 1]) {
      var rest := TrimEndCuts(s[..|s| - 1]);
      after := rest + [s[|s| - 1]];
      hide IsSpace;
      assert forall i :: 0 <= i < |rest| ==> after[i] == rest[i];
    } else {
      after := "";
    }
  }

  /** Joining puts one line feed between the lines. */
  lemma {:induction false} JoinedText(data: seq<string>)
    requires data != []
    ensures TextOf(data) == JoinLines(data) + "\n"
  {
    if |data| == 1 {
      assert data[..0] == [];
      assert TextOf(data) == "" + (data[0] + "\n");
    } else {
      JoinedText(data[1..]);
      TextOfCons(data[0], data[1..]);
      assert [data[0]] + data[1..] == data;
    }
  }

  lemma {:induction false} TextOfCons(line: string, lines: seq<string>)
    ensures TextOf([line] + lines) == line + "\n" + TextOf(lines)
    decreases |lines|
  {
    var all := [line] + lines;
    if lines == [] {
      assert all[..0] == [] && all[0] == line;
      assert TextOf(all) == "" + (line + "\n");
    } else {
      assert all[..|all| - 1] == [line] + lines[..|lines| - 1];
      TextOfCons(line, lines[..|lines| - 1]);
    }
  }

  lemma PayloadByPath(parse: Parser, raw: string)
    ensures PayloadFlags(parse, raw) == (Understood(parse, raw), Flags(PayloadAnswers(parse, raw), PayloadReports(parse, raw)))
  {
    hide Trim, ParsedFlags, Answers, Reports;
    if Carried(parse, raw).Some? { FlagsByPath(Carried(parse, raw).value); }
  }

  lemma {:induction false} EachByPath(parse: Parser, data: seq<string>)
    ensures EachFlags(parse, data).content <==> exists line <- data :: PayloadAnswers(parse, line)
    ensures EachFlags(parse, data).error <==> exists line <- data :: PayloadReports(parse, line)
  {
    hide PayloadFlags, PayloadAnswers, PayloadReports;
    if data != [] {
      PayloadByPath(parse, data[0]);
      EachByPath(parse, data[1..]);
      assert data == [data[0]] + data[1..];
    }
  }

  /** The flags an event raises. */
  lemma EventByPath(parse: Parser, data: seq<string>)
    ensures DataFlags(parse, data) == Flags(EventAnswers(parse, data), EventReports(parse, data))
  {
    hide PayloadFlags, PayloadAnswers, PayloadReports, Understood, EachFlags;
    PayloadByPath(parse, JoinLines(data));
    EachByPath(parse, data);
    if data == [] {
      NothingCarried(parse);
    } else if |data| == 1 {
      PayloadByPath(parse, data[0]);
      UnreadSaysNothing(parse, data[0]);
    }
  }

  lemma NothingCarried(parse: Parser)
    ensures Understood(parse, "") && !PayloadAnswers(parse, "") && !PayloadReports(parse, "")
  {
  }

  lemma UnreadSaysNothing(parse: Parser, raw: string)
    ensures !Understood(parse, raw) ==> !PayloadAnswers(parse, raw) && !PayloadReports(parse, raw)
  {
  }

  // ----- a whole stream -----

  ghost predicate StreamAnswers(parse: Parser, lines: seq<Line>) {
    (exists data <- Events(lines) :: EventAnswers(parse, data))
    || (exists i :: 0 <= i < |lines| && lines[i].Bare? && PayloadAnswers(parse, lines[i].text))
  }

  ghost predicate StreamReports(parse: Parser, lines: seq<Line>) {
    (exists data <- Events(lines) :: EventReports(parse, data))
    || (exists i :: 0 <= i < |lines| && lines[i].Bare? && PayloadReports(parse, lines[i].text))
    || EventName("error") in lines
  }

  lemma {:induction false} EventsByPath(parse: Parser, events: seq<seq<string>>)
    ensures AllEventFlags(parse, events).content <==> exists data <- events :: EventAnswers(parse, data)
    ensures AllEventFlags(parse, events).error <==> exists data <- events :: EventReports(parse, data)
  {
    hide DataFlags, EventAnswers, EventReports;
    if events != [] {
      EventByPath(parse, events[0]);
      EventsByPath(parse, events[1..]);
      assert events == [events[0]] + events[1..];
    }
  }

  lemma {:induction false} LinesByPath(parse: Parser, lines: seq<Line>)
    ensures AllLineFlags(parse, lines).content <==>
              exists i :: 0 <= i < |lines| && lines[i].Bare? && PayloadAnswers(parse, lines[i].text)
    ensures AllLineFlags(parse, lines).error <==>
              EventName("error") in lines
              || exists i :: 0 <= i < |lines| && lines[i].Bare? && PayloadReports(parse, lines[i].text)
  {
    hide PayloadFlags, PayloadAnswers, PayloadReports;
    if lines != [] {
      var rest := lines[1..];
      LinesByPath(parse, rest);
      if lines[0].Bare? { PayloadByPath(parse, lines[0].text); }
      assert lines == [lines[0]] + rest;
      assert forall i :: 0 <= i < |rest| ==> lines[i + 1] == rest[i];
    }
  }

  /** The verdict on any stream, however it was cut into chunks: content was seen exactly if an
      event or a bare line carries an answer, an error exactly if one carries an error report or
      an event is named `error`, and the question is refunded for an error or without content. */
  lemma VerdictByPath(parse: Parser, decoder: Decoder, chunks: seq<Chunk>)
    ensures var lines := Classified(Lines(Decoded(decoder, 0, chunks)));
      var v := Judge(parse, decoder, chunks);
      && v.hasAssistantContent == StreamAnswers(parse, lines)
      && v.hasExplicitError == StreamReports(parse, lines)
      && v.shouldRefund == (StreamReports(parse, lines) || !StreamAnswers(parse, lines))
  {
    hide AllLineFlags, AllEventFlags, Events, Classified, Lines, Judge, Decoded, EventAnswers, EventReports, PayloadAnswers, PayloadReports;
    VerdictIsMeaning(parse, decoder, chunks);
    var lines := Classified(Lines(Decoded(decoder, 0, chunks)));
    EventsByPath(parse, Events(lines));
    LinesByPath(parse, lines);
  }

  // ----- one event -----

  datatype Place = InDelta | InMessage | InText

  /** A chunk of the upstream with one choice that holds `v` at one of the three places. */
  function ChunkWith(place: Place, v: Json): Json {
    var choice := match place
      case InDelta => JObject(map["delta" := JObject(map["content" := v])])
      case InMessage => JObject(map["message" := JObject(map["content" := v])])
      case InText => JObject(map["text" := v]);
    JObject(map["choices" := JArray([choice])])
  }

  lemma ChunkSays(place: Place, v: Json)
    ensures ParsedFlags(ChunkWith(place, v)) == Flags(HasContent(Some(v)), false)
  {
    var chunk := ChunkWith(place, v);
    var choice := chunk.fields["choices"].items[0];
    hide HasContent, IsErrorValue;
    AbsentSaysNothing();
    assert ChoiceFlags(choice) == Flags(HasContent(Some(v)), false);
    assert forall c :: c in chunk.fields["choices"].items <==> c == choice;
  }

  lemma AbsentSaysNothing()
    ensures !HasContent(None) && !IsErrorValue(None)
  {
  }

  lemma DataLineKinds(answer: string)
    requires OneLiner(answer)
    ensures OneLiners(["data: " + answer, ""]) && LineKinds(["data: " + answer, ""]) == [Data(answer)] + [Blank]
  {
    Constants();
    DataLine(answer);
    hide ClassifyLine;
    OneLiners2("data: " + answer);
  }

  /** A stream of one event, cut in any way, is judged by the JSON it carries. */
  lemma OneEventVerdict(parse: Parser, decoder: Decoder, chunks: seq<Chunk>, answer: string)
    requires OneLiner(answer) && Decoded(decoder, 0, chunks) == TextOf(["data: " + answer, ""])
    ensures var (content, error) := (PayloadAnswers(parse, answer), PayloadReports(parse, answer));
      Judge(parse, decoder, chunks) == Verdict(content, error, error || !content)
  {
    hide TextOf, Meaning, ClassifyLine, OneLiner, OneLiners, Judge, Decoded, PayloadAnswers, PayloadReports, Lines, Classified;
    hide LineKinds, DataFlags, StandardEvents, Understood;
    VerdictIsMeaning(parse, decoder, chunks);
    DataLineKinds(answer);
    BothRead(parse, ["data: " + answer, ""]);
    BlankLast(parse, [Data(answer)]);
    OneData(parse, answer);
    EventByPath(parse, [answer]);
    assert JoinLines([answer]) == answer;
    UnreadSaysNothing(parse, answer);
    OnlyLine(parse, answer);
  }

  lemma OnlyLine(parse: Parser, answer: string)
    ensures EventAnswers(parse, [answer]) == PayloadAnswers(parse, answer)
    ensures EventReports(parse, [answer]) == PayloadReports(parse, answer)
  {
    hide PayloadAnswers, PayloadReports, Understood;
    UnreadSaysNothing(parse, answer);
  }

  /** An ordinary streamed chunk, at each of the three places an answer may stand, is paid for
      exactly if its content is not blank. */
  lemma AnswerIsPaidFor(parse: Parser, decoder: Decoder, chunks: seq<Chunk>, answer: string, place: Place, v: Json)
    requires OneLiner(answer) && Decoded(decoder, 0, chunks) == TextOf(["data: " + answer, ""])
    requires Carried(parse, answer) == Some(ChunkWith(place, v))
    ensures Judge(parse, decoder, chunks) == Verdict(Speaks(Some(v)), false, !Speaks(Some(v)))
    ensures v.JString? ==> (Judge(parse, decoder, chunks).shouldRefund <==> !NonBlank(v.text))
  {
    hide TextOf, OneLiner, Judge, Decoded, Trim, ParsedFlags, Answers, Reports, HasContent, NonBlank;
    OneEventVerdict(parse, decoder, chunks, answer);
    ChunkSays(place, v);
    FlagsByPath(ChunkWith(place, v));
    ContentSpeaks(Some(v));
  }
}
