/** One stream for each way in which the inspector differs from section 9.2.6 of the WHATWG HTML
    Standard. */
module SseDifferences {
  import opened Wrappers
  import opened SseInspector
  import opened SseVerdict
  import opened SseStandard

  /** A line of JSON that the parser reads as an answer. */
  predicate IsAnswer(parse: Parser, answer: string) {
    && OneLiner(answer) && ClassifyLine(answer) == Bare(answer) && answer != "data" && answer != "event"
    && PayloadFlags(parse, answer) == (true, Flags(true, false))
  }

  const ANSWER := "{\"choices\":[{\"text\":\"x\"}]}"

  /** There is one, for any parser that reads JSON. */
  lemma AnswerExists(parse: Parser)
    requires parse(ANSWER) == Some(JObject(map["choices" := JArray([JObject(map["text" := JString("x")])])]))
    ensures IsAnswer(parse, ANSWER)
  {
    hide ClassifyLine, PayloadFlags;
    AnswerLine();
    AnswerFlags(parse);
  }

  lemma AnswerFlags(parse: Parser)
    requires parse(ANSWER) == Some(JObject(map["choices" := JArray([JObject(map["text" := JString("x")])])]))
    ensures PayloadFlags(parse, ANSWER) == (true, Flags(true, false))
  {
    assert Trim(ANSWER) == ANSWER;
    var choice := JObject(map["text" := JString("x")]);
    assert Trim("x") == "x";
    assert ChoiceFlags(choice) == Flags(true, false);
    assert choice in [choice];
  }

  lemma AnswerLine()
    ensures ClassifyLine(ANSWER) == Bare(ANSWER)
  {
    OtherStart(ANSWER, ":");
    OtherStart(ANSWER, "event:");
    OtherStart(ANSWER, "data:");
    OtherStart(ANSWER, "id:");
    OtherStart(ANSWER, "retry:");
    hide StartsWith;
  }

  // ----- texts from lines -----

  predicate OneLiner(line: string) {
    forall i :: 0 <= i < |line| ==> line[i] != '\n' && line[i] != '\r'
  }

  predicate OneLiners(lines: seq<string>) {
    forall i :: 0 <= i < |lines| ==> OneLiner(lines[i])
  }

  function TextOf(lines: seq<string>): string {
    if lines == [] then "" else TextOf(lines[..|lines| - 1]) + (lines[|lines| - 1] + "\n")
  }

  lemma {:induction false} TextOfLines(lines: seq<string>)
    requires OneLiners(lines)
    ensures AtBoundary(TextOf(lines)) && Lines(TextOf(lines)) == lines
    ensures '\r' !in TextOf(lines)
  {
    if lines != [] {
      var (init, last) := (lines[..|lines| - 1], lines[|lines| - 1]);
      TextOfLines(init);
      assert OneLiner(last) && '\n' !in last && '\r' !in last;
      hide Lines, OneLiners;
      LinesAppend(TextOf(init), last + "\n");
      OneLine(last);
      assert lines == init + [last];
    } else {
      NoLines();
    }
  }

  lemma CleanWithoutCr(text: string)
    requires '\r' !in text
    ensures CleanEnds(text)
  {
    forall i
      ensures !LoneCr(text, i)
    {
      if 0 <= i < |text| { assert text[i] in text; }
    }
  }

  /** Both parsers on a text made of lines. */
  lemma BothRead(parse: Parser, lines: seq<string>)
    requires OneLiners(lines)
    ensures TextVerdict(parse, TextOf(lines)) == VerdictOf(Meaning(parse, LineKinds(lines)))
    ensures StandardEvents(TextOf(lines)) == Dispatch(lines, "", [])
  {
    var text := TextOf(lines);
    TextOfLines(lines);
    CleanWithoutCr(text);
    hide TextOf, CleanEnds, StandardLines, Lines, Meaning, Dispatch, ClassifyLine;
    SameLines(text);
    KindsOfLines(lines);
    forall i | 0 <= i < |lines|
      ensures StripCr(lines[i]) == lines[i]
    {
      assert OneLiner(lines[i]);
    }
    assert Stripped(lines) == lines;
  }

  lemma DataLine(value: string)
    ensures ClassifyLine("data: " + value) == Data(value)
  {
    var line := "data: " + value;
    assert line[..5] == "data:" && line[5..] == " " + value && (" " + value)[1..] == value;
    OtherStart(line, ":");
    OtherStart(line, "event:");
    hide Lower, Trim;
  }

  lemma EventLine(name: string)
    ensures ClassifyLine("event: " + name) == EventName(Lower(Trim(" " + name)))
    ensures FieldValue("event: " + name) == name
  {
    var line := "event: " + name;
    assert line[..6] == "event:" && line[6..] == " " + name && (" " + name)[1..] == name;
    OtherStart(line, ":");
    ColonIs(line, 5);
    hide Lower, Trim, ColonIndex;
  }

  // ----- one step of each parser -----

  lemma MeaningEmpty(parse: Parser)
    ensures Meaning(parse, []) == NONE
  {
    var none: seq<string> := [];
    assert Events([]) == [none] && [none][1..] == [];
    assert AllEventFlags(parse, [none]) == DataFlags(parse, none).Or(AllEventFlags(parse, []));
  }

  lemma OneBare(parse: Parser, text: string)
    ensures Meaning(parse, [Bare(text)]) == PayloadFlags(parse, text).1
  {
    hide PayloadFlags;
    MeaningEmpty(parse);
    assert [Bare(text)][1..] == [];
    assert Events([Bare(text)]) == Events([]);
    assert AllLineFlags(parse, [Bare(text)]) == PayloadFlags(parse, text).1.Or(AllLineFlags(parse, []));
  }

  lemma OneData(parse: Parser, text: string)
    ensures Meaning(parse, [Data(text)]) == DataFlags(parse, [text])
  {
    hide DataFlags;
    assert [Data(text)][1..] == [] && [text] + [] == [text];
    assert Events([Data(text)]) == [[text]] && [[text]][1..] == [];
    assert AllEventFlags(parse, [[text]]) == DataFlags(parse, [text]).Or(AllEventFlags(parse, []));
    assert AllLineFlags(parse, [Data(text)]) == NONE.Or(AllLineFlags(parse, []));
  }

  lemma NamedError(parse: Parser, later: seq<Line>)
    ensures Meaning(parse, [EventName("error")] + later) == Flags(Meaning(parse, later).content, true)
  {
    var all := [EventName("error")] + later;
    assert all[1..] == later;
    hide AllEventFlags;
    assert Events(all) == Events(later);
    assert AllLineFlags(parse, all) == Flags(false, true).Or(AllLineFlags(parse, later));
  }

  lemma BlankLast(parse: Parser, a: seq<Line>)
    ensures Meaning(parse, a + [Blank]) == Meaning(parse, a)
  {
    hide Meaning;
    MeaningAddsAtBlank(parse, a, []);
    MeaningEmpty(parse);
    assert a + [Blank] + [] == a + [Blank];
  }

  lemma Constants()
    ensures ClassifyLine("") == Blank && OneLiner("") && LineKinds([]) == []
    ensures OneLiner("event: Error") && OneLiner("event: error") && OneLiner("data: [DONE]") && OneLiner("data")
  {
  }

  lemma DataOfAnswer(parse: Parser, answer: string)
    requires IsAnswer(parse, answer)
    ensures DataFlags(parse, [answer]) == Flags(true, false) && OneLiner("data: " + answer)
  {
    assert JoinLines([answer]) == answer;
    hide PayloadFlags, ClassifyLine, EachFlags;
  }

  lemma OneLiners1(a: string)
    requires OneLiner(a)
    ensures OneLiners([a]) && [a] + [] == [a]
  {
    hide OneLiner;
  }

  lemma OneLiners2(a: string)
    requires OneLiner(a)
    ensures OneLiners([a, ""]) && [a] + ([""] + []) == [a, ""]
  {
    Constants();
    hide OneLiner;
  }

  // ----- the differences -----

  /** A line of bare JSON counts; the standard ignores it as an unknown field. */
  lemma BareLineCounts(parse: Parser, answer: string)
    requires IsAnswer(parse, answer)
    ensures TextVerdict(parse, TextOf([answer])) == Verdict(true, false, false)
    ensures StandardEvents(TextOf([answer])) == []
  {
    hide StandardEvents, TextVerdict, TextOf, Dispatch, PayloadFlags, ClassifyLine, LineKinds, Meaning, OneLiner, OneLiners;
    Constants();
    OneLiners1(answer);
    BothRead(parse, [answer]);
    OneBare(parse, answer);
    KindsCons(answer, []);
    DispatchStep(answer, [], "", []);
    DispatchEnd("", []);
    assert [Bare(answer)] + [] == [Bare(answer)];
  }

  /** The event at the end counts without a blank line after it; the standard discards it. */
  lemma UnterminatedEventCounts(parse: Parser, answer: string)
    requires IsAnswer(parse, answer)
    ensures TextVerdict(parse, TextOf(["data: " + answer])) == Verdict(true, false, false)
    ensures StandardEvents(TextOf(["data: " + answer])) == []
  {
    var line := "data: " + answer;
    assert line[4] == ':';
    hide StandardEvents, TextVerdict, TextOf, Dispatch, DataFlags, PayloadFlags, ClassifyLine, LineKinds, Meaning, OneLiner, OneLiners;
    Constants();
    DataOfAnswer(parse, answer);
    DataLine(answer);
    OneLiners1(line);
    BothRead(parse, [line]);
    OneData(parse, answer);
    KindsCons(line, []);
    DispatchStep(line, [], "", []);
    DispatchEnd("", [] + [answer]);
    assert [Data(answer)] + [] == [Data(answer)];
  }

  /** An error name counts in any case and with any white space around it; to the standard an
      event of the type `Error` is no error. */
  lemma NameIsNormalised(parse: Parser)
    ensures TextVerdict(parse, TextOf(["event: Error", "data: [DONE]", ""])) == Verdict(false, true, true)
    ensures StandardEvents(TextOf(["event: Error", "data: [DONE]", ""])) == [Dispatched("Error", ["[DONE]"])]
    ensures StandardFlags(parse, TextOf(["event: Error", "data: [DONE]", ""])) == NONE
  {
    hide TextVerdict, TextOf, Dispatch, DataFlags, ClassifyLine, LineKinds, Meaning, OneLiner, OneLiners, DispatchedFlags;
    NormalisedKinds();
    NormalisedEvents();
    NormalisedLines();
    BothRead(parse, ["event: Error", "data: [DONE]", ""]);
    NormalisedMeaning(parse);
    NormalisedDispatch(parse);
  }

  lemma NormalisedLines()
    ensures OneLiners(["event: Error", "data: [DONE]", ""])
  {
    Constants();
    hide OneLiner;
  }

  lemma NormalisedMeaning(parse: Parser)
    ensures Meaning(parse, [EventName("error")] + ([Data("[DONE]")] + [Blank])) == Flags(false, true)
  {
    hide Meaning, DataFlags;
    NamedError(parse, [Data("[DONE]")] + [Blank]);
    BlankLast(parse, [Data("[DONE]")]);
    OneData(parse, "[DONE]");
    DoneFlags(parse);
  }

  lemma NormalisedDispatch(parse: Parser)
    ensures DispatchedFlags(parse, [Dispatched("Error", ["[DONE]"])]) == NONE
  {
    hide DataFlags;
    DoneFlags(parse);
    DispatchedStep(parse, Dispatched("Error", ["[DONE]"]), []);
    assert [Dispatched("Error", ["[DONE]"])] + [] == [Dispatched("Error", ["[DONE]"])];
  }

  lemma NormalisedKinds()
    ensures LineKinds(["event: Error", "data: [DONE]", ""]) == [EventName("error")] + ([Data("[DONE]")] + [Blank])
  {
    hide ClassifyLine, Lower, Trim, OneLiner, FieldValue;
    Literals();
    ErrorNames();
    EventLine("Error");
    DataLine("[DONE]");
    Constants();
    assert [EventName("error")] + ([Data("[DONE]")] + [Blank]) == [EventName("error"), Data("[DONE]"), Blank];
  }

  lemma Literals()
    ensures "event: " + "Error" == "event: Error" && "event: " + "error" == "event: error"
    ensures "data: " + "[DONE]" == "data: [DONE]" && " " + "Error" == " Error" && " " + "error" == " error"
  {
  }

  lemma NormalisedEvents()
    ensures Dispatch(["event: Error", "data: [DONE]", ""], "", []) == [Dispatched("Error", ["[DONE]"])]
  {
    hide ClassifyLine, Lower, Trim, FieldValue, Dispatch, OneLiner;
    var (name, data) := ("event: Error", "data: [DONE]");
    Literals();
    EventLine("Error");
    DataLine("[DONE]");
    Constants();
    DispatchStep(name, [data, ""], "", []);
    DispatchStep(data, [""], "Error", []);
    DispatchStep("", [], "Error", [] + ["[DONE]"]);
    DispatchEnd("", []);
    assert [name] + [data, ""] == [name, data, ""] && [data] + [""] == [data, ""] && [""] + [] == [""];
    assert [] + ["[DONE]"] == ["[DONE]"];
  }

  lemma ErrorNames()
    ensures Lower(Trim(" Error")) == "error" && Lower(Trim(" error")) == "error"
  {
    assert " Error"[1..] == "Error" && " error"[1..] == "error";
    assert TrimStart(" Error") == "Error" && TrimStart(" error") == "error";
    assert TrimEnd("Error") == "Error" && TrimEnd("error") == "error";
    assert Lower("Error") == "error" && Lower("error") == "error";
  }

  lemma DoneFlags(parse: Parser)
    ensures DataFlags(parse, ["[DONE]"]) == NONE
  {
    assert JoinLines(["[DONE]"]) == "[DONE]" && Trim("[DONE]") == "[DONE]";
  }

  /** An error name counts without data; the standard dispatches no event without data. */
  lemma NameWithoutDataCounts(parse: Parser)
    ensures TextVerdict(parse, TextOf(["event: error", ""])) == Verdict(false, true, true)
    ensures StandardEvents(TextOf(["event: error", ""])) == []
  {
    hide StandardEvents, TextVerdict, TextOf, Dispatch, ClassifyLine, LineKinds, Meaning, OneLiner, OneLiners;
    Constants();
    OneLiners2("event: error");
    NameAloneKinds();
    NameAloneEvents();
    BothRead(parse, ["event: error", ""]);
    NamedError(parse, [Blank]);
    BlankLast(parse, []);
    MeaningEmpty(parse);
    assert [] + [Blank] == [Blank];
  }

  lemma NameAloneKinds()
    ensures LineKinds(["event: error", ""]) == [EventName("error")] + [Blank]
  {
    hide ClassifyLine, Lower, Trim, OneLiner, FieldValue;
    Literals();
    ErrorNames();
    EventLine("error");
    Constants();
  }

  lemma NameAloneEvents()
    ensures Dispatch(["event: error", ""], "", []) == []
  {
    hide ClassifyLine, Lower, Trim, FieldValue, Dispatch, OneLiner;
    var name := "event: error";
    Literals();
    EventLine("error");
    Constants();
    DispatchStep(name, [""], "", []);
    DispatchStep("", [], "error", []);
    DispatchEnd("", []);
    assert [name] + [""] == [name, ""] && [""] + [] == [""];
  }

  /** A line that is just `data` is read as a bare payload; to the standard it is an empty data
      line, which makes the blank line dispatch an event.  That event says nothing, so for JSON the
      verdict is the same. */
  lemma NamelessDataDispatches(parse: Parser)
    ensures TextVerdict(parse, TextOf(["data", ""])) == VerdictOf(PayloadFlags(parse, "data").1)
    ensures StandardEvents(TextOf(["data", ""])) == [Dispatched("", [""])]
  {
    Constants();
    OneLiners2("data");
    NamelessEvents();
    NamelessKind();
    hide StandardLines, TextVerdict, TextOf, Dispatch, ClassifyLine, LineKinds, Meaning, OneLiner, OneLiners, PayloadFlags;
    BothRead(parse, ["data", ""]);
    KindsCons("data", [""] + []);
    KindsCons("", []);
    assert [Blank] + [] == [Blank];
    BlankLast(parse, [Bare("data")]);
    OneBare(parse, "data");
  }

  lemma NamelessEvents()
    ensures Dispatch(["data", ""], "", []) == [Dispatched("", [""])]
  {
    ColonIs("data", 4);
    assert FieldName("data") == "data" && FieldValue("data") == "";
    assert ["data", ""][1..] == [""] && [""][1..] == [];
    hide ColonIndex, FieldName, FieldValue;
    assert [] + [""] == [""];
    DispatchEnd("", []);
    assert Dispatch([""], "", [""]) == [Dispatched("", [""])] + Dispatch([], "", []);
  }

  /** A carriage return alone does not end a line: the answer stays part of the comment. */
  lemma LoneCrHides(parse: Parser, answer: string)
    requires IsAnswer(parse, answer)
    ensures var text := ": c\r" + TextOf(["data: " + answer, ""]);
      && TextVerdict(parse, text) == Verdict(false, false, true)
      && StandardEvents(text) == [Dispatched("", [answer])] && StandardFlags(parse, text) == Flags(true, false)
  {
    hide TextOf, StandardLines, Dispatch, ClassifyLine, Classify, Meaning, Lines, DataFlags, PayloadFlags, Classified, OneLiner;
    DataOfAnswer(parse, answer);
    CommentAlone(parse, "data: " + answer);
    LoneCrLines("data: " + answer);
    LoneCrEvents(parse, answer);
    OneDispatched(parse, [answer]);
  }

  lemma OneDispatched(parse: Parser, data: seq<string>)
    ensures DispatchedFlags(parse, [Dispatched("", data)]) == DataFlags(parse, data)
  {
    hide DataFlags;
    assert [Dispatched("", data)][1..] == [];
    assert DispatchedFlags(parse, [Dispatched("", data)]) == NONE.Or(DataFlags(parse, data)).Or(DispatchedFlags(parse, []));
  }

  lemma CommentAlone(parse: Parser, line: string)
    requires OneLiner(line) && line != ""
    ensures Meaning(parse, Classified([": c\r" + line, ""])) == NONE
  {
    CommentLine(line);
    hide Classify, Meaning;
    assert Classified([": c\r" + line, ""]) == [Comment] + [Blank];
    BlankLast(parse, [Comment]);
    MeaningSkips(parse, [], Comment, []);
    assert [] + [Comment] + [] == [Comment];
    MeaningEmpty(parse);
  }

  lemma CommentLine(line: string)
    requires OneLiner(line) && line != ""
    ensures Classify(": c\r" + line) == Comment && Classify("") == Blank
  {
    var raw := ": c\r" + line;
    assert raw[|raw| - 1] == line[|line| - 1];
    assert raw[..1] == ":";
    assert StripCr(raw) == raw;
  }

  lemma TextOfTwo(line: string)
    ensures TextOf([line, ""]) == line + "\n" + "\n"
  {
    assert [line, ""][..1] == [line] && [line][..0] == [];
    assert TextOf([line]) == "" + (line + "\n");
  }

  lemma LoneCrLines(line: string)
    requires OneLiner(line)
    ensures Lines(": c\r" + TextOf([line, ""])) == [": c\r" + line, ""]
  {
    hide Lines, TextOf;
    var start := ": c\r" + line;
    TextOfTwo(line);
    assert ": c\r" + (line + "\n" + "\n") == start + "\n" + "\n";
    TwoLines(start) by {
      assert forall i :: 0 <= i < |start| ==> start[i] == if i < 4 then ": c\r"[i] else line[i - 4];
    }
  }

  lemma TwoLines(start: string)
    requires '\n' !in start
    ensures Lines(start + "\n" + "\n") == [start, ""]
  {
    hide Lines;
    LinesAppend(start + "\n", "\n");
    OneLine(start);
    OneLine("");
    assert "" + "\n" == "\n";
  }

  lemma LoneCrEvents(parse: Parser, answer: string)
    requires IsAnswer(parse, answer)
    ensures StandardEvents(": c\r" + TextOf(["data: " + answer, ""])) == [Dispatched("", [answer])]
  {
    var line := "data: " + answer;
    var rest := TextOf([line, ""]);
    TextOfTwo(line);
    assert rest != "" && rest[0] == 'd';
    LoneCrFirst(rest);
    DataEvent(parse, answer);
    hide TextOf, Dispatch, StandardLines, ClassifyLine, PayloadFlags, OneLiner;
    CommentDropped(StandardLines(rest));
  }

  lemma LoneCrFirst(rest: string)
    requires rest != "" && rest[0] != '\n'
    ensures StandardLines(": c\r" + rest) == [": c"] + StandardLines(rest)
  {
    var text := ": c\r" + rest;
    EndIs(text, 3);
    hide IndexOfEnd;
    assert text[..3] == ": c" && text[4..] == rest && text[4] == rest[0];
  }

  lemma CommentDropped(rest: seq<string>)
    ensures Dispatch([": c"] + rest, "", []) == Dispatch(rest, "", [])
  {
    ColonIs(": c", 0);
    assert ([": c"] + rest)[1..] == rest;
  }

  lemma DataEvent(parse: Parser, answer: string)
    requires IsAnswer(parse, answer)
    ensures StandardEvents(TextOf(["data: " + answer, ""])) == [Dispatched("", [answer])]
  {
    var line := "data: " + answer;
    assert line[4] == ':';
    Constants();
    DataOfAnswer(parse, answer);
    DataLine(answer);
    OneLiners2(line);
    hide TextOf, TextVerdict, Dispatch, ClassifyLine, LineKinds, PayloadFlags, OneLiner, OneLiners, StandardLines;
    BothRead(parse, [line, ""]);
    DispatchStep(line, [""] + [], "", []);
    DispatchStep("", [], "", [] + [answer]);
    DispatchEnd("", []);
    assert [] + [answer] == [answer];
  }
}
