/** What the inspector's verdict depends on: the text of the stream and nothing else. */
module SseVerdict {
  import opened SseInspector

  // ----- chunk boundaries do not matter -----

  function PushAll(parse: Parser, decoder: Decoder, s: Inspector, chunks: seq<Chunk>): Inspector
    decreases |chunks|
  {
    if chunks == [] then s else PushAll(parse, decoder, Push(parse, decoder, s, chunks[0]), chunks[1..])
  }

  /** The smallest pieces a stream can be cut into. */
  datatype Unit = Letter(c: char) | Byte(b: int)

  function Units(chunks: seq<Chunk>): seq<Unit> {
    if chunks == [] then [] else UnitsOf(chunks[0]) + Units(chunks[1..])
  }

  function UnitsOf(chunk: Chunk): seq<Unit> {
    match chunk
    case TextChunk(text) => seq(|text|, i requires 0 <= i < |text| => Letter(text[i]))
    case ByteChunk(bytes) => seq(|bytes|, i requires 0 <= i < |bytes| => Byte(bytes[i]))
  }

  function PushUnits(parse: Parser, decoder: Decoder, s: Inspector, units: seq<Unit>): Inspector
    decreases |units|
  {
    if units == [] then s
    else
      var one := if units[0].Letter? then TextChunk([units[0].c]) else ByteChunk([units[0].b]);
      PushUnits(parse, decoder, Push(parse, decoder, s, one), units[1..])
  }

  lemma {:induction false} IndexInPrefix(a: string, b: string)
    ensures IndexOfNewline(a) < |a| ==> IndexOfNewline(a + b) == IndexOfNewline(a)
  {
    if a != [] {
      assert (a + b)[1..] == a[1..] + b;
      IndexInPrefix(a[1..], b);
    }
  }

  /** Draining what is left together with more text is draining it all at once. */
  lemma {:induction false} DrainAppend(parse: Parser, c: Core, a: string, b: string)
    ensures var (core, rest) := Drain(parse, c, a);
      Drain(parse, c, a + b) == Drain(parse, core, rest + b)
    decreases |a|
  {
    hide ProcessLine, IndexOfNewline;
    var i := IndexOfNewline(a);
    if i < |a| {
      IndexInPrefix(a, b);
      assert (a + b)[..i] == a[..i] && (a + b)[i + 1..] == a[i + 1..] + b;
      DrainAppend(parse, ProcessLine(parse, c, a[..i]), a[i + 1..], b);
    }
  }

  lemma PushTextAppend(parse: Parser, s: Inspector, a: string, b: string)
    ensures PushText(parse, PushText(parse, s, a), b) == PushText(parse, s, a + b)
  {
    hide Drain, ProcessLine;
    DrainAppend(parse, s.core, s.buffer + a, b);
    assert s.buffer + a + b == s.buffer + (a + b);
  }

  /** No complete line ever stays in the buffer. */
  predicate Settled(s: Inspector) {
    '\n' !in s.buffer
  }

  lemma {:induction false} DrainSettles(parse: Parser, c: Core, text: string)
    ensures '\n' !in Drain(parse, c, text).1
    decreases |text|
  {
    hide ProcessLine;
    var i := IndexOfNewline(text);
    if i < |text| {
      DrainSettles(parse, ProcessLine(parse, c, text[..i]), text[i + 1..]);
    } else {
      assert text[..i] == text;
    }
  }

  lemma {:induction false} NoNewline(s: string)
    requires '\n' !in s
    ensures IndexOfNewline(s) == |s|
  {
    if s != [] { NoNewline(s[1..]); }
  }

  lemma PushNothing(parse: Parser, s: Inspector)
    requires Settled(s)
    ensures PushText(parse, s, "") == s
  {
    NoNewline(s.buffer);
    assert s.buffer + "" == s.buffer;
  }

  lemma PushSettles(parse: Parser, decoder: Decoder, s: Inspector, chunk: Chunk)
    ensures Settled(Push(parse, decoder, s, chunk))
  {
    match chunk
    case TextChunk(text) => DrainSettles(parse, s.core, s.buffer + text);
    case ByteChunk(bytes) => DrainSettles(parse, s.core, s.buffer + Decode(decoder, s.decoder, bytes).1);
  }

  /** One chunk is the same as its pieces one by one. */
  lemma {:induction false} ChunkIsUnits(parse: Parser, decoder: Decoder, s: Inspector, chunk: Chunk)
    requires Settled(s)
    ensures Push(parse, decoder, s, chunk) == PushUnits(parse, decoder, s, UnitsOf(chunk))
    decreases if chunk.TextChunk? then |chunk.text| else |chunk.bytes|
  {
    var units := UnitsOf(chunk);
    if units == [] {
      PushNothing(parse, s);
    } else if chunk.TextChunk? {
      var (c, more) := (chunk.text[0], chunk.text[1..]);
      var next := Push(parse, decoder, s, TextChunk([c]));
      assert units[1..] == UnitsOf(TextChunk(more)) && units[0] == Letter(c);
      assert chunk.text == [c] + more;
      PushTextAppend(parse, s, [c], more);
      PushSettles(parse, decoder, s, TextChunk([c]));
      ChunkIsUnits(parse, decoder, next, TextChunk(more));
    } else {
      var (b, more) := (chunk.bytes[0], chunk.bytes[1..]);
      var next := Push(parse, decoder, s, ByteChunk([b]));
      assert units[1..] == UnitsOf(ByteChunk(more)) && units[0] == Byte(b);
      var (state, first) := decoder.step(s.decoder, b);
      DecodeOne(decoder, s.decoder, b);
      var (last, rest) := Decode(decoder, state, more);
      PushTextAppend(parse, s.(decoder := state), first, rest);
      PushSettles(parse, decoder, s, ByteChunk([b]));
      MoveDecoder(parse, s, state, first, last, rest);
      ChunkIsUnits(parse, decoder, next, ByteChunk(more));
    }
  }

  lemma DecodeOne(decoder: Decoder, state: nat, b: int)
    ensures Decode(decoder, state, [b]) == decoder.step(state, b)
  {
    var (next, text) := decoder.step(state, b);
    assert [b][1..] == [];
    assert Decode(decoder, next, []) == (next, "");
    assert text + "" == text;
  }

  /** The decoder state does not influence how text is drained. */
  lemma MoveDecoder(parse: Parser, s: Inspector, state: nat, first: string, last: nat, rest: string)
    ensures PushText(parse, PushText(parse, s.(decoder := state), first).(decoder := last), rest)
         == PushText(parse, s.(decoder := last), first + rest)
  {
    PushTextAppend(parse, s.(decoder := last), first, rest);
  }

  lemma {:induction false} UnitsAppend(parse: Parser, decoder: Decoder, s: Inspector, a: seq<Unit>, b: seq<Unit>)
    ensures PushUnits(parse, decoder, s, a + b) == PushUnits(parse, decoder, PushUnits(parse, decoder, s, a), b)
    decreases |a|
  {
    if a == [] {
      assert a + b == b;
    } else {
      assert (a + b)[1..] == a[1..] + b;
      var one := if a[0].Letter? then TextChunk([a[0].c]) else ByteChunk([a[0].b]);
      UnitsAppend(parse, decoder, Push(parse, decoder, s, one), a[1..], b);
    }
  }

  lemma {:induction false} PushAllIsUnits(parse: Parser, decoder: Decoder, s: Inspector, chunks: seq<Chunk>)
    requires Settled(s)
    ensures PushAll(parse, decoder, s, chunks) == PushUnits(parse, decoder, s, Units(chunks))
    decreases |chunks|
  {
    if chunks != [] {
      ChunkIsUnits(parse, decoder, s, chunks[0]);
      PushSettles(parse, decoder, s, chunks[0]);
      var next := Push(parse, decoder, s, chunks[0]);
      PushAllIsUnits(parse, decoder, next, chunks[1..]);
      UnitsAppend(parse, decoder, s, UnitsOf(chunks[0]), Units(chunks[1..]));
    }
  }

  function Judge(parse: Parser, decoder: Decoder, chunks: seq<Chunk>): Verdict {
    Finish(parse, decoder, PushAll(parse, decoder, FRESH, chunks)).1
  }

  /** The verdict depends only on the concatenation of the pushed chunks, for every way of
      cutting the stream, inside lines and inside multi-byte characters alike. */
  lemma VerdictIgnoresChunking(parse: Parser, decoder: Decoder, cut: seq<Chunk>, otherCut: seq<Chunk>)
    requires Units(cut) == Units(otherCut)
    ensures Judge(parse, decoder, cut) == Judge(parse, decoder, otherCut)
  {
    PushAllIsUnits(parse, decoder, FRESH, cut);
    PushAllIsUnits(parse, decoder, FRESH, otherCut);
  }

  // ----- the verdict of a text, line by line -----

  /** The lines of a text; an unterminated last line counts, an empty one does not. */
  function Lines(text: string): seq<string>
    decreases |text|
  {
    var i := IndexOfNewline(text);
    if i < |text| then [text[..i]] + Lines(text[i + 1..])
    else if text == "" then []
    else [text]
  }

  function ProcessAll(parse: Parser, c: Core, lines: seq<string>): Core
    decreases |lines|
  {
    if lines == [] then c else ProcessAll(parse, ProcessLine(parse, c, lines[0]), lines[1..])
  }

  lemma {:induction false} DrainIsLines(parse: Parser, c: Core, text: string)
    ensures var (core, rest) := Drain(parse, c, text);
      ProcessAll(parse, c, Lines(text)) == if rest != "" then ProcessLine(parse, core, rest) else core
    decreases |text|
  {
    var i := IndexOfNewline(text);
    if i < |text| {
      assert Lines(text)[1..] == Lines(text[i + 1..]);
      DrainIsLines(parse, ProcessLine(parse, c, text[..i]), text[i + 1..]);
    } else if text != "" {
      assert Lines(text)[1..] == [];
      assert ProcessAll(parse, c, [text]) == ProcessAll(parse, ProcessLine(parse, c, text), []);
    }
  }

  /** The whole text a stream of chunks decodes to. */
  function Decoded(decoder: Decoder, state: nat, chunks: seq<Chunk>): string
    decreases |chunks|
  {
    if chunks == [] then decoder.flush(state)
    else
      match chunks[0]
      case TextChunk(text) => text + Decoded(decoder, state, chunks[1..])
      case ByteChunk(bytes) =>
        var (next, text) := Decode(decoder, state, bytes);
        text + Decoded(decoder, next, chunks[1..])
  }

  lemma {:induction false} PushAllThenFlush(parse: Parser, decoder: Decoder, s: Inspector, chunks: seq<Chunk>)
    requires Settled(s)
    ensures var pushed := PushAll(parse, decoder, s, chunks);
      var drained := PushText(parse, pushed, decoder.flush(pushed.decoder));
      var whole := PushText(parse, s, Decoded(decoder, s.decoder, chunks));
      drained.core == whole.core && drained.buffer == whole.buffer
    decreases |chunks|
  {
    if chunks != [] {
      var next := Push(parse, decoder, s, chunks[0]);
      PushSettles(parse, decoder, s, chunks[0]);
      PushAllThenFlush(parse, decoder, next, chunks[1..]);
      var first := if chunks[0].TextChunk? then chunks[0].text else Decode(decoder, s.decoder, chunks[0].bytes).1;
      PushTextAppend(parse, s, first, Decoded(decoder, next.decoder, chunks[1..]));
    }
  }

  // ----- the verdict as a sum over events -----

  /** What a line says by itself. */
  function LineFlags(parse: Parser, line: Line): Flags {
    match line
    case EventName(name) => Flags(false, name == "error")
    case Bare(text) => PayloadFlags(parse, text).1
    case _ => NONE
  }

  function AllLineFlags(parse: Parser, lines: seq<Line>): Flags {
    if lines == [] then NONE else LineFlags(parse, lines[0]).Or(AllLineFlags(parse, lines[1..]))
  }

  /** The events of one more line in front of `later`. */
  function EventsBefore(line: Line, later: seq<seq<string>>): seq<seq<string>>
    requires later != []
  {
    match line
    case Blank => [[]] + later
    case Data(text) => [[text] + later[0]] + later[1..]
    case _ => later
  }

  /** The data lines of each event: blank lines separate events, every other kind is skipped. */
  function Events(lines: seq<Line>): (events: seq<seq<string>>)
    ensures events != []
  {
    if lines == [] then [[]]
    else
      EventsBefore(lines[0], Events(lines[1..]))
  }

  function AllEventFlags(parse: Parser, events: seq<seq<string>>): Flags {
    if events == [] then NONE else DataFlags(parse, events[0]).Or(AllEventFlags(parse, events[1..]))
  }

  /** The meaning of a stream: what its lines say by themselves and what its events carry. */
  function Meaning(parse: Parser, lines: seq<Line>): Flags {
    AllLineFlags(parse, lines).Or(AllEventFlags(parse, Events(lines)))
  }

  function Classified(rawLines: seq<string>): seq<Line> {
    seq(|rawLines|, i requires 0 <= i < |rawLines| => Classify(rawLines[i]))
  }

  /** An `error` event raised its flag when its name was read. */
  predicate NameNoted(c: Core) {
    c.event == "error" ==> c.flags.error
  }

  function Joined(data: seq<string>, events: seq<seq<string>>): seq<seq<string>>
    requires events != []
  {
    [data + events[0]] + events[1..]
  }

  lemma {:induction false} FoldIsMeaning(parse: Parser, c: Core, rawLines: seq<string>)
    requires NameNoted(c)
    ensures var lines := Classified(rawLines);
      Flush(parse, ProcessAll(parse, c, rawLines)).flags ==
        c.flags.Or(AllLineFlags(parse, lines)).Or(AllEventFlags(parse, Joined(c.data, Events(lines))))
    decreases |rawLines|
  {
    hide Classify, PayloadFlags, DataFlags, Flush, Joined;
    var lines := Classified(rawLines);
    if rawLines == [] {
      FoldEmpty(parse, c);
    } else {
      var rest := Classified(rawLines[1..]);
      assert lines[1..] == rest && lines[0] == Classify(rawLines[0]);
      FoldOne(parse, c, rawLines[0], Events(rest));
      FoldIsMeaning(parse, ProcessLine(parse, c, rawLines[0]), rawLines[1..]);
    }
  }

  lemma FoldEmpty(parse: Parser, c: Core)
    requires NameNoted(c)
    ensures Flush(parse, c).flags == c.flags.Or(AllEventFlags(parse, Joined(c.data, [[]])))
  {
    hide DataFlags;
    assert c.data + [] == c.data;
    assert Joined(c.data, [[]]) == [c.data];
    assert AllEventFlags(parse, [c.data]) == DataFlags(parse, c.data).Or(AllEventFlags(parse, []));
  }

  /** One line moves its own flags, and at a blank line a whole event, into the accumulator. */
  lemma FoldOne(parse: Parser, c: Core, rawLine: string, later: seq<seq<string>>)
    requires NameNoted(c) && later != []
    ensures var next := ProcessLine(parse, c, rawLine);
      var line := Classify(rawLine);
      var events := EventsBefore(line, later);
      && NameNoted(next)
      && next.flags.Or(AllEventFlags(parse, Joined(next.data, later))) ==
           c.flags.Or(LineFlags(parse, line)).Or(AllEventFlags(parse, Joined(c.data, events)))
  {
    hide Classify, PayloadFlags, DataFlags;
    match Classify(rawLine)
    case Blank =>
      assert [] + later[0] == later[0] && c.data + [] == c.data;
      assert Joined([], later) == later;
      assert Joined(c.data, [[]] + later) == [c.data] + later;
      assert ([c.data] + later)[1..] == later;
    case Data(text) =>
      assert c.data + [text] + later[0] == c.data + ([text] + later[0]);
      assert Joined(c.data + [text], later) == Joined(c.data, [[text] + later[0]] + later[1..]);
    case _ =>
  }

  /** The verdict is the meaning of the decoded text, read line by line. */
  lemma VerdictIsMeaning(parse: Parser, decoder: Decoder, chunks: seq<Chunk>)
    ensures Judge(parse, decoder, chunks) ==
            VerdictOf(Meaning(parse, Classified(Lines(Decoded(decoder, 0, chunks)))))
  {
    hide ProcessLine, Flush, Drain, Lines, PushAll, Events, AllLineFlags, AllEventFlags;
    var text := Decoded(decoder, 0, chunks);
    PushAllThenFlush(parse, decoder, FRESH, chunks);
    DrainIsLines(parse, START, text);
    assert "" + text == text;
    FoldIsMeaning(parse, START, Lines(text));
    var events := Events(Classified(Lines(text)));
    assert [] + events[0] == events[0];
    assert Joined([], events) == events;
  }

  // ----- edits that never change the verdict -----

  lemma {:induction false} LineFlagsAppend(parse: Parser, a: seq<Line>, b: seq<Line>)
    ensures AllLineFlags(parse, a + b) == AllLineFlags(parse, a).Or(AllLineFlags(parse, b))
  {
    if a == [] {
      assert a + b == b;
    } else {
      assert (a + b)[1..] == a[1..] + b;
      LineFlagsAppend(parse, a[1..], b);
    }
  }

  lemma {:induction false} EventFlagsAppend(parse: Parser, a: seq<seq<string>>, b: seq<seq<string>>)
    ensures AllEventFlags(parse, a + b) == AllEventFlags(parse, a).Or(AllEventFlags(parse, b))
  {
    if a == [] {
      assert a + b == b;
    } else {
      assert (a + b)[1..] == a[1..] + b;
      EventFlagsAppend(parse, a[1..], b);
    }
  }

  lemma EventsBeforeAppend(line: Line, later: seq<seq<string>>, more: seq<seq<string>>)
    requires later != []
    ensures EventsBefore(line, later + more) == EventsBefore(line, later) + more
  {
    assert (later + more)[1..] == later[1..] + more;
  }

  lemma {:induction false} EventsAtBlank(a: seq<Line>, b: seq<Line>)
    ensures Events(a + [Blank] + b) == Events(a) + Events(b)
  {
    var all := a + [Blank] + b;
    if a == [] {
      assert all[1..] == b && all[0] == Blank;
    } else {
      EventsAtBlank(a[1..], b);
      assert all[1..] == a[1..] + [Blank] + b && all[0] == a[0];
      EventsBeforeAppend(a[0], Events(a[1..]), Events(b));
    }
  }

  /** Streams joined at an event boundary: the verdict flags add up. */
  lemma MeaningAddsAtBlank(parse: Parser, a: seq<Line>, b: seq<Line>)
    ensures Meaning(parse, a + [Blank] + b) == Meaning(parse, a).Or(Meaning(parse, b))
  {
    EventsAtBlank(a, b);
    EventFlagsAppend(parse, Events(a), Events(b));
    LineFlagsAppend(parse, a + [Blank], b);
    LineFlagsAppend(parse, a, [Blank]);
    assert AllLineFlags(parse, [Blank]) == NONE.Or(AllLineFlags(parse, []));
  }

  lemma {:induction false} EventsSkip(a: seq<Line>, x: Line, b: seq<Line>)
    requires x.Comment? || x.Skipped?
    ensures Events(a + [x] + b) == Events(a + b)
  {
    if a == [] {
      assert ([] + [x] + b)[1..] == b && [] + b == b;
    } else {
      assert (a + [x] + b)[1..] == a[1..] + [x] + b && (a + b)[1..] == a[1..] + b;
      EventsSkip(a[1..], x, b);
    }
  }

  lemma MeaningSkips(parse: Parser, a: seq<Line>, x: Line, b: seq<Line>)
    requires x.Comment? || x.Skipped?
    ensures Meaning(parse, a + [x] + b) == Meaning(parse, a + b)
  {
    EventsSkip(a, x, b);
    LineFlagsAppend(parse, a + [x], b);
    LineFlagsAppend(parse, a, [x]);
    LineFlagsAppend(parse, a, b);
    assert AllLineFlags(parse, [x]) == NONE.Or(AllLineFlags(parse, []));
  }

  /** A text ends at a line boundary. */
  predicate AtBoundary(text: string) {
    text == "" || text[|text| - 1] == '\n'
  }

  lemma {:induction false} LinesAppend(a: string, b: string)
    requires AtBoundary(a)
    ensures Lines(a + b) == Lines(a) + Lines(b)
    decreases |a|
  {
    hide Lines, IndexOfNewline;
    if a == "" {
      NoLines();
      assert a + b == b;
    } else {
      var line, rest := BoundaryLine(a, b);
      LinesAppend(rest, b);
      assert [line] + (Lines(rest) + Lines(b)) == [line] + Lines(rest) + Lines(b);
    }
  }

  lemma NoLines()
    ensures Lines("") == []
  {
  }

  /** The first line of a text that ends at a line boundary, with anything after it. */
  lemma BoundaryLine(a: string, b: string) returns (line: string, rest: string)
    requires AtBoundary(a) && a != ""
    ensures |rest| < |a| && AtBoundary(rest)
    ensures Lines(a) == [line] + Lines(rest) && Lines(a + b) == [line] + Lines(rest + b)
  {
    hide IndexOfNewline, Lines;
    var i := IndexOfNewline(a);
    assert a[..|a|] == a;
    assert a[|a| - 1] in a;
    line, rest := a[..i], a[i + 1..];
    FirstLine(a, b);
  }

  lemma FirstLine(a: string, b: string)
    requires IndexOfNewline(a) < |a|
    ensures var i := IndexOfNewline(a);
      && Lines(a) == [a[..i]] + Lines(a[i + 1..])
      && Lines(a + b) == [a[..i]] + Lines(a[i + 1..] + b)
  {
    var i := IndexOfNewline(a);
    IndexInPrefix(a, b);
    hide IndexOfNewline;
    assert (a + b)[..i] == a[..i] && (a + b)[i + 1..] == a[i + 1..] + b;
  }

  lemma {:induction false} OneLine(line: string)
    requires '\n' !in line
    ensures Lines(line + "\n") == [line]
  {
    NoNewlineBefore(line, "\n");
    assert (line + "\n")[..|line|] == line;
    assert (line + "\n")[|line| + 1..] == "";
  }

  lemma {:induction false} NoNewlineBefore(line: string, rest: string)
    requires '\n' !in line && rest != [] && rest[0] == '\n'
    ensures IndexOfNewline(line + rest) == |line|
  {
    if line == "" {
      assert line + rest == rest;
    } else {
      assert (line + rest)[1..] == line[1..] + rest;
      NoNewlineBefore(line[1..], rest);
    }
  }

  function TextVerdict(parse: Parser, text: string): Verdict {
    VerdictOf(Meaning(parse, Classified(Lines(text))))
  }

  lemma ClassifiedAppend(a: seq<string>, b: seq<string>)
    ensures Classified(a + b) == Classified(a) + Classified(b)
  {
  }

  lemma SkippedLine(line: string)
    requires StartsWith(line, ":") || StartsWith(line, "id:") || StartsWith(line, "retry:")
    ensures Classify(line).Comment? || Classify(line).Skipped?
  {
    var kept := StripCr(line);
    assert kept[0] == line[0];
    forall prefix | prefix in {":", "id:", "retry:"} && StartsWith(line, prefix)
      ensures StartsWith(kept, prefix)
    {
      assert line[|prefix| - 1] == prefix[|prefix| - 1];
      assert kept[..|prefix|] == line[..|prefix|];
    }
    if !StartsWith(line, ":") {
      assert if StartsWith(line, "id:") then line[..3][0] == 'i' else line[..6][0] == 'r';
      OtherStart(kept, "event:");
      OtherStart(kept, "data:");
    }
  }

  lemma OtherStart(line: string, prefix: string)
    requires line != "" && prefix != "" && line[0] != prefix[0]
    ensures !StartsWith(line, prefix)
  {
    assert |prefix| <= |line| ==> line[..|prefix|][0] == line[0];
  }

  /** Keep-alive comments, ids and retry hints inserted at a line boundary never change the
      verdict. */
  lemma InsertedCommentIgnored(parse: Parser, before: string, line: string, after: string)
    requires AtBoundary(before) && '\n' !in line
    requires StartsWith(line, ":") || StartsWith(line, "id:") || StartsWith(line, "retry:")
    ensures TextVerdict(parse, before + (line + "\n") + after) == TextVerdict(parse, before + after)
  {
    SkippedLine(line);
    hide StartsWith, Classify, Meaning;
    LinesAppend(before + (line + "\n"), after);
    LinesAppend(before, line + "\n");
    OneLine(line);
    LinesAppend(before, after);
    var (a, b) := (Classified(Lines(before)), Classified(Lines(after)));
    ClassifiedAppend(Lines(before) + [line], Lines(after));
    ClassifiedAppend(Lines(before), [line]);
    ClassifiedAppend(Lines(before), Lines(after));
    assert Classified([line]) == [Classify(line)];
    MeaningSkips(parse, a, Classify(line), b);
  }

  /** A line feed at the end never changes the verdict: it ends the last line or is blank. */
  lemma AppendedBlankIgnored(parse: Parser, text: string)
    ensures TextVerdict(parse, text + "\n") == TextVerdict(parse, text)
  {
    if AtBoundary(text) {
      LinesAppend(text, "\n");
      OneLine("");
      assert "" + "\n" == "\n";
      var a := Classified(Lines(text));
      ClassifiedAppend(Lines(text), [""]);
      assert Classified([""]) == [Blank];
      MeaningAddsAtBlank(parse, a, []);
      assert a + [Blank] + [] == a + [Blank];
      assert AllEventFlags(parse, [[]]) == NONE.Or(AllEventFlags(parse, []));
    } else {
      EndedLine(text);
    }
  }

  lemma {:induction false} EndedLine(text: string)
    requires !AtBoundary(text)
    ensures Lines(text + "\n") == Lines(text)
    decreases |text|
  {
    var i := IndexOfNewline(text);
    hide Lines, IndexOfNewline;
    if i < |text| {
      FirstLine(text, "\n");
      EndedLine(text[i + 1..]);
    } else {
      LastLine(text);
      OneLine(text);
    }
  }

  lemma LastLine(text: string)
    requires text != "" && IndexOfNewline(text) == |text|
    ensures Lines(text) == [text]
  {
    hide IndexOfNewline;
    assert text[..|text|] == text;
  }
}
