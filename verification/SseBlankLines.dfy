/** Blank lines at the end of a stream, ended by a line feed or by a carriage return and a line
    feed in any mixture, never change the verdict. */
module SseBlankLines {
  import opened SseInspector
  import opened SseVerdict

  // ----- one more carriage return at the end of a line -----

  lemma {:induction false} TrimStartEnd(s: string)
    ensures TrimStart(s + "\r") == if TrimStart(s) == "" then "" else TrimStart(s) + "\r"
  {
    if s == "" {
      assert s + "\r" == "\r" && "\r"[1..] == "";
      assert TrimStart("\r") == TrimStart("");
    } else {
      assert (s + "\r")[1..] == s[1..] + "\r";
      if IsSpace(s[0]) { TrimStartEnd(s[1..]); }
    }
  }

  lemma TrimCr(s: string)
    ensures Trim(s + "\r") == Trim(s)
  {
    TrimStartEnd(s);
    var t := TrimStart(s);
    assert (t + "\r")[..|t|] == t;
  }

  lemma {:induction false} JoinCr(data: seq<string>, d: string)
    ensures JoinLines(data + [d + "\r"]) == JoinLines(data + [d]) + "\r"
  {
    if data == [] {
      assert data + [d] == [d] && data + [d + "\r"] == [d + "\r"];
    } else {
      assert (data + [d])[1..] == data[1..] + [d] && (data + [d + "\r"])[1..] == data[1..] + [d + "\r"];
      JoinCr(data[1..], d);
    }
  }

  lemma PayloadCr(parse: Parser, text: string)
    ensures PayloadFlags(parse, text + "\r") == PayloadFlags(parse, text)
  {
    TrimCr(text);
  }

  lemma {:induction false} EachCr(parse: Parser, data: seq<string>, d: string)
    ensures EachFlags(parse, data + [d + "\r"]) == EachFlags(parse, data + [d])
  {
    hide PayloadFlags;
    if data == [] {
      assert data + [d] == [d] && data + [d + "\r"] == [d + "\r"];
      PayloadCr(parse, d);
    } else {
      assert (data + [d])[1..] == data[1..] + [d] && (data + [d + "\r"])[1..] == data[1..] + [d + "\r"];
      EachCr(parse, data[1..], d);
    }
  }

  lemma DataCr(parse: Parser, data: seq<string>, d: string)
    ensures DataFlags(parse, data + [d + "\r"]) == DataFlags(parse, data + [d])
  {
    hide PayloadFlags, JoinLines, EachFlags;
    JoinCr(data, d);
    PayloadCr(parse, JoinLines(data + [d]));
    EachCr(parse, data, d);
  }

  lemma StartsWithCr(y: string, prefix: string)
    requires prefix != "" && prefix[|prefix| - 1] != '\r'
    ensures StartsWith(y + "\r", prefix) == StartsWith(y, prefix)
    ensures StartsWith(y, prefix) ==> |y| >= |prefix| && (y + "\r")[|prefix|..] == y[|prefix|..] + "\r"
  {
    if |prefix| <= |y| { assert (y + "\r")[..|prefix|] == y[..|prefix|]; }
    if |prefix| == |y| + 1 { assert (y + "\r")[..|prefix|][|y|] == '\r'; }
  }

  /** A carriage return at the end of a line that is not blank stays in its text; at the end of a
      blank one it makes a payload of white space. */
  lemma ClassifyCr(y: string)
    ensures match ClassifyLine(y)
            case Blank => ClassifyLine(y + "\r") == Bare("\r")
            case Data(text) => ClassifyLine(y + "\r") == Data(text + "\r")
            case Bare(text) => ClassifyLine(y + "\r") == Bare(text + "\r")
            case other => ClassifyLine(y + "\r") == other
  {
    hide StartsWith, Lower, Trim;
    StartsWithCr(y, ":");
    StartsWithCr(y, "event:");
    StartsWithCr(y, "data:");
    StartsWithCr(y, "id:");
    StartsWithCr(y, "retry:");
    NoPrefixOfEmpty();
    assert "" + "\r" == "\r";
    if ClassifyLine(y).EventName? && |y| >= 6 { TrimCr(y[6..]); }
    if ClassifyLine(y).Data? && |y| >= 5 { StripSpaceCr(y[5..]); }
  }

  lemma NoPrefixOfEmpty()
    ensures !StartsWith("", ":") && !StartsWith("", "event:") && !StartsWith("", "data:")
    ensures !StartsWith("", "id:") && !StartsWith("", "retry:")
  {
  }

  lemma StripSpaceCr(s: string)
    ensures StripSpace(s + "\r") == StripSpace(s) + "\r"
  {
    if s != "" { assert (s + "\r")[1..] == s[1..] + "\r"; }
  }

  lemma FinalLineCr(parse: Parser, c: Core, y: string)
    ensures Flush(parse, Apply(parse, c, ClassifyLine(y + "\r"))).flags == Flush(parse, Apply(parse, c, ClassifyLine(y))).flags
  {
    hide ClassifyLine, DataFlags, PayloadFlags;
    ClassifyCr(y);
    match ClassifyLine(y) {
      case Blank => NoPayload(parse);
      case Data(text) => DataCr(parse, c.data, text);
      case Bare(text) => PayloadCr(parse, text);
      case _ =>
    }
  }

  lemma NoPayload(parse: Parser)
    ensures PayloadFlags(parse, "\r") == (true, NONE) && DataFlags(parse, []) == NONE
  {
    TrimCr("");
    assert "" + "\r" == "\r";
  }

  // ----- the last line of a text -----

  lemma {:induction false} LastUnterminated(text: string, x: string) returns (init: seq<string>, last: string)
    requires !AtBoundary(text) && '\n' !in x
    ensures Lines(text) == init + [last] && Lines(text + x) == init + [last + x]
    decreases |text|
  {
    var i := IndexOfNewline(text);
    hide Lines, IndexOfNewline;
    if i < |text| {
      FirstLine(text, x);
      var rest, lastRest := LastUnterminated(text[i + 1..], x);
      init, last := [text[..i]] + rest, lastRest;
    } else {
      LastLine(text);
      NoNewlineIn(text, x);
      LastLine(text + x);
      init, last := [], text;
    }
  }

  lemma NoNewlineIn(text: string, x: string)
    requires IndexOfNewline(text) == |text| && '\n' !in x
    ensures IndexOfNewline(text + x) == |text + x|
  {
    assert text[..|text|] == text;
    NoNewline(text + x);
  }

  lemma {:induction false} ProcessSnoc(parse: Parser, c: Core, init: seq<string>, last: string)
    ensures ProcessAll(parse, c, init + [last]) == ProcessLine(parse, ProcessAll(parse, c, init), last)
    decreases |init|
  {
    hide ProcessLine;
    if init == [] {
      assert init + [last] == [last] && [last][1..] == [];
      assert ProcessAll(parse, c, [last]) == ProcessAll(parse, ProcessLine(parse, c, last), []);
    } else {
      assert (init + [last])[1..] == init[1..] + [last];
      ProcessSnoc(parse, ProcessLine(parse, c, init[0]), init[1..], last);
    }
  }

  /** The verdict of a text as the fold over its lines. */
  lemma TextVerdictFolds(parse: Parser, text: string)
    ensures TextVerdict(parse, text) == VerdictOf(Flush(parse, ProcessAll(parse, START, Lines(text))).flags)
  {
    hide ProcessLine, Flush, Lines, Events, AllLineFlags, AllEventFlags;
    FoldIsMeaning(parse, START, Lines(text));
    var events := Events(Classified(Lines(text)));
    assert [] + events[0] == events[0];
    assert Joined([], events) == events;
  }

  lemma UnterminatedCr(parse: Parser, text: string)
    requires !AtBoundary(text)
    ensures TextVerdict(parse, text + "\r") == TextVerdict(parse, text)
  {
    var init, last := LastUnterminated(text, "\r");
    hide TextVerdict, Flush, ProcessLine;
    TextVerdictFolds(parse, text);
    TextVerdictFolds(parse, text + "\r");
    ProcessSnoc(parse, START, init, last);
    ProcessSnoc(parse, START, init, last + "\r");
    hide ProcessAll, Lines;
    FinalRawLineCr(parse, ProcessAll(parse, START, init), last);
  }

  lemma FinalRawLineCr(parse: Parser, c: Core, last: string)
    ensures Flush(parse, ProcessLine(parse, c, last + "\r")).flags == Flush(parse, ProcessLine(parse, c, last)).flags
  {
    hide Flush, ClassifyLine, Apply;
    assert StripCr(last + "\r") == last by { assert (last + "\r")[..|last|] == last; }
    if StripCr(last) != last {
      assert last == StripCr(last) + "\r";
      FinalLineCr(parse, c, StripCr(last));
    }
  }

  lemma BoundaryCrLf(parse: Parser, text: string)
    requires AtBoundary(text)
    ensures TextVerdict(parse, text + "\r\n") == TextVerdict(parse, text)
  {
    hide Lines, IndexOfNewline, Events;
    LinesAppend(text, "\r\n");
    OneLine("\r");
    assert "\r" + "\n" == "\r\n";
    var a := Classified(Lines(text));
    ClassifiedAppend(Lines(text), ["\r"]);
    assert Classified(["\r"]) == [Blank];
    BlankAtEnd(parse, a);
  }

  lemma BlankAtEnd(parse: Parser, a: seq<Line>)
    ensures Meaning(parse, a + [Blank]) == Meaning(parse, a)
  {
    MeaningAddsAtBlank(parse, a, []);
    assert a + [Blank] + [] == a + [Blank];
    assert AllEventFlags(parse, [[]]) == NONE.Or(AllEventFlags(parse, []));
  }

  lemma AppendedCrLfIgnored(parse: Parser, text: string)
    ensures TextVerdict(parse, text + "\r\n") == TextVerdict(parse, text)
  {
    hide TextVerdict;
    if AtBoundary(text) {
      BoundaryCrLf(parse, text);
    } else {
      UnterminatedCr(parse, text);
      AppendedBlankIgnored(parse, text + "\r");
      assert text + "\r\n" == text + "\r" + "\n";
    }
  }

  /** Line ends: each a line feed or a carriage return and a line feed. */
  predicate LineEnds(ends: seq<string>) {
    forall i :: 0 <= i < |ends| ==> ends[i] == "\n" || ends[i] == "\r\n"
  }

  function Concat(parts: seq<string>): string {
    if parts == [] then "" else Concat(parts[..|parts| - 1]) + parts[|parts| - 1]
  }

  /** Appending any number of line ends of either kind to any text never changes its verdict. */
  lemma {:induction false} AppendedBlanksIgnored(parse: Parser, text: string, ends: seq<string>)
    requires LineEnds(ends)
    ensures TextVerdict(parse, text + Concat(ends)) == TextVerdict(parse, text)
  {
    hide TextVerdict;
    if ends == [] {
      assert text + "" == text;
    } else {
      var (init, last) := (ends[..|ends| - 1], ends[|ends| - 1]);
      AppendedBlanksIgnored(parse, text, init);
      assert text + Concat(ends) == text + Concat(init) + last;
      if last == "\n" {
        AppendedBlankIgnored(parse, text + Concat(init));
      } else {
        AppendedCrLfIgnored(parse, text + Concat(init));
      }
    }
  }
}
