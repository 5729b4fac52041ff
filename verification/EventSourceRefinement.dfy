/** The TypeScript event parser against the HTML Living Standard's event stream interpretation. */
module EventSourceRefinement {
  import opened Common
  import Std = EventSource
  import Ts = TypeScriptStream

  /** The standard's data buffer holding the given `data` values. */
  function Buffered(data: seq<string>): string {
    if data == [] then "" else data[0] + "\n" + Buffered(data[1..])
  }

  lemma {:induction false} BufferedSnoc(data: seq<string>, value: string)
    ensures Buffered(data + [value]) == Buffered(data) + value + "\n"
    decreases |data|
  {
    if data == [] {
      assert [value][1..] == [];
    } else {
      assert (data + [value])[1..] == data[1..] + [value];
      BufferedSnoc(data[1..], value);
      Assoc(data[0] + "\n", Buffered(data[1..]) + value, "\n");
      Assoc(data[0] + "\n", Buffered(data[1..]), value);
    }
  }

  lemma {:induction false} BufferedIsJoined(data: seq<string>)
    requires data != []
    ensures Buffered(data) == Ts.JoinLines(data) + "\n"
    decreases |data|
  {
    if |data| == 1 {
      assert data[1..] == [];
    } else {
      BufferedIsJoined(data[1..]);
      Assoc(data[0] + "\n", Ts.JoinLines(data[1..]), "\n");
    }
  }

  /** A line both parsers read alike: not a colon-less `data`, and not the sentinel. */
  predicate Plain(line: string) {
    line != "data" && !Ts.IsSentinel(line)
  }

  /** On a non-blank plain line the data buffer grows exactly when a value is collected. */
  lemma PlainLine(data: seq<string>, line: string)
    requires line != "" && Plain(line)
    ensures Std.Collect(Buffered(data), line)
            == Buffered(if "data:" <= line then data + [Ts.DataValue(line)] else data)
  {
    DataField(line);
    if "data:" <= line { BufferedSnoc(data, Ts.DataValue(line)); }
  }

  /** A line starts with `data:` exactly when its field name is `data` and it has a colon. */
  lemma DataField(line: string)
    ensures "data:" <= line <==> ':' in line && line[..IndexOf(line, ':').value] == "data"
  {
    if "data:" <= line {
      assert line[4] == ':' && line[..4] == "data";
      IndexOfIs(line, ':', 4);
    }
    if ':' in line {
      var i := IndexOf(line, ':').value;
      assert line[..i + 1] == line[..i] + ":";
    }
  }

  /** An event never closed by a blank line: the standard discards it, the parser yields it. */
  function Unclosed(data: string): seq<string> {
    if data == "" then [] else [data[..|data| - 1]]
  }

  /** What the parser yields of the event left open: nothing if the transport fails. */
  function Flushed(data: string, end: Ending): seq<string> { if end.Eof? then Unclosed(data) else [] }

  lemma {:induction false} PayloadsAreDispatches(data: seq<string>, lines: seq<string>, end: Ending)
    requires forall line :: line in lines ==> Plain(line)
    requires "[DONE]" !in data
    ensures Ts.Payloads(data, lines, end)
            == Ts.Outcome(Std.Dispatches(Buffered(data), lines) + Flushed(Std.Pending(Buffered(data), lines), end), end)
    decreases |lines|
  {
    if data != [] { BufferedIsJoined(data); }
    if lines == [] {
      NotSentinel(data);
    } else {
      var line, rest := lines[0], lines[1..];
      assert line in lines && forall l :: l in rest ==> l in lines;
      if line == "" {
        PayloadsAreDispatches([], rest, end);
        Assoc(Unclosed(Buffered(data)), Std.Dispatches("", rest), Flushed(Std.Pending("", rest), end));
      } else {
        PlainLine(data, line);
        PayloadsAreDispatches(if "data:" <= line then data + [Ts.DataValue(line)] else data, rest, end);
      }
    }
  }

  lemma NotSentinel(data: seq<string>)
    requires data != [] ==> "[DONE]" !in data
    ensures data != [] ==> Ts.JoinLines(data) != "[DONE]"
  {
    if |data| > 1 {
      assert Ts.JoinLines(data)[|data[0]|] == '\n';
      assert '\n' in Ts.JoinLines(data);
    }
  }

  // ---- Lines ------------------------------------------------------------------------------------

  /** Every carriage return is part of a CRLF. */
  predicate NoLoneCr(text: string) {
    forall i :: 0 <= i < |text| && text[i] == '\r' ==> i + 1 < |text| && text[i + 1] == '\n'
  }

  lemma NoLoneCrRest(a: string, b: string)
    requires NoLoneCr(a + b)
    ensures NoLoneCr(b)
  {
    forall i | 0 <= i < |b| && b[i] == '\r' ensures i + 1 < |b| && b[i + 1] == '\n' {
      assert (a + b)[|a| + i] == '\r' && (a + b)[|a| + i + 1] == '\n';
    }
  }

  lemma {:induction false} NoLine(carry: string, text: string)
    requires NoLoneCr(text) && '\n' !in text
    ensures '\r' !in text && Std.LinesFrom(carry, text) == []
    decreases |text|
  {
    if text != "" {
      assert |text| > 1 ==> text[1] in text;
      assert text[0] != '\r';
      assert text == text[..1] + text[1..];
      NoLoneCrRest(text[..1], text[1..]);
      NoLine(carry + [text[0]], text[1..]);
    }
  }

  lemma {:induction false} FirstLine(carry: string, line: string, rest: string)
    requires '\n' !in line && NoLoneCr(line + "\n" + rest)
    ensures Std.LinesFrom(carry, line + "\n" + rest) == [carry + Ts.ChopCr(line)] + Std.LinesFrom("", rest)
    ensures NoLoneCr(rest)
    decreases |line|
  {
    var text := line + "\n" + rest;
    NoLoneCrRest(line + "\n", rest);
    if line == "" {
      assert text == "\n" + rest && text[1..] == rest && carry + "" == carry;
    } else if line[0] == '\r' {
      assert text[0] == '\r' && text[1] == '\n';
      assert |line| == 1;
      assert text[2..] == rest && carry + "" == carry;
    } else {
      var line' := line[1..];
      assert text[1..] == line' + "\n" + rest;
      assert text == text[..1] + text[1..];
      NoLoneCrRest(text[..1], text[1..]);
      FirstLine(carry + [line[0]], line', rest);
      assert Ts.ChopCr(line) == [line[0]] + Ts.ChopCr(line');
      Assoc(carry, [line[0]], Ts.ChopCr(line'));
    }
  }

  /** Without lone carriage returns, the standard's lines are the pieces between line feeds, one carriage
      return dropped from the end of each. */
  lemma {:induction false} LinesAgree(text: string)
    requires NoLoneCr(text)
    ensures Std.Lines(text) == Ts.ChopAll(Split(text, '\n').lines)
    ensures '\r' !in Split(text, '\n').tail
    decreases |text|
  {
    if '\n' in text {
      var line, rest := Cut(text, '\n');
      FirstLine("", line, rest);
      LinesAgree(rest);
      Ts.ChopAllConcat([line], Split(rest, '\n').lines);
      assert "" + Ts.ChopCr(line) == Ts.ChopCr(line);
    } else {
      NoLine("", text);
    }
  }

  /** The carriage returns that no line feed follows. */
  function LoneCrs(text: string): nat {
    if text == "" then 0
    else (if text[0] == '\r' && (|text| == 1 || text[1] != '\n') then 1 else 0) + LoneCrs(text[1..])
  }

  lemma {:induction false} LoneCrsIsCount(text: string)
    ensures LoneCrs(text) == 0 <==> NoLoneCr(text)
    decreases |text|
  {
    if text != "" {
      LoneCrsIsCount(text[1..]);
      NoLoneCrCons(text);
    }
  }

  lemma NoLoneCrCons(text: string)
    requires text != ""
    ensures NoLoneCr(text)
            <==> NoLoneCr(text[1..]) && (text[0] == '\r' ==> |text| > 1 && text[1] == '\n')
  {
    if NoLoneCr(text) {
      assert text == text[..1] + text[1..];
      NoLoneCrRest(text[..1], text[1..]);
    }
    if NoLoneCr(text[1..]) {
      assert forall i :: 1 <= i < |text| ==> text[i] == text[1..][i - 1];
    }
  }

  function LineFeeds(text: string): nat {
    if text == "" then 0 else (if text[0] == '\n' then 1 else 0) + LineFeeds(text[1..])
  }

  lemma {:induction false} LineFeedsJoin(line: string, rest: string)
    requires '\n' !in line
    ensures LineFeeds(line + ['\n'] + rest) == 1 + LineFeeds(rest)
  {
    var text := line + ['\n'] + rest;
    if line == "" {
      assert text[1..] == rest;
    } else {
      assert text[1..] == line[1..] + ['\n'] + rest && text[0] == line[0];
      LineFeedsJoin(line[1..], rest);
    }
  }

  lemma {:induction false} NoLineFeeds(text: string)
    requires '\n' !in text
    ensures LineFeeds(text) == 0
  {
    if text != "" { NoLineFeeds(text[1..]); }
  }

  lemma {:induction false} SplitCounts(text: string)
    ensures |Split(text, '\n').lines| == LineFeeds(text)
    decreases |text|
  {
    if '\n' in text {
      var line, rest := Cut(text, '\n');
      SplitCounts(rest);
      LineFeedsJoin(line, rest);
    } else {
      NoLineFeeds(text);
    }
  }

  /** The standard ends a line at every line feed and at every lone carriage return. */
  lemma {:induction false} LinesCount(carry: string, text: string)
    ensures |Std.LinesFrom(carry, text)| == LineFeeds(text) + LoneCrs(text)
    decreases |text|
  {
    if text != "" {
      if text[0] == '\r' && |text| > 1 && text[1] == '\n' {
        assert text[1..][1..] == text[2..];
        LinesCount("", text[2..]);
      } else if text[0] == '\r' || text[0] == '\n' {
        LinesCount("", text[1..]);
      } else {
        LinesCount(carry + [text[0]], text[1..]);
      }
    }
  }

  /** The lines of the standard are the clients' exactly when every carriage return is part of a CRLF. */
  lemma LinesAgreeIff(text: string)
    ensures Std.Lines(text) == Ts.ChopAll(Split(text, '\n').lines) <==> NoLoneCr(text)
  {
    LoneCrsIsCount(text);
    SplitCounts(text);
    LinesCount("", text);
    if NoLoneCr(text) { LinesAgree(text); }
  }

  // ---- The refinement ---------------------------------------------------------------------------

  /** A trailing line with no line end dispatches nothing. */
  lemma {:induction false} DispatchesSnoc(data: string, lines: seq<string>, last: string)
    requires last != ""
    ensures Std.Dispatches(data, lines + [last]) == Std.Dispatches(data, lines)
    decreases |lines|
  {
    if lines == [] {
      assert [last][1..] == [];
    } else {
      assert (lines + [last])[1..] == lines[1..] + [last];
      DispatchesSnoc(if lines[0] == "" then "" else Std.Collect(data, lines[0]), lines[1..], last);
    }
  }

  /** Over streams with LF or CRLF line ends, no colon-less `data` line and no sentinel, the payloads are
      the standard's dispatches, followed by the event left unclosed at the end, if any; so the two agree
      exactly when every event is closed. */
  lemma MeetsStandard(bytes: Bytes)
    requires NoLoneCr(Ts.BodyText(bytes, Eof))
    requires forall line :: line in Ts.BodyLines(bytes, Eof).items ==> Plain(line)
    ensures var lines := Ts.BodyLines(bytes, Eof).items;
            var events := Std.Dispatches("", Std.Lines(Ts.BodyText(bytes, Eof)));
            && Ts.Payloads([], lines, Eof).items == events + Unclosed(Std.Pending("", lines))
            && (Ts.Payloads([], lines, Eof).items == events <==> Std.Pending("", lines) == "")
  {
    var text := Ts.BodyText(bytes, Eof);
    var lines, tail := Ts.BodyLines(bytes, Eof).items, Split(text, '\n').tail;
    LinesAgree(text);
    PayloadsAreDispatches([], lines, Eof);
    assert lines == Std.Lines(text) + Ts.LastLine(tail);
    if tail == "" {
      assert lines == Std.Lines(text);
    } else {
      assert Ts.ChopCr(tail) == tail;
      DispatchesSnoc("", Std.Lines(text), tail);
    }
  }

  /** When the transport fails, the payloads are the events dispatched before, and then the failure is thrown: the
      event left open is not yielded. */
  lemma FailingMeetsStandard(bytes: Bytes, error: Error)
    requires NoLoneCr(Ts.BodyText(bytes, Failed(error)))
    requires forall line :: line in Ts.BodyLines(bytes, Failed(error)).items ==> Plain(line)
    ensures Ts.Payloads([], Ts.BodyLines(bytes, Failed(error)).items, Failed(error))
            == Ts.Outcome(Std.Dispatches("", Std.Lines(Ts.BodyText(bytes, Failed(error)))), Failed(error))
  {
    var lines := Ts.BodyLines(bytes, Failed(error)).items;
    LinesAgree(Ts.BodyText(bytes, Failed(error)));
    PayloadsAreDispatches([], lines, Failed(error));
    assert lines == Std.Lines(Ts.BodyText(bytes, Failed(error)));
    assert Std.Dispatches("", lines) + [] == Std.Dispatches("", lines);
  }

  /** A `data` line without a colon is an empty value to the standard and nothing to the parser. */
  lemma ColonlessDataDiffers()
    ensures Std.Dispatches("", ["data", ""]) == [""]
    ensures Ts.Payloads([], ["data", ""], Eof).items == []
  {
    var lines := ["data", ""];
    assert lines[1..] == [""] && [""][1..] == [];
    assert "data" + "" + "\n" == "data\n"[..4] + "\n";
    assert Std.Collect("", "data") == "\n";
    assert Std.Dispatches("\n", [""]) == ["\n"[..0]] + Std.Dispatches("", []);
    assert Ts.Payloads([], [""], Eof).items == [];
  }

  // ---- Colon-less data lines --------------------------------------------------------------------

  /** What a non-blank line does to the standard's data buffer. */
  lemma CollectIs(buffer: string, line: string)
    requires line != ""
    ensures Std.Collect(buffer, line)
            == if line == "data" then buffer + "" + "\n"
               else if "data:" <= line then buffer + Ts.DataValue(line) + "\n"
               else buffer
  {
    DataField(line);
    if "data:" <= line {
      IndexOfIs(line, ':', 4);
      assert line[5..] == line[4 + 1..];
    }
  }

  /** The characters of some texts, one line end counted for each. */
  function Weight(texts: seq<string>): nat {
    if texts == [] then 0 else |texts[0]| + 1 + Weight(texts[1..])
  }

  lemma WeightCons(text: string, rest: seq<string>)
    ensures Weight([text] + rest) == |text| + 1 + Weight(rest)
  {
    assert ([text] + rest)[1..] == rest;
  }

  function Colonless(lines: seq<string>): nat {
    if lines == [] then 0 else (if lines[0] == "data" then 1 else 0) + Colonless(lines[1..])
  }

  lemma {:induction false} ColonlessIsCount(lines: seq<string>)
    ensures Colonless(lines) == 0 <==> "data" !in lines
  {
    if lines != [] {
      ColonlessIsCount(lines[1..]);
      assert lines == [lines[0]] + lines[1..];
    }
  }

  /** Every colon-less `data` line makes what the standard dispatches one line end heavier than the payloads. */
  lemma {:induction false} WeightsDiffer(buffer: string, data: seq<string>, lines: seq<string>)
    requires forall line :: line in lines ==> !Ts.IsSentinel(line)
    requires |Buffered(data)| <= |buffer| && Std.Pending(buffer, lines) == ""
    ensures Weight(Std.Dispatches(buffer, lines))
            == Weight(Ts.Payloads(data, lines, Eof).items) + (|buffer| - |Buffered(data)|) + Colonless(lines)
    decreases |lines|
  {
    if lines == [] {
      assert data != [] ==> |Buffered(data)| > 0;
    } else {
      var line, rest := lines[0], lines[1..];
      assert line in lines && forall l :: l in rest ==> l in lines;
      if line == "" {
        WeightsDiffer("", [], rest);
        BlankWeighs(buffer, data, rest);
      } else {
        CollectIs(buffer, line);
        if "data:" <= line {
          BufferedSnoc(data, Ts.DataValue(line));
          WeightsDiffer(buffer + Ts.DataValue(line) + "\n", data + [Ts.DataValue(line)], rest);
        } else {
          WeightsDiffer(Std.Collect(buffer, line), data, rest);
        }
      }
    }
  }

  /** A blank line dispatches the weight of the buffer, and yields that of the values collected. */
  lemma BlankWeighs(buffer: string, data: seq<string>, rest: seq<string>)
    ensures Weight(Std.Dispatches(buffer, [""] + rest)) == |buffer| + Weight(Std.Dispatches("", rest))
    ensures Weight(Ts.Payloads(data, [""] + rest, Eof).items)
            == |Buffered(data)| + Weight(Ts.Payloads([], rest, Eof).items)
  {
    DispatchedWeighs(buffer, rest);
    YieldedWeighs(data, rest);
  }

  lemma DispatchedWeighs(buffer: string, rest: seq<string>)
    ensures Weight(Std.Dispatches(buffer, [""] + rest)) == |buffer| + Weight(Std.Dispatches("", rest))
  {
    BlankDispatches(buffer, rest);
    UnclosedWeighs(buffer, Std.Dispatches("", rest));
  }

  lemma BlankDispatches(buffer: string, rest: seq<string>)
    ensures Std.Dispatches(buffer, [""] + rest) == Unclosed(buffer) + Std.Dispatches("", rest)
  {
    assert ([""] + rest)[1..] == rest;
  }

  lemma UnclosedWeighs(buffer: string, later: seq<string>)
    ensures Weight(Unclosed(buffer) + later) == |buffer| + Weight(later)
  {
    if buffer == "" { assert [] + later == later; } else { WeightCons(buffer[..|buffer| - 1], later); }
  }

  lemma YieldedWeighs(data: seq<string>, rest: seq<string>)
    ensures Weight(Ts.Payloads(data, [""] + rest, Eof).items)
            == |Buffered(data)| + Weight(Ts.Payloads([], rest, Eof).items)
  {
    assert ([""] + rest)[1..] == rest;
    var yielded := Ts.Payloads([], rest, Eof).items;
    if data == [] {
      assert [] + yielded == yielded;
    } else {
      BufferedIsJoined(data);
      WeightCons(Ts.JoinLines(data), yielded);
    }
  }

  /** With every event closed and no sentinel, the payloads are the standard's dispatches if and only if no
      `data` line lacks its colon. */
  lemma ColonlessExactly(lines: seq<string>)
    requires forall line :: line in lines ==> !Ts.IsSentinel(line)
    requires Std.Pending("", lines) == ""
    ensures Ts.Payloads([], lines, Eof).items == Std.Dispatches("", lines) <==> "data" !in lines
  {
    WeightsDiffer("", [], lines);
    ColonlessIsCount(lines);
    if "data" !in lines {
      PayloadsAreDispatches([], lines, Eof);
      assert Std.Dispatches("", lines) + [] == Std.Dispatches("", lines);
    }
  }

  /** The same for bodies with LF or CRLF line ends. */
  lemma MeetsStandardExactly(bytes: Bytes)
    requires NoLoneCr(Ts.BodyText(bytes, Eof))
    requires forall line :: line in Ts.BodyLines(bytes, Eof).items ==> !Ts.IsSentinel(line)
    requires Std.Pending("", Ts.BodyLines(bytes, Eof).items) == ""
    ensures var lines := Ts.BodyLines(bytes, Eof).items;
            Ts.Payloads([], lines, Eof).items == Std.Dispatches("", Std.Lines(Ts.BodyText(bytes, Eof)))
            <==> "data" !in lines
  {
    var text := Ts.BodyText(bytes, Eof);
    var lines := Ts.BodyLines(bytes, Eof).items;
    LinesAgree(text);
    ColonlessExactly(lines);
    LastLineDispatchesNothing(Std.Lines(text), Split(text, '\n').tail);
  }

  lemma LastLineDispatchesNothing(lines: seq<string>, tail: string)
    requires '\r' !in tail
    ensures Std.Dispatches("", lines + Ts.LastLine(tail)) == Std.Dispatches("", lines)
  {
    if tail == "" {
      assert lines + Ts.LastLine(tail) == lines;
    } else {
      assert Ts.ChopCr(tail) == tail;
      DispatchesSnoc("", lines, tail);
    }
  }
}
