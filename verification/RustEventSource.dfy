/** The Rust chat stream, which takes every `data:` line for an event, against the HTML Living Standard's event
    stream interpretation. */
module RustEventSource {
  import opened Common
  import opened StreamAgreement
  import opened EventSourceRefinement
  import GoEventSource
  import Ndjson = NdjsonAgreement
  import Std = EventSource
  import Rust = RustStream
  import Ts = TypeScriptStream
  import Go = GoStream
  import Utf8
  import WellFormedStreams

  // ---- What Rust reads --------------------------------------------------------------------------

  /** The text of a `data:` line, trimmed; nothing for any other line or a blank text. */
  function TextOf(line: string): seq<string> {
    if "data:" <= line && Rust.Trim(line[5..]) != "" then [Rust.Trim(line[5..])] else []
  }

  function Texts(lines: seq<string>): seq<string> {
    if lines == [] then [] else TextOf(lines[0]) + Texts(lines[1..])
  }

  /** No line is the sentinel, white space around it aside. */
  predicate NoSentinel(lines: seq<string>) {
    forall line :: line in lines && "data:" <= line ==> Rust.Trim(line[5..]) != "[DONE]"
  }

  lemma ReadsLine(raw: string, line: string)
    requires '\r' !in line && '\n' !in line && (raw == line || raw == line + ['\r'])
    requires "data:" <= line ==> Rust.Trim(line[5..]) != "[DONE]"
    ensures Rust.ParseSseDataLine(raw) == if TextOf(line) == [] then Rust.SkipLine else Rust.Json(TextOf(line)[0])
  {
    WellFormedStreams.TrimsToLine(raw, line);
  }

  lemma StepReads<T>(decode: string -> Result<T>, raw: string, line: string, later: seq<string>, rest: seq<Result<T>>)
    requires Rust.ParseSseDataLine(raw) == if TextOf(line) == [] then Rust.SkipLine else Rust.Json(TextOf(line)[0])
    ensures Rust.Then(Rust.ChatAction(decode)(raw), DecodeAll(decode, later) + rest)
            == DecodeAll(decode, TextOf(line) + later) + rest
  {
    if TextOf(line) == [] {
      assert TextOf(line) + later == later;
    } else {
      var text := TextOf(line)[0];
      assert TextOf(line) == [text] && ([text] + later)[1..] == later;
      var first: seq<Result<T>> := [decode(text)];
      Assoc(first, DecodeAll(decode, later), rest);
    }
  }

  /** Byte lines that decode to the lines, each with or without a carriage return. */
  ghost predicate Decodes(raws: seq<Bytes>, lines: seq<string>) {
    && |raws| == |lines|
    && forall k :: 0 <= k < |raws| ==>
         var raw := Utf8.DecodeLossy(raws[k]);
         '\r' !in lines[k] && '\n' !in lines[k] && (raw == lines[k] || raw == lines[k] + ['\r'])
  }

  lemma {:induction false} ReadsLines<T>(decode: string -> Result<T>, raws: seq<Bytes>, lines: seq<string>,
                                         rest: seq<Result<T>>)
    requires Decodes(raws, lines) && NoSentinel(lines)
    ensures Rust.Interpret(Rust.ChatAction(decode), raws, rest) == DecodeAll(decode, Texts(lines)) + rest
    decreases |lines|
  {
    if lines == [] {
      assert DecodeAll(decode, Texts(lines)) + rest == rest;
    } else {
      assert lines[0] in lines && forall l :: l in lines[1..] ==> l in lines;
      ReadsLine(Utf8.DecodeLossy(raws[0]), lines[0]);
      ReadsLines(decode, raws[1..], lines[1..], rest);
      StepReads(decode, Utf8.DecodeLossy(raws[0]), lines[0], Texts(lines[1..]), rest);
    }
  }

  lemma ReadsRest<T>(decode: string -> Result<T>, raw: Bytes, tail: string)
    requires Utf8.DecodeLossy(raw) == tail && '\r' !in tail && '\n' !in tail && NoSentinel(Ts.LastLine(tail))
    ensures Rust.AtEnd(Rust.ChatAction(decode), raw, Eof) == DecodeAll(decode, Texts(Ts.LastLine(tail)))
  {
    if raw == [] {
      assert tail == "";
    } else {
      WellFormedStreams.SomethingComes(Utf8.INITIAL, raw);
      assert Ts.ChopCr(tail) == tail by { assert tail[|tail| - 1] in tail; }
      assert tail in Ts.LastLine(tail) && Ts.LastLine(tail)[1..] == [];
      ReadsTail(decode, raw, tail);
    }
  }

  lemma ReadsTail<T>(decode: string -> Result<T>, raw: Bytes, tail: string)
    requires raw != [] && Utf8.DecodeLossy(raw) == tail && '\r' !in tail && '\n' !in tail && NoSentinel([tail])
    ensures Rust.AtEnd(Rust.ChatAction(decode), raw, Eof) == DecodeAll(decode, Texts([tail]))
  {
    assert tail in [tail] && [tail][1..] == [];
    ReadsLine(tail, tail);
    assert TextOf(tail) + [] == TextOf(tail);
  }

  lemma {:induction false} TextsConcat(a: seq<string>, b: seq<string>)
    ensures Texts(a + b) == Texts(a) + Texts(b)
    decreases |a|
  {
    if a == [] {
      assert a + b == b;
    } else {
      assert (a + b)[1..] == a[1..] + b;
      TextsConcat(a[1..], b);
      Assoc(TextOf(a[0]), Texts(a[1..]), Texts(b));
    }
  }

  lemma {:induction false} DecodeConcat<T>(decode: string -> Result<T>, a: seq<string>, b: seq<string>)
    ensures DecodeAll(decode, a + b) == DecodeAll(decode, a) + DecodeAll(decode, b)
    decreases |a|
  {
    if a == [] {
      assert a + b == b;
    } else {
      assert (a + b)[1..] == a[1..] + b;
      DecodeConcat(decode, a[1..], b);
    }
  }

  /** The byte lines of an encoded text decode to its lines. */
  lemma DecodesText(text: string)
    requires NoLoneCr(text)
    ensures var p, q := Split(Utf8.Encode(text), LF), Split(text, '\n');
            Decodes(p.lines, Ts.ChopAll(q.lines)) && Utf8.DecodeLossy(p.tail) == q.tail
            && '\r' !in q.tail && '\n' !in q.tail
  {
    var p, q := Split(Utf8.Encode(text), LF), Split(text, '\n');
    Utf8.DecodeEncode(text);
    Utf8.DecodeCommutesWithSplit(Utf8.Encode(text));
    LinesAgree(text);
    WellFormedStreams.NoCrInLines(text);
    SplitClean(text, '\n');
    forall k | 0 <= k < |p.lines|
      ensures var raw, line := Utf8.DecodeLossy(p.lines[k]), Ts.ChopAll(q.lines)[k];
              '\r' !in line && '\n' !in line && (raw == line || raw == line + ['\r'])
    {
      WellFormedStreams.ChoppedRaw(q.lines[k]);
    }
  }

  /** The items of a text are the trimmed texts of its `data:` lines, decoded. */
  lemma ReadsText<T>(decode: string -> Result<T>, text: string)
    requires NoLoneCr(text) && NoSentinel(GoEventSource.TextLines(text))
    ensures Rust.Items(Rust.ChatAction(decode), Utf8.Encode(text), Eof)
            == DecodeAll(decode, Texts(GoEventSource.TextLines(text)))
  {
    var p, q := Split(Utf8.Encode(text), LF), Split(text, '\n');
    var lines, last := Ts.ChopAll(q.lines), Ts.LastLine(q.tail);
    DecodesText(text);
    assert forall l :: l in lines || l in last ==> l in lines + last;
    ReadsRest(decode, p.tail, q.tail);
    ReadsLines(decode, p.lines, lines, Rust.AtEnd(Rust.ChatAction(decode), p.tail, Eof));
    TextsConcat(lines, last);
    DecodeConcat(decode, Texts(lines), Texts(last));
  }

  // ---- When that is what the standard dispatches ------------------------------------------------

  /** A value Rust passes on unchanged: not empty, no white space around it. */
  predicate Neat(value: string) {
    value != "" && !Rust.IsWhitespace(value[0]) && !Rust.IsWhitespace(value[|value| - 1])
  }

  /** Every closed event is one neat value, and an event left open has only blank ones. `held` are the values of
      the event so far; a colon-less `data` line is an empty value. */
  predicate OneEach(held: seq<string>, lines: seq<string>)
    decreases |lines|
  {
    if lines == [] then forall v :: v in held ==> Rust.Trim(v) == ""
    else if lines[0] == "" then (held == [] || (|held| == 1 && Neat(held[0]))) && OneEach([], lines[1..])
    else if lines[0] == "data" then OneEach(held + [""], lines[1..])
    else if "data:" <= lines[0] then OneEach(held + [Ts.DataValue(lines[0])], lines[1..])
    else OneEach(held, lines[1..])
  }

  /** What Rust shows of the values of an event. */
  function Shown(values: seq<string>): seq<string> {
    if values == [] then []
    else (if Rust.Trim(values[0]) == "" then [] else [Rust.Trim(values[0])]) + Shown(values[1..])
  }

  lemma {:induction false} ShownSnoc(values: seq<string>, v: string)
    ensures Shown(values + [v]) == Shown(values) + (if Rust.Trim(v) == "" then [] else [Rust.Trim(v)])
    decreases |values|
  {
    if values == [] {
      assert values + [v] == [v] && [v][1..] == [];
    } else {
      assert (values + [v])[1..] == values[1..] + [v];
      ShownSnoc(values[1..], v);
      Assoc(if Rust.Trim(values[0]) == "" then [] else [Rust.Trim(values[0])], Shown(values[1..]),
            if Rust.Trim(v) == "" then [] else [Rust.Trim(v)]);
    }
  }

  lemma {:induction false} BlankShowsNothing(values: seq<string>)
    ensures Shown(values) == [] <==> forall v :: v in values ==> Rust.Trim(v) == ""
  {
    if values != [] {
      BlankShowsNothing(values[1..]);
      assert values == [values[0]] + values[1..];
    }
  }

  /** One space at the front makes no difference to a trimmed text. */
  lemma TextIsShown(line: string)
    requires "data:" <= line
    ensures TextOf(line) == if Rust.Trim(Ts.DataValue(line)) == "" then [] else [Rust.Trim(Ts.DataValue(line))]
  {
    var rest := line[5..];
    if rest != "" && rest[0] == ' ' { assert Rust.TrimStart(rest) == Rust.TrimStart(rest[1..]); }
  }

  /** What one more non-blank line does to both sides. */
  function Hold(held: seq<string>, line: string): seq<string> {
    if line == "data" then held + [""]
    else if "data:" <= line then held + [Ts.DataValue(line)]
    else held
  }

  lemma HoldIs(held: seq<string>, line: string)
    requires line != ""
    ensures Std.Collect(Buffered(held), line) == Buffered(Hold(held, line))
    ensures Shown(Hold(held, line)) == Shown(held) + TextOf(line)
  {
    CollectIs(Buffered(held), line);
    if line == "data" {
      BufferedSnoc(held, "");
      ShownSnoc(held, "");
    } else if "data:" <= line {
      BufferedSnoc(held, Ts.DataValue(line));
      ShownSnoc(held, Ts.DataValue(line));
      TextIsShown(line);
    }
    assert Shown(held) + [] == Shown(held);
  }

  lemma NeatIsTrimmed(value: string)
    requires Neat(value)
    ensures Rust.Trim(value) == value && Shown([value]) == [value]
  {
    assert Rust.TrimStart(value) == value && Rust.TrimEnd(value) == value;
    assert [value][1..] == [];
  }

  lemma BufferedOne(value: string)
    ensures Unclosed(Buffered([value])) == [value]
  {
    var whole := value + "\n";
    assert [value][1..] == [] && whole + "" == whole;
    assert whole[..|value|] == value;
  }

  lemma {:induction false} OneEachAgrees(held: seq<string>, lines: seq<string>)
    requires OneEach(held, lines)
    ensures Shown(held) + Texts(lines) == Std.Dispatches(Buffered(held), lines)
    decreases |lines|
  {
    if lines == [] {
      BlankShowsNothing(held);
    } else {
      var line, rest := lines[0], lines[1..];
      assert lines == [line] + rest;
      if line == "" {
        OneEachAgrees([], rest);
        BlankDispatches(Buffered(held), rest);
        if held != [] {
          assert held == [held[0]];
          NeatIsTrimmed(held[0]);
          BufferedOne(held[0]);
        }
        assert [] + Texts(rest) == Texts(rest);
      } else {
        HoldIs(held, line);
        OneEachAgrees(Hold(held, line), rest);
        Assoc(Shown(held), TextOf(line), Texts(rest));
      }
    }
  }

  /** A text Rust can show. */
  predicate Showable(text: string) { Neat(text) && '\n' !in text }

  lemma {:induction false} TextsAreShowable(lines: seq<string>)
    requires forall line :: line in lines ==> '\n' !in line
    ensures forall t :: t in Texts(lines) ==> Showable(t)
  {
    if lines != [] {
      var line := lines[0];
      assert line in lines && forall l :: l in lines[1..] ==> l in lines;
      if "data:" <= line {
        TextIsShowable(line);
      }
      TextsAreShowable(lines[1..]);
    }
  }

  lemma TextIsShowable(line: string)
    requires "data:" <= line && '\n' !in line
    ensures Rust.Trim(line[5..]) != "" ==> Showable(Rust.Trim(line[5..]))
  {
    var rest := line[5..];
    var text := Rust.Trim(rest);
    var a, b := Ndjson.RustTrims(rest);
    assert forall k :: 0 <= k < |text| ==> text[k] == rest[|a| + k];
    assert forall k :: 0 <= k < |rest| ==> rest[k] == line[5 + k];
  }

  /** An event of no value or of more than one, or of one that is not neat, cannot be shown. */
  lemma NotOneIsNotShowable(held: seq<string>)
    requires held != [] && (|held| == 1 ==> !Neat(held[0]))
    ensures Buffered(held) != "" && !Showable(Ts.JoinLines(held))
    ensures Unclosed(Buffered(held)) == [Ts.JoinLines(held)]
  {
    BufferedIsJoined(held);
    var joined := Ts.JoinLines(held);
    assert (joined + "\n")[..|joined|] == joined;
    if |held| > 1 {
      assert joined[|held[0]|] == '\n';
      assert '\n' in joined;
    }
  }

  /** Otherwise the standard dispatches something Rust cannot show, or Rust shows more. */
  lemma {:induction false} NotOneEachDiffers(held: seq<string>, lines: seq<string>)
    requires !OneEach(held, lines)
    ensures (exists d :: d in Std.Dispatches(Buffered(held), lines) && !Showable(d))
            || |Shown(held) + Texts(lines)| > |Std.Dispatches(Buffered(held), lines)|
    decreases |lines|
  {
    if lines == [] {
      BlankShowsNothing(held);
    } else {
      var line, rest := lines[0], lines[1..];
      assert lines == [line] + rest;
      if line == "" {
        BlankDispatches(Buffered(held), rest);
        var later := Std.Dispatches("", rest);
        if held != [] && !(|held| == 1 && Neat(held[0])) {
          NotOneIsNotShowable(held);
          assert Ts.JoinLines(held) in [Ts.JoinLines(held)] + later;
        } else {
          NotOneEachDiffers([], rest);
          if held != [] {
            assert held == [held[0]];
            NeatIsTrimmed(held[0]);
            BufferedOne(held[0]);
          }
          assert forall d :: d in later ==> d in Unclosed(Buffered(held)) + later;
        }
      } else {
        HoldIs(held, line);
        NotOneEachDiffers(Hold(held, line), rest);
        Assoc(Shown(held), TextOf(line), Texts(rest));
      }
    }
  }

  /** Lines agree exactly when every event is one neat value. */
  lemma AgreesIffOneEach(lines: seq<string>)
    requires forall line :: line in lines ==> '\n' !in line
    ensures Texts(lines) == Std.Dispatches("", lines) <==> OneEach([], lines)
  {
    assert [] + Texts(lines) == Texts(lines);
    TextsAreShowable(lines);
    if OneEach([], lines) { OneEachAgrees([], lines); } else { NotOneEachDiffers([], lines); }
  }

  // ---- Behind a byte order mark -----------------------------------------------------------------

  lemma TrimIsNoLonger(line: string)
    requires "data:" <= line
    ensures Weight(TextOf(line)) <= |Ts.DataValue(line)| + 1
  {
    TextIsShown(line);
    var a, b := Ndjson.RustTrims(Ts.DataValue(line));
    assert TextOf(line) != [] ==> TextOf(line)[1..] == [];
  }

  lemma {:induction false} WeightConcat(a: seq<string>, b: seq<string>)
    ensures Weight(a + b) == Weight(a) + Weight(b)
    decreases |a|
  {
    if a == [] {
      assert a + b == b;
    } else {
      assert (a + b)[1..] == a[1..] + b;
      WeightConcat(a[1..], b);
    }
  }

  /** With every event closed, Rust shows no more than the standard dispatches, whatever the buffer holds. */
  lemma {:induction false} TextsAreLighter(buffer: string, lines: seq<string>)
    requires Std.Pending(buffer, lines) == ""
    ensures Weight(Texts(lines)) + |buffer| <= Weight(Std.Dispatches(buffer, lines))
    decreases |lines|
  {
    if lines != [] {
      var line, rest := lines[0], lines[1..];
      assert lines == [line] + rest;
      WeightConcat(TextOf(line), Texts(rest));
      if line == "" {
        DispatchedWeighs(buffer, rest);
        TextsAreLighter("", rest);
      } else {
        CollectIs(buffer, line);
        TextsAreLighter(Std.Collect(buffer, line), rest);
        if "data:" <= line { TrimIsNoLonger(line); }
      }
    }
  }

  // ---- The refinement ---------------------------------------------------------------------------

  function Accept(text: string): Result<string> { Ok(text) }

  lemma {:induction false} AcceptKeepsAll(a: seq<string>, b: seq<string>)
    ensures DecodeAll(Accept, a) == DecodeAll(Accept, b) <==> a == b
    decreases |a|
  {
    if a != [] && b != [] {
      AcceptKeepsAll(a[1..], b[1..]);
      assert a == [a[0]] + a[1..] && b == [b[0]] + b[1..];
      assert DecodeAll(Accept, a)[1..] == DecodeAll(Accept, a[1..]);
      assert DecodeAll(Accept, b)[1..] == DecodeAll(Accept, b[1..]);
    }
  }

  lemma LinesHaveNoFeeds(text: string)
    ensures forall line :: line in GoEventSource.TextLines(text) ==> '\n' !in line
  {
    SplitClean(text, '\n');
    var p := Split(text, '\n');
    forall k | 0 <= k < |p.lines| ensures '\n' !in Ts.ChopAll(p.lines)[k] {
      WellFormedStreams.ChoppedRaw(p.lines[k]);
    }
    WellFormedStreams.ChoppedRaw(p.tail);
  }

  /** The Rust client hears what the Go client hears: the line a mark stands in is no `data:` line. */
  lemma TextsOfHeard(text: string)
    ensures Texts(GoEventSource.TextLines(text)) == Texts(GoEventSource.Heard(text))
    ensures forall line :: line in GoEventSource.Heard(text) ==> line in GoEventSource.TextLines(text)
  {
    var all, heard := GoEventSource.TextLines(text), GoEventSource.Heard(text);
    if GoEventSource.Marked(text) {
      assert text == [Utf8.BOM] + Ts.StripBom(text);
      GoEventSource.MarkedLines(Ts.StripBom(text));
      FirstIsNoData(all, heard);
    }
  }

  lemma FirstIsNoData(all: seq<string>, heard: seq<string>)
    requires all != [] && all[0] != "" && all[0][0] != 'd' && all[1..] == heard
    ensures Texts(all) == Texts(heard)
    ensures forall line :: line in heard ==> line in all
  {
    assert TextOf(all[0]) + Texts(heard) == Texts(heard);
  }

  /** For every text with LF or CRLF line ends and no sentinel, and a decoder that accepts everything: Rust's
      items are exactly the events the standard dispatches if and only if every closed event is one neat value
      and an event left open has only blank ones; behind a byte order mark, with every event closed, the first
      line must also add nothing. */
  lemma MeetsStandardExactly(text: string)
    requires NoLoneCr(text) && NoSentinel(GoEventSource.TextLines(text))
    requires GoEventSource.Marked(text) ==> GoEventSource.StandardPending(text) == ""
    ensures Rust.Items(Rust.ChatAction(Accept), Utf8.Encode(text), Eof)
            == DecodeAll(Accept, GoEventSource.StandardEvents(text))
            <==> OneEach([], GoEventSource.Heard(text))
                 && (GoEventSource.Marked(text) ==> GoEventSource.FirstAdds(text) == "")
  {
    var heard, events := GoEventSource.Heard(text), GoEventSource.StandardEvents(text);
    ReadsText(Accept, text);
    TextsOfHeard(text);
    AcceptKeepsAll(Texts(heard), events);
    LinesHaveNoFeeds(text);
    AgreesIffOneEach(heard);
    if GoEventSource.Marked(text) {
      GoEventSource.StandardOfMarked(text);
      GoEventSource.FirstOfMarked(text);
      TextsAreLighter(GoEventSource.FirstAdds(text), heard);
    } else {
      GoEventSource.EventsOfLines(text);
    }
  }

  // ---- The sentinel inside an event -------------------------------------------------------------

  /** A `data:` line, the sentinel and a blank line: the standard dispatches both lines as one event, as Go passes
      it on; Rust gives the first line and ends; TypeScript ends without either. */
  lemma SentinelInsideEvent<T>(decode: string -> Result<T>, value: string, mark: string)
    requires Printable(value) && mark == "data: [DONE]"
    ensures var lines := ["data: " + value, mark, ""];
            && Std.Dispatches("", lines) == [value + ['\n'] + "[DONE]"]
            && Ts.Payloads([], lines, Eof) == Ts.Outcome([], Eof)
            && Rust.Interpret(Rust.ChatAction(decode), GoEventSource.EncodeAll(lines), []) == [decode(value)]
            && Go.Receive(GoEventSource.Accept, true, None, Go.Scanned(GoEventSource.EncodeAll(lines), None))
               == Go.Run([Utf8.Encode(value + ['\n'] + "[DONE]")], Go.EndOfStream)
  {
    StandardInside("data: " + value, mark, value);
    TypeScriptInside("data: " + value, mark, value);
    RustInside(decode, "data: " + value, mark, value);
    GoInside("data: " + value, mark, value);
  }

  lemma StandardInside(line: string, mark: string, value: string)
    requires line == "data: " + value && mark == "data: [DONE]"
    ensures Std.Dispatches("", [line, mark, ""]) == [value + ['\n'] + "[DONE]"]
  {
    var buffer := value + ['\n'];
    GoEventSource.CollectsFirst(line, value);
    WellFormedStreams.SentinelIsRead(mark);
    CollectIs(buffer, mark);
    GoEventSource.TwoLines(line, mark, buffer, buffer + "[DONE]" + "\n");
    assert (buffer + "[DONE]" + "\n")[..|buffer + "[DONE]"|] == buffer + "[DONE]";
  }

  lemma TypeScriptInside(line: string, mark: string, value: string)
    requires line == "data: " + value && Printable(value) && mark == "data: [DONE]"
    ensures Ts.Payloads([], [line, mark, ""], Eof) == Ts.Outcome([], Eof)
  {
    GoEventSource.ValueOf(line, value);
    WellFormedStreams.SentinelIsRead(mark);
    var three, two := [line, mark, ""], [mark, ""];
    assert three[1..] == two && [] + [value] == [value];
    assert Ts.Payloads([], three, Eof) == Ts.Payloads([value], two, Eof);
  }

  lemma RustInside<T>(decode: string -> Result<T>, line: string, mark: string, value: string)
    requires line == "data: " + value && Printable(value) && mark == "data: [DONE]"
    ensures Rust.Interpret(Rust.ChatAction(decode), GoEventSource.EncodeAll([line, mark, ""]), []) == [decode(value)]
  {
    var act := Rust.ChatAction(decode);
    EncodeThree(line, mark);
    Utf8.DecodeEncode(line);
    Utf8.DecodeEncode(mark);
    RustReadsPayload(value);
    WellFormedStreams.RustReadsSentinel(mark, "");
    assert mark + "" == mark;
    Rust.InterpretHead(act, Utf8.Encode(line), [Utf8.Encode(mark), []], []);
    Rust.InterpretHead(act, Utf8.Encode(mark), [[]], []);
  }

  lemma GoInside(line: string, mark: string, value: string)
    requires line == "data: " + value && Printable(value) && mark == "data: [DONE]"
    ensures Go.Receive(GoEventSource.Accept, true, None, Go.Scanned(GoEventSource.EncodeAll([line, mark, ""]), None))
            == Go.Run([Utf8.Encode(value + ['\n'] + "[DONE]")], Go.EndOfStream)
  {
    EncodeThree(line, mark);
    EncodeDataLine(value);
    MarkIsDataLine(mark);
    NotSentinelBytes(value);
    GoTwoLines(Utf8.Encode(value), Go.DONE);
    JoinedBytes(value);
    AcceptsLonger(Utf8.Encode(value) + [LF], Go.DONE);
  }

  lemma EncodeThree(line: string, mark: string)
    ensures GoEventSource.EncodeAll([line, mark, ""]) == [Utf8.Encode(line), Utf8.Encode(mark), []]
  {
    EncodeHead(line, [mark, ""]);
    EncodeHead(mark, [""]);
    EncodeHead("", []);
    assert [line] + [mark, ""] == [line, mark, ""] && [mark] + [""] == [mark, ""];
    assert [""] + [] == [""];
  }

  lemma EncodeHead(line: string, rest: seq<string>)
    ensures GoEventSource.EncodeAll([line] + rest) == [Utf8.Encode(line)] + GoEventSource.EncodeAll(rest)
  {
    assert ([line] + rest)[1..] == rest;
  }

  lemma JoinedBytes(value: string)
    ensures Utf8.Encode(value + ['\n'] + "[DONE]") == Utf8.Encode(value) + [LF] + Go.DONE
  {
    GoEventSource.EncodeSplit(value, '\n', "[DONE]");
    EncodeSentinel();
  }

  lemma AcceptsLonger(front: Bytes, done: Bytes)
    requires front != [] && done == Go.DONE
    ensures Go.Dispatch(GoEventSource.Accept, true, front + done, Go.Run([], Go.EndOfStream))
            == Go.Run([front + done], Go.EndOfStream)
  {
    assert |front + done| > |Go.DONE|;
    assert [front + done] + [] == [front + done];
  }

  lemma MarkIsDataLine(mark: string)
    requires mark == "data: [DONE]"
    ensures Utf8.Encode(mark) == DataLine(Go.DONE)
  {
    assert mark == "data: " + "[DONE]";
    EncodeDataLine("[DONE]");
    EncodeSentinel();
  }

  /** Two `data:` lines and a blank one, in Go: the second is collected even if it is the sentinel. */
  lemma GoTwoLines(first: Bytes, second: Bytes)
    requires first != Go.DONE && second != [] && second[|second| - 1] != LF && LF !in second
    ensures Go.Receive(GoEventSource.Accept, true, None, Go.Scanned([DataLine(first), DataLine(second), []], None))
            == Go.Dispatch(GoEventSource.Accept, true, first + [LF] + second, Go.Run([], Go.EndOfStream))
  {
    var accept := GoEventSource.Accept;
    StreamAgreement.DataField(first);
    StreamAgreement.DataField(second);
    var one: seq<Bytes> := [[]];
    var none: seq<Bytes> := [];
    Go.LineRead(accept, true, None, DataLine(first), Go.Scanned([DataLine(second)] + one, None));
    assert [DataLine(first)] + ([DataLine(second)] + one) == [DataLine(first), DataLine(second), []];
    assert [] + first == first;
    Go.LineRead(accept, true, Some(first + [LF]), DataLine(second), Go.Scanned(one, None));
    var data := first + [LF] + second + [LF];
    Go.LineRead(accept, true, Some(data), [], Go.Scanned(none, None));
    assert [[]] + none == one;
    GoEventSource.TrimOne(first + [LF] + second);
    assert Go.TrimNewlines(first + [LF] + second) == first + [LF] + second;
  }
}
