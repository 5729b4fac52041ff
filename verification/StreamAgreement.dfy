/** The server-sent event printer and the three clients' decoders, taken together. */
module StreamAgreement {
  import opened Common
  import Utf8
  import Rust = RustStream
  import Ts = TypeScriptStream
  import Go = GoStream

  // ---- The printer ------------------------------------------------------------------------------

  function Frame(payload: string): string { "data: " + payload + "\n\n" }

  function Frames(payloads: seq<string>): string {
    if payloads == [] then "" else Frame(payloads[0]) + Frames(payloads[1..])
  }

  function ChatBody(payloads: seq<string>): string { Frames(payloads) + Frame("[DONE]") }

  method RenderFrames(payloads: seq<string>) returns (body: string)
    ensures body == Frames(payloads)
  {
    body := "";
    for k := 0 to |payloads|
      invariant body + Frames(payloads[k..]) == Frames(payloads)
    {
      assert payloads[k..][1..] == payloads[k + 1..];
      Assoc(body, Frame(payloads[k]), Frames(payloads[k + 1..]));
      Assoc(body + "data: ", payloads[k], "\n\n");
      Assoc(body, "data: ", payloads[k] + "\n\n");
      Assoc("data: ", payloads[k], "\n\n");
      body := body + "data: ";
      body := body + payloads[k];
      body := body + "\n\n";
    }
    assert payloads[|payloads|..] == [] && body + "" == body;
  }

  method RenderChat(payloads: seq<string>) returns (body: string)
    ensures body == ChatBody(payloads)
  {
    body := RenderFrames(payloads);
    body := body + "data: [DONE]\n\n";
    assert Frame("[DONE]") == "data: [DONE]\n\n";
  }

  /** The payloads the printer is meant for: one line, not the sentinel, no white space around it. */
  predicate Printable(p: string) {
    p != "" && p != "[DONE]" && '\n' !in p && !Rust.IsWhitespace(p[0]) && !Rust.IsWhitespace(p[|p| - 1])
  }

  // ---- Rust -------------------------------------------------------------------------------------

  /** A rendered frame is a `data:` line and a blank line. */
  lemma RustFrame<T>(act: string -> Rust.Action<T>, p: string, rest: Bytes, end: Ending)
    requires '\n' !in p && act("") == Rust.Skip
    ensures Rust.Items(act, Utf8.Encode(Frame(p)) + rest, end)
            == Rust.Then(act("data: " + p), Rust.Items(act, rest, end))
  {
    var line := "data: " + p;
    var raw := Utf8.Encode(line);
    EncodeFrame(p);
    assert raw + [LF, LF] + rest == raw + [LF] + ([LF] + rest);
    assert [LF] + rest == [] + [LF] + rest;
    Utf8.EncodeAscii(line, '\n');
    assert '\n' !in line;
    Rust.FirstItem(act, raw, [LF] + rest, end);
    Rust.FirstItem(act, [], rest, end);
    Utf8.DecodeEncode(line);
    assert Utf8.DecodeLossy([]) == "";
  }

  lemma EncodeFrame(p: string)
    ensures Utf8.Encode(Frame(p)) == Utf8.Encode("data: " + p) + [LF, LF]
  {
    Utf8.EncodeConcat("data: " + p, "\n\n");
    assert Utf8.Encode("\n\n") == [LF, LF] by {
      assert "\n\n"[1..] == "\n" && "\n"[1..] == "";
      assert Utf8.Encode("\n") == [LF] + [];
    }
  }

  /** The results of the payloads, read as `data:` lines. */
  function Emitted<T>(act: string -> Rust.Action<T>, payloads: seq<string>): seq<Result<T>>
    requires forall p :: p in payloads ==> act("data: " + p).Emit?
  {
    if payloads == [] then []
    else
      assert payloads[0] in payloads && forall p :: p in payloads[1..] ==> p in payloads;
      [act("data: " + payloads[0]).item] + Emitted(act, payloads[1..])
  }

  lemma {:induction false} RustFrames<T>(act: string -> Rust.Action<T>, payloads: seq<string>, rest: Bytes, end: Ending)
    requires act("") == Rust.Skip
    requires forall p :: p in payloads ==> '\n' !in p && act("data: " + p).Emit?
    ensures Rust.Items(act, Utf8.Encode(Frames(payloads)) + rest, end)
            == Emitted(act, payloads) + Rust.Items(act, rest, end)
    decreases |payloads|
  {
    if payloads == [] {
      assert [] + rest == rest;
      assert [] + Rust.Items(act, rest, end) == Rust.Items(act, rest, end);
    } else {
      var p, later := payloads[0], Utf8.Encode(Frames(payloads[1..]));
      assert p in payloads && forall q :: q in payloads[1..] ==> q in payloads;
      Utf8.EncodeConcat(Frame(p), Frames(payloads[1..]));
      Assoc(Utf8.Encode(Frame(p)), later, rest);
      RustFrame(act, p, later + rest, end);
      RustFrames(act, payloads[1..], rest, end);
      var first: seq<Result<T>> := [act("data: " + p).item];
      Assoc(first, Emitted(act, payloads[1..]), Rust.Items(act, rest, end));
    }
  }

  /** The chat parser reads a printable payload back from its line. */
  lemma RustReadsPayload(p: string)
    requires Printable(p)
    ensures Rust.ParseSseDataLine("data: " + p) == Rust.Json(p)
  {
    var line := "data: " + p;
    assert line[|line| - 1] == p[|p| - 1];
    assert Rust.TrimLineEnd(line) == line;
    assert line[5..] == " " + p && (" " + p)[1..] == p;
    assert Rust.TrimStart(" " + p) == Rust.TrimStart(p) == p;
    assert Rust.TrimEnd(p) == p;
  }

  function DecodeAll<T>(decode: string -> Result<T>, payloads: seq<string>): seq<Result<T>> {
    if payloads == [] then [] else [decode(payloads[0])] + DecodeAll(decode, payloads[1..])
  }

  /** The Rust chat decoder inverts the printer. */
  lemma RustRoundTrip<T>(decode: string -> Result<T>, payloads: seq<string>)
    requires forall p :: p in payloads ==> Printable(p)
    ensures Rust.Items(Rust.ChatAction(decode), Utf8.Encode(ChatBody(payloads)), Eof) == DecodeAll(decode, payloads)
  {
    var act, last := Rust.ChatAction(decode), Utf8.Encode(Frame("[DONE]"));
    forall p | p in payloads ensures act("data: " + p) == Rust.Emit(decode(p)) { RustReadsPayload(p); }
    BlankSkips(decode);
    Utf8.EncodeConcat(Frames(payloads), Frame("[DONE]"));
    RustFrames(act, payloads, last, Eof);
    SentinelStops(decode);
    EmittedIsDecoded(act, decode, payloads);
    assert Emitted(act, payloads) + [] == Emitted(act, payloads);
  }

  lemma BlankSkips<T>(decode: string -> Result<T>)
    ensures Rust.ChatAction(decode)("") == Rust.Skip
  {
    assert Rust.ParseSseDataLine("") == Rust.SkipLine;
  }

  lemma SentinelStops<T>(decode: string -> Result<T>)
    ensures Rust.Items(Rust.ChatAction(decode), Utf8.Encode(Frame("[DONE]")), Eof) == []
  {
    BlankSkips(decode);
    LastFrame(Rust.ChatAction(decode), "[DONE]", Eof);
    SentinelLine("[DONE]");
  }

  lemma LastFrame<T>(act: string -> Rust.Action<T>, mark: string, end: Ending)
    requires '\n' !in mark && act("") == Rust.Skip
    ensures Rust.Items(act, Utf8.Encode(Frame(mark)), end) == Rust.Then(act("data: " + mark), Rust.Items(act, [], end))
  {
    RustFrame(act, mark, [], end);
    assert Utf8.Encode(Frame(mark)) + [] == Utf8.Encode(Frame(mark));
  }

  lemma SentinelLine(mark: string)
    requires mark == "[DONE]"
    ensures Rust.ParseSseDataLine("data: " + mark) == Rust.Done
  {
    var line := "data: " + mark;
    assert line[|line| - 1] == ']';
    assert Rust.TrimLineEnd(line) == line;
    assert line[5..] == " " + mark && (" " + mark)[1..] == mark;
    assert Rust.TrimStart(" " + mark) == Rust.TrimStart(mark) == mark;
    assert Rust.TrimEnd(mark) == mark;
  }

  lemma {:induction false} EmittedIsDecoded<T>(act: string -> Rust.Action<T>, decode: string -> Result<T>,
                                               payloads: seq<string>)
    requires forall p :: p in payloads ==> act("data: " + p) == Rust.Emit(decode(p))
    ensures Emitted(act, payloads) == DecodeAll(decode, payloads)
    decreases |payloads|
  {
    if payloads != [] {
      assert payloads[0] in payloads && forall p :: p in payloads[1..] ==> p in payloads;
      EmittedIsDecoded(act, decode, payloads[1..]);
    }
  }

  // ---- TypeScript -------------------------------------------------------------------------------

  function FrameLines(payloads: seq<string>): seq<string> {
    if payloads == [] then [] else ["data: " + payloads[0], ""] + FrameLines(payloads[1..])
  }

  lemma SplitFrame(p: string, rest: string)
    requires '\n' !in p
    ensures Split(Frame(p) + rest, '\n').lines == ["data: " + p, ""] + Split(rest, '\n').lines
    ensures Split(Frame(p) + rest, '\n').tail == Split(rest, '\n').tail
  {
    var line, blank := "data: " + p, "" + ['\n'] + rest;
    assert Frame(p) + rest == line + ['\n'] + blank;
    assert '\n' !in "data: " && '\n' !in line;
    SplitStep(line, blank, '\n');
    SplitStep("", rest, '\n');
    Assoc([line], [""], Split(rest, '\n').lines);
  }

  /** A rendered body is its `data:` lines and blank lines. */
  lemma {:induction false} SplitFrames(payloads: seq<string>, rest: string)
    requires forall p :: p in payloads ==> '\n' !in p
    ensures Split(Frames(payloads) + rest, '\n').lines == FrameLines(payloads) + Split(rest, '\n').lines
    ensures Split(Frames(payloads) + rest, '\n').tail == Split(rest, '\n').tail
    decreases |payloads|
  {
    if payloads == [] {
      assert Frames(payloads) + rest == rest;
      assert FrameLines(payloads) + Split(rest, '\n').lines == Split(rest, '\n').lines;
    } else {
      var p := payloads[0];
      assert p in payloads && forall q :: q in payloads[1..] ==> q in payloads;
      SplitFrames(payloads[1..], rest);
      Assoc(Frame(p), Frames(payloads[1..]), rest);
      SplitFrame(p, Frames(payloads[1..]) + rest);
      Assoc(["data: " + p, ""], FrameLines(payloads[1..]), Split(rest, '\n').lines);
    }
  }

  lemma {:induction false} ChopFrames(payloads: seq<string>)
    requires forall p :: p in payloads ==> Printable(p)
    ensures Ts.ChopAll(FrameLines(payloads)) == FrameLines(payloads)
    decreases |payloads|
  {
    if payloads != [] {
      var p := payloads[0];
      assert p in payloads && forall q :: q in payloads[1..] ==> q in payloads;
      ChopFrames(payloads[1..]);
      Ts.ChopAllConcat(["data: " + p, ""], FrameLines(payloads[1..]));
      ChopFrame(p);
    }
  }

  lemma {:induction false} PayloadsOfFrames(payloads: seq<string>, rest: seq<string>)
    requires forall p :: p in payloads ==> Printable(p)
    ensures var later := Ts.Payloads([], rest, Eof);
            Ts.Payloads([], FrameLines(payloads) + rest, Eof) == Ts.Outcome(payloads + later.items, later.end)
    decreases |payloads|
  {
    if payloads == [] {
      assert FrameLines(payloads) + rest == rest;
      assert payloads + Ts.Payloads([], rest, Eof).items == Ts.Payloads([], rest, Eof).items;
    } else {
      var p, after := payloads[0], FrameLines(payloads[1..]) + rest;
      assert p in payloads && forall q :: q in payloads[1..] ==> q in payloads;
      PayloadsOfFrames(payloads[1..], rest);
      Assoc(["data: " + p, ""], FrameLines(payloads[1..]), rest);
      FrameIsEvent(p, after);
      Assoc([p], payloads[1..], Ts.Payloads([], rest, Eof).items);
      assert payloads == [p] + payloads[1..];
    }
  }

  lemma FrameIsEvent(p: string, after: seq<string>)
    requires Printable(p)
    ensures var later := Ts.Payloads([], after, Eof);
            Ts.Payloads([], ["data: " + p, ""] + after, Eof) == Ts.Outcome([p] + later.items, later.end)
  {
    var line, lines := "data: " + p, ["data: " + p, ""] + after;
    assert line[5..] == " " + p && (" " + p)[1..] == p;
    assert Ts.DataValue(line) == p;
    assert lines[1..] == [""] + after && ([""] + after)[1..] == after;
    assert [] + [p] == [p];
    assert Ts.Payloads([], lines, Eof) == Ts.Payloads([p], [""] + after, Eof);
  }

  /** The TypeScript decoder inverts the printer. */
  lemma TypeScriptRoundTrip(payloads: seq<string>)
    requires forall p :: p in payloads ==> Printable(p)
    ensures Ts.Payloads([], Ts.BodyLines(Utf8.Encode(ChatBody(payloads)), Eof).items, Eof) == Ts.Outcome(payloads, Eof)
  {
    LinesOfBody(payloads, "[DONE]");
    PayloadsOfFrames(payloads, ["data: " + "[DONE]", ""]);
    SentinelEnds("[DONE]");
    assert payloads + [] == payloads;
  }

  lemma SentinelEnds(mark: string)
    requires mark == "[DONE]"
    ensures Ts.Payloads([], ["data: " + mark, ""], Eof) == Ts.Outcome([], Eof)
  {
    var line := "data: " + mark;
    assert line[5..] == " " + mark && (" " + mark)[1..] == mark;
    assert Ts.IsSentinel(line);
  }

  lemma LinesOfBody(payloads: seq<string>, mark: string)
    requires forall p :: p in payloads ==> Printable(p)
    requires mark != "" && '\n' !in mark && mark[|mark| - 1] != '\r'
    ensures Ts.BodyLines(Utf8.Encode(Frames(payloads) + Frame(mark)), Eof).items
            == FrameLines(payloads) + ["data: " + mark, ""]
  {
    var body, last := Frames(payloads) + Frame(mark), ["data: " + mark, ""];
    StartsWithD(payloads, mark);
    PlainBody(body);
    SplitBody(payloads, mark);
    ChopFrames(payloads);
    ChopFrame(mark);
    Ts.ChopAllConcat(FrameLines(payloads), last);
    LinesOfPieces(Utf8.Encode(body), body, FrameLines(payloads) + last);
  }

  lemma LinesOfPieces(bytes: Bytes, text: string, lines: seq<string>)
    requires Ts.BodyText(bytes, Eof) == text && Split(text, '\n') == Pieces(lines, "") && Ts.ChopAll(lines) == lines
    ensures Ts.BodyLines(bytes, Eof).items == lines
  {
    assert lines + [] == lines;
  }

  /** A text that does not start with a byte order mark is decoded from its encoding unchanged. */
  lemma PlainBody(body: string)
    requires body != "" && body[0] == 'd'
    ensures Ts.BodyText(Utf8.Encode(body), Eof) == body
  {
    Utf8.DecodeEncode(body);
  }

  lemma StartsWithD(payloads: seq<string>, mark: string)
    ensures var body := Frames(payloads) + Frame(mark); body != "" && body[0] == 'd'
  {
    if payloads != [] { assert Frames(payloads)[0] == Frame(payloads[0])[0]; }
  }

  lemma ChopFrame(mark: string)
    requires mark != "" && mark[|mark| - 1] != '\r'
    ensures Ts.ChopAll(["data: " + mark, ""]) == ["data: " + mark, ""]
  {
    var line, lines := "data: " + mark, ["data: " + mark, ""];
    assert line[|line| - 1] == mark[|mark| - 1];
    assert lines[1..] == [""] && [""][1..] == [];
  }

  lemma SplitBody(payloads: seq<string>, mark: string)
    requires forall p :: p in payloads ==> '\n' !in p
    requires '\n' !in mark
    ensures Split(Frames(payloads) + Frame(mark), '\n') == Pieces(FrameLines(payloads) + ["data: " + mark, ""], "")
  {
    SplitFrames(payloads, Frame(mark));
    SplitFrame(mark, "");
    assert Frame(mark) + "" == Frame(mark);
    assert Split("", '\n') == Pieces([], "");
    assert ["data: " + mark, ""] + [] == ["data: " + mark, ""];
  }

  // ---- Go ---------------------------------------------------------------------------------------

  /** A rendered payload stays below the scanner's line limit. */
  predicate FitsLine(p: string) { 6 + |Utf8.Encode(p)| < Go.MAX }

  /** The bytes of a `data:` line. */
  function DataLine(payload: Bytes): Bytes { [100, 97, 116, 97, 58, 32] + payload }

  /** What the scanner and the event loop need of a payload's bytes. */
  predicate OneLine(e: Bytes) {
    e != [] && LF !in e && e[|e| - 1] != CR && 6 + |e| < Go.MAX
  }

  lemma EncodeDataLine(p: string)
    ensures Utf8.Encode("data: " + p) == DataLine(Utf8.Encode(p))
  {
    Utf8.EncodeConcat("data: ", p);
    Utf8.EncodeCons('d', "ata: ");
    Utf8.EncodeCons('a', "ta: ");
    Utf8.EncodeCons('t', "a: ");
    Utf8.EncodeCons('a', ": ");
    Utf8.EncodeCons(':', " ");
    Utf8.EncodeCons(' ', "");
  }

  lemma PrintableIsOneLine(p: string)
    requires Printable(p) && FitsLine(p)
    ensures OneLine(Utf8.Encode(p)) && Utf8.Encode(p) != Go.DONE
  {
    assert p[|p| - 1] != '\r' && p[|p| - 1] in p;
    EncodeLast(p);
    Utf8.EncodeAscii(p, '\n');
    NotSentinelBytes(p);
  }

  lemma EncodeSentinel()
    ensures Utf8.Encode("[DONE]") == Go.DONE
  {
    Utf8.EncodeCons('[', "DONE]");
    Utf8.EncodeCons('D', "ONE]");
    Utf8.EncodeCons('O', "NE]");
    Utf8.EncodeCons('N', "E]");
    Utf8.EncodeCons('E', "]");
    Utf8.EncodeCons(']', "");
  }

  /** The last byte of encoded text is a carriage return only if the last character is. */
  lemma EncodeLast(p: string)
    requires p != "" && p[|p| - 1] != '\r'
    ensures Utf8.Encode(p) != [] && Utf8.Encode(p)[|Utf8.Encode(p)| - 1] != CR
  {
    var init, c := p[..|p| - 1], p[|p| - 1];
    EncodeLastOf(init, c);
    assert p == init + [c];
  }

  lemma EncodeLastOf(init: string, c: char)
    requires c != '\r'
    ensures var e := Utf8.Encode(init + [c]); e != [] && e[|e| - 1] != CR
  {
    Utf8.EncodeConcat(init, [c]);
    LastOfOne(c);
    LastOfSum(Utf8.Encode(init + [c]), Utf8.Encode(init), Utf8.Encode([c]));
  }

  lemma LastOfSum(e: Bytes, a: Bytes, b: Bytes)
    requires e == a + b && b != [] && b[|b| - 1] != CR
    ensures e != [] && e[|e| - 1] != CR
  {
  }

  lemma LastOfOne(c: char)
    requires c != '\r'
    ensures Utf8.Encode([c]) != [] && Utf8.Encode([c])[|Utf8.Encode([c])| - 1] != CR
  {
    LastOfChar(c);
    Utf8.EncodeCons(c, "");
    assert [c] + "" == [c] && Utf8.EncodeChar(c) + [] == Utf8.EncodeChar(c);
  }

  lemma LastOfChar(c: char)
    requires c != '\r'
    ensures var e := Utf8.EncodeChar(c); e[|e| - 1] != CR
  {
  }

  lemma ScanFrame(e: Bytes, rest: Bytes, end: Ending)
    requires OneLine(e)
    ensures var later := Go.ScanLines(rest, end);
            Go.ScanLines(DataLine(e) + [LF, LF] + rest, end) == Go.Scanned([DataLine(e), []] + later.lines, later.err)
  {
    OneLineIsLine(e);
    ScanTwo(DataLine(e), rest, end);
  }

  /** A line and the blank line after it. */
  lemma ScanTwo(line: Bytes, rest: Bytes, end: Ending)
    requires LF !in line && |line| < Go.MAX && Go.DropCr(line) == line
    ensures var later := Go.ScanLines(rest, end);
            Go.ScanLines(line + [LF, LF] + rest, end) == Go.Scanned([line, []] + later.lines, later.err)
  {
    TwoLineFeeds(line, rest);
    var none: Bytes := [];
    assert Go.DropCr(none) == none;
    ScanLine(line, none + [LF] + rest, end);
    ScanLine(none, rest, end);
    TwoInFront(line, none, Go.ScanLines(rest, end).lines);
  }

  lemma TwoInFront<T>(x: T, y: T, later: seq<T>)
    ensures [x] + ([y] + later) == [x, y] + later
  {
  }

  lemma TwoLineFeeds(line: Bytes, rest: Bytes)
    ensures line + [LF, LF] + rest == line + [LF] + ([] + [LF] + rest)
  {
    assert [LF, LF] == [LF] + [LF] && [] + [LF] == [LF];
    Assoc(line, [LF], [LF]);
    Assoc(line + [LF], [LF], rest);
  }

  lemma OneLineIsLine(e: Bytes)
    requires OneLine(e)
    ensures var line := DataLine(e); LF !in line && |line| < Go.MAX && Go.DropCr(line) == line
  {
    var line := DataLine(e);
    assert line[|line| - 1] == e[|e| - 1];
  }

  lemma ScanLine(line: Bytes, rest: Bytes, end: Ending)
    requires LF !in line && |line| < Go.MAX
    ensures var later := Go.ScanLines(rest, end);
            Go.ScanLines(line + [LF] + rest, end) == Go.Scanned([Go.DropCr(line)] + later.lines, later.err)
  {
    var all := line + [LF] + rest;
    assert all[..|line|] == line && all[|line| + 1..] == rest;
    IndexOfIs(all, LF, |line|);
  }

  /** A scanned frame is one event, carrying exactly the payload's bytes. */
  lemma ReceiveFrame<T>(decode: Bytes -> Go.Decoded<T>, sentinel: bool, e: Bytes, later: Go.Scanned)
    requires OneLine(e) && e != Go.DONE
    ensures Go.Receive(decode, sentinel, None, Go.Scanned([DataLine(e), []] + later.lines, later.err))
            == Go.Dispatch(decode, sentinel, e, Go.Receive(decode, sentinel, None, later))
  {
    DataField(e);
    Assoc([DataLine(e)], [[]], later.lines);
    Go.LineRead(decode, sentinel, None, DataLine(e), Go.Scanned([[]] + later.lines, later.err));
    Go.LineRead(decode, sentinel, Some(e + [LF]), [], later);
    assert Go.Append(None, e) == e + [LF] by { assert [] + e == e; }
    TrimAppended(e);
  }

  lemma TrimAppended(e: Bytes)
    requires e != [] && LF !in e
    ensures Go.TrimNewlines(e + [LF]) == e
  {
    assert (e + [LF])[..|e|] == e;
    assert e[|e| - 1] in e;
    assert Go.TrimNewlines(e) == e;
  }

  lemma DataField(e: Bytes)
    ensures Go.Effect(DataLine(e)) == Go.Data(e)
  {
    var line := DataLine(e);
    assert line[4] == Go.COLON && line[..4] == Go.DATA;
    IndexOfIs(line, Go.COLON, 4);
    assert line[5..] == [Go.SPACE] + e;
  }

  /** What the Go iterator makes of a payload: a line at the scanner's limit fails it as a bad payload does. */
  function GoRead<T>(unmarshal: Bytes -> Result<T>): string -> Result<T> {
    p => if FitsLine(p) then unmarshal(Utf8.Encode(p)) else Err(TokenTooLong)
  }

  /** One result in front of a run: a failure ends it. */
  function Continue<T>(first: Result<T>, later: Go.Run<T>): Go.Run<T> {
    if first.Err? then Go.Run([], Go.Failure(first.error)) else Go.Run([first.value] + later.values, later.stop)
  }

  /** Results in front of a run. */
  function Resume<T>(results: seq<Result<T>>, later: Go.Run<T>): Go.Run<T> {
    if results == [] then later else Continue(results[0], Resume(results[1..], later))
  }

  /** A run that ends at its first failure. */
  function UpToError<T>(results: seq<Result<T>>): Go.Run<T> { Resume(results, Go.Run([], Go.EndOfStream)) }

  /** The Go chat iterator inverts the printer: the values of the payloads up to the first that does not decode
      or fit, and its failure; or all of them, and then `io.EOF`. */
  lemma {:induction false} GoRoundTrip<T>(unmarshal: Bytes -> Result<T>, payloads: seq<string>)
    requires forall p :: p in payloads ==> Printable(p)
    ensures Go.Receive(Go.ChatDecoder(unmarshal), true, None, Go.ScanLines(Utf8.Encode(ChatBody(payloads)), Eof))
            == UpToError(DecodeAll(GoRead(unmarshal), payloads))
    decreases |payloads|
  {
    if payloads == [] {
      assert ChatBody(payloads) == Frame("[DONE]");
      GoSentinel(Go.ChatDecoder(unmarshal), "[DONE]", [], Eof);
      assert Utf8.Encode(Frame("[DONE]")) + [] == Utf8.Encode(Frame("[DONE]"));
    } else {
      var p, later := payloads[0], payloads[1..];
      assert p in payloads && forall q :: q in later ==> q in payloads;
      EncodeChatBody(payloads);
      GoReadsPayload(unmarshal, p, Utf8.Encode(ChatBody(later)));
      GoRoundTrip(unmarshal, later);
      UpToErrorStep(GoRead(unmarshal)(p), DecodeAll(GoRead(unmarshal), later));
    }
  }

  lemma UpToErrorStep<T>(first: Result<T>, rest: seq<Result<T>>)
    ensures UpToError([first] + rest) == Continue(first, UpToError(rest))
  {
    assert ([first] + rest)[1..] == rest;
  }

  lemma GoReadsPayload<T>(unmarshal: Bytes -> Result<T>, p: string, rest: Bytes)
    requires Printable(p)
    ensures var decode := Go.ChatDecoder(unmarshal);
            Go.Receive(decode, true, None, Go.ScanLines(DataLine(Utf8.Encode(p)) + [LF, LF] + rest, Eof))
            == Continue(GoRead(unmarshal)(p), Go.Receive(decode, true, None, Go.ScanLines(rest, Eof)))
  {
    if FitsLine(p) {
      PrintableIsOneLine(p);
      GoReadsFrame(unmarshal, Utf8.Encode(p), rest);
    } else {
      GoStopsAtLongLine(Go.ChatDecoder(unmarshal), p, rest);
    }
  }

  lemma GoReadsFrame<T>(unmarshal: Bytes -> Result<T>, e: Bytes, rest: Bytes)
    requires OneLine(e) && e != Go.DONE
    ensures var decode := Go.ChatDecoder(unmarshal);
            Go.Receive(decode, true, None, Go.ScanLines(DataLine(e) + [LF, LF] + rest, Eof))
            == Continue(unmarshal(e), Go.Receive(decode, true, None, Go.ScanLines(rest, Eof)))
  {
    ScanFrame(e, rest, Eof);
    ReceiveFrame(Go.ChatDecoder(unmarshal), true, e, Go.ScanLines(rest, Eof));
  }

  /** A payload at the scanner's limit ends the run with its error, whatever follows. */
  lemma GoStopsAtLongLine<T>(decode: Bytes -> Go.Decoded<T>, p: string, rest: Bytes)
    requires '\n' !in p && !FitsLine(p)
    ensures Go.Receive(decode, true, None, Go.ScanLines(DataLine(Utf8.Encode(p)) + [LF, LF] + rest, Eof))
            == Go.Run([], Go.Failure(TokenTooLong))
  {
    var line := DataLine(Utf8.Encode(p));
    Utf8.EncodeAscii(p, '\n');
    Assoc(line, [LF, LF], rest);
    Go.Overflows(line, [LF, LF] + rest, Eof, false);
  }

  /** Go and Rust on the same body: where Rust reports a payload it cannot decode and goes on, Go stops. */
  lemma GoIsRustUpToError<T>(decode: string -> Result<T>, unmarshal: Bytes -> Result<T>, payloads: seq<string>)
    requires forall p :: p in payloads ==> Printable(p) && FitsLine(p) && decode(p) == unmarshal(Utf8.Encode(p))
    ensures var bytes := Utf8.Encode(ChatBody(payloads));
            Go.Receive(Go.ChatDecoder(unmarshal), true, None, Go.ScanLines(bytes, Eof))
            == UpToError(Rust.Items(Rust.ChatAction(decode), bytes, Eof))
  {
    RustRoundTrip(decode, payloads);
    GoRoundTrip(unmarshal, payloads);
    SameResults(decode, GoRead(unmarshal), payloads);
  }

  lemma {:induction false} SameResults<T>(decode: string -> Result<T>, decode': string -> Result<T>,
                                          payloads: seq<string>)
    requires forall p :: p in payloads ==> decode(p) == decode'(p)
    ensures DecodeAll(decode, payloads) == DecodeAll(decode', payloads)
  {
    if payloads != [] {
      assert payloads[0] in payloads && forall p :: p in payloads[1..] ==> p in payloads;
      SameResults(decode, decode', payloads[1..]);
    }
  }

  /** With decodable payloads the run ends cleanly exactly when every payload fits. */
  lemma GoCleanIffFits<T>(unmarshal: Bytes -> Result<T>, payloads: seq<string>)
    requires forall p :: p in payloads ==> Printable(p) && unmarshal(Utf8.Encode(p)).Ok?
    ensures var run := Go.Receive(Go.ChatDecoder(unmarshal), true, None,
                                  Go.ScanLines(Utf8.Encode(ChatBody(payloads)), Eof));
            && (run.stop == Go.EndOfStream <==> forall p :: p in payloads ==> FitsLine(p))
            && (run.stop != Go.EndOfStream ==> run.stop == Go.Failure(TokenTooLong))
  {
    GoRoundTrip(unmarshal, payloads);
    CleanIffFits(unmarshal, payloads);
  }

  lemma {:induction false} CleanIffFits<T>(unmarshal: Bytes -> Result<T>, payloads: seq<string>)
    requires forall p :: p in payloads ==> unmarshal(Utf8.Encode(p)).Ok?
    ensures var stop := UpToError(DecodeAll(GoRead(unmarshal), payloads)).stop;
            stop == (if forall p :: p in payloads ==> FitsLine(p) then Go.EndOfStream else Go.Failure(TokenTooLong))
  {
    if payloads != [] {
      var p, later := payloads[0], payloads[1..];
      assert p in payloads && forall q :: q in later ==> q in payloads;
      assert payloads == [p] + later;
      UpToErrorStep(GoRead(unmarshal)(p), DecodeAll(GoRead(unmarshal), later));
      CleanIffFits(unmarshal, later);
    }
  }

  lemma EncodeChatBody(payloads: seq<string>)
    requires payloads != []
    ensures Utf8.Encode(ChatBody(payloads))
            == DataLine(Utf8.Encode(payloads[0])) + [LF, LF] + Utf8.Encode(ChatBody(payloads[1..]))
  {
    Assoc(Frame(payloads[0]), Frames(payloads[1..]), Frame("[DONE]"));
    Utf8.EncodeConcat(Frame(payloads[0]), ChatBody(payloads[1..]));
    EncodeFrame(payloads[0]);
    EncodeDataLine(payloads[0]);
  }

  lemma NotSentinelBytes(p: string)
    ensures Utf8.Encode(p) == Go.DONE <==> p == "[DONE]"
  {
    EncodeSentinel();
    if Utf8.Encode(p) == Go.DONE { Utf8.EncodeInjective(p, "[DONE]"); }
  }

  /** The sentinel frame ends the run, whatever follows it. */
  lemma GoSentinel<T>(decode: Bytes -> Go.Decoded<T>, mark: string, rest: Bytes, end: Ending)
    requires mark == "[DONE]"
    ensures Go.Receive(decode, true, None, Go.ScanLines(Utf8.Encode(Frame(mark)) + rest, end))
            == Go.Run([], Go.EndOfStream)
  {
    var e, later := Go.DONE, Go.ScanLines(rest, end);
    EncodeSentinel();
    EncodeFrame(mark);
    EncodeDataLine(mark);
    ScanFrame(e, rest, end);
    DataField(e);
    Assoc([DataLine(e)], [[]], later.lines);
    Go.LineRead(decode, true, None, DataLine(e), Go.Scanned([[]] + later.lines, later.err));
  }
}
