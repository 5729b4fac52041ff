/** Streams whose events are single lines: on these the three clients and the HTML Living Standard agree, with
    comments, other fields, and LF or CRLF line ends in any places. */
module WellFormedStreams {
  import opened Common
  import opened StreamAgreement
  import opened EventSourceRefinement
  import opened GoEventSource
  import Std = EventSource
  import Rust = RustStream
  import Ts = TypeScriptStream
  import Go = GoStream
  import Utf8

  predicate IsData(line: string) { "data:" <= line }

  /** Every event is one `data:` line with a printable value, closed by a blank line; `open` tells that an event
      waits for its blank line. */
  predicate Isolated(open: bool, lines: seq<string>)
    decreases |lines|
  {
    if lines == [] then !open
    else if lines[0] == "" then Isolated(false, lines[1..])
    else if IsData(lines[0]) then !open && Printable(Ts.DataValue(lines[0])) && Isolated(true, lines[1..])
    else lines[0] != "data" && Isolated(open, lines[1..])
  }

  function DataValues(lines: seq<string>): seq<string> {
    if lines == [] then []
    else (if IsData(lines[0]) then [Ts.DataValue(lines[0])] else []) + DataValues(lines[1..])
  }

  /** Text in which every line is ended and every event isolated. */
  predicate WellFormed(text: string) {
    && NoLoneCr(text) && (text != "" ==> text[0] != Utf8.BOM)
    && Split(text, '\n').tail == "" && Isolated(false, TextLines(text))
  }

  // ---- The standard -----------------------------------------------------------------------------

  lemma {:induction false} StandardReads(data: seq<string>, lines: seq<string>)
    requires |data| <= 1 && Isolated(data != [], lines)
    ensures Std.Dispatches(Buffered(data), lines) == data + DataValues(lines)
    ensures Std.Pending(Buffered(data), lines) == ""
    decreases |lines|
  {
    if lines != [] {
      var line, rest := lines[0], lines[1..];
      if line == "" {
        StandardReads([], rest);
        BufferOfOne(data);
      } else {
        var data' := if IsData(line) then [Ts.DataValue(line)] else data;
        CollectsOne(data, line);
        StandardReads(data', rest);
        Regroup(data, line, DataValues(rest));
      }
    }
  }

  lemma BufferOfOne(data: seq<string>)
    requires |data| <= 1
    ensures Unclosed(Buffered(data)) == data
  {
    if data != [] {
      assert data[1..] == [] && data == [data[0]];
      assert Buffered(data) == data[0] + "\n";
      assert (data[0] + "\n")[..|data[0]|] == data[0];
    }
  }

  lemma CollectsOne(data: seq<string>, line: string)
    requires |data| <= 1 && line != "" && line != "data"
    requires IsData(line) ==> data == [] && Printable(Ts.DataValue(line))
    ensures Std.Collect(Buffered(data), line) == Buffered(if IsData(line) then [Ts.DataValue(line)] else data)
  {
    if IsData(line) { NotPlainOnlyByValue(line); }
    PlainLine(data, line);
    assert IsData(line) ==> data + [Ts.DataValue(line)] == [Ts.DataValue(line)];
  }

  lemma Regroup(data: seq<string>, line: string, later: seq<string>)
    requires IsData(line) ==> data == []
    ensures (if IsData(line) then [Ts.DataValue(line)] else data) + later
            == data + ((if IsData(line) then [Ts.DataValue(line)] else []) + later)
  {
    assert [] + later == later;
  }

  lemma NotPlainOnlyByValue(line: string)
    requires IsData(line) && Printable(Ts.DataValue(line))
    ensures Plain(line)
  {
  }

  // ---- Rust -------------------------------------------------------------------------------------

  /** The Rust chat parser reads a line as its value, or skips it. */
  lemma RustReadsLine(raw: string, line: string)
    requires '\r' !in line && '\n' !in line && (raw == line || raw == line + ['\r'])
    requires IsData(line) ==> Printable(Ts.DataValue(line))
    ensures Rust.ParseSseDataLine(raw) == if IsData(line) then Rust.Json(Ts.DataValue(line)) else Rust.SkipLine
  {
    TrimsToLine(raw, line);
    if IsData(line) { TrimsToValue(line[5..], Ts.DataValue(line)); }
  }

  lemma TrimsToLine(raw: string, line: string)
    requires '\r' !in line && '\n' !in line && (raw == line || raw == line + ['\r'])
    ensures Rust.TrimLineEnd(raw) == line
  {
    assert Rust.TrimLineEnd(line) == line by { assert line != "" ==> line[|line| - 1] in line; }
    if raw != line { assert raw[..|raw| - 1] == line; }
  }

  lemma TrimsToValue(rest: string, value: string)
    requires Printable(value) && value == if rest != "" && rest[0] == ' ' then rest[1..] else rest
    ensures Rust.Trim(rest) == value
  {
    assert Rust.TrimStart(value) == value && Rust.TrimEnd(value) == value;
  }

  lemma {:induction false} RustReads<T>(decode: string -> Result<T>, raws: seq<Bytes>, lines: seq<string>, open: bool,
                                        later: seq<Result<T>>)
    requires |raws| == |lines| && Isolated(open, lines)
    requires forall k :: 0 <= k < |raws| ==>
               var raw := Utf8.DecodeLossy(raws[k]);
               '\r' !in lines[k] && '\n' !in lines[k] && (raw == lines[k] || raw == lines[k] + ['\r'])
    ensures Rust.Interpret(Rust.ChatAction(decode), raws, later) == DecodeAll(decode, DataValues(lines)) + later
    decreases |lines|
  {
    if lines == [] {
      assert DecodeAll(decode, DataValues(lines)) + later == later;
    } else {
      var line, rest := lines[0], lines[1..];
      RustReadsLine(Utf8.DecodeLossy(raws[0]), line);
      RustReads(decode, raws[1..], rest, if line == "" then false else open || IsData(line), later);
      RustStep(decode, Utf8.DecodeLossy(raws[0]), line, rest, later);
    }
  }

  lemma RustStep<T>(decode: string -> Result<T>, raw: string, line: string, rest: seq<string>, later: seq<Result<T>>)
    requires Rust.ParseSseDataLine(raw) == if IsData(line) then Rust.Json(Ts.DataValue(line)) else Rust.SkipLine
    ensures Rust.Then(Rust.ChatAction(decode)(raw), DecodeAll(decode, DataValues(rest)) + later)
            == DecodeAll(decode, (if IsData(line) then [Ts.DataValue(line)] else []) + DataValues(rest)) + later
  {
    if IsData(line) {
      var first: seq<Result<T>> := [decode(Ts.DataValue(line))];
      assert ([Ts.DataValue(line)] + DataValues(rest))[1..] == DataValues(rest);
      Assoc(first, DecodeAll(decode, DataValues(rest)), later);
    } else {
      assert [] + DataValues(rest) == DataValues(rest);
    }
  }

  // ---- Lines of a well-formed text --------------------------------------------------------------

  /** Inside a sequence, the decoder gives something in the end. */
  lemma {:induction false} SomethingComes(st: Utf8.State, bytes: Bytes)
    requires st.needed != 0 || bytes != []
    ensures Utf8.Run(st, bytes).1 + Utf8.Flush(Utf8.Run(st, bytes).0) != ""
    decreases |bytes|
  {
    if bytes != [] {
      var next := Utf8.Step(st, bytes[0]);
      if next.1 == "" { SomethingComes(next.0, bytes[1..]); }
    }
  }

  /** With every carriage return in a CRLF, a line without the one at its end has none. */
  lemma ChopsToClean(line: string, rest: string)
    requires '\n' !in line && NoLoneCr(line + ['\n'] + rest)
    ensures '\r' !in Ts.ChopCr(line)
  {
    var text := line + ['\n'] + rest;
    forall i | 0 <= i < |line| - 1 ensures line[i] != '\r' {
      assert text[i] == line[i] && text[i + 1] == line[i + 1] && line[i + 1] in line;
    }
  }

  lemma {:induction false} NoCrInLines(text: string)
    requires NoLoneCr(text)
    ensures forall line :: line in Split(text, '\n').lines ==> '\r' !in Ts.ChopCr(line)
    decreases |text|
  {
    if '\n' in text {
      var line, rest := Cut(text, '\n');
      ChopsToClean(line, rest);
      NoLoneCrRest(line + ['\n'], rest);
      NoCrInLines(rest);
    }
  }

  /** The byte lines of an encoded text, decoded, are its lines. */
  lemma EncodedLines(text: string)
    requires Split(text, '\n').tail == ""
    ensures var p := Split(Utf8.Encode(text), LF);
            p.tail == [] && Utf8.DecodeLines(p.lines) == Split(text, '\n').lines
  {
    var bytes := Utf8.Encode(text);
    Utf8.DecodeEncode(text);
    Utf8.DecodeCommutesWithSplit(bytes);
    if Split(bytes, LF).tail != [] { SomethingComes(Utf8.INITIAL, Split(bytes, LF).tail); }
  }

  lemma LinesOfText(text: string)
    requires WellFormed(text)
    ensures TextLines(text) == Ts.ChopAll(Split(text, '\n').lines) == Std.Lines(text)
  {
    LinesAgree(text);
    assert Ts.LastLine("") == [];
  }

  // ---- Agreement --------------------------------------------------------------------------------

  /** The standard dispatches exactly the values of the `data:` lines, in order. */
  lemma StandardValues(text: string)
    requires WellFormed(text)
    ensures Std.Dispatches("", Std.Lines(text)) == DataValues(TextLines(text))
    ensures Std.Pending("", TextLines(text)) == ""
  {
    LinesOfText(text);
    var none: seq<string> := [];
    StandardReads(none, TextLines(text));
    assert none + DataValues(TextLines(text)) == DataValues(TextLines(text));
  }

  lemma ChoppedRaw(raw: string)
    requires '\n' !in raw
    ensures '\n' !in Ts.ChopCr(raw) && (raw == Ts.ChopCr(raw) || raw == Ts.ChopCr(raw) + ['\r'])
  {
  }

  /** Each byte line decodes to the line, with or without a carriage return. */
  lemma RawLines(text: string, k: nat)
    requires WellFormed(text) && k < |TextLines(text)|
    ensures var raws, line := Split(Utf8.Encode(text), LF).lines, TextLines(text)[k];
            && k < |raws| == |TextLines(text)| && '\r' !in line && '\n' !in line
            && (Utf8.DecodeLossy(raws[k]) == line || Utf8.DecodeLossy(raws[k]) == line + ['\r'])
  {
    EncodedLines(text);
    LinesOfText(text);
    NoCrInLines(text);
    SplitClean(text, '\n');
    ChoppedRaw(Split(text, '\n').lines[k]);
  }

  // ---- Rust, with anything behind the stream ----------------------------------------------------

  lemma {:induction false} InterpretConcat<T>(act: string -> Rust.Action<T>, a: seq<Bytes>, b: seq<Bytes>,
                                              atEnd: seq<Result<T>>)
    ensures Rust.Interpret(act, a + b, atEnd) == Rust.Interpret(act, a, Rust.Interpret(act, b, atEnd))
    decreases |a|
  {
    if a == [] {
      assert a + b == b;
    } else {
      assert a + b == [a[0]] + (a[1..] + b);
      Rust.InterpretHead(act, a[0], a[1..] + b, atEnd);
      InterpretConcat(act, a[1..], b, atEnd);
    }
  }

  /** Ended lines in front of a body are interpreted first. */
  lemma ItemsConcat<T>(act: string -> Rust.Action<T>, a: Bytes, b: Bytes, end: Ending)
    requires Split(a, LF).tail == []
    ensures Rust.Items(act, a + b, end) == Rust.Interpret(act, Split(a, LF).lines, Rust.Items(act, b, end))
  {
    SplitAppend(a, b, LF);
    assert [] + b == b;
    InterpretConcat(act, Split(a, LF).lines, Split(b, LF).lines, Rust.AtEnd(act, Split(b, LF).tail, end));
  }

  lemma RustPrefix<T>(decode: string -> Result<T>, good: string, more: Bytes, end: Ending)
    requires WellFormed(good)
    ensures Rust.Items(Rust.ChatAction(decode), Utf8.Encode(good) + more, end)
            == DecodeAll(decode, Std.Dispatches("", Std.Lines(good))) + Rust.Items(Rust.ChatAction(decode), more, end)
  {
    var raws, lines := Split(Utf8.Encode(good), LF).lines, TextLines(good);
    EncodedLines(good);
    LinesOfText(good);
    forall k | 0 <= k < |raws|
      ensures '\r' !in lines[k] && '\n' !in lines[k]
      ensures Utf8.DecodeLossy(raws[k]) == lines[k] || Utf8.DecodeLossy(raws[k]) == lines[k] + ['\r']
    {
      RawLines(good, k);
    }
    ItemsConcat(Rust.ChatAction(decode), Utf8.Encode(good), more, end);
    RustReads(decode, raws, lines, false, Rust.Items(Rust.ChatAction(decode), more, end));
    StandardValues(good);
  }

  // ---- TypeScript, with anything behind the stream ----------------------------------------------

  lemma {:induction false} TypeScriptReads(data: seq<string>, lines: seq<string>, more: seq<string>, end: Ending)
    requires |data| <= 1 && Isolated(data != [], lines)
    ensures var later := Ts.Payloads([], more, end);
            Ts.Payloads(data, lines + more, end) == Ts.Outcome(data + DataValues(lines) + later.items, later.end)
    decreases |lines|
  {
    var later := Ts.Payloads([], more, end);
    if lines == [] {
      assert lines + more == more && data + DataValues(lines) + later.items == later.items;
    } else {
      var line, rest := lines[0], lines[1..];
      assert lines + more == [line] + (rest + more);
      TypeScriptLine(data, line, rest + more, end);
      if line == "" {
        TypeScriptReads([], rest, more, end);
        BlankRegroups(data, DataValues(rest), later.items);
      } else {
        TypeScriptReads(if IsData(line) then [Ts.DataValue(line)] else data, rest, more, end);
        Regroup(data, line, DataValues(rest));
      }
    }
  }

  lemma TypeScriptLine(data: seq<string>, line: string, after: seq<string>, end: Ending)
    requires |data| <= 1 && (line == "" || IsData(line) ==> line == "" || (data == [] && Printable(Ts.DataValue(line))))
    ensures Ts.Payloads(data, [line] + after, end)
            == if line == "" then Ts.Outcome(data + Ts.Payloads([], after, end).items, Ts.Payloads([], after, end).end)
               else Ts.Payloads(if IsData(line) then [Ts.DataValue(line)] else data, after, end)
  {
    assert ([line] + after)[1..] == after;
    if data != [] { assert data == [data[0]]; }
    if line != "" && IsData(line) { assert data + [Ts.DataValue(line)] == [Ts.DataValue(line)]; }
  }

  lemma BlankRegroups(data: seq<string>, values: seq<string>, later: seq<string>)
    ensures data + ([] + values + later) == data + ([] + values) + later
  {
    assert [] + values == values;
    Assoc(data, values, later);
  }

  /** The lines of a text, read up to an end. */
  function TextItems(text: string, end: Ending): seq<string> {
    Ts.ChopAll(Split(text, '\n').lines) + if end.Eof? then Ts.LastLine(Split(text, '\n').tail) else []
  }

  /** What follows an encoded text is decoded by itself. */
  lemma DecodedBehind(text: string, more: Bytes, end: Ending) returns (behind: string)
    requires text != "" && text[0] != Utf8.BOM
    ensures Ts.BodyText(Utf8.Encode(text) + more, end) == text + behind
  {
    var bytes := Utf8.Encode(text) + more;
    Utf8.DecodeEncode(text);
    Utf8.RunConcat(Utf8.INITIAL, Utf8.Encode(text), more);
    var r := Utf8.Run(Utf8.INITIAL, more);
    behind := if end.Eof? then r.1 + Utf8.Flush(r.0) else r.1;
    Assoc(text, r.1, Utf8.Flush(r.0));
    assert Utf8.Run(Utf8.INITIAL, bytes).1 == text + r.1;
    assert (text + behind)[0] == text[0];
  }

  lemma ItemsBehind(good: string, line: string, cr: string, behind: string, end: Ending) returns (more: seq<string>)
    requires Split(good, '\n').tail == "" && '\n' !in line && '\r' !in line && IsCr(cr)
    ensures TextItems(good + (line + cr + "\n") + behind, end) == Ts.ChopAll(Split(good, '\n').lines) + ([line] + more)
  {
    var rest := line + cr + ['\n'] + behind;
    Assoc(good, line + cr + "\n", behind);
    SplitAppend(good, rest, '\n');
    assert "" + rest == rest;
    SplitStep(line + cr, behind, '\n');
    ChopsLine(line, cr);
    var p := Split(behind, '\n');
    Ts.ChopAllConcat(Split(good, '\n').lines, [line + cr] + p.lines);
    Ts.ChopAllCons(line + cr, p.lines);
    more := Ts.ChopAll(p.lines) + if end.Eof? then Ts.LastLine(p.tail) else [];
    Assoc([line], Ts.ChopAll(p.lines), if end.Eof? then Ts.LastLine(p.tail) else []);
    Assoc(Ts.ChopAll(Split(good, '\n').lines), [line] + Ts.ChopAll(p.lines),
          if end.Eof? then Ts.LastLine(p.tail) else []);
  }

  lemma ChopsLine(line: string, cr: string)
    requires '\r' !in line && IsCr(cr)
    ensures Ts.ChopCr(line + cr) == line
  {
    if cr == "" {
      assert line + cr == line;
      assert line != "" ==> line[|line| - 1] in line;
    } else {
      assert (line + cr)[..|line|] == line;
    }
  }

  // ---- Go, with anything behind the stream ------------------------------------------------------

  lemma {:induction false} ValuesArePrintable(open: bool, lines: seq<string>)
    requires Isolated(open, lines)
    ensures forall v :: v in DataValues(lines) ==> Printable(v)
    ensures forall line :: line in lines ==> !IsSentinel(line)
    decreases |lines|
  {
    if lines != [] {
      var line, rest := lines[0], lines[1..];
      ValuesArePrintable(if line == "" then false else open || IsData(line), rest);
      if IsSentinel(line) { SentinelIsData(line); }
      assert lines == [line] + rest;
    }
  }

  lemma SentinelIsData(line: string)
    requires IsSentinel(line)
    ensures IsData(line) && Ts.DataValue(line) == "[DONE]"
  {
    EventSourceRefinement.DataField(line);
    var i := IndexOf(line, ':').value;
    assert line[..i] == "data" && i == 4;
  }

  lemma PrintableBytes(v: string)
    requires Printable(v)
    ensures Go.TrimNewlines(Utf8.Encode(v)) == Utf8.Encode(v) && Utf8.Encode(v) != Go.DONE
  {
    Utf8.EncodeAscii(v, '\n');
    NotSentinelBytes(v);
    var e := Utf8.Encode(v);
    assert e != [] ==> e[|e| - 1] in e;
  }

  /** The results of decoding texts with a decoder of bytes. */
  function OfText<T>(unmarshal: Bytes -> Result<T>): string -> Result<T> { p => unmarshal(Utf8.Encode(p)) }

  lemma {:induction false} FeedOfValues<T>(unmarshal: Bytes -> Result<T>, values: seq<string>, later: Go.Run<T>)
    requires forall v :: v in values ==> Printable(v)
    ensures Feed(Go.ChatDecoder(unmarshal), true, values, later) == Resume(DecodeAll(OfText(unmarshal), values), later)
  {
    if values != [] {
      var v, rest := values[0], values[1..];
      assert v in values && forall w :: w in rest ==> w in values;
      PrintableBytes(v);
      FeedOfValues(unmarshal, rest, later);
      DispatchContinues(unmarshal, Utf8.Encode(v), Resume(DecodeAll(OfText(unmarshal), rest), later));
      ResumeStep(OfText(unmarshal)(v), DecodeAll(OfText(unmarshal), rest), later);
    }
  }

  lemma DispatchContinues<T>(unmarshal: Bytes -> Result<T>, e: Bytes, later: Go.Run<T>)
    requires e != Go.DONE
    ensures Go.Dispatch(Go.ChatDecoder(unmarshal), true, e, later) == Continue(unmarshal(e), later)
  {
  }

  lemma ResumeStep<T>(first: Result<T>, rest: seq<Result<T>>, later: Go.Run<T>)
    ensures Resume([first] + rest, later) == Continue(first, Resume(rest, later))
  {
    assert ([first] + rest)[1..] == rest;
  }

  lemma GoPrefix<T>(unmarshal: Bytes -> Result<T>, good: string, more: Bytes, end: Ending)
    requires WellFormed(good) && Fits(good)
    ensures Go.Receive(Go.ChatDecoder(unmarshal), true, None, Go.ScanLines(Utf8.Encode(good) + more, end))
            == Resume(DecodeAll(OfText(unmarshal), Std.Dispatches("", Std.Lines(good))),
                      Go.Receive(Go.ChatDecoder(unmarshal), true, None, Go.ScanLines(more, end)))
  {
    var decode, rest := Go.ChatDecoder(unmarshal), Go.ScanLines(more, end);
    LinesOfText(good);
    ScanText(good, more, end);
    assert Utf8.Encode("") + more == more;
    ValuesArePrintable(false, TextLines(good));
    ReceiveIsFeed(decode, true, "", TextLines(good), rest);
    StandardValues(good);
    FeedOfValues(unmarshal, DataValues(TextLines(good)), Go.Receive(decode, true, None, rest));
  }

  // ---- Agreement on whole streams ---------------------------------------------------------------

  /** Rust: every well-formed stream decodes to what the standard dispatches. */
  lemma RustAgrees<T>(decode: string -> Result<T>, text: string)
    requires WellFormed(text)
    ensures Rust.Items(Rust.ChatAction(decode), Utf8.Encode(text), Eof)
            == DecodeAll(decode, Std.Dispatches("", Std.Lines(text)))
  {
    RustPrefix(decode, text, [], Eof);
    var values := DecodeAll(decode, Std.Dispatches("", Std.Lines(text)));
    assert Utf8.Encode(text) + [] == Utf8.Encode(text) && values + [] == values;
  }

  /** TypeScript: the same. */
  lemma TypeScriptAgrees(text: string)
    requires WellFormed(text)
    ensures Ts.Payloads([], Ts.BodyLines(Utf8.Encode(text), Eof).items, Eof)
            == Ts.Outcome(Std.Dispatches("", Std.Lines(text)), Eof)
  {
    Utf8.DecodeEncode(text);
    assert Ts.BodyText(Utf8.Encode(text), Eof) == text;
    var lines, none := TextLines(text), [];
    TypeScriptReads(none, lines, none, Eof);
    StandardValues(text);
    assert lines + none == lines && none + DataValues(lines) + none == DataValues(lines);
  }

  /** Go: the same, up to the first value that does not decode, when every line is below the scanner's limit. */
  lemma GoAgrees<T>(unmarshal: Bytes -> Result<T>, text: string)
    requires WellFormed(text) && Fits(text)
    ensures Go.Receive(Go.ChatDecoder(unmarshal), true, None, Go.ScanLines(Utf8.Encode(text), Eof))
            == UpToError(DecodeAll(OfText(unmarshal), Std.Dispatches("", Std.Lines(text))))
  {
    GoPrefix(unmarshal, text, [], Eof);
    assert Utf8.Encode(text) + [] == Utf8.Encode(text);
  }

  // ---- The sentinel -----------------------------------------------------------------------------

  predicate IsCr(cr: string) { cr == "" || cr == "\r" }

  /** The sentinel line, whatever its line end. */
  function SentinelLine(cr: string): string { "data: [DONE]" + cr + "\n" }

  /** The sentinel line read by each of the clients. */
  lemma SentinelIsRead(mark: string)
    requires mark == "data: [DONE]"
    ensures IsData(mark) && Ts.DataValue(mark) == "[DONE]" && Ts.IsSentinel(mark) && '\n' !in mark && '\r' !in mark
  {
    assert mark[5..] == " [DONE]" && " [DONE]"[1..] == "[DONE]";
  }

  lemma RustReadsSentinel(mark: string, cr: string)
    requires mark == "data: [DONE]" && IsCr(cr)
    ensures Rust.ParseSseDataLine(mark + cr) == Rust.Done
  {
    SentinelIsRead(mark);
    assert cr == "" ==> mark + cr == mark;
    TrimsToLine(mark + cr, mark);
    TrimsToDone(mark[5..], "[DONE]");
  }

  lemma TrimsToDone(rest: string, value: string)
    requires value == "[DONE]" && rest == [' '] + value
    ensures Rust.Trim(rest) == value
  {
    assert rest[1..] == value;
    assert Rust.TrimStart(value) == value && Rust.TrimEnd(value) == value;
  }

  /** Rust: a well-formed stream and the sentinel line end the run, whatever follows and however the body ends. */
  lemma RustStopsAtSentinel<T>(decode: string -> Result<T>, good: string, cr: string, rest: Bytes, end: Ending)
    requires WellFormed(good) && IsCr(cr)
    ensures Rust.Items(Rust.ChatAction(decode), Utf8.Encode(good + SentinelLine(cr)) + rest, end)
            == DecodeAll(decode, Std.Dispatches("", Std.Lines(good)))
  {
    EncodedSentinel(good, cr, rest);
    RustPrefix(decode, good, Utf8.Encode("data: [DONE]" + cr) + [LF] + rest, end);
    RustEndsAt(decode, "data: [DONE]", cr, rest, end);
    var values := DecodeAll(decode, Std.Dispatches("", Std.Lines(good)));
    assert values + [] == values;
  }

  lemma RustEndsAt<T>(decode: string -> Result<T>, mark: string, cr: string, rest: Bytes, end: Ending)
    requires mark == "data: [DONE]" && IsCr(cr)
    ensures Rust.Items(Rust.ChatAction(decode), Utf8.Encode(mark + cr) + [LF] + rest, end) == []
  {
    Utf8.EncodeAscii(mark + cr, '\n');
    SentinelIsRead(mark);
    Rust.FirstItem(Rust.ChatAction(decode), Utf8.Encode(mark + cr), rest, end);
    Utf8.DecodeEncode(mark + cr);
    RustReadsSentinel(mark, cr);
  }

  lemma EncodedSentinel(good: string, cr: string, rest: Bytes)
    ensures Utf8.Encode(good + SentinelLine(cr)) + rest
            == Utf8.Encode(good) + (Utf8.Encode("data: [DONE]" + cr) + [LF] + rest)
  {
    Utf8.EncodeConcat(good, SentinelLine(cr));
    EncodeSnoc("data: [DONE]" + cr, '\n');
    Assoc(Utf8.Encode(good), Utf8.Encode("data: [DONE]" + cr) + [LF], rest);
  }

  /** TypeScript: the same. */
  lemma TypeScriptStopsAtSentinel(good: string, cr: string, rest: Bytes, end: Ending)
    requires WellFormed(good) && IsCr(cr)
    ensures Ts.Payloads([], Ts.BodyLines(Utf8.Encode(good + SentinelLine(cr)) + rest, end).items, end)
            == Ts.Outcome(Std.Dispatches("", Std.Lines(good)), Eof)
  {
    var more := ItemsAtSentinel(good, "data: [DONE]", cr, rest, end);
    StopsAtMark(TextLines(good), "data: [DONE]", more, end);
    StandardValues(good);
  }

  lemma ItemsAtSentinel(good: string, mark: string, cr: string, rest: Bytes, end: Ending) returns (more: seq<string>)
    requires WellFormed(good) && mark == "data: [DONE]" && IsCr(cr)
    ensures Ts.BodyLines(Utf8.Encode(good + SentinelLine(cr)) + rest, end).items == TextLines(good) + ([mark] + more)
  {
    var text := good + (mark + cr + "\n");
    SentinelIsRead(mark);
    assert text[0] == if good == "" then mark[0] else good[0];
    var behind := DecodedBehind(text, rest, end);
    more := ItemsBehind(good, mark, cr, behind, end);
    LinesOfText(good);
  }

  lemma StopsAtMark(lines: seq<string>, mark: string, more: seq<string>, end: Ending)
    requires Isolated(false, lines) && mark == "data: [DONE]"
    ensures Ts.Payloads([], lines + ([mark] + more), end) == Ts.Outcome(DataValues(lines), Eof)
  {
    var none: seq<string> := [];
    SentinelIsRead(mark);
    TypeScriptReads(none, lines, [mark] + more, end);
    assert Ts.Payloads(none, [mark] + more, end) == Ts.Outcome([], Eof);
    assert none + DataValues(lines) + [] == DataValues(lines);
  }

  /** Go: the same, up to the first value that does not decode. */
  lemma GoStopsAtSentinel<T>(unmarshal: Bytes -> Result<T>, good: string, cr: string, rest: Bytes, end: Ending)
    requires WellFormed(good) && Fits(good) && IsCr(cr)
    ensures Go.Receive(Go.ChatDecoder(unmarshal), true, None,
                       Go.ScanLines(Utf8.Encode(good + SentinelLine(cr)) + rest, end))
            == UpToError(DecodeAll(OfText(unmarshal), Std.Dispatches("", Std.Lines(good))))
  {
    EncodedSentinel(good, cr, rest);
    GoPrefix(unmarshal, good, Utf8.Encode("data: [DONE]" + cr) + [LF] + rest, end);
    GoReadsSentinel(Go.ChatDecoder(unmarshal), "data: [DONE]", cr, rest, end);
  }

  lemma GoReadsSentinel<T>(decode: Bytes -> Go.Decoded<T>, mark: string, cr: string, rest: Bytes, end: Ending)
    requires mark == "data: [DONE]" && IsCr(cr)
    ensures Go.Receive(decode, true, None, Go.ScanLines(Utf8.Encode(mark + cr) + [LF] + rest, end))
            == Go.Run([], Go.EndOfStream)
  {
    var raw, later := Utf8.Encode(mark + cr), Go.ScanLines(rest, end);
    MarkBytes(mark, cr);
    ScanLine(raw, rest, end);
    StreamAgreement.DataField(Go.DONE);
    Go.LineRead(decode, true, None, DataLine(Go.DONE), later);
  }

  lemma MarkBytes(mark: string, cr: string)
    requires mark == "data: [DONE]" && IsCr(cr)
    ensures var raw := Utf8.Encode(mark + cr);
            LF !in raw && |raw| < Go.MAX && Go.DropCr(raw) == DataLine(Go.DONE)
  {
    SentinelIsRead(mark);
    Utf8.EncodeAscii(mark + cr, '\n');
    assert mark == "data: " + "[DONE]";
    EncodeDataLine("[DONE]");
    EncodeSentinel();
    DropCrEncoded(mark + cr);
    ChopsLine(mark, cr);
    if cr == "\r" { EncodeSnoc(mark, '\r'); } else { assert mark + cr == mark; }
  }
}
