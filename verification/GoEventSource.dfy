/** The Go event loop against the HTML Living Standard's event stream interpretation. */
module GoEventSource {
  import opened Common
  import opened StreamAgreement
  import EventSourceRefinement
  import Std = EventSource
  import Go = GoStream
  import Ts = TypeScriptStream
  import Utf8

  function EncodeAll(lines: seq<string>): seq<Bytes> {
    if lines == [] then [] else [Utf8.Encode(lines[0])] + EncodeAll(lines[1..])
  }

  // ---- One line ---------------------------------------------------------------------------------

  /** The first byte of an encoding shows an ASCII first character. */
  lemma EncodeHead(s: string, c: char)
    requires s != "" && c as int < 0x80
    ensures Utf8.Encode(s) != [] && (Utf8.Encode(s)[0] == c as int <==> s[0] == c)
  {
    assert Utf8.Encode(s)[0] == Utf8.EncodeChar(s[0])[0];
  }

  lemma EncodeSnoc(a: string, c: char)
    requires c as int < 0x80
    ensures Utf8.Encode(a + [c]) == Utf8.Encode(a) + [c as int]
  {
    Utf8.EncodeConcat(a, [c]);
    Utf8.EncodeCons(c, "");
    assert [c] + "" == [c];
  }

  lemma EncodeSplit(a: string, c: char, b: string)
    requires c as int < 0x80
    ensures Utf8.Encode(a + [c] + b) == Utf8.Encode(a) + [c as int] + Utf8.Encode(b)
  {
    EncodeSnoc(a, c);
    Utf8.EncodeConcat(a + [c], b);
  }

  function DropSpace(value: Bytes): Bytes { if value != [] && value[0] == Go.SPACE then value[1..] else value }

  lemma FieldOfParts(name: Bytes, rest: Bytes)
    requires Go.COLON !in name
    ensures Go.FieldOf(name + [Go.COLON] + rest) == (name, DropSpace(rest))
  {
    var line := name + [Go.COLON] + rest;
    assert line[..|name|] == name && line[|name| + 1..] == rest;
    IndexOfIs(line, Go.COLON, |name|);
  }

  lemma DropSpaceEncoded(rest: string)
    ensures DropSpace(Utf8.Encode(rest)) == Utf8.Encode(if rest != "" && rest[0] == ' ' then rest[1..] else rest)
  {
    if rest != "" {
      EncodeHead(rest, ' ');
      if rest[0] == ' ' {
        assert rest == [' '] + rest[1..];
        Utf8.EncodeCons(' ', rest[1..]);
      }
    }
  }

  /** Cutting the bytes of a line at the first colon is cutting the line and encoding. */
  lemma FieldOfEncoded(line: string)
    requires line != "" && line[0] != ':'
    ensures Std.Field(line).Some?
    ensures Go.FieldOf(Utf8.Encode(line))
            == (Utf8.Encode(Std.Field(line).value.0), Utf8.Encode(Std.Field(line).value.1))
  {
    if ':' in line {
      var i := IndexOf(line, ':').value;
      FieldAt(line, line[..i], line[i + 1..], i);
    } else {
      Utf8.EncodeAscii(line, ':');
    }
  }

  lemma FieldAt(line: string, name: string, rest: string, i: nat)
    requires IndexOf(line, ':') == Some(i) && i > 0 && name == line[..i] && rest == line[i + 1..]
    ensures Std.Field(line).Some?
    ensures Go.FieldOf(Utf8.Encode(line))
            == (Utf8.Encode(Std.Field(line).value.0), Utf8.Encode(Std.Field(line).value.1))
  {
    assert line == name + [':'] + rest;
    EncodeSplit(name, ':', rest);
    Utf8.EncodeAscii(name, ':');
    FieldOfParts(Utf8.Encode(name), Utf8.Encode(rest));
    DropSpaceEncoded(rest);
  }

  lemma DataName(name: string)
    ensures Utf8.Encode(name) == Go.DATA <==> name == "data"
  {
    Utf8.EncodeCons('d', "ata");
    Utf8.EncodeCons('a', "ta");
    Utf8.EncodeCons('t', "a");
    Utf8.EncodeCons('a', "");
    if Utf8.Encode(name) == Go.DATA { Utf8.EncodeInjective(name, "data"); }
  }

  /** A line does to the Go loop's event what it does to the standard's data buffer. */
  lemma EffectOfEncoded(line: string)
    requires line != ""
    ensures Utf8.Encode(line) != []
    ensures Go.Effect(Utf8.Encode(line))
            == if Std.Field(line).Some? && Std.Field(line).value.0 == "data"
               then Go.Data(Utf8.Encode(Std.Field(line).value.1))
               else Go.Ignore
  {
    EncodeHead(line, ':');
    if line[0] == ':' {
      IndexOfIs(line, ':', 0);
    } else {
      FieldOfEncoded(line);
      DataName(Std.Field(line).value.0);
    }
  }

  // ---- The event loop ---------------------------------------------------------------------------

  /** The loop's event for the standard's data buffer. */
  function Held(buffer: string): Option<Bytes> { if buffer == "" then None else Some(Utf8.Encode(buffer)) }

  /** A data buffer is empty or ends with a line feed. */
  predicate IsBuffer(buffer: string) { buffer == "" || buffer[|buffer| - 1] == '\n' }

  /** The run over the events the standard dispatches, their trailing newlines trimmed, and what comes later. */
  function Feed<T>(decode: Bytes -> Go.Decoded<T>, sentinel: bool, events: seq<string>, later: Go.Run<T>): Go.Run<T> {
    if events == [] then later
    else Go.Dispatch(decode, sentinel, Go.TrimNewlines(Utf8.Encode(events[0])),
                     Feed(decode, sentinel, events[1..], later))
  }

  predicate IsSentinel(line: string) { Std.Field(line) == Some(("data", "[DONE]")) }

  lemma TrimOne(e: Bytes)
    ensures Go.TrimNewlines(e + [LF]) == Go.TrimNewlines(e)
  {
    assert (e + [LF])[..|e|] == e;
  }

  lemma BufferTrims(buffer: string)
    requires buffer != "" && IsBuffer(buffer)
    ensures Go.TrimNewlines(Utf8.Encode(buffer)) == Go.TrimNewlines(Utf8.Encode(buffer[..|buffer| - 1]))
  {
    var init := buffer[..|buffer| - 1];
    assert buffer == init + ['\n'];
    EncodeSnoc(init, '\n');
    TrimOne(Utf8.Encode(init));
  }

  /** Collecting a value grows both buffers alike. */
  lemma CollectHeld(buffer: string, value: string)
    ensures IsBuffer(buffer + value + "\n")
    ensures Some(Go.Append(Held(buffer), Utf8.Encode(value))) == Held(buffer + value + "\n")
  {
    EncodeSnoc(buffer + value, '\n');
    Utf8.EncodeConcat(buffer, value);
    assert Utf8.Encode("") == [];
  }

  lemma NotDone(value: string)
    ensures Utf8.Encode(value) == Go.DONE <==> value == "[DONE]"
  {
    NotSentinelBytes(value);
  }

  /** From any state of the data buffer: the run over some lines is the run over the events the standard
      dispatches for them, followed by the run over the rest from what it leaves in the buffer. */
  lemma {:induction false} ReceiveIsFeed<T>(decode: Bytes -> Go.Decoded<T>, sentinel: bool, buffer: string,
                                           lines: seq<string>, rest: Go.Scanned)
    requires IsBuffer(buffer) && (sentinel ==> forall line :: line in lines ==> !IsSentinel(line))
    ensures Go.Receive(decode, sentinel, Held(buffer), Go.Scanned(EncodeAll(lines) + rest.lines, rest.err))
            == Feed(decode, sentinel, Std.Dispatches(buffer, lines),
                    Go.Receive(decode, sentinel, Held(Std.Pending(buffer, lines)), rest))
    decreases |lines|
  {
    if lines == [] {
      assert EncodeAll(lines) + rest.lines == rest.lines;
    } else {
      var line, tail := lines[0], lines[1..];
      assert line in lines && forall l :: l in tail ==> l in lines;
      var later := Go.Scanned(EncodeAll(tail) + rest.lines, rest.err);
      Assoc([Utf8.Encode(line)], EncodeAll(tail), rest.lines);
      Go.LineRead(decode, sentinel, Held(buffer), Utf8.Encode(line), later);
      if line == "" {
        ReceiveIsFeed(decode, sentinel, "", tail, rest);
        BlankIsFeed(decode, sentinel, buffer, tail, Go.Receive(decode, sentinel, Held(Std.Pending("", tail)), rest));
      } else {
        LineIsFeed(decode, sentinel, buffer, line, later);
        ReceiveIsFeed(decode, sentinel, Std.Collect(buffer, line), tail, rest);
      }
    }
  }

  /** A non-blank line changes the loop's event as it changes the standard's data buffer. */
  lemma LineIsFeed<T>(decode: Bytes -> Go.Decoded<T>, sentinel: bool, buffer: string, line: string, later: Go.Scanned)
    requires IsBuffer(buffer) && line != "" && (sentinel ==> !IsSentinel(line))
    ensures IsBuffer(Std.Collect(buffer, line))
    ensures Go.Receive(decode, sentinel, Held(buffer), Go.Scanned([Utf8.Encode(line)] + later.lines, later.err))
            == Go.Receive(decode, sentinel, Held(Std.Collect(buffer, line)), later)
  {
    Go.LineRead(decode, sentinel, Held(buffer), Utf8.Encode(line), later);
    EffectOfEncoded(line);
    var field := Std.Field(line);
    if field.Some? && field.value.0 == "data" {
      NotDone(field.value.1);
      CollectHeld(buffer, field.value.1);
    }
  }

  lemma BlankIsFeed<T>(decode: Bytes -> Go.Decoded<T>, sentinel: bool, buffer: string, tail: seq<string>,
                       later: Go.Run<T>)
    requires IsBuffer(buffer)
    ensures var next := Feed(decode, sentinel, Std.Dispatches("", tail), later);
            Feed(decode, sentinel, Std.Dispatches(buffer, [""] + tail), later)
            == if buffer == "" then next
               else Go.Dispatch(decode, sentinel, Go.TrimNewlines(Utf8.Encode(buffer)), next)
  {
    var lines, events := [""] + tail, Std.Dispatches("", tail);
    assert lines[1..] == tail;
    if buffer == "" {
      assert [] + events == events;
    } else {
      BufferTrims(buffer);
      assert ([buffer[..|buffer| - 1]] + events)[1..] == events;
    }
  }

  // ---- Whole bodies -----------------------------------------------------------------------------

  /** The lines of a text, one carriage return dropped from each, the unterminated rest last. */
  function TextLines(text: string): seq<string> {
    Ts.ChopAll(Split(text, '\n').lines) + Ts.LastLine(Split(text, '\n').tail)
  }

  predicate Short(lines: seq<string>) { forall line :: line in lines ==> |Utf8.Encode(line)| < Go.MAX }

  /** Every line is below the scanner's limit. */
  predicate Fits(text: string) {
    Short(Split(text, '\n').lines) && |Utf8.Encode(Split(text, '\n').tail)| < Go.MAX
  }

  lemma DropCrEncoded(line: string)
    ensures Go.DropCr(Utf8.Encode(line)) == Utf8.Encode(Ts.ChopCr(line))
  {
    if line != "" && line[|line| - 1] == '\r' {
      var init := line[..|line| - 1];
      assert line == init + ['\r'];
      EncodeSnoc(init, '\r');
      assert (Utf8.Encode(init) + [CR])[..|Utf8.Encode(init)|] == Utf8.Encode(init);
    } else if line != "" {
      EncodeLast(line);
    }
  }

  lemma {:induction false} EncodeAllConcat(a: seq<string>, b: seq<string>)
    ensures EncodeAll(a + b) == EncodeAll(a) + EncodeAll(b)
  {
    if a == [] {
      assert a + b == b;
    } else {
      assert (a + b)[1..] == a[1..] + b;
      EncodeAllConcat(a[1..], b);
    }
  }

  /** The scanner gives the ended lines of a text, and then the lines of its rest and whatever follows. */
  lemma {:induction false} ScanText(text: string, more: Bytes, end: Ending)
    requires Short(Split(text, '\n').lines)
    ensures var p := Split(text, '\n');
            var later := Go.ScanLines(Utf8.Encode(p.tail) + more, end);
            Go.ScanLines(Utf8.Encode(text) + more, end)
            == Go.Scanned(EncodeAll(Ts.ChopAll(p.lines)) + later.lines, later.err)
    decreases |text|
  {
    if '\n' in text {
      var line, rest := Cut(text, '\n');
      ShortRest(line, Split(rest, '\n').lines);
      ScanText(rest, more, end);
      ScanNextLine(line, rest, more, end);
      ChopEncoded(line, Split(rest, '\n').lines, Go.ScanLines(Utf8.Encode(Split(rest, '\n').tail) + more, end).lines);
    } else {
      var later := Go.ScanLines(Utf8.Encode(text) + more, end);
      assert EncodeAll(Ts.ChopAll([])) + later.lines == later.lines;
    }
  }

  lemma ScanNextLine(line: string, rest: string, more: Bytes, end: Ending)
    requires '\n' !in line && |Utf8.Encode(line)| < Go.MAX
    ensures var later := Go.ScanLines(Utf8.Encode(rest) + more, end);
            Go.ScanLines(Utf8.Encode(line + ['\n'] + rest) + more, end)
            == Go.Scanned([Utf8.Encode(Ts.ChopCr(line))] + later.lines, later.err)
  {
    EncodeSplit(line, '\n', rest);
    Assoc(Utf8.Encode(line) + [LF], Utf8.Encode(rest), more);
    Utf8.EncodeAscii(line, '\n');
    ScanLine(Utf8.Encode(line), Utf8.Encode(rest) + more, end);
    DropCrEncoded(line);
  }

  lemma ChopEncoded(line: string, lines: seq<string>, later: seq<Bytes>)
    ensures EncodeAll(Ts.ChopAll([line] + lines)) + later
            == [Utf8.Encode(Ts.ChopCr(line))] + (EncodeAll(Ts.ChopAll(lines)) + later)
  {
    Ts.ChopAllCons(line, lines);
    EncodeAllConcat([Ts.ChopCr(line)], Ts.ChopAll(lines));
    assert EncodeAll([Ts.ChopCr(line)]) == [Utf8.Encode(Ts.ChopCr(line))];
    Assoc([Utf8.Encode(Ts.ChopCr(line))], EncodeAll(Ts.ChopAll(lines)), later);
  }

  lemma ShortRest(line: string, lines: seq<string>)
    requires Short([line] + lines)
    ensures |Utf8.Encode(line)| < Go.MAX && Short(lines)
  {
    assert line in [line] + lines;
    assert forall l :: l in lines ==> l in [line] + lines;
  }

  /** The error a scanner reports at the end of a body. */
  function ErrorOf(end: Ending): Option<Error> { if end.Failed? then Some(end.error) else None }

  lemma GoLines(text: string, end: Ending)
    requires EventSourceRefinement.NoLoneCr(text) && Fits(text)
    ensures Go.ScanLines(Utf8.Encode(text), end) == Go.Scanned(EncodeAll(TextLines(text)), ErrorOf(end))
  {
    var p := Split(text, '\n');
    EventSourceRefinement.LinesAgree(text);
    SplitClean(text, '\n');
    ScanText(text, [], end);
    assert Utf8.Encode(text) + [] == Utf8.Encode(text) && Utf8.Encode(p.tail) + [] == Utf8.Encode(p.tail);
    LastToken(p.tail, end);
    EncodeAllConcat(Ts.ChopAll(p.lines), Ts.LastLine(p.tail));
  }

  /** An unterminated rest without a carriage return is the last token. */
  lemma LastToken(tail: string, end: Ending)
    requires '\n' !in tail && '\r' !in tail && |Utf8.Encode(tail)| < Go.MAX
    ensures Go.ScanLines(Utf8.Encode(tail), end) == Go.Scanned(EncodeAll(Ts.LastLine(tail)), ErrorOf(end))
  {
    Utf8.EncodeAscii(tail, '\n');
    DropCrEncoded(tail);
    assert Ts.ChopCr(tail) == tail;
    if tail != "" { EncodeHead(tail, 'x'); }
  }

  /** The lines as Go hears them: it keeps a leading byte order mark, and the line the mark stands in names no
      field the loop knows. The standard drops the mark first. */
  function Heard(text: string): seq<string> {
    var lines := TextLines(Ts.StripBom(text));
    if Marked(text) && lines != [] then lines[1..] else lines
  }

  predicate Marked(text: string) { text != "" && text[0] == Utf8.BOM }

  /** The events the standard dispatches over a body, the byte order mark dropped. */
  function StandardEvents(text: string): seq<string> { Std.Dispatches("", Std.Lines(Ts.StripBom(text))) }

  /** The data the standard discards at the end of a body. */
  function StandardPending(text: string): string { Std.Pending("", TextLines(Ts.StripBom(text))) }

  /** The run over the lines of a text, a mark at its front included. */
  lemma RunOfLines<T>(decode: Bytes -> Go.Decoded<T>, sentinel: bool, text: string, end: Ending)
    requires EventSourceRefinement.NoLoneCr(text) && Fits(text)
    requires sentinel ==> forall line :: line in TextLines(text) ==> !IsSentinel(line)
    ensures Go.Receive(decode, sentinel, None, Go.ScanLines(Utf8.Encode(text), end))
            == Feed(decode, sentinel, Std.Dispatches("", TextLines(text)),
                    Go.AtEnd(decode, sentinel, Held(Std.Pending("", TextLines(text))), ErrorOf(end)))
  {
    GoLines(text, end);
    var lines := TextLines(text);
    ReceiveIsFeed(decode, sentinel, "", lines, Go.Scanned([], ErrorOf(end)));
    assert EncodeAll(lines) + [] == EncodeAll(lines);
  }

  /** The unterminated rest dispatches nothing. */
  lemma EventsOfLines(text: string)
    requires EventSourceRefinement.NoLoneCr(text)
    ensures Std.Dispatches("", Std.Lines(text)) == Std.Dispatches("", TextLines(text))
  {
    EventSourceRefinement.LinesAgree(text);
    EventSourceRefinement.LastLineDispatchesNothing(Std.Lines(text), Split(text, '\n').tail);
  }

  lemma MarkedLine(line: string)
    ensures Ts.ChopCr([Utf8.BOM] + line) == [Utf8.BOM] + Ts.ChopCr(line)
    ensures Ts.LastLine([Utf8.BOM] + line) == [[Utf8.BOM] + Ts.ChopCr(line)]
  {
  }

  /** A mark belongs to the first line. */
  lemma MarkedLines(text: string)
    ensures var lines, marked := TextLines(text), TextLines([Utf8.BOM] + text);
            && marked != [] && marked[0] == [Utf8.BOM] + (if lines == [] then "" else lines[0])
            && marked[1..] == (if lines == [] then [] else lines[1..])
  {
    var whole := [Utf8.BOM] + text;
    if '\n' in text {
      var line, rest := Cut(text, '\n');
      var p := Split(rest, '\n');
      Assoc([Utf8.BOM], line + ['\n'], rest);
      Assoc([Utf8.BOM], line, ['\n']);
      SplitStep([Utf8.BOM] + line, rest, '\n');
      MarkedLine(line);
      FirstTextLine(line, p);
      FirstTextLine([Utf8.BOM] + line, p);
    } else {
      MarkedLine(text);
      OnlyTextLine(text);
      OnlyTextLine(whole);
    }
  }

  lemma FirstTextLine(line: string, p: Pieces<char>)
    ensures var lines := Ts.ChopAll([line] + p.lines) + Ts.LastLine(p.tail);
            lines != [] && lines[0] == Ts.ChopCr(line) && lines[1..] == Ts.ChopAll(p.lines) + Ts.LastLine(p.tail)
  {
    Ts.ChopAllCons(line, p.lines);
    Assoc([Ts.ChopCr(line)], Ts.ChopAll(p.lines), Ts.LastLine(p.tail));
  }

  lemma OnlyTextLine(text: string)
    requires '\n' !in text
    ensures TextLines(text) == Ts.LastLine(text)
  {
    assert Split(text, '\n') == Pieces([], text);
    assert Ts.ChopAll([]) + Ts.LastLine(text) == Ts.LastLine(text);
  }

  /** The line the mark stands in adds nothing to the data buffer. */
  lemma MarkHides(all: seq<string>, line: string)
    requires all != [] && all[0] == [Utf8.BOM] + line
    ensures Std.Dispatches("", all) == Std.Dispatches("", all[1..])
    ensures Std.Pending("", all) == Std.Pending("", all[1..])
  {
    EventSourceRefinement.CollectIs("", all[0]);
    assert all[0][0] != 'd';
  }

  /** For every decoder, either ending and every text with LF or CRLF line ends, lines below the limit and, for a
      stream with a sentinel, no sentinel line: the Go loop's run is the run over the events the standard dispatches,
      each with its trailing newlines trimmed, and then over the event left unclosed; behind a byte order mark it is
      that of the stream without its first line. */
  lemma MeetsStandard<T>(decode: Bytes -> Go.Decoded<T>, sentinel: bool, text: string, end: Ending)
    requires EventSourceRefinement.NoLoneCr(text) && Fits(text)
    requires sentinel ==> forall line :: line in TextLines(text) ==> !IsSentinel(line)
    ensures Go.Receive(decode, sentinel, None, Go.ScanLines(Utf8.Encode(text), end))
            == Feed(decode, sentinel, Std.Dispatches("", Heard(text)),
                    Go.AtEnd(decode, sentinel, Held(Std.Pending("", Heard(text))), ErrorOf(end)))
    ensures !Marked(text) ==>
              Std.Dispatches("", Heard(text)) == StandardEvents(text)
              && Std.Pending("", Heard(text)) == StandardPending(text)
  {
    RunOfLines(decode, sentinel, text, end);
    if Marked(text) { HeardIsAll(text); } else { EventsOfLines(text); }
  }

  /** Hearing a marked text is reading all its lines, mark included. */
  lemma HeardIsAll(text: string)
    requires Marked(text)
    ensures Std.Dispatches("", TextLines(text)) == Std.Dispatches("", Heard(text))
    ensures Std.Pending("", TextLines(text)) == Std.Pending("", Heard(text))
  {
    var lines := TextLines(Ts.StripBom(text));
    assert text == [Utf8.BOM] + Ts.StripBom(text);
    MarkedLines(Ts.StripBom(text));
    MarkHides(TextLines(text), if lines == [] then "" else lines[0]);
  }

  // ---- Trailing newlines ------------------------------------------------------------------------

  /** A decoder that accepts every payload and gives it back. */
  function Accept(payload: Bytes): Go.Decoded<Bytes> { Go.Value(payload, false) }

  predicate EndsInLineFeed(event: string) { event != "" && event[|event| - 1] == '\n' }

  function Trimmed(events: seq<string>): seq<Bytes> {
    if events == [] then [] else [Go.TrimNewlines(Utf8.Encode(events[0]))] + Trimmed(events[1..])
  }

  lemma {:induction false} FeedAccepts(events: seq<string>, later: Go.Run<Bytes>)
    ensures Feed(Accept, false, events, later) == Go.Run(Trimmed(events) + later.values, later.stop)
  {
    if events == [] {
      assert Trimmed(events) + later.values == later.values;
    } else {
      FeedAccepts(events[1..], later);
      Assoc([Go.TrimNewlines(Utf8.Encode(events[0]))], Trimmed(events[1..]), later.values);
    }
  }

  lemma {:induction false} TrimShortens(e: Bytes)
    ensures |Go.TrimNewlines(e)| <= |e|
  {
    if e != [] && e[|e| - 1] == LF { TrimShortens(e[..|e| - 1]); }
  }

  /** Trimming changes exactly the events that end in a line feed. */
  lemma TrimmedIff(event: string)
    ensures Go.TrimNewlines(Utf8.Encode(event)) == Utf8.Encode(event) <==> !EndsInLineFeed(event)
  {
    if event != "" {
      var init, c := event[..|event| - 1], event[|event| - 1];
      assert event == init + [c];
      if c == '\n' {
        EncodeSnoc(init, '\n');
        TrimOne(Utf8.Encode(init));
        TrimShortens(Utf8.Encode(init));
      } else {
        Utf8.EncodeConcat(init, [c]);
        LastByte(c);
        var last := Utf8.Encode([c]);
        assert Utf8.Encode(event)[|Utf8.Encode(event)| - 1] == last[|last| - 1];
      }
    }
  }

  lemma LastByte(c: char)
    requires c != '\n'
    ensures Utf8.Encode([c]) != [] && Utf8.Encode([c])[|Utf8.Encode([c])| - 1] != LF
  {
    Utf8.EncodeAscii([c], '\n');
    Utf8.EncodeCons(c, "");
    assert [c] + "" == [c] && Utf8.EncodeChar(c) + [] == Utf8.EncodeChar(c);
    var e := Utf8.Encode([c]);
    assert e[|e| - 1] in e;
  }

  lemma {:induction false} AllTrimmedIff(events: seq<string>)
    ensures |Trimmed(events)| == |EncodeAll(events)| == |events|
    ensures Trimmed(events) == EncodeAll(events) <==> forall event :: event in events ==> !EndsInLineFeed(event)
  {
    if events != [] {
      var first, rest := events[0], events[1..];
      AllTrimmedIff(rest);
      TrimmedIff(first);
      assert events == [first] + rest;
      assert Trimmed(events)[0] == Go.TrimNewlines(Utf8.Encode(first)) && Trimmed(events)[1..] == Trimmed(rest);
      assert EncodeAll(events)[0] == Utf8.Encode(first) && EncodeAll(events)[1..] == EncodeAll(rest);
    }
  }

  /** Without a sentinel, with every payload decoded and no mark in front: the Go run is exactly the events the
      standard dispatches, and then `io.EOF`, if and only if none of them ends in a line feed and nothing but
      line feeds is left of an unclosed event. */
  lemma MeetsStandardExactly(text: string)
    requires EventSourceRefinement.NoLoneCr(text) && Fits(text) && !Marked(text)
    ensures Go.Receive(Accept, false, None, Go.ScanLines(Utf8.Encode(text), Eof))
            == Go.Run(EncodeAll(StandardEvents(text)), Go.EndOfStream)
            <==> (forall event :: event in StandardEvents(text) ==> !EndsInLineFeed(event))
                 && Go.TrimNewlines(Utf8.Encode(StandardPending(text))) == []
  {
    var events, pending := StandardEvents(text), StandardPending(text);
    MeetsStandard(Accept, false, text, Eof);
    FeedAccepts(events, Go.AtEnd(Accept, false, Held(pending), None));
    AllTrimmedIff(events);
    LeftOver(pending);
    assert Trimmed(events) + [] == Trimmed(events);
  }

  /** What is left of an unclosed event is one more value unless trimming leaves nothing. */
  lemma LeftOver(pending: string)
    ensures var later := Go.AtEnd(Accept, false, Held(pending), None);
            && later.stop == Go.EndOfStream
            && later.values == (if Go.TrimNewlines(Utf8.Encode(pending)) == [] then []
                                else [Go.TrimNewlines(Utf8.Encode(pending))])
  {
  }

  /** An event of a `data` line and an empty one: the standard keeps the line end between them, Go trims it. */
  lemma EmptyLastLineDiffers(value: string)
    requires value != "" && !EndsInLineFeed(value)
    ensures var lines := ["data: " + value, "data:", ""];
            && Std.Dispatches("", lines) == [value + "\n"]
            && Go.Receive(Accept, false, None, Go.Scanned(EncodeAll(lines), None))
               == Go.Run([Utf8.Encode(value)], Go.EndOfStream)
            && Utf8.Encode(value) != Utf8.Encode(value + "\n")
  {
    var lines, event := ["data: " + value, "data:", ""], value + ['\n'];
    TwoValues("data: " + value, "data:", value);
    ReceiveIsFeed(Accept, false, "", lines, Go.Scanned([], None));
    assert EncodeAll(lines) + [] == EncodeAll(lines);
    EncodeSnoc(value, '\n');
    TrimOne(Utf8.Encode(value));
    TrimmedIff(value);
    OneEvent(event);
  }

  lemma OneEvent(event: string)
    ensures Feed(Accept, false, [event], Go.Run([], Go.EndOfStream))
            == Go.Run([Go.TrimNewlines(Utf8.Encode(event))], Go.EndOfStream)
  {
    assert [event][1..] == [];
  }

  lemma TwoValues(first: string, second: string, value: string)
    requires first == "data: " + value && second == "data:"
    ensures Std.Dispatches("", [first, second, ""]) == [value + ['\n']] && Std.Pending("", [first, second, ""]) == ""
  {
    var buffer := value + ['\n'];
    CollectsFirst(first, value);
    CollectsSecond(buffer, second);
    assert (buffer + ['\n'])[..|buffer|] == buffer;
    TwoLines(first, second, buffer, buffer + ['\n']);
  }

  lemma CollectsFirst(first: string, value: string)
    requires first == "data: " + value
    ensures first != "" && Std.Collect("", first) == value + ['\n']
  {
    ValueOf(first, value);
    EventSourceRefinement.CollectIs("", first);
    OntoEmpty(value);
  }

  lemma OntoEmpty(value: string)
    ensures "" + value + "\n" == value + ['\n']
  {
    assert "" + value == value;
  }

  lemma ValueOf(line: string, value: string)
    requires line == "data: " + value
    ensures "data:" <= line && line != "data" && Ts.DataValue(line) == value
  {
    assert |line| >= 6 && line[5..] == [' '] + value;
  }

  lemma CollectsSecond(buffer: string, second: string)
    requires second == "data:"
    ensures Std.Collect(buffer, second) == buffer + ['\n']
  {
    EventSourceRefinement.CollectIs(buffer, second);
    assert second[5..] == "" && buffer + "" == buffer;
  }

  lemma TwoLines(first: string, second: string, buffer: string, buffer': string)
    requires first != "" && second != "" && buffer' != ""
    requires Std.Collect("", first) == buffer && Std.Collect(buffer, second) == buffer'
    ensures Std.Dispatches("", [first, second, ""]) == [buffer'[..|buffer'| - 1]]
    ensures Std.Pending("", [first, second, ""]) == ""
  {
    var three, two, one := [first, second, ""], [second, ""], [""];
    assert three[1..] == two && two[1..] == one && one[1..] == [];
    assert Std.Dispatches(buffer', one) == [buffer'[..|buffer'| - 1]] + Std.Dispatches("", []);
    assert Std.Dispatches(buffer, two) == Std.Dispatches(buffer', one);
    assert Std.Pending(buffer', one) == Std.Pending("", []) && Std.Pending(buffer, two) == Std.Pending(buffer', one);
  }

  // ---- The byte order mark ----------------------------------------------------------------------

  /** The bytes of some values, one more counted for each. */
  function Weight(values: seq<Bytes>): nat {
    if values == [] then 0 else |values[0]| + 1 + Weight(values[1..])
  }

  lemma WeightCons(value: Bytes, rest: seq<Bytes>)
    ensures Weight([value] + rest) == |value| + 1 + Weight(rest)
  {
    assert ([value] + rest)[1..] == rest;
  }

  lemma {:induction false} TrimmingIsNoHeavier(events: seq<string>)
    ensures Weight(Trimmed(events)) <= Weight(EncodeAll(events))
  {
    if events != [] {
      TrimShortens(Utf8.Encode(events[0]));
      TrimmingIsNoHeavier(events[1..]);
    }
  }

  /** A blank line dispatches the bytes of the buffer. */
  lemma BlankWeighs(buffer: string, rest: seq<string>)
    requires IsBuffer(buffer)
    ensures DispatchWeight(buffer, [""] + rest) == |Utf8.Encode(buffer)| + DispatchWeight("", rest)
  {
    var events := Std.Dispatches("", rest);
    EventSourceRefinement.BlankDispatches(buffer, rest);
    if buffer == "" {
      assert [] + events == events;
    } else {
      var init := buffer[..|buffer| - 1];
      assert buffer == init + ['\n'];
      EncodeSnoc(init, '\n');
      assert EncodeAll([init] + events) == [Utf8.Encode(init)] + EncodeAll(events) by {
        assert ([init] + events)[1..] == events;
      }
      WeightCons(Utf8.Encode(init), EncodeAll(events));
    }
  }

  /** What a non-blank line adds to the data buffer. */
  function Added(line: string): string
    requires line != ""
  {
    Std.Collect("", line)
  }

  lemma CollectAdds(buffer: string, line: string)
    requires line != "" && IsBuffer(buffer)
    ensures Std.Collect(buffer, line) == buffer + Added(line) && IsBuffer(Std.Collect(buffer, line))
    ensures |Utf8.Encode(Std.Collect(buffer, line))| == |Utf8.Encode(buffer)| + |Utf8.Encode(Added(line))|
  {
    CollectAppends(buffer, line);
    Utf8.EncodeConcat(buffer, Added(line));
  }

  lemma CollectAppends(buffer: string, line: string)
    requires line != "" && IsBuffer(buffer)
    ensures Std.Collect(buffer, line) == buffer + Added(line) && IsBuffer(Std.Collect(buffer, line))
  {
    EventSourceRefinement.CollectIs("", line);
    EventSourceRefinement.CollectIs(buffer, line);
    var value := if line == "data" then "" else if "data:" <= line then Ts.DataValue(line) else "";
    AppendValue(buffer, value);
    assert buffer + "" == buffer;
  }

  lemma AppendValue(buffer: string, value: string)
    ensures buffer + value + "\n" == buffer + ("" + value + "\n") && IsBuffer(buffer + value + "\n")
  {
    assert "" + value == value;
    Assoc(buffer, value, "\n");
  }

  /** The weight of what the standard dispatches, starting with a buffer. */
  function DispatchWeight(buffer: string, lines: seq<string>): nat { Weight(EncodeAll(Std.Dispatches(buffer, lines))) }

  /** The buffers differ in weight by what they make the dispatches differ by, and neither stays pending. */
  predicate Weighs(buffer: string, less: string, lines: seq<string>) {
    && Std.Pending(less, lines) == ""
    && DispatchWeight(buffer, lines) + |Utf8.Encode(less)| == DispatchWeight(less, lines) + |Utf8.Encode(buffer)|
  }

  lemma NextLine(buffer: string, line: string, rest: seq<string>)
    requires line != ""
    ensures DispatchWeight(buffer, [line] + rest) == DispatchWeight(Std.Collect(buffer, line), rest)
    ensures Std.Pending(buffer, [line] + rest) == Std.Pending(Std.Collect(buffer, line), rest)
  {
    assert ([line] + rest)[1..] == rest;
  }

  lemma WeighsOn(buffer: string, less: string, line: string, rest: seq<string>)
    requires line != "" && IsBuffer(buffer) && IsBuffer(less)
    requires Weighs(Std.Collect(buffer, line), Std.Collect(less, line), rest)
    ensures Weighs(buffer, less, [line] + rest)
  {
    CollectAdds(buffer, line);
    CollectAdds(less, line);
    NextLine(buffer, line, rest);
    NextLine(less, line, rest);
  }

  lemma WeighsBlank(buffer: string, less: string, rest: seq<string>)
    requires IsBuffer(buffer) && IsBuffer(less) && Std.Pending("", rest) == ""
    ensures Weighs(buffer, less, [""] + rest)
  {
    BlankWeighs(buffer, rest);
    BlankWeighs(less, rest);
    assert ([""] + rest)[1..] == rest;
  }

  /** A buffer that does not stay pending is dispatched whole; one that holds no more does not stay either. */
  lemma {:induction false} DispatchesWeigh(buffer: string, less: string, lines: seq<string>)
    requires IsBuffer(buffer) && IsBuffer(less) && (buffer == "" ==> less == "")
    requires Std.Pending(buffer, lines) == ""
    ensures Weighs(buffer, less, lines)
    decreases |lines|
  {
    if lines != [] {
      var line, rest := lines[0], lines[1..];
      assert lines == [line] + rest;
      if line == "" {
        WeighsBlank(buffer, less, rest);
      } else {
        var buffer', less' := Std.Collect(buffer, line), Std.Collect(less, line);
        CollectAdds(buffer, line);
        CollectAdds(less, line);
        DispatchesWeigh(buffer', less', rest);
        WeighsOn(buffer, less, line, rest);
      }
    }
  }

  /** What the first line the standard reads adds to its data buffer. */
  function FirstAdds(text: string): string {
    var lines := TextLines(Ts.StripBom(text));
    if lines == [] then "" else Std.Collect("", lines[0])
  }

  lemma FirstLineFirst(lines: seq<string>)
    requires lines != []
    ensures Std.Dispatches("", lines) == Std.Dispatches(Std.Collect("", lines[0]), lines[1..])
    ensures Std.Pending("", lines) == Std.Pending(Std.Collect("", lines[0]), lines[1..])
  {
    if lines[0] == "" {
      assert Std.Collect("", "") == "";
      assert [] + Std.Dispatches("", lines[1..]) == Std.Dispatches("", lines[1..]);
    }
  }

  /** Behind a byte order mark, without a sentinel, with every payload decoded and every event closed: the Go run
      is exactly the events the standard dispatches if and only if none of them ends in a line feed and the first
      line adds nothing to the data buffer. */
  lemma MarkedMeetsStandardExactly(text: string)
    requires EventSourceRefinement.NoLoneCr(text) && Fits(text) && Marked(text) && StandardPending(text) == ""
    ensures Go.Receive(Accept, false, None, Go.ScanLines(Utf8.Encode(text), Eof))
            == Go.Run(EncodeAll(StandardEvents(text)), Go.EndOfStream)
            <==> (forall event :: event in StandardEvents(text) ==> !EndsInLineFeed(event)) && FirstAdds(text) == ""
  {
    var heard, first := Std.Dispatches("", Heard(text)), FirstAdds(text);
    FirstOfMarked(text);
    StandardOfMarked(text);
    DispatchesWeigh(first, "", Heard(text));
    RunOfMarked(text);
    if first == "" {
      AllTrimmedIff(heard);
    } else {
      TrimmingIsNoHeavier(heard);
      EncodeHead(first, 'd');
    }
  }

  lemma StandardOfMarked(text: string)
    requires EventSourceRefinement.NoLoneCr(text) && Marked(text)
    ensures StandardEvents(text) == Std.Dispatches("", TextLines(Ts.StripBom(text)))
  {
    assert text == [Utf8.BOM] + Ts.StripBom(text);
    EventSourceRefinement.NoLoneCrRest([Utf8.BOM], Ts.StripBom(text));
    EventsOfLines(Ts.StripBom(text));
  }

  lemma RunOfMarked(text: string)
    requires EventSourceRefinement.NoLoneCr(text) && Fits(text) && Marked(text) && Std.Pending("", Heard(text)) == ""
    ensures Go.Receive(Accept, false, None, Go.ScanLines(Utf8.Encode(text), Eof))
            == Go.Run(Trimmed(Std.Dispatches("", Heard(text))), Go.EndOfStream)
  {
    var heard := Std.Dispatches("", Heard(text));
    MeetsStandard(Accept, false, text, Eof);
    FeedAccepts(heard, Go.AtEnd(Accept, false, Held(""), None));
    assert Trimmed(heard) + [] == Trimmed(heard);
  }

  /** The standard reads the first line and then what Go hears. */
  lemma FirstOfMarked(text: string)
    requires Marked(text)
    ensures IsBuffer(FirstAdds(text))
    ensures Std.Dispatches("", TextLines(Ts.StripBom(text))) == Std.Dispatches(FirstAdds(text), Heard(text))
    ensures StandardPending(text) == Std.Pending(FirstAdds(text), Heard(text))
  {
    var lines := TextLines(Ts.StripBom(text));
    if lines != [] {
      FirstLineFirst(lines);
      if lines[0] == "" { assert Std.Collect("", "") == ""; } else { CollectAdds("", lines[0]); }
    }
  }

  /** A mark in front of one event: the standard dispatches it, Go returns nothing. */
  lemma MarkHidesEvent(value: string)
    requires value != "" && '\n' !in value && '\r' !in value
    requires Fits([Utf8.BOM] + Frame(value))
    ensures var text := [Utf8.BOM] + Frame(value);
            && StandardEvents(text) == [value]
            && Go.Receive(Accept, false, None, Go.ScanLines(Utf8.Encode(text), Eof)) == Go.Run([], Go.EndOfStream)
  {
    var text, line := [Utf8.BOM] + Frame(value), "data: " + value;
    assert Ts.StripBom(text) == Frame(value);
    FrameTextLines(value);
    assert '\r' !in text;
    StandardOfMarked(text);
    OneValue(line, value);
    NothingHeard(text, line);
  }

  lemma OneValue(line: string, value: string)
    requires line == "data: " + value
    ensures Std.Dispatches("", [line, ""]) == [value]
  {
    CollectsFirst(line, value);
    OneClosed(line, value + ['\n']);
    assert (value + ['\n'])[..|value|] == value;
  }

  lemma NothingHeard(text: string, line: string)
    requires EventSourceRefinement.NoLoneCr(text) && Fits(text) && Marked(text)
    requires TextLines(Ts.StripBom(text)) == [line, ""]
    ensures Go.Receive(Accept, false, None, Go.ScanLines(Utf8.Encode(text), Eof)) == Go.Run([], Go.EndOfStream)
  {
    assert [line, ""][1..] == [""];
    OneBlank();
    RunOfMarked(text);
  }

  lemma FrameTextLines(value: string)
    requires value != "" && '\n' !in value && '\r' !in value
    ensures TextLines(Frame(value)) == ["data: " + value, ""] && '\r' !in Frame(value)
  {
    SplitFrame(value, "");
    assert Frame(value) + "" == Frame(value);
    assert value[|value| - 1] in value;
    ChopFrame(value);
    var lines := ["data: " + value, ""];
    assert lines + [] == lines;
  }

  lemma OneClosed(line: string, buffer: string)
    requires line != "" && Std.Collect("", line) == buffer && buffer != ""
    ensures Std.Dispatches("", [line, ""]) == [buffer[..|buffer| - 1]]
  {
    var two, one := [line, ""], [""];
    assert two[1..] == one && one[1..] == [];
    assert Std.Dispatches(buffer, one) == [buffer[..|buffer| - 1]] + Std.Dispatches("", []);
  }

  lemma OneBlank()
    ensures Std.Dispatches("", [""]) == [] && Std.Pending("", [""]) == ""
  {
    assert [""][1..] == [];
  }
}
