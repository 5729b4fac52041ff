/** The TypeScript client's stream helpers: a streaming text decoder, a line splitter over the decoded
    text, and an event parser over the lines. A generator is modelled by the list it yields and the way
    it finishes. */
module TypeScriptStream {
  import opened Common
  import Utf8

  // ---- TextDecoder ------------------------------------------------------------------------------

  /** What a `TextDecoder` with `ignoreBOM` unset leaves of the decoded text. */
  function StripBom(text: string): string {
    if text != "" && text[0] == Utf8.BOM then text[1..] else text
  }

  class TextDecoder {
    var state: Utf8.State
    var bomSeen: bool

    constructor ()
      ensures state == Utf8.INITIAL && !bomSeen
    {
      state, bomSeen := Utf8.INITIAL, false;
    }

    /** `decode(chunk, {stream: true})`; `last` is the call without a chunk. */
    method Decode(chunk: Bytes, last: bool) returns (out: string)
      modifies this
      ensures var raw := Utf8.Run(old(state), chunk).1
                         + (if last then Utf8.Flush(Utf8.Run(old(state), chunk).0) else "");
              out == (if old(bomSeen) then raw else StripBom(raw)) && bomSeen == (old(bomSeen) || raw != "")
      ensures !last ==> state == Utf8.Run(old(state), chunk).0
    {
      var r := Utf8.Run(state, chunk);
      out := r.1;
      state := r.0;
      if last {
        out := out + Utf8.Flush(state);
        state := Utf8.INITIAL;
      }
      if !bomSeen && out != "" {
        bomSeen := true;
        if out[0] == Utf8.BOM { out := out[1..]; }
      }
    }
  }

  // ---- iterLines --------------------------------------------------------------------------------

  datatype Body = Body(chunks: seq<Bytes>, end: Ending)

  /** What a generator yields, and whether it returns or throws. */
  datatype Outcome<+T> = Outcome(items: seq<T>, end: Ending)

  function ChopCr(line: string): string {
    if line != "" && line[|line| - 1] == '\r' then line[..|line| - 1] else line
  }

  function ChopAll(lines: seq<string>): (r: seq<string>)
    ensures |r| == |lines| && forall k :: 0 <= k < |r| ==> r[k] == ChopCr(lines[k])
  {
    if lines == [] then [] else [ChopCr(lines[0])] + ChopAll(lines[1..])
  }

  /** The unterminated rest of the text is a line if anything but a carriage return is left of it. */
  function LastLine(tail: string): seq<string> {
    if ChopCr(tail) == "" then [] else [ChopCr(tail)]
  }

  /** The text a body decodes to: all of it, or, when the transport fails, without the final flush. */
  function BodyText(bytes: Bytes, end: Ending): string {
    StripBom(if end.Eof? then Utf8.DecodeLossy(bytes) else Utf8.Run(Utf8.INITIAL, bytes).1)
  }

  /** The lines of a body, and how reading it ends. */
  function BodyLines(bytes: Bytes, end: Ending): Outcome<string> {
    var p := Split(BodyText(bytes, end), '\n');
    Outcome(ChopAll(p.lines) + (if end.Eof? then LastLine(p.tail) else []), end)
  }

  /** One chunk: decode it into the buffer and yield the lines it ends. */
  method ReadChunk(decoder: TextDecoder, chunk: Bytes, lines: seq<string>, buffer: string, ghost bytes: Bytes,
                   ghost text: string)
    returns (lines': seq<string>, buffer': string, ghost text': string)
    requires DecoderAt(decoder.state, decoder.bomSeen, bytes, text) && SplitSoFar(text, lines, buffer)
    modifies decoder
    ensures DecoderAt(decoder.state, decoder.bomSeen, bytes + chunk, text') && SplitSoFar(text', lines', buffer')
  {
    var more := decoder.Decode(chunk, false);
    DecodedMore(bytes, chunk, text, more);
    lines', buffer' := DrainLines(lines, buffer + more, text, more);
    text' := text + more;
  }

  /** The end of a clean body: the decoder is flushed, and what is left in the buffer may be a line. */
  method LastLines(decoder: TextDecoder, lines: seq<string>, buffer: string, ghost bytes: Bytes, ghost text: string)
    returns (all: seq<string>)
    requires DecoderAt(decoder.state, decoder.bomSeen, bytes, text) && SplitSoFar(text, lines, buffer)
    modifies decoder
    ensures Outcome(all, Eof) == BodyLines(bytes, Eof)
  {
    var more := decoder.Decode([], true);
    DecodedAll(bytes, text, more);
    Flushed(text, more, lines, buffer);
    var tail := ChopCr(buffer + more);
    all := lines + if tail != "" then [tail] else [];
  }

  method IterLines(body: Body) returns (out: Outcome<string>)
    ensures out == BodyLines(Concat(body.chunks), body.end)
  {
    var decoder := new TextDecoder();
    var buffer, lines := "", [];
    ghost var bytes: Bytes := [];
    ghost var text := "";
    for k := 0 to |body.chunks|
      invariant ReadUpTo(bytes, body.chunks, k)
      invariant DecoderAt(decoder.state, decoder.bomSeen, bytes, text)
      invariant SplitSoFar(text, lines, buffer)
    {
      lines, buffer, text := ReadChunk(decoder, body.chunks[k], lines, buffer, bytes, text);
      ConcatNext(bytes, body.chunks, k);
      bytes := bytes + body.chunks[k];
    }
    ConcatAll(bytes, body.chunks);
    if body.end.Failed? {
      FailedBody(bytes, text, lines, buffer, body.end);
      return Outcome(lines, body.end);
    }
    lines := LastLines(decoder, lines, buffer, bytes, text);
    out := Outcome(lines, Eof);
  }

  /** A body that fails has the lines ended so far, and throws. */
  lemma FailedBody(bytes: Bytes, text: string, lines: seq<string>, buffer: string, end: Ending)
    requires end.Failed? && SplitSoFar(text, lines, buffer) && text == StripBom(Utf8.Run(Utf8.INITIAL, bytes).1)
    ensures Outcome(lines, end) == BodyLines(bytes, end)
  {
    assert lines + [] == lines;
  }

  /** `bytes` are the first `k` chunks. */
  ghost predicate ReadUpTo(bytes: Bytes, chunks: seq<Bytes>, k: nat)
    requires k <= |chunks|
  {
    bytes + Concat(chunks[k..]) == Concat(chunks)
  }

  lemma ConcatNext(bytes: Bytes, chunks: seq<Bytes>, k: nat)
    requires k < |chunks| && ReadUpTo(bytes, chunks, k)
    ensures ReadUpTo(bytes + chunks[k], chunks, k + 1)
  {
    Assoc(bytes, chunks[k], Concat(chunks[k + 1..]));
    assert chunks[k..][1..] == chunks[k + 1..];
  }

  lemma ConcatAll(bytes: Bytes, chunks: seq<Bytes>)
    requires ReadUpTo(bytes, chunks, |chunks|)
    ensures bytes == Concat(chunks)
  {
    assert chunks[|chunks|..] == [];
    assert bytes + [] == bytes;
  }

  /** The lines yielded and the text buffered after decoding `text`. */
  ghost predicate SplitSoFar(text: string, lines: seq<string>, buffer: string) {
    lines == ChopAll(Split(text, '\n').lines) && buffer == Split(text, '\n').tail
  }

  /** The decoder has read `bytes` and given out `text`. */
  ghost predicate DecoderAt(state: Utf8.State, bomSeen: bool, bytes: Bytes, text: string) {
    && state == Utf8.Run(Utf8.INITIAL, bytes).0
    && bomSeen == (Utf8.Run(Utf8.INITIAL, bytes).1 != "")
    && text == StripBom(Utf8.Run(Utf8.INITIAL, bytes).1)
  }

  lemma DecodedMore(bytes: Bytes, chunk: Bytes, text: string, more: string)
    requires text == StripBom(Utf8.Run(Utf8.INITIAL, bytes).1)
    requires var raw := Utf8.Run(Utf8.Run(Utf8.INITIAL, bytes).0, chunk).1;
             more == if Utf8.Run(Utf8.INITIAL, bytes).1 != "" then raw else StripBom(raw)
    ensures DecoderAt(Utf8.Run(Utf8.Run(Utf8.INITIAL, bytes).0, chunk).0,
                      Utf8.Run(Utf8.INITIAL, bytes).1 != "" || Utf8.Run(Utf8.Run(Utf8.INITIAL, bytes).0, chunk).1 != "",
                      bytes + chunk, text + more)
  {
    Utf8.RunConcat(Utf8.INITIAL, bytes, chunk);
    StripBomConcat(Utf8.Run(Utf8.INITIAL, bytes).1, Utf8.Run(Utf8.Run(Utf8.INITIAL, bytes).0, chunk).1);
  }

  lemma StripBomConcat(a: string, b: string)
    ensures StripBom(a + b) == StripBom(a) + (if a != "" then b else StripBom(b))
  {
    if a == "" { assert a + b == b; }
  }

  lemma DecodedAll(bytes: Bytes, text: string, more: string)
    requires text == StripBom(Utf8.Run(Utf8.INITIAL, bytes).1)
    requires var raw := Utf8.Run(Utf8.Run(Utf8.INITIAL, bytes).0, []).1
                        + Utf8.Flush(Utf8.Run(Utf8.Run(Utf8.INITIAL, bytes).0, []).0);
             more == if Utf8.Run(Utf8.INITIAL, bytes).1 != "" then raw else StripBom(raw)
    ensures text + more == StripBom(Utf8.DecodeLossy(bytes)) && '\n' !in more
  {
    var st := Utf8.Run(Utf8.INITIAL, bytes).0;
    assert Utf8.Run(st, []).1 + Utf8.Flush(st) == Utf8.Flush(st);
    StripBomConcat(Utf8.Run(Utf8.INITIAL, bytes).1, Utf8.Flush(st));
  }

  /** Text without a line feed only grows the last, unterminated line. */
  lemma Flushed(text: string, more: string, lines: seq<string>, buffer: string)
    requires SplitSoFar(text, lines, buffer) && '\n' !in more
    ensures SplitSoFar(text + more, lines, buffer + more)
  {
    SplitAppend(text, more, '\n');
    SplitClean(text, '\n');
    assert '\n' !in buffer + more;
    assert Split(buffer + more, '\n') == Pieces([], buffer + more);
    assert Split(text, '\n').lines + [] == Split(text, '\n').lines;
  }

  /** The inner loop: yield every complete line of the buffer, without its line end. */
  method DrainLines(linesBefore: seq<string>, bufferBefore: string, ghost text: string, ghost more: string)
    returns (lines: seq<string>, buffer: string)
    requires SplitSoFar(text, linesBefore, Split(text, '\n').tail) && bufferBefore == Split(text, '\n').tail + more
    ensures SplitSoFar(text + more, lines, buffer)
  {
    lines, buffer := linesBefore, bufferBefore;
    ToDrain(text, more, lines);
    while '\n' in buffer
      invariant Drains(text + more, lines, buffer)
      decreases |buffer|
    {
      var nl := IndexOf(buffer, '\n').value;
      YieldLine(text + more, buffer, lines);
      lines, buffer := lines + [ChopCr(buffer[..nl])], buffer[nl + 1..];
    }
    Drained(text + more, lines, buffer);
  }

  /** Yielding the complete lines of `buffer` after `lines` gives the lines of `text`. */
  ghost predicate Drains(text: string, lines: seq<string>, buffer: string) {
    && ChopAll(Split(text, '\n').lines) == lines + ChopAll(Split(buffer, '\n').lines)
    && Split(text, '\n').tail == Split(buffer, '\n').tail
  }

  lemma ToDrain(text: string, more: string, lines: seq<string>)
    requires SplitSoFar(text, lines, Split(text, '\n').tail)
    ensures Drains(text + more, lines, Split(text, '\n').tail + more)
  {
    SplitAppend(text, more, '\n');
    ChopAllConcat(Split(text, '\n').lines, Split(Split(text, '\n').tail + more, '\n').lines);
  }

  lemma YieldLine(text: string, buffer: string, lines: seq<string>)
    requires Drains(text, lines, buffer) && '\n' in buffer
    ensures var nl := IndexOf(buffer, '\n').value;
            Drains(text, lines + [ChopCr(buffer[..nl])], buffer[nl + 1..])
  {
    var nl := IndexOf(buffer, '\n').value;
    SplitFirst(buffer, '\n');
    YieldNext(Split(text, '\n'), lines, buffer[..nl], Split(buffer[nl + 1..], '\n'));
  }

  /** Moving the first line of what is left to the lines yielded. */
  lemma YieldNext(whole: Pieces<char>, lines: seq<string>, line: string, left: Pieces<char>)
    requires lines + ChopAll([line] + left.lines) == ChopAll(whole.lines)
    ensures lines + [ChopCr(line)] + ChopAll(left.lines) == ChopAll(whole.lines)
  {
    ChopAllCons(line, left.lines);
    Assoc(lines, [ChopCr(line)], ChopAll(left.lines));
  }

  lemma ChopAllCons(line: string, rest: seq<string>)
    ensures ChopAll([line] + rest) == [ChopCr(line)] + ChopAll(rest)
  {
    assert ([line] + rest)[1..] == rest;
  }

  lemma Drained(text: string, lines: seq<string>, buffer: string)
    requires Drains(text, lines, buffer) && '\n' !in buffer
    ensures SplitSoFar(text, lines, buffer)
  {
    assert Split(buffer, '\n') == Pieces([], buffer);
    assert lines + [] == lines;
  }

  lemma {:induction false} ChopAllConcat(a: seq<string>, b: seq<string>)
    ensures ChopAll(a + b) == ChopAll(a) + ChopAll(b)
  {
  }

  // ---- parseSseData -----------------------------------------------------------------------------

  function JoinLines(lines: seq<string>): string {
    if lines == [] then ""
    else if |lines| == 1 then lines[0]
    else lines[0] + "\n" + JoinLines(lines[1..])
  }

  /** The value of a `data:` line, one leading space dropped. */
  function DataValue(line: string): string
    requires "data:" <= line
  {
    var value := line[5..];
    if value != "" && value[0] == ' ' then value[1..] else value
  }

  predicate IsSentinel(line: string) {
    "data:" <= line && DataValue(line) == "[DONE]"
  }

  /** The payloads of the events in `lines`, after the `data` lines already collected. */
  function Payloads(data: seq<string>, lines: seq<string>, end: Ending): Outcome<string>
    decreases |lines|
  {
    if lines == [] then
      Outcome(if end.Eof? && data != [] && JoinLines(data) != "[DONE]" then [JoinLines(data)] else [], end)
    else if lines[0] == "" then
      var rest := Payloads([], lines[1..], end);
      Outcome((if data != [] then [JoinLines(data)] else []) + rest.items, rest.end)
    else if !("data:" <= lines[0]) then Payloads(data, lines[1..], end)
    else if IsSentinel(lines[0]) then Outcome([], Eof)
    else Payloads(data + [DataValue(lines[0])], lines[1..], end)
  }

  /** Parsing from here on, `payloads` already yielded, gives `total`. */
  ghost predicate Continues(payloads: seq<string>, data: seq<string>, lines: seq<string>, end: Ending,
                            total: Outcome<string>)
  {
    var rest := Payloads(data, lines, end);
    payloads + rest.items == total.items && rest.end == total.end
  }

  lemma NextLine(payloads: seq<string>, data: seq<string>, lines: seq<string>, end: Ending, total: Outcome<string>)
    requires lines != [] && Continues(payloads, data, lines, end, total)
    ensures lines[0] == "" && data != [] ==> Continues(payloads + [JoinLines(data)], [], lines[1..], end, total)
    ensures lines[0] == "" && data == [] ==> Continues(payloads, [], lines[1..], end, total)
    ensures lines[0] != "" && !("data:" <= lines[0]) ==> Continues(payloads, data, lines[1..], end, total)
    ensures IsSentinel(lines[0]) ==> total == Outcome(payloads, Eof)
    ensures "data:" <= lines[0] && !IsSentinel(lines[0])
            ==> Continues(payloads, data + [DataValue(lines[0])], lines[1..], end, total)
  {
    if lines[0] == "" {
      Assoc(payloads, [JoinLines(data)], Payloads([], lines[1..], end).items);
      assert [] + Payloads([], lines[1..], end).items == Payloads([], lines[1..], end).items;
    }
    assert payloads + [] == payloads;
  }

  /** One line of the event loop; `[DONE]` stops it. */
  method ParseLine(payloads: seq<string>, data: seq<string>, line: string, ghost lines: seq<string>, ghost end: Ending,
                   ghost total: Outcome<string>)
    returns (payloads': seq<string>, data': seq<string>, stop: bool)
    requires lines != [] && lines[0] == line && Continues(payloads, data, lines, end, total)
    ensures stop ==> total == Outcome(payloads', Eof)
    ensures !stop ==> Continues(payloads', data', lines[1..], end, total)
  {
    NextLine(payloads, data, lines, end, total);
    payloads', data', stop := payloads, data, false;
    if line == "" {
      if data != [] {
        payloads', data' := payloads + [JoinLines(data)], [];
      }
      return;
    }
    if ":" <= line {
      assert line[0] == ':';
      return;
    }
    if !("data:" <= line) { return; }
    var value := DataValue(line);
    if value == "[DONE]" {
      stop := true;
    } else {
      data' := data + [value];
    }
  }

  method ParseSseData(body: Body) returns (out: Outcome<string>)
    ensures out == Payloads([], BodyLines(Concat(body.chunks), body.end).items, body.end)
  {
    var source := IterLines(body);
    var lines := source.items;
    var payloads, data := [], [];
    ghost var total := Payloads([], lines, body.end);
    assert lines[0..] == lines && [] + total.items == total.items;
    for k := 0 to |lines|
      invariant Continues(payloads, data, lines[k..], body.end, total)
    {
      assert lines[k..][1..] == lines[k + 1..];
      var stop;
      payloads, data, stop := ParseLine(payloads, data, lines[k], lines[k..], body.end, total);
      if stop { return Outcome(payloads, Eof); }
    }
    assert lines[|lines|..] == [];
    if source.end.Failed? {
      assert payloads + [] == payloads;
      return Outcome(payloads, source.end);
    }
    if data != [] {
      var payload := JoinLines(data);
      if payload != "[DONE]" { payloads := payloads + [payload]; }
    }
    out := Outcome(payloads, Eof);
  }

  // ---- parseNdjson ------------------------------------------------------------------------------

  /** White space and line terminators of the language: what `String.prototype.trim` removes. */
  predicate IsWhitespace(c: char) {
    var cp := c as int;
    9 <= cp <= 13 || cp in {0x20, 0xA0, 0x1680, 0x2028, 0x2029, 0x202F, 0x205F, 0x3000, 0xFEFF}
    || 0x2000 <= cp <= 0x200A
  }

  function TrimStart(s: string): string {
    if s != "" && IsWhitespace(s[0]) then TrimStart(s[1..]) else s
  }

  function TrimEnd(s: string): string {
    if s != "" && IsWhitespace(s[|s| - 1]) then TrimEnd(s[..|s| - 1]) else s
  }

  function Trim(s: string): string { TrimEnd(TrimStart(s)) }

  /** The values of the lines that are not blank, up to the first that does not parse. */
  function Objects<T>(parse: string -> Result<T>, lines: seq<string>, end: Ending): Outcome<T> {
    if lines == [] then Outcome([], end)
    else if Trim(lines[0]) == "" then Objects(parse, lines[1..], end)
    else match parse(Trim(lines[0]))
      case Err(e) => Outcome([], Failed(e))
      case Ok(x) =>
        var rest := Objects(parse, lines[1..], end);
        Outcome([x] + rest.items, rest.end)
  }

  /** Parsing from here on, `values` already yielded, gives `total`. */
  ghost predicate Parsing<T>(parse: string -> Result<T>, values: seq<T>, lines: seq<string>, end: Ending,
                             total: Outcome<T>)
  {
    var rest := Objects(parse, lines, end);
    values + rest.items == total.items && rest.end == total.end
  }

  lemma ParsingStarts<T>(parse: string -> Result<T>, values: seq<T>, lines: seq<string>, end: Ending)
    requires values == []
    ensures Parsing(parse, values, lines[0..], end, Objects(parse, lines, end))
  {
    assert lines[0..] == lines;
    assert values + Objects(parse, lines, end).items == Objects(parse, lines, end).items;
  }

  lemma ParsingEnds<T>(parse: string -> Result<T>, values: seq<T>, lines: seq<string>, end: Ending, total: Outcome<T>)
    requires lines == [] && Parsing(parse, values, lines, end, total)
    ensures total == Outcome(values, end)
  {
    assert values + [] == values;
  }

  /** One line of the loop; a line that does not parse throws. */
  method ParseObject<T>(parse: string -> Result<T>, values: seq<T>, line: string, ghost lines: seq<string>,
                        ghost end: Ending, ghost total: Outcome<T>)
    returns (values': seq<T>, thrown: Option<Error>)
    requires lines != [] && lines[0] == line && Parsing(parse, values, lines, end, total)
    ensures thrown.Some? ==> total == Outcome(values', Failed(thrown.value))
    ensures thrown.None? ==> Parsing(parse, values', lines[1..], end, total)
  {
    values', thrown := values, None;
    var trimmed := Trim(line);
    if trimmed == "" { return; }
    var parsed := parse(trimmed);
    if parsed.Err? {
      thrown := Some(parsed.error);
      assert values + [] == values;
    } else {
      Assoc(values, [parsed.value], Objects(parse, lines[1..], end).items);
      values' := values + [parsed.value];
    }
  }

  method ParseNdjson<T>(body: Body, parse: string -> Result<T>) returns (out: Outcome<T>)
    ensures out == Objects(parse, BodyLines(Concat(body.chunks), body.end).items, body.end)
  {
    var source := IterLines(body);
    var lines := source.items;
    var values: seq<T> := [];
    ghost var total := Objects(parse, lines, body.end);
    ParsingStarts(parse, values, lines, body.end);
    for k := 0 to |lines|
      invariant Parsing(parse, values, lines[k..], body.end, total)
    {
      assert lines[k..][1..] == lines[k + 1..];
      var thrown;
      values, thrown := ParseObject(parse, values, lines[k], lines[k..], body.end, total);
      if thrown.Some? { return Outcome(values, Failed(thrown.value)); }
    }
    ParsingEnds(parse, values, lines[|lines|..], body.end, total);
    out := Outcome(values, source.end);
  }
}
