/** The Rust client's stream decoders: a byte buffer, cut at line feeds as chunks arrive. */
module RustStream {
  import opened Common
  import Utf8

  // ---- Text helpers -----------------------------------------------------------------------------

  /** `char::is_whitespace`: the Unicode property White_Space. */
  predicate IsWhitespace(c: char) {
    var cp := c as int;
    9 <= cp <= 13 || cp in {0x20, 0x85, 0xA0, 0x1680, 0x2028, 0x2029, 0x202F, 0x205F, 0x3000}
    || 0x2000 <= cp <= 0x200A
  }

  function TrimStart(s: string): string {
    if s != "" && IsWhitespace(s[0]) then TrimStart(s[1..]) else s
  }

  function TrimEnd(s: string): string {
    if s != "" && IsWhitespace(s[|s| - 1]) then TrimEnd(s[..|s| - 1]) else s
  }

  function Trim(s: string): string { TrimEnd(TrimStart(s)) }

  /** `trim_end_matches(['\r', '\n'])`. */
  function TrimLineEnd(s: string): string {
    if s != "" && (s[|s| - 1] == '\r' || s[|s| - 1] == '\n') then TrimLineEnd(s[..|s| - 1]) else s
  }

  function StripPrefix<T(==)>(s: seq<T>, prefix: seq<T>): Option<seq<T>> {
    if prefix <= s then Some(s[|prefix|..]) else None
  }

  // ---- One line ---------------------------------------------------------------------------------

  /** What one line contributes: nothing, the end of the stream, an item, or a last item. */
  datatype Action<T> = Skip | Stop | Emit(item: Result<T>) | EmitLast(item: Result<T>)

  datatype SseLine = Json(body: string) | Done | SkipLine

  function ParseSseDataLine(line: string): SseLine {
    match StripPrefix(TrimLineEnd(line), "data:")
    case None => SkipLine
    case Some(rest) =>
      var body := Trim(rest);
      if body == "" then SkipLine else if body == "[DONE]" then Done else Json(body)
  }

  /** A decoded Responses event: its type token, the message it carries, and the error message of its
      response snapshot. The other fields do not steer the decoder. */
  datatype Event = Event(kind: string, message: Option<string>, snapshotError: Option<string>)

  predicate IsTerminal(ev: Event) {
    ev.kind == "response.completed" || ev.kind == "response.incomplete" || ev.kind == "response.failed"
  }

  predicate IsError(ev: Event) { ev.kind == "error" }

  predicate IsRecognised(ev: Event) { ev.kind == "error" || "response." <= ev.kind }

  function ErrorMessage(ev: Event): string {
    if ev.message.Some? then ev.message.value
    else if ev.snapshotError.Some? then ev.snapshotError.value
    else ""
  }

  datatype ResponsesFrame = Yield(event: Event) | Failure(error: Error) | Undecodable(error: Error) | SkipFrame

  function ParseResponsesFrame(decode: string -> Result<Event>, line: string): ResponsesFrame {
    match StripPrefix(TrimLineEnd(line), "data:")
    case None => SkipFrame
    case Some(rest) =>
      var body := Trim(rest);
      if body == "" then SkipFrame
      else match decode(body)
        case Err(e) => Undecodable(e)
        case Ok(ev) =>
          if !IsRecognised(ev) then SkipFrame
          else if IsError(ev) then Failure(Api(502, ErrorMessage(ev)))
          else Yield(ev)
  }

  // ---- The reference decoder --------------------------------------------------------------------

  function ChatAction<T>(decode: string -> Result<T>): string -> Action<T> {
    line => match ParseSseDataLine(line)
      case SkipLine => Skip
      case Done => Stop
      case Json(body) => Emit(decode(body))
  }

  function ResponsesAction(decode: string -> Result<Event>): string -> Action<Event> {
    FramesAction(line => ParseResponsesFrame(decode, line))
  }

  /** The actions of a frame parser: `ParseResponsesFrame` with its JSON decoder fixed. */
  function FramesAction(parse: string -> ResponsesFrame): string -> Action<Event> {
    line => FrameAction(parse(line))
  }

  function FrameAction(frame: ResponsesFrame): Action<Event> {
    match frame
    case SkipFrame => Skip
    case Undecodable(e) => Emit(Err(e))
    case Failure(e) => EmitLast(Err(e))
    case Yield(ev) => if IsTerminal(ev) then EmitLast(Ok(ev)) else Emit(Ok(ev))
  }

  function NdjsonAction<T>(decode: string -> Result<T>): string -> Action<T> {
    line => if Trim(line) == "" then Skip else Emit(decode(Trim(line)))
  }

  /** What an unterminated last line contributes at the end of the body: it counts at a clean end if it
      is not empty; a transport error is an item of its own. */
  function AtEnd<T>(act: string -> Action<T>, tail: Bytes, end: Ending): seq<Result<T>> {
    if end.Failed? then [Err(end.error)]
    else if tail == [] then []
    else match act(Utf8.DecodeLossy(tail))
      case Emit(x) => [x]
      case EmitLast(x) => [x]
      case _ => []
  }

  /** A line's contribution, given what the lines after it contribute. */
  function Then<T>(a: Action<T>, later: seq<Result<T>>): seq<Result<T>> {
    match a
    case Skip => later
    case Stop => []
    case Emit(x) => [x] + later
    case EmitLast(x) => [x]
  }

  /** Interpret complete lines in order, up to the first that stops the stream. */
  function Interpret<T>(act: string -> Action<T>, lines: seq<Bytes>, atEnd: seq<Result<T>>): seq<Result<T>> {
    if lines == [] then atEnd
    else Then(act(Utf8.DecodeLossy(lines[0])), Interpret(act, lines[1..], atEnd))
  }

  /** The items of a whole body, however it arrives. */
  function Items<T>(act: string -> Action<T>, bytes: Bytes, end: Ending): seq<Result<T>> {
    var body := Split(bytes, LF);
    Interpret(act, body.lines, AtEnd(act, body.tail, end))
  }

  // ---- The transport ----------------------------------------------------------------------------

  /** What polling the transport can give; an exhausted transport gives a clean end. */
  datatype Arrival = NotReady | Chunk(bytes: Bytes) | Fault(error: Error)

  /** All bytes that will arrive before the body ends. */
  function Arriving(source: seq<Arrival>): Bytes {
    if source == [] || source[0].Fault? then []
    else if source[0].Chunk? then source[0].bytes + Arriving(source[1..])
    else Arriving(source[1..])
  }

  function Closing(source: seq<Arrival>): Ending {
    if source == [] then Eof
    else if source[0].Fault? then Failed(source[0].error)
    else Closing(source[1..])
  }

  datatype Poll<+T> = Pending | Ready(item: Option<Result<T>>)

  // ---- The decoder ------------------------------------------------------------------------------

  /** The items still to come from a decoder with this buffer, transport and end flag. */
  function Upcoming<T>(act: string -> Action<T>, buf: Bytes, source: seq<Arrival>, done: bool): seq<Result<T>> {
    if done then [] else Items(act, buf + Arriving(source), Closing(source))
  }

  /** Taking a line off the buffer takes the first line off everything that is to come. */
  lemma LineTaken<T>(act: string -> Action<T>, raw: Bytes, rest: Bytes, source: seq<Arrival>)
    requires LF !in raw
    ensures Upcoming(act, raw + [LF] + rest, source, false)
            == Then(act(Utf8.DecodeLossy(raw)), Upcoming(act, rest, source, false))
  {
    Assoc(raw + [LF], rest, Arriving(source));
    FirstItem(act, raw, rest + Arriving(source), Closing(source));
  }

  /** The first line of a body decides first. */
  lemma FirstItem<T>(act: string -> Action<T>, raw: Bytes, rest: Bytes, end: Ending)
    requires LF !in raw
    ensures Items(act, raw + [LF] + rest, end) == Then(act(Utf8.DecodeLossy(raw)), Items(act, rest, end))
  {
    SplitStep(raw, rest, LF);
    InterpretHead(act, raw, Split(rest, LF).lines, AtEnd(act, Split(rest, LF).tail, end));
  }

  lemma InterpretHead<T>(act: string -> Action<T>, raw: Bytes, lines: seq<Bytes>, atEnd: seq<Result<T>>)
    ensures Interpret(act, [raw] + lines, atEnd)
            == Then(act(Utf8.DecodeLossy(raw)), Interpret(act, lines, atEnd))
  {
    assert ([raw] + lines)[1..] == lines;
  }

  /** With no line in the buffer, only the transport can move the decoder on. */
  lemma Arrived<T>(act: string -> Action<T>, buf: Bytes, source: seq<Arrival>)
    requires LF !in buf
    ensures Upcoming(act, buf, source, false)
            == if source == [] then AtEnd(act, buf, Eof)
               else match source[0]
                 case NotReady => Upcoming(act, buf, source[1..], false)
                 case Chunk(chunk) => Upcoming(act, buf + chunk, source[1..], false)
                 case Fault(e) => [Err(e)]
  {
    if source == [] || source[0].Fault? {
      assert buf + Arriving(source) == buf;
      assert Split(buf, LF) == Pieces([], buf);
    } else if source[0].Chunk? {
      assert buf + Arriving(source) == (buf + source[0].bytes) + Arriving(source[1..]);
    }
  }

  /** The stream goes on after an item that some line is read as. */
  ghost predicate GoesOn<T>(act: string -> Action<T>, x: Result<T>) { exists line :: act(line) == Emit(x) }

  class LineStream {
    var buf: Bytes
    var source: seq<Arrival>
    var done: bool

    constructor (source: seq<Arrival>)
      ensures buf == [] && this.source == source && !done
    {
      buf, this.source, done := [], source, false;
    }

    /** The first line of the buffer, if it holds a whole one. Taking it leaves what the lines after it give. */
    method TakeLine<T>(ghost act: string -> Action<T>) returns (line: Option<string>)
      requires !done
      modifies `buf
      ensures line.None? ==> LF !in buf && buf == old(buf)
      ensures line.Some? ==>
                |buf| < |old(buf)|
                && old(Upcoming(act, buf, source, done)) == Then(act(line.value), Upcoming(act, buf, source, done))
    {
      var pos := IndexOf(buf, LF);
      if pos.None? { return None; }
      var cut := buf[..pos.value];
      assert buf == cut + [LF] + buf[pos.value + 1..];
      LineTaken(act, cut, buf[pos.value + 1..], source);
      buf := buf[pos.value + 1..];
      return Some(Utf8.DecodeLossy(cut));
    }

    /** Polling the transport, when the buffer holds no line; an exhausted transport has nothing. */
    method PollTransport<T>(ghost act: string -> Action<T>) returns (arrival: Option<Arrival>)
      requires !done && LF !in buf
      modifies `source
      ensures arrival.None? ==> source == old(source)
      ensures arrival.Some? ==> |source| < |old(source)|
      ensures old(Upcoming(act, buf, source, done))
              == if arrival.None? then AtEnd(act, buf, Eof)
                 else match arrival.value
                   case NotReady => Upcoming(act, buf, source, done)
                   case Chunk(chunk) => Upcoming(act, buf + chunk, source, done)
                   case Fault(e) => [Err(e)]
    {
      Arrived(act, buf, source);
      if source == [] { return None; }
      arrival := Some(source[0]);
      source := source[1..];
    }

    method TakeRemaining() returns (line: Option<string>)
      modifies `buf
      ensures buf == []
      ensures line == if old(buf) == [] then None else Some(Utf8.DecodeLossy(old(buf)))
    {
      if buf == [] { return None; }
      line := Some(Utf8.DecodeLossy(buf));
      buf := [];
    }

    /** The contract of one poll. An item is the next upcoming one, and unless some line was read as an item
        to go on from, the stream has ended with it; waiting means no whole line is buffered; an end means no
        item was left. A stream that has ended is not polled any further. */
    ghost predicate Delivered<T>(act: string -> Action<T>, p: Poll<T>, before: seq<Result<T>>,
                                 sourceBefore: nat, doneBefore: bool)
      reads this
    {
      var after := Upcoming(act, buf, source, done);
      && |source| <= sourceBefore
      && (doneBefore ==> p == Ready(None) && done)
      && (p.Pending? ==> after == before && |source| < sourceBefore && !done && LF !in buf)
      && (p.Ready? && p.item.Some? ==> before == [p.item.value] + after && (done || GoesOn(act, p.item.value)))
      && (p.Ready? && p.item.None? ==> before == [] && done)
    }

    /** Poll the transport and act on what arrives: wait, extend the buffer, or fail. */
    method Pull<T>(ghost act: string -> Action<T>) returns (ended: bool, p: Option<Poll<T>>)
      requires !done && LF !in buf
      modifies this
      ensures ended ==> !done && source == old(source) && old(Upcoming(act, buf, source, done)) == AtEnd(act, buf, Eof)
      ensures !ended && p.None? ==>
                && !done && |source| < old(|source|)
                && Upcoming(act, buf, source, done) == old(Upcoming(act, buf, source, done))
      ensures !ended && p.Some? ==>
                Delivered(act, p.value, old(Upcoming(act, buf, source, done)), old(|source|), false)
      ensures p.Some? && p.value.Ready? ==> done && p.value.item.Some? && p.value.item.value.Err?
    {
      var arrival := PollTransport(act);
      if arrival.None? { return true, None; }
      match arrival.value {
        case NotReady => return false, Some(Pending);
        case Chunk(chunk) =>
          buf := buf + chunk;
          return false, None;
        case Fault(e) =>
          done := true;
          return false, Some(Ready(Some(Err(e))));
      }
    }

    /** The chat stream's `poll_next`. */
    method PollChat<T>(decode: string -> Result<T>) returns (p: Poll<T>)
      modifies this
      ensures Delivered(ChatAction(decode), p, old(Upcoming(ChatAction(decode), buf, source, done)),
                        old(|source|), old(done))
    {
      ghost var act := ChatAction(decode);
      while true
        invariant |source| <= |old(source)|
        invariant done == old(done)
        invariant Upcoming(act, buf, source, done) == old(Upcoming(act, buf, source, done))
        decreases |source|, |buf|
      {
        if done { return Ready(None); }
        var line := TakeLine(act);
        if line.Some? {
          var read := ReadLine(decode, line.value);
          if read.None? { continue; }
          return read.value;
        }
        var ended, poll := Pull(act);
        if ended {
          var last := FlushChat(decode);
          return Ready(last);
        }
        if poll.Some? { return poll.value; }
      }
    }

    /** One line of a chat body; nothing is returned for a line that is skipped. */
    method ReadLine<T>(decode: string -> Result<T>, line: string) returns (p: Option<Poll<T>>)
      modifies `done
      ensures match ChatAction(decode)(line)
              case Skip => p == None && done == old(done)
              case Stop => p == Some(Ready(None)) && done
              case Emit(x) => p == Some(Ready(Some(x))) && done == old(done)
              case EmitLast(_) => false
    {
      match ParseSseDataLine(line) {
        case Done =>
          done := true;
          return Some(Ready(None));
        case SkipLine => return None;
        case Json(json) => return Some(Ready(Some(decode(json))));
      }
    }

    /** The end of a chat body: a trailing line with no line feed may still be a chunk. */
    method FlushChat<T>(decode: string -> Result<T>) returns (last: Option<Result<T>>)
      modifies `buf, `done
      ensures done
      ensures AtEnd(ChatAction(decode), old(buf), Eof) == if last.Some? then [last.value] else []
    {
      done := true;
      var rest := TakeRemaining();
      if rest.None? { return None; }
      match ParseSseDataLine(rest.value) {
        case Done => return None;
        case SkipLine => return None;
        case Json(json) => return Some(decode(json));
      }
    }

    /** The Responses stream's `poll_next`. */
    method PollResponses(parse: string -> ResponsesFrame) returns (p: Poll<Event>)
      modifies this
      ensures Delivered(FramesAction(parse), p, old(Upcoming(FramesAction(parse), buf, source, done)),
                        old(|source|), old(done))
      ensures p.Ready? && p.item.Some? && p.item.value.Ok? && IsTerminal(p.item.value.value) ==> done
    {
      ghost var act := FramesAction(parse);
      while true
        invariant |source| <= |old(source)|
        invariant done == old(done)
        invariant Upcoming(act, buf, source, done) == old(Upcoming(act, buf, source, done))
        decreases |source|, |buf|
      {
        if done { return Ready(None); }
        var line := TakeLine(act);
        if line.Some? {
          var item := ReadFrame(parse, line.value);
          if item.None? { continue; }
          return Ready(item);
        }
        var ended, poll := Pull(act);
        if ended {
          var last := FlushResponses(parse);
          return Ready(last);
        }
        if poll.Some? { return poll.value; }
      }
    }

    /** One line of a Responses body; nothing is returned for a frame that is skipped. */
    method ReadFrame(parse: string -> ResponsesFrame, line: string) returns (item: Option<Result<Event>>)
      requires !done
      modifies `done
      ensures FramesAction(parse)(line)
              == if item.None? then Skip else if done then EmitLast(item.value) else Emit(item.value)
      ensures item.None? ==> !done
      ensures item.Some? && item.value.Ok? && IsTerminal(item.value.value) ==> done
      ensures parse(line).Failure? ==> done && item == Some(Err(parse(line).error))
    {
      var frame := parse(line);
      if frame.SkipFrame? { return None; }
      var x := Surface(frame);
      item := Some(x);
    }

    /** Yield a frame that is not skipped. Terminal events and `error` events end the stream. */
    method Surface(frame: ResponsesFrame) returns (item: Result<Event>)
      requires !frame.SkipFrame? && !done
      modifies `done
      ensures FrameAction(frame) == if done then EmitLast(item) else Emit(item)
    {
      match frame {
        case Undecodable(e) => return Err(e);
        case Failure(e) =>
          done := true;
          return Err(e);
        case Yield(ev) =>
          if IsTerminal(ev) { done := true; }
          return Ok(ev);
      }
    }

    /** The end of a Responses body: a trailing frame with no line feed may still be an event. */
    method FlushResponses(parse: string -> ResponsesFrame) returns (last: Option<Result<Event>>)
      modifies `buf, `done
      ensures done
      ensures AtEnd(FramesAction(parse), old(buf), Eof) == if last.Some? then [last.value] else []
    {
      done := true;
      var rest := TakeRemaining();
      if rest.None? { return None; }
      match parse(rest.value) {
        case Yield(ev) => return Some(Ok(ev));
        case Failure(e) => return Some(Err(e));
        case Undecodable(e) => return Some(Err(e));
        case SkipFrame => return None;
      }
    }

    /** The NDJSON stream's `poll_next`. */
    method PollNdjson<T>(decode: string -> Result<T>) returns (p: Poll<T>)
      modifies this
      ensures Delivered(NdjsonAction(decode), p, old(Upcoming(NdjsonAction(decode), buf, source, done)),
                        old(|source|), old(done))
    {
      ghost var act := NdjsonAction(decode);
      while true
        invariant |source| <= |old(source)|
        invariant done == old(done)
        invariant Upcoming(act, buf, source, done) == old(Upcoming(act, buf, source, done))
        decreases |source|, |buf|
      {
        if done { return Ready(None); }
        var line := TakeLine(act);
        if line.Some? {
          var trimmed := Trim(line.value);
          if trimmed == "" { continue; }
          return Ready(Some(decode(trimmed)));
        }
        var ended, poll := Pull(act);
        if ended {
          var last := FlushNdjson(decode);
          return Ready(last);
        }
        if poll.Some? { return poll.value; }
      }
    }

    /** The end of an NDJSON body: a trailing object with no line feed still counts. */
    method FlushNdjson<T>(decode: string -> Result<T>) returns (last: Option<Result<T>>)
      modifies `buf, `done
      ensures done
      ensures AtEnd(NdjsonAction(decode), old(buf), Eof) == if last.Some? then [last.value] else []
    {
      done := true;
      var rest := TakeRemaining();
      if rest.None? { return None; }
      var trimmed := Trim(rest.value);
      return if trimmed == "" then None else Some(decode(trimmed));
    }
  }

  /** Draining the chat stream gives the items of the concatenated bytes, for every cutting into chunks
      and every spurious wake-up. */
  method CollectChat<T>(source: seq<Arrival>, decode: string -> Result<T>) returns (items: seq<Result<T>>)
    ensures items == Items(ChatAction(decode), Arriving(source), Closing(source))
  {
    ghost var act := ChatAction(decode);
    var stream := new LineStream(source);
    items := [];
    assert [] + Arriving(source) == Arriving(source);
    ghost var all := Items(act, Arriving(source), Closing(source));
    ghost var left := all;
    assert [] + left == all;
    while true
      invariant left == Upcoming(act, stream.buf, stream.source, stream.done) && items + left == all
      decreases |left|, |stream.source|
    {
      var p := stream.PollChat(decode);
      if p.Ready? {
        if p.item.None? { break; }
        Assoc(items, [p.item.value], Upcoming(act, stream.buf, stream.source, stream.done));
        items := items + [p.item.value];
      }
      left := Upcoming(act, stream.buf, stream.source, stream.done);
    }
  }

  /** The same for the Responses stream. */
  method CollectResponses(source: seq<Arrival>, parse: string -> ResponsesFrame) returns (items: seq<Result<Event>>)
    ensures items == Items(FramesAction(parse), Arriving(source), Closing(source))
  {
    ghost var act := FramesAction(parse);
    var stream := new LineStream(source);
    items := [];
    assert [] + Arriving(source) == Arriving(source);
    ghost var all := Items(act, Arriving(source), Closing(source));
    ghost var left := all;
    assert [] + left == all;
    while true
      invariant left == Upcoming(act, stream.buf, stream.source, stream.done) && items + left == all
      decreases |left|, |stream.source|
    {
      var p := stream.PollResponses(parse);
      if p.Ready? {
        if p.item.None? { break; }
        Assoc(items, [p.item.value], Upcoming(act, stream.buf, stream.source, stream.done));
        items := items + [p.item.value];
      }
      left := Upcoming(act, stream.buf, stream.source, stream.done);
    }
  }

  /** The same for the NDJSON stream. */
  method CollectNdjson<T>(source: seq<Arrival>, decode: string -> Result<T>) returns (items: seq<Result<T>>)
    ensures items == Items(NdjsonAction(decode), Arriving(source), Closing(source))
  {
    ghost var act := NdjsonAction(decode);
    var stream := new LineStream(source);
    items := [];
    assert [] + Arriving(source) == Arriving(source);
    ghost var all := Items(act, Arriving(source), Closing(source));
    ghost var left := all;
    assert [] + left == all;
    while true
      invariant left == Upcoming(act, stream.buf, stream.source, stream.done) && items + left == all
      decreases |left|, |stream.source|
    {
      var p := stream.PollNdjson(decode);
      if p.Ready? {
        if p.item.None? { break; }
        Assoc(items, [p.item.value], Upcoming(act, stream.buf, stream.source, stream.done));
        items := items + [p.item.value];
      }
      left := Upcoming(act, stream.buf, stream.source, stream.done);
    }
  }

  // ---- Safety of a Responses run ----------------------------------------------------------------

  /** The items after which nothing may follow. */
  predicate Final(x: Result<Event>) {
    match x
    case Ok(ev) => IsTerminal(ev)
    case Err(e) => e.Api? || e.Transport?
  }

  /** JSON decoding fails only with a decode error. */
  ghost predicate DecodesOrRejects(decode: string -> Result<Event>) {
    forall body :: decode(body).Err? ==> decode(body).error.Decode?
  }

  ghost predicate LastIsFinal(items: seq<Result<Event>>) {
    forall k :: 0 <= k < |items| - 1 ==> !Final(items[k])
  }

  /** At most one terminal event, `error` event or transport failure, and only as the last item. */
  lemma ResponsesRunSafe(decode: string -> Result<Event>, bytes: Bytes, end: Ending)
    requires DecodesOrRejects(decode)
    ensures LastIsFinal(Items(ResponsesAction(decode), bytes, end))
  {
    var act := ResponsesAction(decode);
    forall line | act(line).Emit? ensures !Final(act(line).item) {
      EmittedIsNotFinal(decode, line);
    }
    InterpretSafe(act, Split(bytes, LF).lines, AtEnd(act, Split(bytes, LF).tail, end));
  }

  lemma EmittedIsNotFinal(decode: string -> Result<Event>, line: string)
    requires DecodesOrRejects(decode)
    requires FrameAction(ParseResponsesFrame(decode, line)).Emit?
    ensures !Final(FrameAction(ParseResponsesFrame(decode, line)).item)
  {
  }

  lemma {:induction false} InterpretSafe(act: string -> Action<Event>, lines: seq<Bytes>, atEnd: seq<Result<Event>>)
    requires forall line :: act(line).Emit? ==> !Final(act(line).item)
    requires |atEnd| <= 1
    ensures LastIsFinal(Interpret(act, lines, atEnd))
    decreases |lines|
  {
    if lines != [] {
      InterpretSafe(act, lines[1..], atEnd);
      var line := Utf8.DecodeLossy(lines[0]);
      assert act(line).Emit? ==> !Final(act(line).item);
    }
  }

  /** The frame parser with its JSON decoder fixed. */
  function FrameParser(decode: string -> Result<Event>): string -> ResponsesFrame {
    line => ParseResponsesFrame(decode, line)
  }

  /** The stream does not go on after a terminal event, an `error` event or a transport failure. */
  lemma FinalDoesNotGoOn(decode: string -> Result<Event>, x: Result<Event>)
    requires DecodesOrRejects(decode) && GoesOn(FramesAction(FrameParser(decode)), x)
    ensures !Final(x)
  {
    var line :| FramesAction(FrameParser(decode))(line) == Emit(x);
    EmittedIsNotFinal(decode, line);
  }

  /** After this poll every other one finds the end. */
  predicate Last(p: Poll<Event>) { p.Ready? && (p.item.None? || Final(p.item.value)) }

  /** One poll of a stream: a final item or the end sets the end flag, and with the flag set there is only the end. */
  method PollOnce(stream: LineStream, decode: string -> Result<Event>) returns (p: Poll<Event>)
    requires DecodesOrRejects(decode)
    modifies stream
    ensures old(stream.done) ==> p == Ready(None) && stream.done
    ensures Last(p) ==> stream.done
  {
    p := stream.PollResponses(FrameParser(decode));
    if p.Ready? && p.item.Some? && !stream.done { FinalDoesNotGoOn(decode, p.item.value); }
  }

  /** Any number of polls of one stream: once a final item or the end was polled, every later poll is the end. */
  method PollTimes(source: seq<Arrival>, decode: string -> Result<Event>, n: nat) returns (polls: seq<Poll<Event>>)
    requires DecodesOrRejects(decode)
    ensures |polls| == n
    ensures forall i, j :: 0 <= i < j < n && Last(polls[i]) ==> polls[j] == Ready(None)
  {
    var stream := new LineStream(source);
    polls := [];
    for k := 0 to n
      invariant |polls| == k
      invariant forall i :: 0 <= i < k && Last(polls[i]) ==> stream.done
      invariant forall i, j :: 0 <= i < j < k && Last(polls[i]) ==> polls[j] == Ready(None)
    {
      var p := PollOnce(stream, decode);
      polls := polls + [p];
    }
  }
}
