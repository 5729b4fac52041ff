/** The Go client's stream iterators: a line scanner over the response body, and event loops over it. */
module GoStream {
  import opened Common

  // ---- bufio.Scanner ----------------------------------------------------------------------------

  /** The scanner's token limit: 1 MiB. */
  const MAX: nat := 0x10_0000

  /** The tokens a scanner will give, and the error its `Err` reports after the last one. */
  datatype Scanned = Scanned(lines: seq<Bytes>, err: Option<Error>)

  function DropCr(line: Bytes): Bytes {
    if line != [] && line[|line| - 1] == CR then line[..|line| - 1] else line
  }

  /** The lines of a whole body. A stretch of `MAX` bytes without a line feed stops the scanner; a
      transport error is reported after what was read before it. `together` tells whether the last read brought
      bytes and the end of the body at once: then a last line of exactly `MAX` bytes is still a token. */
  function ScanLines(bytes: Bytes, end: Ending, together: bool := false): Scanned
    decreases |bytes|
  {
    match IndexOf(bytes, LF)
    case Some(i) =>
      if i >= MAX then Scanned([], Some(TokenTooLong))
      else
        var rest := ScanLines(bytes[i + 1..], end, together);
        Scanned([DropCr(bytes[..i])] + rest.lines, rest.err)
    case None =>
      if |bytes| > MAX || (|bytes| == MAX && !together) then Scanned([], Some(TokenTooLong))
      else Scanned(if bytes == [] then [] else [DropCr(bytes)], if end.Failed? then Some(end.error) else None)
  }

  lemma ScanNext(all: Bytes, i: nat, rest: Scanned, end: Ending, together: bool)
    requires IndexOf(all, LF) == Some(i) && rest == ScanLines(all[i + 1..], end, together)
    ensures ScanLines(all, end, together)
            == if i >= MAX then Scanned([], Some(TokenTooLong))
               else Scanned([DropCr(all[..i])] + rest.lines, rest.err)
  {
  }

  /** The last line is unterminated and of exactly the limit, and the scanner gets as far as that. */
  predicate EndsAtLimit(bytes: Bytes) {
    var p := Split(bytes, LF);
    |p.tail| == MAX && forall line :: line in p.lines ==> |line| < MAX
  }

  /** How the end arrives matters only to an unterminated last line of exactly the limit. */
  lemma {:induction false} TogetherMatters(bytes: Bytes, end: Ending)
    ensures ScanLines(bytes, end, true) == ScanLines(bytes, end, false) <==> !EndsAtLimit(bytes)
    decreases |bytes|
  {
    if LF in bytes {
      var line, rest := Cut(bytes, LF);
      TogetherMatters(rest, end);
      EndsStep(bytes, line, rest);
      BothNext(bytes, line, rest, end);
    }
  }

  lemma EndsStep(bytes: Bytes, line: Bytes, rest: Bytes)
    requires Split(bytes, LF).lines == [line] + Split(rest, LF).lines && Split(bytes, LF).tail == Split(rest, LF).tail
    ensures EndsAtLimit(bytes) <==> |line| < MAX && EndsAtLimit(rest)
  {
    var all := Split(bytes, LF).lines;
    assert line in all && forall l :: l in Split(rest, LF).lines ==> l in all;
  }

  lemma BothNext(bytes: Bytes, line: Bytes, rest: Bytes, end: Ending)
    requires LF !in line && bytes == line + [LF] + rest
    ensures ScanLines(bytes, end, true) == ScanLines(bytes, end, false)
            <==> |line| >= MAX || ScanLines(rest, end, true) == ScanLines(rest, end, false)
  {
    var i, a, b := |line|, ScanLines(rest, end, true), ScanLines(rest, end, false);
    assert bytes[i + 1..] == rest && bytes[..i] == line;
    IndexOfIs(bytes, LF, i);
    ScanNext(bytes, i, a, end, true);
    ScanNext(bytes, i, b, end, false);
    SameFirst(DropCr(line), a, b);
  }

  lemma SameFirst(first: Bytes, a: Scanned, b: Scanned)
    ensures Scanned([first] + a.lines, a.err) == Scanned([first] + b.lines, b.err) <==> a == b
  {
    assert ([first] + a.lines)[1..] == a.lines && ([first] + b.lines)[1..] == b.lines;
  }

  /** An end can come together with bytes only if there are some. */
  predicate EndsInBytes(chunks: seq<Bytes>) { chunks != [] && chunks[|chunks| - 1] != [] }

  lemma {:induction false} SomeBytes(chunks: seq<Bytes>)
    requires EndsInBytes(chunks)
    ensures Concat(chunks) != []
    decreases |chunks|
  {
    if |chunks| > 1 { SomeBytes(chunks[1..]); }
  }

  class Scanner {
    var chunks: seq<Bytes>
    const end: Ending
    const together: bool
    var buf: Bytes
    var atEnd: bool
    var err: Option<Error>
    var token: Bytes

    constructor (chunks: seq<Bytes>, end: Ending, together: bool)
      ensures Valid() && err == None
      ensures Rest() == ScanLines(Concat(chunks), end, together && EndsInBytes(chunks))
    {
      this.chunks, this.end, this.together := chunks, end, together && EndsInBytes(chunks);
      buf, atEnd, err, token := [], false, None, [];
      new;
      assert [] + Concat(chunks) == Concat(chunks);
    }

    ghost predicate Valid()
      reads this
    {
      && |buf| <= MAX
      && (atEnd ==> chunks == [] && (|buf| < MAX || together))
      && (together && !atEnd ==> EndsInBytes(chunks))
      && err == (if atEnd && end.Failed? then Some(end.error) else None)
    }

    ghost function Rest(): Scanned
      reads this
    {
      ScanLines(buf + Concat(chunks), end, together)
    }

    method Scan() returns (ok: bool)
      requires Valid()
      modifies this
      ensures ok ==> Valid() && old(Rest()) == Scanned([token] + Rest().lines, Rest().err)
      ensures !ok ==> old(Rest()) == Scanned([], err)
      ensures !ok && err == None ==> Valid() && Rest() == old(Rest())
    {
      while true
        invariant Valid() && Rest() == old(Rest())
        decreases |Concat(chunks)| + |chunks|, !atEnd
      {
        var nl := IndexOf(buf, LF);
        if nl.Some? {
          TakeLine(nl.value);
          return true;
        }
        if atEnd {
          ok := TakeRest();
          return ok;
        }
        if |buf| >= MAX {
          if together { SomeBytes(chunks); }
          Overflows(buf, Concat(chunks), end, together);
          err := Some(TokenTooLong);
          return false;
        }
        Read();
      }
    }

    method TakeLine(i: nat)
      requires Valid() && IndexOf(buf, LF) == Some(i)
      modifies `buf, `token
      ensures Valid() && old(Rest()) == Scanned([token] + Rest().lines, Rest().err)
    {
      Tokenized(buf, i, Concat(chunks), end, together);
      token := DropCr(buf[..i]);
      buf := buf[i + 1..];
    }

    /** The unterminated last line, if there is one. */
    method TakeRest() returns (ok: bool)
      requires Valid() && atEnd && LF !in buf
      modifies `buf, `token
      ensures Valid()
      ensures if ok then old(Rest()) == Scanned([token] + Rest().lines, Rest().err)
              else Rest() == old(Rest()) == Scanned([], err)
    {
      assert buf + [] == buf && [] + Concat(chunks) == [];
      if buf == [] { return false; }
      token := DropCr(buf);
      buf := [];
      return true;
    }

    /** One read into the free part of the buffer; the last may bring the end along. */
    method Read()
      requires Valid() && !atEnd && |buf| < MAX
      modifies `buf, `chunks, `atEnd, `err
      ensures Valid() && Rest() == old(Rest())
      ensures |Concat(chunks)| + |chunks| < old(|Concat(chunks)| + |chunks|) || (atEnd && chunks == old(chunks))
    {
      var isEnd := chunks == [];
      if !isEnd {
        var n := if |chunks[0]| <= MAX - |buf| then |chunks[0]| else MAX - |buf|;
        ReadMore(buf, chunks, n);
        buf := buf + chunks[0][..n];
        chunks := if n == |chunks[0]| then chunks[1..] else chunks[0 := chunks[0][n..]];
        isEnd := together && chunks == [];
      }
      if isEnd {
        atEnd := true;
        if end.Failed? { err := Some(end.error); }
      }
    }
  }

  /** A line feed in the buffer ends the first line of everything to come. */
  lemma Tokenized(buf: Bytes, i: nat, later: Bytes, end: Ending, together: bool)
    requires IndexOf(buf, LF) == Some(i) && |buf| <= MAX
    ensures var rest := ScanLines(buf[i + 1..] + later, end, together);
            ScanLines(buf + later, end, together) == Scanned([DropCr(buf[..i])] + rest.lines, rest.err)
  {
    InBuffer(buf, later, i);
    ScanNext(buf + later, i, ScanLines(buf[i + 1..] + later, end, together), end, together);
  }

  lemma InBuffer(buf: Bytes, later: Bytes, i: nat)
    requires IndexOf(buf, LF) == Some(i)
    ensures var all := buf + later;
            IndexOf(all, LF) == Some(i) && all[..i] == buf[..i] && all[i + 1..] == buf[i + 1..] + later
  {
    var all := buf + later;
    assert all[..i] == buf[..i];
    IndexOfIs(all, LF, i);
  }

  /** A full buffer without a line feed is the start of a line that is too long, unless the end came with it. */
  lemma Overflows(buf: Bytes, later: Bytes, end: Ending, together: bool)
    requires LF !in buf && |buf| >= MAX && (together ==> later != [])
    ensures ScanLines(buf + later, end, together) == Scanned([], Some(TokenTooLong))
  {
    var all, nl := buf + later, IndexOf(buf + later, LF);
    assert forall k :: 0 <= k < |buf| ==> all[k] == buf[k];
  }

  /** Moving bytes from the body into the buffer loses none. */
  lemma ReadMore(buf: Bytes, chunks: seq<Bytes>, n: nat)
    requires chunks != [] && n <= |chunks[0]|
    ensures var after := if n == |chunks[0]| then chunks[1..] else chunks[0 := chunks[0][n..]];
            && buf + chunks[0][..n] + Concat(after) == buf + Concat(chunks)
            && |Concat(chunks)| == n + |Concat(after)|
  {
    var head, tail := chunks[0], Concat(chunks[1..]);
    Assoc(buf, head[..n], if n == |head| then tail else head[n..] + tail);
    if n == |head| {
      assert head[..n] == head;
    } else {
      assert chunks[0 := head[n..]][1..] == chunks[1..];
      Assoc(head[..n], head[n..], tail);
      assert head[..n] + head[n..] == head;
    }
  }

  // ---- Event loops ------------------------------------------------------------------------------

  const DATA: Bytes := [100, 97, 116, 97]
  const DONE: Bytes := [91, 68, 79, 78, 69, 93]
  const COLON: Byte := 58
  const SPACE: Byte := 32

  /** What `Recv` can fail with: `io.EOF`, or a failure. */
  datatype Stop = EndOfStream | Failure(error: Error)

  datatype Received<+T> = Got(value: T) | Stopped(stop: Stop)

  /** Everything `Recv` will return: values, then one error for ever. */
  datatype Run<+T> = Run(values: seq<T>, stop: Stop)

  function TrimNewlines(data: Bytes): Bytes {
    if data != [] && data[|data| - 1] == LF then TrimNewlines(data[..|data| - 1]) else data
  }

  /** `strings.Cut` at the first colon, one leading space dropped from the value. */
  function FieldOf(line: Bytes): (Bytes, Bytes) {
    match IndexOf(line, COLON)
    case None => (line, [])
    case Some(i) =>
      var value := line[i + 1..];
      (line[..i], if value != [] && value[0] == SPACE then value[1..] else value)
  }

  /** What a non-blank line does to the event being collected. */
  datatype LineEffect = Ignore | Data(value: Bytes)

  function Effect(line: Bytes): LineEffect
    requires line != []
  {
    if line[0] == COLON then Ignore
    else if FieldOf(line).0 == DATA then Data(FieldOf(line).1)
    else Ignore
  }

  /** One decoded payload: an error ends the stream, a skipped event is dropped, a value may be the last. */
  datatype Decoded<+T> = Bad(error: Error) | Skipped | Value(value: T, last: bool)

  /** The end of the body, with `data` collected of an event that no blank line closed. */
  function AtEnd<T>(decode: Bytes -> Decoded<T>, sentinel: bool, data: Option<Bytes>, err: Option<Error>): Run<T> {
    if err.Some? then Run([], Failure(err.value))
    else if data.None? then Run([], EndOfStream)
    else Flush(decode, sentinel, TrimNewlines(data.value))
  }

  function Flush<T>(decode: Bytes -> Decoded<T>, sentinel: bool, payload: Bytes): Run<T> {
    if payload == [] || (sentinel && payload == DONE) then Run([], EndOfStream)
    else match decode(payload)
      case Bad(e) => Run([], Failure(e))
      case Skipped => Run([], EndOfStream)
      case Value(v, last) => Run([v], EndOfStream)
  }

  /** A blank line closes an event; `later` is what comes after it. */
  function Dispatch<T>(decode: Bytes -> Decoded<T>, sentinel: bool, payload: Bytes, later: Run<T>): Run<T> {
    if sentinel && payload == DONE then Run([], EndOfStream)
    else match decode(payload)
      case Bad(e) => Run([], Failure(e))
      case Skipped => later
      case Value(v, last) => if last then Run([v], EndOfStream) else Run([v] + later.values, later.stop)
  }

  /** All that a `Recv` loop returns over scanned lines. `sentinel` tells whether `[DONE]` ends the
      stream, as it does for chat; `data` is the event collected so far. */
  function Receive<T>(decode: Bytes -> Decoded<T>, sentinel: bool, data: Option<Bytes>, s: Scanned): Run<T>
    decreases |s.lines|
  {
    if s.lines == [] then AtEnd(decode, sentinel, data, s.err)
    else
      var line, rest := s.lines[0], Scanned(s.lines[1..], s.err);
      if line == [] then
        if data.None? then Receive(decode, sentinel, None, rest)
        else Dispatch(decode, sentinel, TrimNewlines(data.value), Receive(decode, sentinel, None, rest))
      else match Effect(line)
        case Ignore => Receive(decode, sentinel, data, rest)
        case Data(value) =>
          if sentinel && value == DONE && data.None? then Run([], EndOfStream)
          else Receive(decode, sentinel, Some(Append(data, value)), rest)
  }

  function Append(data: Option<Bytes>, value: Bytes): Bytes {
    (if data.Some? then data.value else []) + value + [LF]
  }

  /** The loop's `data` buffer and `haveData` flag. */
  function Collected(data: Bytes, haveData: bool): Option<Bytes> {
    if haveData then Some(data) else None
  }

  /** What the loop has still to return, `more` telling whether `line` was scanned before `rest`. */
  function Looping<T>(decode: Bytes -> Decoded<T>, sentinel: bool, data: Option<Bytes>,
                      more: bool, line: Bytes, rest: Scanned, err: Option<Error>): Run<T>
  {
    if more then Receive(decode, sentinel, data, Scanned([line] + rest.lines, rest.err))
    else AtEnd(decode, sentinel, data, err)
  }

  lemma LineRead<T>(decode: Bytes -> Decoded<T>, sentinel: bool, data: Option<Bytes>, line: Bytes, rest: Scanned)
    ensures Receive(decode, sentinel, data, Scanned([line] + rest.lines, rest.err))
            == if line == [] then
                 if data.None? then Receive(decode, sentinel, None, rest)
                 else Dispatch(decode, sentinel, TrimNewlines(data.value), Receive(decode, sentinel, None, rest))
               else if Effect(line).Ignore? then Receive(decode, sentinel, data, rest)
               else if sentinel && Effect(line).value == DONE && data.None? then Run([], EndOfStream)
               else Receive(decode, sentinel, Some(Append(data, Effect(line).value)), rest)
  {
    assert ([line] + rest.lines)[1..] == rest.lines;
  }

  /** Everything still to be returned by an iterator whose event loop starts over at the scanner. */
  function Future<T>(decode: Bytes -> Decoded<T>, sentinel: bool, err: Option<Stop>, done: bool, s: Scanned): Run<T> {
    if err.Some? then Run([], err.value)
    else if done then Run([], EndOfStream)
    else Receive(decode, sentinel, None, s)
  }

  /** A value is the first of what was to come before and is followed by what comes after; an error stays. */
  ghost predicate Answers<T>(r: Received<T>, before: Run<T>, after: Run<T>) {
    match r
    case Got(v) => before == Run([v] + after.values, after.stop)
    case Stopped(e) => before == after == Run([], e)
  }

  /** A chat payload decodes to a value that is never the last, or fails. */
  function ChatDecoder<T>(unmarshal: Bytes -> Result<T>): Bytes -> Decoded<T> {
    payload => match unmarshal(payload)
      case Err(e) => Bad(e)
      case Ok(v) => Value(v, false)
  }

  class ChatStream {
    const scanner: Scanner
    var done: bool
    var err: Option<Stop>

    constructor (chunks: seq<Bytes>, end: Ending, together: bool)
      ensures fresh(scanner) && Valid() && !done && err == None
      ensures scanner.Rest() == ScanLines(Concat(chunks), end, together && EndsInBytes(chunks))
    {
      scanner := new Scanner(chunks, end, together);
      done, err := false, None;
    }

    ghost predicate Valid()
      reads this, scanner
    {
      && (err.Some? ==> done)
      && (!done ==> scanner.Valid())
    }

    ghost function Coming<T>(decode: Bytes -> Decoded<T>): Run<T>
      reads this, scanner
    {
      Future(decode, true, err, done, scanner.Rest())
    }

    /** The contract of one `Recv`: a value is the next one to come; an error is final. */
    ghost predicate Returned<T>(decode: Bytes -> Decoded<T>, r: Received<T>, before: Run<T>)
      reads this, scanner
    {
      match r
      case Got(v) => before == Run([v] + Coming(decode).values, Coming(decode).stop)
      case Stopped(e) => done && before == Run([], e) && Coming(decode) == Run([], e)
    }

    method Recv<T>(unmarshal: Bytes -> Result<T>) returns (r: Received<T>)
      requires Valid()
      modifies this, scanner
      ensures Valid() && Returned(ChatDecoder(unmarshal), r, old(Coming(ChatDecoder(unmarshal))))
    {
      ghost var decode := ChatDecoder(unmarshal);
      ghost var before := Coming(decode);
      if err.Some? { return Stopped(err.value); }
      if done { return Stopped(EndOfStream); }
      var data, haveData := [], false;
      var more := scanner.Scan();
      while more
        invariant !done && err == None && (!haveData ==> data == [])
        invariant more || scanner.err == None ==> scanner.Valid()
        invariant Looping(decode, true, Collected(data, haveData), more, scanner.token, scanner.Rest(), scanner.err)
                  == before
        invariant !more && scanner.err == None ==> scanner.Rest() == Scanned([], None)
        decreases if more then 1 + |scanner.Rest().lines| else 0
      {
        ghost var rest := scanner.Rest();
        var out;
        out, data, haveData := Consume(unmarshal, scanner.token, data, haveData, rest);
        if out.Some? { return out.value; }
        more := scanner.Scan();
      }
      r := Exhausted(unmarshal, data, haveData);
    }

    /** One line: a blank one closes the event collected so far, a `data` field adds to it. */
    method Consume<T>(unmarshal: Bytes -> Result<T>, line: Bytes, data: Bytes, haveData: bool, ghost rest: Scanned)
      returns (out: Option<Received<T>>, data': Bytes, haveData': bool)
      requires !done && err == None && (!haveData ==> data == [])
      modifies this
      ensures !haveData' ==> data' == []
      ensures var decode := ChatDecoder(unmarshal);
              var here := Receive(decode, true, Collected(data, haveData), Scanned([line] + rest.lines, rest.err));
              var later := Receive(decode, true, None, rest);
              && (out.None? ==>
                   !done && err == None && here == Receive(decode, true, Collected(data', haveData'), rest))
              && (out.Some? && out.value.Got? ==>
                   !done && err == None && here == Run([out.value.value] + later.values, later.stop))
              && (out.Some? && out.value.Stopped? ==>
                   done && err == Some(out.value.stop) && here == Run([], out.value.stop))
    {
      LineRead(ChatDecoder(unmarshal), true, Collected(data, haveData), line, rest);
      out, data', haveData' := None, data, haveData;
      if line == [] {
        if haveData {
          var r := Deliver(unmarshal, TrimNewlines(data));
          return Some(r), [], false;
        }
      } else if line[0] != COLON {
        var (field, value) := FieldOf(line);
        if field == DATA {
          if value == DONE && !haveData {
            Finish(EndOfStream);
            return Some(Stopped(EndOfStream)), [], false;
          }
          data', haveData' := data + value + [LF], true;
        }
      }
    }

    /** The scanner is exhausted: report its error, or flush an event that lacked its blank line. */
    method Exhausted<T>(unmarshal: Bytes -> Result<T>, data: Bytes, haveData: bool) returns (r: Received<T>)
      requires !done && err == None
      modifies this
      ensures err.Some? && done
      ensures AtEnd(ChatDecoder(unmarshal), true, Collected(data, haveData), scanner.err)
              == if r.Got? then Run([r.value], err.value) else Run([], err.value)
      ensures r.Stopped? ==> err == Some(r.stop)
    {
      if scanner.err.Some? {
        Finish(Failure(scanner.err.value));
        return Stopped(Failure(scanner.err.value));
      }
      if haveData {
        var payload := TrimNewlines(data);
        if payload != [] && payload != DONE {
          match unmarshal(payload) {
            case Err(e) =>
              Finish(Failure(e));
              return Stopped(Failure(e));
            case Ok(v) =>
              Finish(EndOfStream);
              return Got(v);
          }
        }
      }
      Finish(EndOfStream);
      r := Stopped(EndOfStream);
    }

    /** A closed event: the sentinel and an undecodable payload finish the stream. */
    method Deliver<T>(unmarshal: Bytes -> Result<T>, payload: Bytes) returns (r: Received<T>)
      requires !done && err == None
      modifies this
      ensures err.Some? == done == r.Stopped?
      ensures forall later ::
        (match r
         case Got(v) => Dispatch(ChatDecoder(unmarshal), true, payload, later) == Run([v] + later.values, later.stop)
         case Stopped(e) => err == Some(e) && Dispatch(ChatDecoder(unmarshal), true, payload, later) == Run([], e))
    {
      if payload == DONE {
        Finish(EndOfStream);
        return Stopped(EndOfStream);
      }
      match unmarshal(payload) {
        case Err(e) =>
          Finish(Failure(e));
          return Stopped(Failure(e));
        case Ok(v) => return Got(v);
      }
    }

    method Finish(stop: Stop)
      modifies this
      ensures done && err == if old(err) == None then Some(stop) else old(err)
    {
      done := true;
      if err == None { err := Some(stop); }
    }

    method Close()
      requires Valid()
      modifies this
      ensures Valid() && done && err == old(err)
    {
      done := true;
    }
  }

  // ---- Responses events -------------------------------------------------------------------------

  datatype WireEvent = WireEvent(kind: string, message: Option<string>)

  const KNOWN: set<string> := {
    "response.created", "response.in_progress", "response.completed", "response.incomplete", "response.failed",
    "response.output_item.added", "response.output_item.done",
    "response.content_part.added", "response.content_part.done",
    "response.output_text.delta", "response.output_text.done", "response.output_text.annotation.added",
    "response.refusal.delta", "response.refusal.done",
    "response.function_call_arguments.delta", "response.function_call_arguments.done",
    "response.reasoning_summary_part.added", "response.reasoning_summary_part.done",
    "response.reasoning_summary_text.delta", "response.reasoning_summary_text.done",
    "response.reasoning_text.delta", "response.reasoning_text.done"
  }

  const TERMINAL: set<string> := {"response.completed", "response.incomplete", "response.failed"}

  /** `decodeEvent`, its JSON decoder and its conversion fixed. */
  function DecodeEvent<T>(unmarshal: Bytes -> Result<WireEvent>, convert: WireEvent -> Result<T>): Bytes -> Decoded<T> {
    payload => match unmarshal(payload)
      case Err(e) => Bad(e)
      case Ok(we) =>
        if we.kind == "error" then Bad(Api(0, if we.message.Some? then we.message.value else ""))
        else if we.kind !in KNOWN then Skipped
        else match convert(we)
          case Err(e) => Bad(e)
          case Ok(v) => Value(v, we.kind in TERMINAL)
  }

  class ResponsesStream {
    const scanner: Scanner
    var done: bool
    var err: Option<Stop>

    constructor (chunks: seq<Bytes>, end: Ending, together: bool)
      ensures fresh(scanner) && Valid() && !done && err == None
      ensures scanner.Rest() == ScanLines(Concat(chunks), end, together && EndsInBytes(chunks))
    {
      scanner := new Scanner(chunks, end, together);
      done, err := false, None;
    }

    ghost predicate Valid()
      reads this, scanner
    {
      && (err.Some? ==> done)
      && (!done ==> scanner.Valid())
    }

    ghost function Coming<T>(decode: Bytes -> Decoded<T>): Run<T>
      reads this, scanner
    {
      Future(decode, false, err, done, scanner.Rest())
    }

    /** The contract of one `Recv`: a value is the next one to come; an error is final. */
    ghost predicate Returned<T>(decode: Bytes -> Decoded<T>, r: Received<T>, before: Run<T>)
      reads this, scanner
    {
      match r
      case Got(v) => before == Run([v] + Coming(decode).values, Coming(decode).stop)
      case Stopped(e) => done && before == Run([], e) && Coming(decode) == Run([], e)
    }

    method Recv<T>(decode: Bytes -> Decoded<T>) returns (r: Received<T>)
      requires Valid()
      modifies this, scanner
      ensures Valid() && Returned(decode, r, old(Coming(decode)))
    {
      ghost var before := Coming(decode);
      if err.Some? { return Stopped(err.value); }
      if done { return Stopped(EndOfStream); }
      var data, haveData := [], false;
      var more := scanner.Scan();
      while more
        invariant !done && err == None && (!haveData ==> data == [])
        invariant more || scanner.err == None ==> scanner.Valid()
        invariant Looping(decode, false, Collected(data, haveData), more, scanner.token, scanner.Rest(), scanner.err)
                  == before
        invariant !more && scanner.err == None ==> scanner.Rest() == Scanned([], None)
        decreases if more then 1 + |scanner.Rest().lines| else 0
      {
        ghost var rest := scanner.Rest();
        var out;
        out, data, haveData := Consume(decode, scanner.token, data, haveData, rest);
        if out.Some? { return out.value; }
        more := scanner.Scan();
      }
      r := Exhausted(decode, data, haveData);
    }

    /** One line: a blank one closes the event collected so far, a `data` field adds to it. */
    method Consume<T>(decode: Bytes -> Decoded<T>, line: Bytes, data: Bytes, haveData: bool, ghost rest: Scanned)
      returns (out: Option<Received<T>>, data': Bytes, haveData': bool)
      requires !done && err == None && (!haveData ==> data == [])
      modifies this
      ensures !haveData' ==> data' == []
      ensures var here := Receive(decode, false, Collected(data, haveData), Scanned([line] + rest.lines, rest.err));
              && (out.None? ==>
                   !done && err == None && here == Receive(decode, false, Collected(data', haveData'), rest))
              && (out.Some? ==>
                   Answers(out.value, here, Future(decode, false, err, done, rest)) && err.Some? == done
                   && (out.value.Stopped? ==> done))
    {
      LineRead(decode, false, Collected(data, haveData), line, rest);
      out, data', haveData' := None, data, haveData;
      if line == [] {
        if haveData {
          var payload := TrimNewlines(data);
          data', haveData' := [], false;
          match decode(payload) {
            case Bad(e) =>
              Finish(Failure(e));
              out := Some(Stopped(Failure(e)));
            case Skipped =>
            case Value(v, last) =>
              if last { Finish(EndOfStream); }
              out := Some(Got(v));
          }
        }
      } else if line[0] != COLON {
        var (field, value) := FieldOf(line);
        if field == DATA {
          data', haveData' := data + value + [LF], true;
        }
      }
    }

    /** The scanner is exhausted: report its error, or flush an event that lacked its blank line. */
    method Exhausted<T>(decode: Bytes -> Decoded<T>, data: Bytes, haveData: bool) returns (r: Received<T>)
      requires !done && err == None
      modifies this
      ensures Answers(r, AtEnd(decode, false, Collected(data, haveData), scanner.err),
                      Future(decode, false, err, done, Scanned([], None)))
      ensures err.Some? == done && (r.Got? ==> scanner.err == None) && (r.Stopped? ==> done)
    {
      if scanner.err.Some? {
        Finish(Failure(scanner.err.value));
        return Stopped(Failure(scanner.err.value));
      }
      if haveData {
        var payload := TrimNewlines(data);
        if payload != [] {
          match decode(payload) {
            case Bad(e) =>
              Finish(Failure(e));
              return Stopped(Failure(e));
            case Skipped =>
            case Value(v, last) =>
              if last { Finish(EndOfStream); }
              return Got(v);
          }
        }
      }
      Finish(EndOfStream);
      r := Stopped(EndOfStream);
    }

    method Finish(stop: Stop)
      modifies this
      ensures done && err == if old(err) == None then Some(stop) else old(err)
    {
      done := true;
      if err == None { err := Some(stop); }
    }

    method Close()
      requires Valid()
      modifies this
      ensures Valid() && done && err == old(err)
    {
      done := true;
    }
  }

  // ---- Whole runs -------------------------------------------------------------------------------

  /** Calling `Recv` up to its error gives the run of the concatenated bytes, for every cutting into chunks and
      whether or not the end comes with the last of them; one more call, even after `Close`, gives the same error
      again. */
  method CollectChat<T>(chunks: seq<Bytes>, end: Ending, together: bool, unmarshal: Bytes -> Result<T>)
    returns (values: seq<T>, stop: Stop, again: Received<T>)
    ensures Run(values, stop)
            == Receive(ChatDecoder(unmarshal), true, None,
                       ScanLines(Concat(chunks), end, together && EndsInBytes(chunks)))
    ensures again == Stopped(stop)
  {
    ghost var decode := ChatDecoder(unmarshal);
    var stream := new ChatStream(chunks, end, together);
    ghost var all := stream.Coming(decode);
    values := [];
    assert [] + all.values == all.values;
    while true
      invariant stream.Valid() && fresh(stream) && fresh(stream.scanner)
      invariant Run(values + stream.Coming(decode).values, stream.Coming(decode).stop) == all
      decreases |stream.Coming(decode).values|
    {
      var r := stream.Recv(unmarshal);
      if r.Stopped? {
        stop := r.stop;
        assert values + [] == values;
        break;
      }
      Assoc(values, [r.value], stream.Coming(decode).values);
      values := values + [r.value];
    }
    stream.Close();
    again := stream.Recv(unmarshal);
  }

  /** The same for the Responses stream. */
  method CollectResponses<T>(chunks: seq<Bytes>, end: Ending, together: bool, decode: Bytes -> Decoded<T>)
    returns (values: seq<T>, stop: Stop, again: Received<T>)
    ensures Run(values, stop)
            == Receive(decode, false, None, ScanLines(Concat(chunks), end, together && EndsInBytes(chunks)))
    ensures again == Stopped(stop)
  {
    var stream := new ResponsesStream(chunks, end, together);
    ghost var all := stream.Coming(decode);
    values := [];
    assert [] + all.values == all.values;
    while true
      invariant stream.Valid() && fresh(stream) && fresh(stream.scanner)
      invariant Run(values + stream.Coming(decode).values, stream.Coming(decode).stop) == all
      decreases |stream.Coming(decode).values|
    {
      var r := stream.Recv(decode);
      if r.Stopped? {
        stop := r.stop;
        assert values + [] == values;
        break;
      }
      Assoc(values, [r.value], stream.Coming(decode).values);
      values := values + [r.value];
    }
    stream.Close();
    again := stream.Recv(decode);
  }

  /** In a run, a terminal event is the last value and is followed by `io.EOF` alone. */
  ghost predicate TerminalIsLast<T>(run: Run<T>, terminal: T -> bool) {
    forall k :: 0 <= k < |run.values| && terminal(run.values[k]) ==> k == |run.values| - 1 && run.stop == EndOfStream
  }

  lemma {:induction false} TerminalEndsRun<T>(decode: Bytes -> Decoded<T>, sentinel: bool, data: Option<Bytes>,
                                              s: Scanned, terminal: T -> bool)
    requires forall p :: decode(p).Value? ==> decode(p).last == terminal(decode(p).value)
    ensures TerminalIsLast(Receive(decode, sentinel, data, s), terminal)
    decreases |s.lines|
  {
    if s.lines != [] {
      var line, rest := s.lines[0], Scanned(s.lines[1..], s.err);
      TerminalEndsRun(decode, sentinel, None, rest, terminal);
      TerminalEndsRun(decode, sentinel, data, rest, terminal);
      if line == [] {
        if data.Some? {
          var payload := TrimNewlines(data.value);
          assert decode(payload).Value? ==> decode(payload).last == terminal(decode(payload).value);
        }
      } else if Effect(line).Data? {
        TerminalEndsRun(decode, sentinel, Some(Append(data, Effect(line).value)), rest, terminal);
      }
    }
  }

  /** A Responses run: `kindOf` reads back the type token that `convert` keeps. */
  lemma ResponsesTerminalIsLast<T>(unmarshal: Bytes -> Result<WireEvent>, convert: WireEvent -> Result<T>,
                                   kindOf: T -> string, s: Scanned)
    requires forall we :: convert(we).Ok? ==> kindOf(convert(we).value) == we.kind
    ensures TerminalIsLast(Receive(DecodeEvent(unmarshal, convert), false, None, s), v => kindOf(v) in TERMINAL)
  {
    TerminalEndsRun(DecodeEvent(unmarshal, convert), false, None, s, v => kindOf(v) in TERMINAL);
  }
}
