/** What the Go client's iterators return for a text and either ending, said of the events the HTML standard
    dispatches over it. */
module GoReading {
  import opened Common
  import opened GoEventSource
  import EventSourceRefinement
  import Std = EventSource
  import Go = GoStream
  import Utf8

  // ---- The runs ---------------------------------------------------------------------------------

  /** The payloads passed on: each event the standard dispatches, trailing newlines trimmed; at a clean end the event
      left open is one more, if anything is left of it. */
  function Payloads(text: string, end: Ending): seq<Bytes> {
    Trimmed(Std.Dispatches("", Heard(text))) + Left(Std.Pending("", Heard(text)), end)
  }

  function Left(pending: string, end: Ending): seq<Bytes> {
    var payload := Go.TrimNewlines(Utf8.Encode(pending));
    if end.Failed? || payload == [] then [] else [payload]
  }

  function Ended<T>(end: Ending): Go.Run<T> {
    Go.Run([], if end.Failed? then Go.Failure(end.error) else Go.EndOfStream)
  }

  function First<T>(v: T, later: Go.Run<T>): Go.Run<T> { Go.Run([v] + later.values, later.stop) }

  /** A chat run: every payload's value, up to the first that does not decode, which is the run's error. */
  function ChatRun<T>(unmarshal: Bytes -> Result<T>, payloads: seq<Bytes>, end: Ending): Go.Run<T> {
    if payloads == [] then Ended(end)
    else if payloads[0] == Go.DONE then Go.Run([], Go.EndOfStream)
    else match unmarshal(payloads[0])
      case Err(e) => Go.Run([], Go.Failure(e))
      case Ok(v) => First(v, ChatRun(unmarshal, payloads[1..], end))
  }

  /** A Responses run: the events of the client's table up to and with the first that completes the turn; an `error`
      event and whatever does not decode end it with an error, events of other types are passed over. */
  function TurnRun<T>(unmarshal: Bytes -> Result<Go.WireEvent>, convert: Go.WireEvent -> Result<T>,
                      payloads: seq<Bytes>, end: Ending): Go.Run<T>
  {
    if payloads == [] then Ended(end)
    else match unmarshal(payloads[0])
      case Err(e) => Go.Run([], Go.Failure(e))
      case Ok(we) =>
        if we.kind == "error" then
          Go.Run([], Go.Failure(Api(0, if we.message == None then "" else we.message.value)))
        else if we.kind !in Go.KNOWN then TurnRun(unmarshal, convert, payloads[1..], end)
        else match convert(we)
          case Err(e) => Go.Run([], Go.Failure(e))
          case Ok(v) =>
            if we.kind in {"response.completed", "response.incomplete", "response.failed"}
            then Go.Run([v], Go.EndOfStream)
            else First(v, TurnRun(unmarshal, convert, payloads[1..], end))
  }

  // ---- Chat -------------------------------------------------------------------------------------

  lemma ChatEnd<T>(unmarshal: Bytes -> Result<T>, pending: string, end: Ending)
    ensures Go.AtEnd(Go.ChatDecoder(unmarshal), true, Held(pending), ErrorOf(end))
            == ChatRun(unmarshal, Left(pending, end), end)
  {
    assert Utf8.Encode("") == [];
    var payload := Go.TrimNewlines(Utf8.Encode(pending));
    var one: seq<Bytes> := [payload];
    assert one[1..] == [];
  }

  lemma ChatStep<T>(unmarshal: Bytes -> Result<T>, payload: Bytes, rest: seq<Bytes>, end: Ending)
    ensures ChatRun(unmarshal, [payload] + rest, end)
            == Go.Dispatch(Go.ChatDecoder(unmarshal), true, payload, ChatRun(unmarshal, rest, end))
  {
    assert ([payload] + rest)[1..] == rest;
  }

  lemma {:induction false} ChatFeed<T>(unmarshal: Bytes -> Result<T>, events: seq<string>, left: seq<Bytes>,
                                       end: Ending)
    ensures Feed(Go.ChatDecoder(unmarshal), true, events, ChatRun(unmarshal, left, end))
            == ChatRun(unmarshal, Trimmed(events) + left, end)
    decreases |events|
  {
    if events == [] {
      assert Trimmed(events) + left == left;
    } else {
      var payload := Go.TrimNewlines(Utf8.Encode(events[0]));
      ChatFeed(unmarshal, events[1..], left, end);
      ChatStep(unmarshal, payload, Trimmed(events[1..]) + left, end);
      Assoc([payload], Trimmed(events[1..]), left);
    }
  }

  /** For every text with LF or CRLF line ends and lines below the limit, no sentinel among them, and either ending:
      the chat iterator returns the value of every payload, up to the first that does not decode. */
  lemma ReadsChat<T>(unmarshal: Bytes -> Result<T>, text: string, end: Ending)
    requires EventSourceRefinement.NoLoneCr(text) && Fits(text)
    requires forall line :: line in TextLines(text) ==> !IsSentinel(line)
    ensures Go.Receive(Go.ChatDecoder(unmarshal), true, None, Go.ScanLines(Utf8.Encode(text), end))
            == ChatRun(unmarshal, Payloads(text, end), end)
  {
    var events, pending := Std.Dispatches("", Heard(text)), Std.Pending("", Heard(text));
    MeetsStandard(Go.ChatDecoder(unmarshal), true, text, end);
    ChatEnd(unmarshal, pending, end);
    ChatFeed(unmarshal, events, Left(pending, end), end);
  }

  // ---- Responses --------------------------------------------------------------------------------

  lemma TurnEnd<T>(unmarshal: Bytes -> Result<Go.WireEvent>, convert: Go.WireEvent -> Result<T>, pending: string,
                   end: Ending)
    ensures Go.AtEnd(Go.DecodeEvent(unmarshal, convert), false, Held(pending), ErrorOf(end))
            == TurnRun(unmarshal, convert, Left(pending, end), end)
  {
    assert Utf8.Encode("") == [];
    var payload := Go.TrimNewlines(Utf8.Encode(pending));
    var one: seq<Bytes> := [payload];
    assert one[1..] == [];
  }

  /** One payload in front. */
  lemma TurnStep<T>(unmarshal: Bytes -> Result<Go.WireEvent>, convert: Go.WireEvent -> Result<T>, payload: Bytes,
                    rest: seq<Bytes>, end: Ending)
    ensures TurnRun(unmarshal, convert, [payload] + rest, end)
            == Go.Dispatch(Go.DecodeEvent(unmarshal, convert), false, payload, TurnRun(unmarshal, convert, rest, end))
  {
    assert ([payload] + rest)[1..] == rest;
  }

  lemma {:induction false} TurnFeed<T>(unmarshal: Bytes -> Result<Go.WireEvent>, convert: Go.WireEvent -> Result<T>,
                                       events: seq<string>, left: seq<Bytes>, end: Ending)
    ensures Feed(Go.DecodeEvent(unmarshal, convert), false, events, TurnRun(unmarshal, convert, left, end))
            == TurnRun(unmarshal, convert, Trimmed(events) + left, end)
    decreases |events|
  {
    if events == [] {
      assert Trimmed(events) + left == left;
    } else {
      var payload := Go.TrimNewlines(Utf8.Encode(events[0]));
      TurnFeed(unmarshal, convert, events[1..], left, end);
      TurnStep(unmarshal, convert, payload, Trimmed(events[1..]) + left, end);
      Assoc([payload], Trimmed(events[1..]), left);
    }
  }

  /** The same for the Responses iterator, on every such text. */
  lemma ReadsTurn<T>(unmarshal: Bytes -> Result<Go.WireEvent>, convert: Go.WireEvent -> Result<T>, text: string,
                     end: Ending)
    requires EventSourceRefinement.NoLoneCr(text) && Fits(text)
    ensures Go.Receive(Go.DecodeEvent(unmarshal, convert), false, None, Go.ScanLines(Utf8.Encode(text), end))
            == TurnRun(unmarshal, convert, Payloads(text, end), end)
  {
    var events, pending := Std.Dispatches("", Heard(text)), Std.Pending("", Heard(text));
    MeetsStandard(Go.DecodeEvent(unmarshal, convert), false, text, end);
    TurnEnd(unmarshal, convert, pending, end);
    TurnFeed(unmarshal, convert, events, Left(pending, end), end);
  }
}
