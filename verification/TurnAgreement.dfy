/** A Responses turn: the printer without a sentinel, and the three clients' decoders. */
module TurnAgreement {
  import opened Common
  import opened StreamAgreement
  import Utf8
  import Rust = RustStream
  import Ts = TypeScriptStream
  import Go = GoStream

  lemma {:induction false} FramesSnoc(payloads: seq<string>, last: string)
    ensures Frames(payloads + [last]) == Frames(payloads) + Frame(last)
    decreases |payloads|
  {
    if payloads == [] {
      assert payloads + [last] == [last] && [last][1..] == [];
    } else {
      assert (payloads + [last])[1..] == payloads[1..] + [last];
      FramesSnoc(payloads[1..], last);
      Assoc(Frame(payloads[0]), Frames(payloads[1..]), Frame(last));
    }
  }

  // ---- Rust -------------------------------------------------------------------------------------

  /** A decoded event after which the turn goes on. */
  predicate GoesOn(r: Result<Rust.Event>) {
    r.Ok? && Rust.IsRecognised(r.value) && !Rust.IsError(r.value) && !Rust.IsTerminal(r.value)
  }

  predicate Ends(r: Result<Rust.Event>) { r.Ok? && Rust.IsTerminal(r.value) }

  /** Both line parsers of the client find the same payload in a line. */
  lemma FrameOfPayload(decode: string -> Result<Rust.Event>, line: string, p: string)
    requires Rust.ParseSseDataLine(line) == Rust.Json(p)
    ensures GoesOn(decode(p)) || Ends(decode(p)) ==>
              Rust.ParseResponsesFrame(decode, line) == Rust.Yield(decode(p).value)
  {
  }

  lemma RustReadsEvent(decode: string -> Result<Rust.Event>, p: string)
    requires Printable(p)
    ensures GoesOn(decode(p)) ==> Rust.ResponsesAction(decode)("data: " + p) == Rust.Emit(decode(p))
    ensures Ends(decode(p)) ==> Rust.ResponsesAction(decode)("data: " + p) == Rust.EmitLast(decode(p))
  {
    RustReadsPayload(p);
    var line := "data: " + p;
    FrameOfPayload(decode, line, p);
    assert Rust.ResponsesAction(decode)(line) == Rust.FrameAction(Rust.ParseResponsesFrame(decode, line));
  }

  lemma BlankSkips(decode: string -> Result<Rust.Event>)
    ensures Rust.ResponsesAction(decode)("") == Rust.Skip
  {
    assert Rust.TrimLineEnd("") == "" && !("data:" <= "");
    assert Rust.ResponsesAction(decode)("") == Rust.FrameAction(Rust.ParseResponsesFrame(decode, ""));
  }

  lemma {:induction false} DecodeSnoc<T>(decode: string -> Result<T>, payloads: seq<string>, last: string)
    ensures DecodeAll(decode, payloads + [last]) == DecodeAll(decode, payloads) + [decode(last)]
    decreases |payloads|
  {
    if payloads == [] {
      assert payloads + [last] == [last] && [last][1..] == [];
    } else {
      assert (payloads + [last])[1..] == payloads[1..] + [last];
      DecodeSnoc(decode, payloads[1..], last);
    }
  }

  /** The Rust Responses decoder inverts the printer on a turn: events that go on, then a terminal one. */
  lemma RustRoundTrip(decode: string -> Result<Rust.Event>, payloads: seq<string>, last: string)
    requires forall p :: p in payloads ==> Printable(p) && GoesOn(decode(p))
    requires Printable(last) && Ends(decode(last))
    ensures Rust.Items(Rust.ResponsesAction(decode), Utf8.Encode(Frames(payloads + [last])), Eof)
            == DecodeAll(decode, payloads + [last])
  {
    var act := Rust.ResponsesAction(decode);
    forall p | p in payloads ensures act("data: " + p) == Rust.Emit(decode(p)) { RustReadsEvent(decode, p); }
    RustReadsEvent(decode, last);
    BlankSkips(decode);
    FramesSnoc(payloads, last);
    Utf8.EncodeConcat(Frames(payloads), Frame(last));
    RustFrames(act, payloads, Utf8.Encode(Frame(last)), Eof);
    LastFrame(act, last, Eof);
    EmittedIsDecoded(act, decode, payloads);
    DecodeSnoc(decode, payloads, last);
  }

  // ---- TypeScript -------------------------------------------------------------------------------

  /** The TypeScript parser yields the payloads of a turn. */
  lemma TypeScriptRoundTrip(payloads: seq<string>, last: string)
    requires forall p :: p in payloads + [last] ==> Printable(p)
    ensures Ts.Payloads([], Ts.BodyLines(Utf8.Encode(Frames(payloads + [last])), Eof).items, Eof)
            == Ts.Outcome(payloads + [last], Eof)
  {
    assert last in payloads + [last] && forall p :: p in payloads ==> p in payloads + [last];
    assert last[|last| - 1] != '\r' && '\n' !in last;
    FramesSnoc(payloads, last);
    LinesOfBody(payloads, last);
    PayloadsOfFrames(payloads, ["data: " + last, ""]);
    FrameIsEvent(last, []);
    assert ["data: " + last, ""] + [] == ["data: " + last, ""] && [last] + [] == [last];
  }

  // ---- Go ---------------------------------------------------------------------------------------

  function Values<T>(decode: Bytes -> Go.Decoded<T>, payloads: seq<string>): seq<T>
    requires forall p :: p in payloads ==> decode(Utf8.Encode(p)).Value?
  {
    if payloads == [] then []
    else
      assert payloads[0] in payloads && forall p :: p in payloads[1..] ==> p in payloads;
      [decode(Utf8.Encode(payloads[0])).value] + Values(decode, payloads[1..])
  }

  predicate GoReads<T>(decode: Bytes -> Go.Decoded<T>, p: string, isLast: bool) {
    Printable(p) && FitsLine(p) && decode(Utf8.Encode(p)).Value? && decode(Utf8.Encode(p)).last == isLast
  }

  lemma ReadFrame<T>(decode: Bytes -> Go.Decoded<T>, p: string, rest: string)
    requires Printable(p) && FitsLine(p)
    ensures Go.Receive(decode, false, None, Go.ScanLines(Utf8.Encode(Frame(p) + rest), Eof))
            == Go.Dispatch(decode, false, Utf8.Encode(p),
                           Go.Receive(decode, false, None, Go.ScanLines(Utf8.Encode(rest), Eof)))
  {
    Utf8.EncodeConcat(Frame(p), rest);
    EncodeFrame(p);
    EncodeDataLine(p);
    PrintableIsOneLine(p);
    ScanFrame(Utf8.Encode(p), Utf8.Encode(rest), Eof);
    ReceiveFrame(decode, false, Utf8.Encode(p), Go.ScanLines(Utf8.Encode(rest), Eof));
  }

  /** An event that is not the last is followed by the run of the rest. */
  lemma ReadNext<T>(decode: Bytes -> Go.Decoded<T>, p: string, rest: string)
    requires GoReads(decode, p, false)
    ensures var later := Go.Receive(decode, false, None, Go.ScanLines(Utf8.Encode(rest), Eof));
            Go.Receive(decode, false, None, Go.ScanLines(Utf8.Encode(Frame(p) + rest), Eof))
            == Go.Run([decode(Utf8.Encode(p)).value] + later.values, later.stop)
  {
    ReadFrame(decode, p, rest);
  }

  lemma ReadLast<T>(decode: Bytes -> Go.Decoded<T>, p: string)
    requires GoReads(decode, p, true)
    ensures Go.Receive(decode, false, None, Go.ScanLines(Utf8.Encode(Frames([p])), Eof))
            == Go.Run([decode(Utf8.Encode(p)).value], Go.EndOfStream)
  {
    ReadFrame(decode, p, "");
    assert [p][1..] == [] && Frames([p]) == Frame(p) + "";
  }

  /** The Go Responses iterator inverts the printer on a turn: every event, then `io.EOF`. */
  lemma {:induction false} GoRoundTrip<T>(decode: Bytes -> Go.Decoded<T>, payloads: seq<string>, last: string)
    requires forall p :: p in payloads ==> GoReads(decode, p, false)
    requires GoReads(decode, last, true)
    ensures (forall p :: p in payloads + [last] ==> decode(Utf8.Encode(p)).Value?)
            && Go.Receive(decode, false, None, Go.ScanLines(Utf8.Encode(Frames(payloads + [last])), Eof))
               == Go.Run(Values(decode, payloads + [last]), Go.EndOfStream)
    decreases |payloads|
  {
    if payloads == [] {
      ReadLast(decode, last);
      assert payloads + [last] == [last] && [last][1..] == [];
    } else {
      var all, p := payloads + [last], payloads[0];
      assert all[1..] == payloads[1..] + [last] && all[0] == p;
      assert p in payloads && forall q :: q in payloads[1..] ==> q in payloads;
      GoRoundTrip(decode, payloads[1..], last);
      ReadNext(decode, p, Frames(all[1..]));
    }
  }

  // ---- The same turn ----------------------------------------------------------------------------

  /** The types a client delivers of a turn: those it keeps, up to the first that ends the turn. */
  function Kept(keeps: string -> bool, ends: string -> bool, kinds: seq<string>): seq<string> {
    if kinds == [] then []
    else if !keeps(kinds[0]) then Kept(keeps, ends, kinds[1..])
    else [kinds[0]] + if ends(kinds[0]) then [] else Kept(keeps, ends, kinds[1..])
  }

  /** Up to the first type that ends the turn, whatever the one client keeps the other keeps too. */
  predicate Covered(keeps: string -> bool, table: string -> bool, ends: string -> bool, kinds: seq<string>) {
    if kinds == [] then true
    else (keeps(kinds[0]) ==> table(kinds[0])) && (ends(kinds[0]) || Covered(keeps, table, ends, kinds[1..]))
  }

  lemma {:induction false} KeptIffCovered(keeps: string -> bool, table: string -> bool, ends: string -> bool,
                                          kinds: seq<string>)
    requires forall k :: (ends(k) ==> table(k)) && (table(k) ==> keeps(k))
    ensures |Kept(table, ends, kinds)| <= |Kept(keeps, ends, kinds)|
    ensures Kept(table, ends, kinds) == Kept(keeps, ends, kinds) <==> Covered(keeps, table, ends, kinds)
  {
    if kinds != [] {
      var k, rest := kinds[0], kinds[1..];
      KeptIffCovered(keeps, table, ends, rest);
      if table(k) && !ends(k) {
        SameFirst(k, Kept(table, ends, rest), Kept(keeps, ends, rest));
      }
    }
  }

  lemma SameFirst(k: string, a: seq<string>, b: seq<string>)
    ensures [k] + a == [k] + b <==> a == b
  {
    assert ([k] + a)[1..] == a && ([k] + b)[1..] == b;
  }

  /** What the Rust client keeps by prefix, and the Go client by table; both surface an `error` event. */
  predicate HasPrefix(kind: string) { kind == "error" || "response." <= kind }

  predicate InTable(kind: string) { kind == "error" || kind in Go.KNOWN }

  predicate EndsTurn(kind: string) { kind == "error" || kind in Go.TERMINAL }

  lemma TableHasPrefix(kind: string)
    requires InTable(kind)
    ensures HasPrefix(kind)
  {
  }

  lemma EndIsInTable(kind: string)
    requires EndsTurn(kind)
    ensures InTable(kind)
  {
  }

  /** A payload both clients can decode, to the same event type. */
  predicate Reads(decode: string -> Result<Rust.Event>, unmarshal: Bytes -> Result<Go.WireEvent>, p: string) {
    && Printable(p) && FitsLine(p)
    && decode(p).Ok? && unmarshal(Utf8.Encode(p)).Ok?
    && decode(p).value.kind == unmarshal(Utf8.Encode(p)).value.kind
  }

  function KindOf(r: Result<Rust.Event>): string { if r.Ok? then r.value.kind else "" }

  function Kinds(decode: string -> Result<Rust.Event>, payloads: seq<string>): seq<string> {
    if payloads == [] then [] else [KindOf(decode(payloads[0]))] + Kinds(decode, payloads[1..])
  }

  /** The types of the items; an `error` event is surfaced as an error. */
  function RustKinds(items: seq<Result<Rust.Event>>): seq<string> {
    if items == [] then []
    else [if items[0].Ok? then items[0].value.kind else "error"] + RustKinds(items[1..])
  }

  function ValueKinds<T>(kindOf: T -> string, values: seq<T>): seq<string> {
    if values == [] then [] else [kindOf(values[0])] + ValueKinds(kindOf, values[1..])
  }

  /** The types of the values returned, and the error the run ends with, if it does. */
  function GoKinds<T>(kindOf: T -> string, run: Go.Run<T>): seq<string> {
    ValueKinds(kindOf, run.values) + if run.stop.Failure? then ["error"] else []
  }

  /** One rendered event, read by Rust. */
  lemma RustKeepsEvent(decode: string -> Result<Rust.Event>, p: string, later: seq<Result<Rust.Event>>)
    requires Printable(p) && decode(p).Ok?
    ensures var kind := decode(p).value.kind;
            RustKinds(Rust.Then(Rust.ResponsesAction(decode)("data: " + p), later))
            == if !HasPrefix(kind) then RustKinds(later) else [kind] + if EndsTurn(kind) then [] else RustKinds(later)
  {
    var line, ev := "data: " + p, decode(p).value;
    RustReadsPayload(p);
    KeptFrame(decode, line, p);
    assert Rust.ResponsesAction(decode)(line) == Rust.FrameAction(Rust.ParseResponsesFrame(decode, line));
    var first: Result<Rust.Event> := if Rust.IsError(ev) then Err(Api(502, Rust.ErrorMessage(ev))) else Ok(ev);
    RustKindsStep(first, later);
    RustKindsStep(first, []);
    assert [first] + [] == [first] && [ev.kind] + [] == [ev.kind];
  }

  lemma RustKindsStep(first: Result<Rust.Event>, later: seq<Result<Rust.Event>>)
    ensures RustKinds([first] + later) == [if first.Ok? then first.value.kind else "error"] + RustKinds(later)
  {
    assert ([first] + later)[1..] == later;
  }

  lemma KeptFrame(decode: string -> Result<Rust.Event>, line: string, p: string)
    requires Rust.ParseSseDataLine(line) == Rust.Json(p) && decode(p).Ok?
    ensures var ev := decode(p).value;
            && Rust.ParseResponsesFrame(decode, line)
               == (if !HasPrefix(ev.kind) then Rust.SkipFrame
                   else if Rust.IsError(ev) then Rust.Failure(Api(502, Rust.ErrorMessage(ev)))
                   else Rust.Yield(ev))
            && EndsTurn(ev.kind) == (Rust.IsError(ev) || Rust.IsTerminal(ev))
  {
  }

  lemma {:induction false} RustDelivers(decode: string -> Result<Rust.Event>, payloads: seq<string>)
    requires forall p :: p in payloads ==> Printable(p) && decode(p).Ok?
    ensures RustKinds(Rust.Items(Rust.ResponsesAction(decode), Utf8.Encode(Frames(payloads)), Eof))
            == Kept(HasPrefix, EndsTurn, Kinds(decode, payloads))
    decreases |payloads|
  {
    var act := Rust.ResponsesAction(decode);
    if payloads == [] {
      assert Rust.Items(act, [], Eof) == [];
    } else {
      var p, rest := payloads[0], payloads[1..];
      assert p in payloads && forall q :: q in rest ==> q in payloads;
      RustDelivers(decode, rest);
      BlankSkips(decode);
      Utf8.EncodeConcat(Frame(p), Frames(rest));
      RustFrame(act, p, Utf8.Encode(Frames(rest)), Eof);
      RustKeepsEvent(decode, p, Rust.Items(act, Utf8.Encode(Frames(rest)), Eof));
      KeptStep(HasPrefix, EndsTurn, decode(p).value.kind, Kinds(decode, rest));
    }
  }

  lemma KeptStep(keeps: string -> bool, ends: string -> bool, kind: string, rest: seq<string>)
    ensures Kept(keeps, ends, [kind] + rest)
            == if !keeps(kind) then Kept(keeps, ends, rest)
               else [kind] + if ends(kind) then [] else Kept(keeps, ends, rest)
  {
    assert ([kind] + rest)[1..] == rest;
  }

  /** One rendered event, read by Go. */
  lemma GoKeepsEvent<T>(unmarshal: Bytes -> Result<Go.WireEvent>, convert: Go.WireEvent -> Result<T>,
                        kindOf: T -> string, e: Bytes, later: Go.Run<T>)
    requires unmarshal(e).Ok?
    requires forall we :: convert(we).Ok? && kindOf(convert(we).value) == we.kind
    ensures var kind := unmarshal(e).value.kind;
            GoKinds(kindOf, Go.Dispatch(Go.DecodeEvent(unmarshal, convert), false, e, later))
            == if !InTable(kind) then GoKinds(kindOf, later)
               else [kind] + if EndsTurn(kind) then [] else GoKinds(kindOf, later)
  {
    var we := unmarshal(e).value;
    var first := convert(we).value;
    DecodedEvent(unmarshal, convert, e);
    ValueKindsStep(kindOf, first, later.values);
    ValueKindsStep(kindOf, first, []);
    assert [first] + [] == [first] && [we.kind] + [] == [we.kind];
    Assoc([we.kind], ValueKinds(kindOf, later.values), if later.stop.Failure? then ["error"] else []);
  }

  lemma ValueKindsStep<T>(kindOf: T -> string, first: T, later: seq<T>)
    ensures ValueKinds(kindOf, [first] + later) == [kindOf(first)] + ValueKinds(kindOf, later)
  {
    assert ([first] + later)[1..] == later;
  }

  lemma DecodedEvent<T>(unmarshal: Bytes -> Result<Go.WireEvent>, convert: Go.WireEvent -> Result<T>, e: Bytes)
    requires unmarshal(e).Ok? && convert(unmarshal(e).value).Ok?
    ensures var we := unmarshal(e).value;
            if !InTable(we.kind) then Go.DecodeEvent(unmarshal, convert)(e) == Go.Skipped
            else if we.kind == "error" then Go.DecodeEvent(unmarshal, convert)(e).Bad?
            else Go.DecodeEvent(unmarshal, convert)(e) == Go.Value(convert(we).value, EndsTurn(we.kind))
  {
  }

  lemma {:induction false} GoDelivers<T>(decode: string -> Result<Rust.Event>, unmarshal: Bytes -> Result<Go.WireEvent>,
                                         convert: Go.WireEvent -> Result<T>, kindOf: T -> string, payloads: seq<string>)
    requires forall p :: p in payloads ==> Reads(decode, unmarshal, p)
    requires forall we :: convert(we).Ok? && kindOf(convert(we).value) == we.kind
    ensures GoKinds(kindOf, Go.Receive(Go.DecodeEvent(unmarshal, convert), false, None,
                                       Go.ScanLines(Utf8.Encode(Frames(payloads)), Eof)))
            == Kept(InTable, EndsTurn, Kinds(decode, payloads))
    decreases |payloads|
  {
    var event := Go.DecodeEvent(unmarshal, convert);
    if payloads != [] {
      var p, rest := payloads[0], payloads[1..];
      assert p in payloads && forall q :: q in rest ==> q in payloads;
      GoDelivers(decode, unmarshal, convert, kindOf, rest);
      ReadFrame(event, p, Frames(rest));
      GoKeepsEvent(unmarshal, convert, kindOf, Utf8.Encode(p),
                   Go.Receive(event, false, None, Go.ScanLines(Utf8.Encode(Frames(rest)), Eof)));
      KeptStep(InTable, EndsTurn, decode(p).value.kind, Kinds(decode, rest));
    }
  }

  /** Rust and Go deliver the same turn, the `error` event that may end it included, if and only if every event
      type up to the one that ends it is in the Go client's table or lacks the prefix the Rust client looks for. */
  lemma SameTurn<T>(decode: string -> Result<Rust.Event>, unmarshal: Bytes -> Result<Go.WireEvent>,
                    convert: Go.WireEvent -> Result<T>, kindOf: T -> string, payloads: seq<string>)
    requires forall p :: p in payloads ==> Reads(decode, unmarshal, p)
    requires forall we :: convert(we).Ok? && kindOf(convert(we).value) == we.kind
    ensures var bytes := Utf8.Encode(Frames(payloads));
            var run := Go.Receive(Go.DecodeEvent(unmarshal, convert), false, None, Go.ScanLines(bytes, Eof));
            GoKinds(kindOf, run)
            == RustKinds(Rust.Items(Rust.ResponsesAction(decode), bytes, Eof))
            <==> Covered(HasPrefix, InTable, EndsTurn, Kinds(decode, payloads))
  {
    RustDelivers(decode, payloads);
    GoDelivers(decode, unmarshal, convert, kindOf, payloads);
    forall k | InTable(k) ensures HasPrefix(k) { TableHasPrefix(k); }
    forall k | EndsTurn(k) ensures InTable(k) { EndIsInTable(k); }
    KeptIffCovered(HasPrefix, InTable, EndsTurn, Kinds(decode, payloads));
  }

  // ---- The server's own turns -------------------------------------------------------------------

  /** The types the server sends. */
  const SENT: set<string> := {
    "response.created", "response.in_progress", "response.completed", "response.incomplete", "response.failed",
    "response.output_item.added", "response.output_item.done",
    "response.content_part.added", "response.content_part.done",
    "response.output_text.delta", "response.output_text.done",
    "response.function_call_arguments.delta", "response.function_call_arguments.done",
    "response.reasoning_text.delta", "response.reasoning_text.done"
  }

  /** The types the dialect has besides: refusals, reasoning summaries and annotations of upstream providers. */
  const PASSED_ON: set<string> := {
    "response.refusal.delta", "response.refusal.done", "response.output_text.annotation.added",
    "response.reasoning_summary_part.added", "response.reasoning_summary_part.done",
    "response.reasoning_summary_text.delta", "response.reasoning_summary_text.done"
  }

  /** The Go client's table is these two. */
  lemma TableIs(kind: string)
    ensures kind in Go.KNOWN <==> kind in SENT || kind in PASSED_ON
  {
  }

  lemma SentIsKnown(kind: string)
    requires kind in SENT
    ensures InTable(kind) && HasPrefix(kind)
  {
    TableHasPrefix(kind);
  }

  /** Up to the first type that ends the turn. */
  function UpToEnd(kinds: seq<string>): seq<string> {
    if kinds == [] then [] else [kinds[0]] + if EndsTurn(kinds[0]) then [] else UpToEnd(kinds[1..])
  }

  lemma {:induction false} AllKept(keeps: string -> bool, kinds: seq<string>)
    requires forall k :: k in kinds ==> keeps(k)
    ensures Kept(keeps, EndsTurn, kinds) == UpToEnd(kinds)
  {
    if kinds != [] {
      assert kinds[0] in kinds && forall k :: k in kinds[1..] ==> k in kinds;
      AllKept(keeps, kinds[1..]);
    }
  }

  /** Of a turn made of the types the server sends, and `error`, both clients deliver everything up to its end. */
  lemma ServerTurn<T>(decode: string -> Result<Rust.Event>, unmarshal: Bytes -> Result<Go.WireEvent>,
                      convert: Go.WireEvent -> Result<T>, kindOf: T -> string, payloads: seq<string>)
    requires forall p :: p in payloads ==> Reads(decode, unmarshal, p)
    requires forall we :: convert(we).Ok? && kindOf(convert(we).value) == we.kind
    requires forall k :: k in Kinds(decode, payloads) ==> k in SENT || k == "error"
    ensures var bytes, kinds := Utf8.Encode(Frames(payloads)), Kinds(decode, payloads);
            var run := Go.Receive(Go.DecodeEvent(unmarshal, convert), false, None, Go.ScanLines(bytes, Eof));
            GoKinds(kindOf, run) == RustKinds(Rust.Items(Rust.ResponsesAction(decode), bytes, Eof)) == UpToEnd(kinds)
  {
    var kinds := Kinds(decode, payloads);
    RustDelivers(decode, payloads);
    GoDelivers(decode, unmarshal, convert, kindOf, payloads);
    forall k | k in kinds ensures InTable(k) && HasPrefix(k) { if k in SENT { SentIsKnown(k); } }
    AllKept(InTable, kinds);
    AllKept(HasPrefix, kinds);
  }

  // ---- The message of an error ------------------------------------------------------------------

  /** Both clients surface the same message of an `error` event exactly when it has one of its own, or nothing in
      its response snapshot to fall back on, where only Rust looks. */
  lemma SameErrorMessage<T>(decode: string -> Result<Rust.Event>, line: string, p: string,
                            unmarshal: Bytes -> Result<Go.WireEvent>, convert: Go.WireEvent -> Result<T>, e: Bytes)
    requires Rust.ParseSseDataLine(line) == Rust.Json(p) && decode(p).Ok? && unmarshal(e).Ok?
    requires decode(p).value.kind == unmarshal(e).value.kind == "error"
    requires decode(p).value.message == unmarshal(e).value.message
    ensures var frame, event := Rust.ParseResponsesFrame(decode, line), Go.DecodeEvent(unmarshal, convert)(e);
            && frame.Failure? && frame.error.Api? && frame.error.status == 502
            && event.Bad? && event.error.Api? && event.error.status == 0
            && (frame.error.message == event.error.message
                <==> decode(p).value.message.Some? || decode(p).value.snapshotError in {None, Some("")})
  {
    var ev := decode(p).value;
    KeptFrame(decode, line, p);
    assert ev.message.None? && ev.snapshotError.Some? ==> Rust.ErrorMessage(ev) == ev.snapshotError.value;
  }
}
