/** What the Rust client's event streams give for every byte string and either ending, said of the texts of the
    body's `data:` lines alone. */
module RustReading {
  import opened Common
  import opened RustEventSource
  import Ndjson = NdjsonAgreement
  import Lines = LineAgreement
  import Rust = RustStream
  import Utf8

  // ---- One line ---------------------------------------------------------------------------------

  predicate IsLineEnd(c: char) { c == '\r' || c == '\n' }

  lemma {:induction false} LineEndTrimmed(s: string) returns (b: string)
    ensures s == Rust.TrimLineEnd(s) + b && forall c :: c in b ==> IsLineEnd(c)
    decreases |s|
  {
    b := "";
    if s != "" && IsLineEnd(s[|s| - 1]) {
      var rest := LineEndTrimmed(s[..|s| - 1]);
      b := rest + [s[|s| - 1]];
    }
  }

  /** Line ends are white space: dropping them first makes no difference. */
  lemma TrimAfterLineEnd(s: string, t: string, b: string)
    requires s == t + b && forall c :: c in b ==> IsLineEnd(c)
    ensures Rust.Trim(t) == Rust.Trim(s)
  {
    var x, y := Ndjson.RustTrims(t);
    var u, v := Ndjson.RustTrims(s);
    Assoc(x + Rust.Trim(t), y, b);
    Ndjson.OneTrim(Rust.IsWhitespace, s, x, Rust.Trim(t), y + b, u, Rust.Trim(s), v);
  }

  /** Neither does it hide a field name. */
  lemma PrefixKept(s: string, t: string, b: string, name: string)
    requires s == t + b && forall c :: c in b ==> IsLineEnd(c)
    requires forall c :: c in name ==> !IsLineEnd(c)
    ensures name <= t <==> name <= s
  {
    if |t| < |name| <= |s| {
      assert s[|t|] == b[0] && b[0] in b && name[|t|] in name;
    }
    assert |name| <= |t| ==> s[..|name|] == t[..|name|];
  }

  /** The payload both line parsers look at. */
  lemma LineText(raw: string, name: string) returns (t: string)
    requires name == "data:"
    ensures t == Rust.TrimLineEnd(raw)
    ensures if name <= raw then name <= t && Rust.Trim(t[5..]) == Rust.Trim(raw[5..]) else !(name <= t)
  {
    t := Rust.TrimLineEnd(raw);
    var b := LineEndTrimmed(raw);
    PrefixKept(raw, t, b, name);
    if name <= raw {
      assert raw[5..] == t[5..] + b;
      TrimAfterLineEnd(raw[5..], t[5..], b);
    }
  }

  lemma LineRead(raw: string)
    ensures Rust.ParseSseDataLine(raw)
            == if TextOf(raw) == [] then Rust.SkipLine
               else if TextOf(raw)[0] == "[DONE]" then Rust.Done
               else Rust.Json(TextOf(raw)[0])
  {
    var t := LineText(raw, "data:");
  }

  lemma ChatLine<T>(decode: string -> Result<T>, raw: string)
    ensures Rust.ChatAction(decode)(raw)
            == if TextOf(raw) == [] then Rust.Skip
               else if TextOf(raw)[0] == "[DONE]" then Rust.Stop
               else Rust.Emit(decode(TextOf(raw)[0]))
  {
    LineRead(raw);
  }

  lemma FrameLine(decode: string -> Result<Rust.Event>, raw: string)
    ensures Rust.ResponsesAction(decode)(raw)
            == if TextOf(raw) == [] then Rust.Skip else EventAction(decode(TextOf(raw)[0]))
  {
    var t := LineText(raw, "data:");
    assert Rust.ResponsesAction(decode)(raw) == Rust.FrameAction(Rust.ParseResponsesFrame(decode, raw));
  }

  function EventAction(r: Result<Rust.Event>): Rust.Action<Rust.Event> {
    match r
    case Err(e) => Rust.Emit(Err(e))
    case Ok(ev) =>
      if Fails(ev) then Rust.EmitLast(Err(Api(502, MessageOf(ev))))
      else if Completes(ev) then Rust.EmitLast(Ok(ev))
      else if Concerns(ev) then Rust.Emit(Ok(ev))
      else Rust.Skip
  }

  // ---- The items --------------------------------------------------------------------------------

  /** The texts of a body: those of its lines, each decoded by itself; the unterminated rest counts unless the
      transport fails. */
  function BodyTexts(bytes: Bytes, end: Ending): seq<string> { Texts(Ndjson.AllLines(bytes, end)) }

  /** The items of a chat stream: every text decoded, up to the sentinel. */
  function ChatItems<T>(decode: string -> Result<T>, texts: seq<string>, fault: seq<Result<T>>): seq<Result<T>> {
    if texts == [] then fault
    else if texts[0] == "[DONE]" then []
    else [decode(texts[0])] + ChatItems(decode, texts[1..], fault)
  }

  predicate Fails(ev: Rust.Event) { ev.kind == "error" }

  predicate Completes(ev: Rust.Event) {
    ev.kind in {"response.completed", "response.incomplete", "response.failed"}
  }

  predicate Concerns(ev: Rust.Event) { "response." <= ev.kind }

  /** The message of an `error` event: its own, else that of its response snapshot, else none. */
  function MessageOf(ev: Rust.Event): string {
    match (ev.message, ev.snapshotError)
    case (Some(m), _) => m
    case (None, Some(m)) => m
    case (None, None) => ""
  }

  /** The items of a Responses stream: the events of the dialect, a text that does not decode as its error, up to
      and with the first terminal or `error` event. */
  function TurnItems(decode: string -> Result<Rust.Event>, texts: seq<string>, fault: seq<Result<Rust.Event>>)
    : seq<Result<Rust.Event>>
  {
    if texts == [] then fault
    else match decode(texts[0])
      case Err(e) => [Err(e)] + TurnItems(decode, texts[1..], fault)
      case Ok(ev) =>
        if Fails(ev) then [Err(Api(502, MessageOf(ev)))]
        else if Completes(ev) then [Ok(ev)]
        else if Concerns(ev) then [Ok(ev)] + TurnItems(decode, texts[1..], fault)
        else TurnItems(decode, texts[1..], fault)
  }

  // ---- Chat -------------------------------------------------------------------------------------

  lemma ChatStep<T>(decode: string -> Result<T>, raw: string, texts: seq<string>, fault: seq<Result<T>>)
    ensures Rust.Then(Rust.ChatAction(decode)(raw), ChatItems(decode, texts, fault))
            == ChatItems(decode, TextOf(raw) + texts, fault)
  {
    ChatLine(decode, raw);
    if TextOf(raw) == [] {
      assert [] + texts == texts;
    } else {
      assert TextOf(raw) == [TextOf(raw)[0]] && (TextOf(raw) + texts)[1..] == texts;
    }
  }

  lemma {:induction false} ChatLines<T>(decode: string -> Result<T>, raws: seq<Bytes>, texts: seq<string>,
                                        fault: seq<Result<T>>)
    ensures Rust.Interpret(Rust.ChatAction(decode), raws, ChatItems(decode, texts, fault))
            == ChatItems(decode, Texts(Utf8.DecodeLines(raws)) + texts, fault)
    decreases |raws|
  {
    if raws == [] {
      assert Texts(Utf8.DecodeLines(raws)) + texts == texts;
    } else {
      var raw, rest := Utf8.DecodeLossy(raws[0]), Texts(Utf8.DecodeLines(raws[1..]));
      ChatLines(decode, raws[1..], texts, fault);
      TextsNext(raw, Utf8.DecodeLines(raws[1..]));
      ChatStep(decode, raw, rest + texts, fault);
      Assoc(TextOf(raw), rest, texts);
    }
  }

  lemma TextsNext(line: string, rest: seq<string>)
    ensures Texts([line] + rest) == TextOf(line) + Texts(rest)
  {
    assert ([line] + rest)[1..] == rest;
  }

  lemma ChatEnd<T>(decode: string -> Result<T>, tail: Bytes, end: Ending)
    ensures Rust.AtEnd(Rust.ChatAction(decode), tail, end)
            == ChatItems(decode, LastTexts(tail, end), Ndjson.Fault(end))
  {
    if end.Eof? {
      var raw, none: seq<string> := Utf8.DecodeLossy(tail), [];
      TextsNext(raw, none);
      ChatLine(decode, raw);
      assert [raw] + none == [raw] && TextOf(raw) + [] == TextOf(raw);
      assert TextOf(raw) != [] ==> TextOf(raw)[1..] == [];
      if tail == [] { assert raw == ""; }
    }
  }

  /** The text of the unterminated rest. */
  function LastTexts(tail: Bytes, end: Ending): seq<string> {
    Texts(if end.Eof? then [Utf8.DecodeLossy(tail)] else [])
  }

  lemma BodyTextsAre(bytes: Bytes, end: Ending)
    ensures var p := Split(bytes, LF);
            BodyTexts(bytes, end) == Texts(Utf8.DecodeLines(p.lines)) + LastTexts(p.tail, end)
  {
    var p := Split(bytes, LF);
    TextsConcat(Utf8.DecodeLines(p.lines), if end.Eof? then [Utf8.DecodeLossy(p.tail)] else []);
  }

  /** For every byte string, ending and decoder: a chat stream's items are the texts of its `data:` lines that are
      not blank, decoded, up to the sentinel; without one a transport failure is the last item. */
  lemma ReadsChat<T>(decode: string -> Result<T>, bytes: Bytes, end: Ending)
    ensures Rust.Items(Rust.ChatAction(decode), bytes, end)
            == ChatItems(decode, BodyTexts(bytes, end), Ndjson.Fault(end))
  {
    var p := Split(bytes, LF);
    ChatEnd(decode, p.tail, end);
    ChatLines(decode, p.lines, LastTexts(p.tail, end), Ndjson.Fault(end));
    BodyTextsAre(bytes, end);
  }

  // ---- Responses --------------------------------------------------------------------------------

  lemma TurnStep(decode: string -> Result<Rust.Event>, raw: string, texts: seq<string>, fault: seq<Result<Rust.Event>>)
    ensures Rust.Then(Rust.ResponsesAction(decode)(raw), TurnItems(decode, texts, fault))
            == TurnItems(decode, TextOf(raw) + texts, fault)
  {
    FrameLine(decode, raw);
    if TextOf(raw) == [] {
      assert [] + texts == texts;
    } else {
      assert TextOf(raw) == [TextOf(raw)[0]] && (TextOf(raw) + texts)[1..] == texts;
    }
  }

  lemma {:induction false} TurnLines(decode: string -> Result<Rust.Event>, raws: seq<Bytes>, texts: seq<string>,
                                     fault: seq<Result<Rust.Event>>)
    ensures Rust.Interpret(Rust.ResponsesAction(decode), raws, TurnItems(decode, texts, fault))
            == TurnItems(decode, Texts(Utf8.DecodeLines(raws)) + texts, fault)
    decreases |raws|
  {
    if raws == [] {
      assert Texts(Utf8.DecodeLines(raws)) + texts == texts;
    } else {
      var raw, rest := Utf8.DecodeLossy(raws[0]), Texts(Utf8.DecodeLines(raws[1..]));
      TurnLines(decode, raws[1..], texts, fault);
      TextsNext(raw, Utf8.DecodeLines(raws[1..]));
      TurnStep(decode, raw, rest + texts, fault);
      Assoc(TextOf(raw), rest, texts);
    }
  }

  lemma TurnEnd(decode: string -> Result<Rust.Event>, tail: Bytes, end: Ending)
    ensures Rust.AtEnd(Rust.ResponsesAction(decode), tail, end)
            == TurnItems(decode, LastTexts(tail, end), Ndjson.Fault(end))
  {
    if end.Eof? {
      var raw, none: seq<string> := Utf8.DecodeLossy(tail), [];
      TextsNext(raw, none);
      FrameLine(decode, raw);
      assert [raw] + none == [raw] && TextOf(raw) + [] == TextOf(raw);
      assert TextOf(raw) != [] ==> TextOf(raw)[1..] == [];
      if tail == [] { assert raw == ""; }
    }
  }

  /** For every byte string, ending and decoder: a Responses stream's items are its recognised events and what does
      not decode, in order, up to and with the first terminal or `error` event, the unterminated last line
      included; without one a transport failure is the last item. */
  lemma ReadsTurn(decode: string -> Result<Rust.Event>, bytes: Bytes, end: Ending)
    ensures Rust.Items(Rust.ResponsesAction(decode), bytes, end)
            == TurnItems(decode, BodyTexts(bytes, end), Ndjson.Fault(end))
  {
    var p := Split(bytes, LF);
    TurnEnd(decode, p.tail, end);
    TurnLines(decode, p.lines, LastTexts(p.tail, end), Ndjson.Fault(end));
    BodyTextsAre(bytes, end);
  }

  // ---- The last line feed -----------------------------------------------------------------------

  /** Whatever the lines mean: at a clean end an unterminated last line counts as if a line feed ended it. */
  lemma LastLineFeed<T>(act: string -> Rust.Action<T>, bytes: Bytes)
    requires bytes != [] && bytes[|bytes| - 1] != LF
    ensures Rust.Items(act, bytes, Eof) == Rust.Items(act, bytes + [LF], Eof)
  {
    TailIsLast(bytes);
    SplitFed(bytes);
    Counts(act, Split(bytes, LF).lines, Split(bytes, LF).tail);
  }

  lemma SplitFed(bytes: Bytes)
    ensures var p := Split(bytes, LF); Split(bytes + [LF], LF) == Pieces(p.lines + [p.tail], [])
  {
    var p, none: Bytes := Split(bytes, LF), [];
    SplitAppend(bytes, [LF], LF);
    SplitClean(bytes, LF);
    SplitStep(p.tail, none, LF);
    assert p.tail + [LF] + none == p.tail + [LF];
    assert Split(none, LF) == Pieces([], none);
    assert [p.tail] + [] == [p.tail];
  }

  lemma {:induction false} TailIsLast(bytes: Bytes)
    requires bytes != [] && bytes[|bytes| - 1] != LF
    ensures Split(bytes, LF).tail != []
    decreases |bytes|
  {
    if LF in bytes {
      var line, rest := Cut(bytes, LF);
      assert bytes[|bytes| - 1] == if rest == [] then LF else rest[|rest| - 1];
      TailIsLast(rest);
    }
  }

  lemma {:induction false} Counts<T>(act: string -> Rust.Action<T>, lines: seq<Bytes>, tail: Bytes)
    requires tail != []
    ensures Rust.Interpret(act, lines, Rust.AtEnd(act, tail, Eof))
            == Rust.Interpret(act, lines + [tail], Rust.AtEnd(act, [], Eof))
    decreases |lines|
  {
    if lines == [] {
      assert lines + [tail] == [tail] && [tail][1..] == [];
    } else {
      assert (lines + [tail])[1..] == lines[1..] + [tail];
      Counts(act, lines[1..], tail);
    }
  }
}
