/** The NDJSON readers of the Rust and TypeScript clients: which texts reach the JSON parser. */
module NdjsonAgreement {
  import opened Common
  import Lines = LineAgreement
  import Rust = RustStream
  import Ts = TypeScriptStream
  import Utf8

  // ---- Trimming ---------------------------------------------------------------------------------

  type Class = char -> bool

  /** A trimmed text, taken apart. */
  ghost predicate Trims(ws: Class, s: string, a: string, t: string, b: string) {
    && s == a + t + b
    && (forall c :: c in a ==> ws(c)) && (forall c :: c in b ==> ws(c))
    && (t != "" ==> !ws(t[0]) && !ws(t[|t| - 1]))
  }

  /** There is only one way to trim: a text with a kept character has its ends where it has. */
  lemma OneTrim(ws: Class, s: string, a: string, t: string, b: string, a': string, t': string, b': string)
    requires Trims(ws, s, a, t, b) && Trims(ws, s, a', t', b')
    ensures t == t'
  {
    if t != "" {
      Ends(ws, s, a, t, b, a', t', b');
      if t' != "" {
        Ends(ws, s, a', t', b', a, t, b);
        assert s[|a|..|a| + |t|] == t && s[|a'|..|a'| + |t'|] == t';
      }
    } else if t' != "" {
      Ends(ws, s, a', t', b', a, t, b);
    }
  }

  lemma Ends(ws: Class, s: string, a: string, t: string, b: string, a': string, t': string, b': string)
    requires Trims(ws, s, a, t, b) && Trims(ws, s, a', t', b') && t != ""
    ensures t' != "" && |a'| <= |a| && |b'| <= |b|
  {
    assert s[|a|] == t[0] && s[|a| + |t| - 1] == t[|t| - 1];
    assert forall i :: 0 <= i < |a'| ==> s[i] == a'[i] && a'[i] in a';
    assert forall i :: 0 <= i < |b'| ==> s[|s| - |b'| + i] == b'[i] && b'[i] in b';
  }

  /** With only white space in front of it, a kept character is the first of the trimmed text. */
  lemma FirstKept(ws: Class, s: string, a: string, t: string, b: string, k: nat)
    requires Trims(ws, s, a, t, b)
    requires k < |s| && !ws(s[k]) && forall i :: 0 <= i < k ==> ws(s[i])
    ensures t != "" && t[0] == s[k]
  {
    assert forall i :: 0 <= i < |a| ==> s[i] == a[i] && a[i] in a;
    assert forall i :: |a| + |t| <= i < |s| ==> s[i] == b[i - |a| - |t|] && b[i - |a| - |t|] in b;
    assert t != "" ==> s[|a|] == t[0];
  }

  /** With only white space behind it, a kept character is the last of the trimmed text. */
  lemma LastKept(ws: Class, s: string, a: string, t: string, b: string, k: nat)
    requires Trims(ws, s, a, t, b)
    requires k < |s| && !ws(s[k]) && forall i :: k < i < |s| ==> ws(s[i])
    ensures t != "" && t[|t| - 1] == s[k]
  {
    var e := |a| + |t|;
    assert forall i :: 0 <= i < |a| ==> s[i] == a[i] && a[i] in a;
    assert forall i :: e <= i < |s| ==> s[i] == b[i - e] && b[i - e] in b;
    assert t != "" ==> s[e - 1] == t[|t| - 1];
  }

  // ---- The two clients' trims -------------------------------------------------------------------

  lemma {:induction false} RustStart(s: string) returns (a: string)
    ensures s == a + Rust.TrimStart(s) && forall c :: c in a ==> Rust.IsWhitespace(c)
    ensures Rust.TrimStart(s) != "" ==> !Rust.IsWhitespace(Rust.TrimStart(s)[0])
  {
    a := "";
    if s != "" && Rust.IsWhitespace(s[0]) {
      var rest := RustStart(s[1..]);
      a := [s[0]] + rest;
    }
  }

  lemma {:induction false} RustEnd(s: string) returns (b: string)
    ensures s == Rust.TrimEnd(s) + b && forall c :: c in b ==> Rust.IsWhitespace(c)
    ensures var t := Rust.TrimEnd(s); t != "" ==> !Rust.IsWhitespace(t[|t| - 1])
  {
    b := "";
    if s != "" && Rust.IsWhitespace(s[|s| - 1]) {
      var rest := RustEnd(s[..|s| - 1]);
      b := rest + [s[|s| - 1]];
    }
  }

  lemma RustTrims(s: string) returns (a: string, b: string)
    ensures Trims(Rust.IsWhitespace, s, a, Rust.Trim(s), b)
  {
    a := RustStart(s);
    b := RustEnd(Rust.TrimStart(s));
    Assoc(a, Rust.Trim(s), b);
    assert Rust.Trim(s) != "" ==> Rust.TrimStart(s)[0] == Rust.Trim(s)[0];
  }

  lemma {:induction false} ScriptStart(s: string) returns (a: string)
    ensures s == a + Ts.TrimStart(s) && forall c :: c in a ==> Ts.IsWhitespace(c)
    ensures Ts.TrimStart(s) != "" ==> !Ts.IsWhitespace(Ts.TrimStart(s)[0])
  {
    a := "";
    if s != "" && Ts.IsWhitespace(s[0]) {
      var rest := ScriptStart(s[1..]);
      a := [s[0]] + rest;
    }
  }

  lemma {:induction false} ScriptEnd(s: string) returns (b: string)
    ensures s == Ts.TrimEnd(s) + b && forall c :: c in b ==> Ts.IsWhitespace(c)
    ensures var t := Ts.TrimEnd(s); t != "" ==> !Ts.IsWhitespace(t[|t| - 1])
  {
    b := "";
    if s != "" && Ts.IsWhitespace(s[|s| - 1]) {
      var rest := ScriptEnd(s[..|s| - 1]);
      b := rest + [s[|s| - 1]];
    }
  }

  lemma ScriptTrims(s: string) returns (a: string, b: string)
    ensures Trims(Ts.IsWhitespace, s, a, Ts.Trim(s), b)
  {
    a := ScriptStart(s);
    b := ScriptEnd(Ts.TrimStart(s));
    Assoc(a, Ts.Trim(s), b);
    assert Ts.Trim(s) != "" ==> Ts.TrimStart(s)[0] == Ts.Trim(s)[0];
  }

  // ---- One line ---------------------------------------------------------------------------------

  /** White space for both clients. */
  predicate Blank(c: char) { Rust.IsWhitespace(c) && Ts.IsWhitespace(c) }

  /** The two characters the clients disagree on: NEL is white space only in Rust, the byte order mark only
      in TypeScript. */
  predicate Odd(c: char) { c == '\U{0085}' || c == Utf8.BOM }

  lemma OddIsDisagreement(c: char)
    ensures Odd(c) <==> Rust.IsWhitespace(c) != Ts.IsWhitespace(c)
  {
  }

  /** A line whose first or last character that is not white space for both is one they disagree on. */
  predicate OddEnds(line: string) {
    exists k :: 0 <= k < |line| && Odd(line[k])
                && ((forall i :: 0 <= i < k ==> Blank(line[i])) || (forall i :: k < i < |line| ==> Blank(line[i])))
  }

  /** A text one of the clients would have trimmed further. */
  predicate Ragged(ws: Class, t: string) { t != "" && (ws(t[0]) || ws(t[|t| - 1])) }

  lemma RustIsNotRagged(s: string)
    ensures !Ragged(Rust.IsWhitespace, Rust.Trim(s))
  {
    var a, b := RustTrims(s);
  }

  lemma ScriptIsNotRagged(s: string)
    ensures !Ragged(Ts.IsWhitespace, Ts.Trim(s))
  {
    var a, b := ScriptTrims(s);
  }

  /** An odd end shows: one client passes on a text the other never would. */
  lemma OddEndsShow(line: string)
    requires OddEnds(line)
    ensures Ragged(Rust.IsWhitespace, Ts.Trim(line)) || Ragged(Ts.IsWhitespace, Rust.Trim(line))
  {
    var k :| 0 <= k < |line| && Odd(line[k])
             && ((forall i :: 0 <= i < k ==> Blank(line[i])) || (forall i :: k < i < |line| ==> Blank(line[i])));
    OddIsDisagreement(line[k]);
    var a, b := RustTrims(line);
    var c, d := ScriptTrims(line);
    if forall i :: 0 <= i < k ==> Blank(line[i]) {
      if Rust.IsWhitespace(line[k]) { FirstKept(Ts.IsWhitespace, line, c, Ts.Trim(line), d, k); }
      else { FirstKept(Rust.IsWhitespace, line, a, Rust.Trim(line), b, k); }
    } else {
      if Rust.IsWhitespace(line[k]) { LastKept(Ts.IsWhitespace, line, c, Ts.Trim(line), d, k); }
      else { LastKept(Rust.IsWhitespace, line, a, Rust.Trim(line), b, k); }
    }
  }

  /** In a line without odd ends, the clients agree on every character that only blanks separate from an end. */
  lemma EvenAt(line: string, k: nat)
    requires !OddEnds(line) && k < |line|
    requires (forall i :: 0 <= i < k ==> Blank(line[i])) || (forall i :: k < i < |line| ==> Blank(line[i]))
    ensures Rust.IsWhitespace(line[k]) == Ts.IsWhitespace(line[k])
  {
    OddIsDisagreement(line[k]);
  }

  lemma {:induction false} BlankFront(line: string, n: nat)
    requires !OddEnds(line) && n <= |line| && forall i :: 0 <= i < n ==> Rust.IsWhitespace(line[i])
    ensures forall i :: 0 <= i < n ==> Blank(line[i])
  {
    if n > 0 {
      BlankFront(line, n - 1);
      EvenAt(line, n - 1);
    }
  }

  lemma {:induction false} BlankBack(line: string, n: nat)
    requires !OddEnds(line) && n <= |line| && forall i :: |line| - n <= i < |line| ==> Rust.IsWhitespace(line[i])
    ensures forall i :: |line| - n <= i < |line| ==> Blank(line[i])
  {
    if n > 0 {
      BlankBack(line, n - 1);
      EvenAt(line, |line| - n);
    }
  }

  /** Without odd ends both clients trim a line to the same text. */
  lemma EvenEndsAgree(line: string)
    requires !OddEnds(line)
    ensures Rust.Trim(line) == Ts.Trim(line)
  {
    var a, b := RustTrims(line);
    var c, d := ScriptTrims(line);
    EvenTrims(line, a, Rust.Trim(line), b);
    OneTrim(Ts.IsWhitespace, line, a, Rust.Trim(line), b, c, Ts.Trim(line), d);
  }

  /** A line without odd ends is trimmed for one client where it is for the other. */
  lemma EvenTrims(line: string, a: string, t: string, b: string)
    requires !OddEnds(line) && Trims(Rust.IsWhitespace, line, a, t, b)
    ensures Trims(Ts.IsWhitespace, line, a, t, b)
  {
    var e := |a| + |t|;
    assert forall i :: 0 <= i < |a| ==> line[i] == a[i];
    assert forall i :: e <= i < |line| ==> line[i] == b[i - e];
    BlankFront(line, |a|);
    BlankBack(line, |b|);
    if t != "" {
      assert line[|a|] == t[0] && line[e - 1] == t[|t| - 1];
      EvenAt(line, |a|);
      EvenAt(line, e - 1);
    }
    assert forall i :: 0 <= i < |b| ==> b[i] == line[e + i];
  }

  // ---- Whole bodies -----------------------------------------------------------------------------

  /** The texts a client passes to its JSON parser, one for every line that is not blank. */
  function RustTexts(lines: seq<string>): seq<string> {
    if lines == [] then []
    else (if Rust.Trim(lines[0]) == "" then [] else [Rust.Trim(lines[0])]) + RustTexts(lines[1..])
  }

  function ScriptTexts(lines: seq<string>): seq<string> {
    if lines == [] then []
    else (if Ts.Trim(lines[0]) == "" then [] else [Ts.Trim(lines[0])]) + ScriptTexts(lines[1..])
  }

  lemma {:induction false} SameTexts(lines: seq<string>)
    requires forall l :: l in lines ==> !OddEnds(l)
    ensures RustTexts(lines) == ScriptTexts(lines)
  {
    if lines != [] {
      EvenEndsAgree(lines[0]);
      SameTexts(lines[1..]);
    }
  }

  lemma {:induction false} TextsAreTrimmed(lines: seq<string>)
    ensures forall t :: t in RustTexts(lines) ==> !Ragged(Rust.IsWhitespace, t)
    ensures forall t :: t in ScriptTexts(lines) ==> !Ragged(Ts.IsWhitespace, t)
  {
    if lines != [] {
      RustIsNotRagged(lines[0]);
      ScriptIsNotRagged(lines[0]);
      TextsAreTrimmed(lines[1..]);
    }
  }

  lemma {:induction false} TextIn(lines: seq<string>, l: string)
    requires l in lines
    ensures Rust.Trim(l) != "" ==> Rust.Trim(l) in RustTexts(lines)
    ensures Ts.Trim(l) != "" ==> Ts.Trim(l) in ScriptTexts(lines)
  {
    if l != lines[0] { TextIn(lines[1..], l); }
  }

  /** The two clients pass on the same texts exactly when no line has odd ends. */
  lemma TextsAgree(lines: seq<string>)
    ensures RustTexts(lines) == ScriptTexts(lines) <==> forall l :: l in lines ==> !OddEnds(l)
  {
    if forall l :: l in lines ==> !OddEnds(l) {
      SameTexts(lines);
    } else {
      var l :| l in lines && OddEnds(l);
      OddEndsShow(l);
      TextIn(lines, l);
      TextsAreTrimmed(lines);
    }
  }

  // ---- Both readers -----------------------------------------------------------------------------

  /** Every line of a body decoded by itself; the unterminated rest is the last, unless the transport fails. */
  function AllLines(bytes: Bytes, end: Ending): seq<string> {
    var (lines, last) := Lines.RustLines(bytes);
    lines + if end.Eof? then [last] else []
  }

  function Decoded<T>(decode: string -> Result<T>, texts: seq<string>): seq<Result<T>> {
    if texts == [] then [] else [decode(texts[0])] + Decoded(decode, texts[1..])
  }

  /** The item a failing transport adds. */
  function Fault<T>(end: Ending): seq<Result<T>> { if end.Failed? then [Err(end.error)] else [] }

  /** Results up to the first error, which is thrown. */
  function UpToError<T>(results: seq<Result<T>>): Ts.Outcome<T> {
    if results == [] then Ts.Outcome([], Eof)
    else match results[0]
      case Err(e) => Ts.Outcome([], Failed(e))
      case Ok(x) =>
        var rest := UpToError(results[1..]);
        Ts.Outcome([x] + rest.items, rest.end)
  }

  lemma UpToErrorStep<T>(first: Result<T>, results: seq<Result<T>>)
    ensures var rest := UpToError(results);
            UpToError([first] + results)
            == if first.Err? then Ts.Outcome([], Failed(first.error))
               else Ts.Outcome([first.value] + rest.items, rest.end)
  {
    assert ([first] + results)[1..] == results;
  }

  lemma {:induction false} RustReads<T>(decode: string -> Result<T>, raw: seq<Bytes>, last: seq<string>,
                                        fault: seq<Result<T>>)
    ensures Rust.Interpret(Rust.NdjsonAction(decode), raw, Decoded(decode, RustTexts(last)) + fault)
            == Decoded(decode, RustTexts(Utf8.DecodeLines(raw) + last)) + fault
  {
    if raw == [] {
      assert Utf8.DecodeLines(raw) + last == last;
    } else {
      RustReads(decode, raw[1..], last, fault);
      var line, rest := Utf8.DecodeLossy(raw[0]), Utf8.DecodeLines(raw[1..]) + last;
      Assoc([line], Utf8.DecodeLines(raw[1..]), last);
      DecodeNext(decode, line, rest);
      NdjsonLine(decode, line, Decoded(decode, RustTexts(rest)) + fault);
      Assoc([decode(Rust.Trim(line))], Decoded(decode, RustTexts(rest)), fault);
    }
  }

  lemma NdjsonLine<T>(decode: string -> Result<T>, line: string, later: seq<Result<T>>)
    ensures Rust.Then(Rust.NdjsonAction(decode)(line), later)
            == if Rust.Trim(line) == "" then later else [decode(Rust.Trim(line))] + later
  {
  }

  lemma DecodeNext<T>(decode: string -> Result<T>, line: string, rest: seq<string>)
    ensures Decoded(decode, RustTexts([line] + rest))
            == if Rust.Trim(line) == "" then Decoded(decode, RustTexts(rest))
               else [decode(Rust.Trim(line))] + Decoded(decode, RustTexts(rest))
  {
    assert ([line] + rest)[1..] == rest;
    var text := Rust.Trim(line);
    assert ([text] + RustTexts(rest))[1..] == RustTexts(rest);
    assert [] + RustTexts(rest) == RustTexts(rest);
  }

  /** The Rust reader decodes the texts of all lines; a failing transport adds its error. */
  lemma RustItems<T>(decode: string -> Result<T>, bytes: Bytes, end: Ending)
    ensures Rust.Items(Rust.NdjsonAction(decode), bytes, end)
            == Decoded(decode, RustTexts(AllLines(bytes, end))) + Fault(end)
  {
    var p := Split(bytes, LF);
    var last := if end.Eof? then [Utf8.DecodeLossy(p.tail)] else [];
    RustRest(decode, p.tail, end);
    RustReads(decode, p.lines, last, Fault(end));
  }

  lemma RustRest<T>(decode: string -> Result<T>, tail: Bytes, end: Ending)
    ensures Rust.AtEnd(Rust.NdjsonAction(decode), tail, end)
            == Decoded(decode, RustTexts(if end.Eof? then [Utf8.DecodeLossy(tail)] else [])) + Fault(end)
  {
    if end.Eof? {
      var none: seq<string> := [];
      DecodeNext(decode, Utf8.DecodeLossy(tail), none);
      assert [Utf8.DecodeLossy(tail)] + none == [Utf8.DecodeLossy(tail)];
      if tail == [] { assert Utf8.DecodeLossy(tail) == ""; }
    }
  }

  lemma {:induction false} ScriptReads<T>(decode: string -> Result<T>, lines: seq<string>, end: Ending)
    ensures Ts.Objects(decode, lines, end) == UpToError(Decoded(decode, ScriptTexts(lines)) + Fault(end))
  {
    if lines == [] {
      var none: seq<Result<T>> := Decoded(decode, ScriptTexts(lines));
      assert none + Fault(end) == Fault(end);
    } else {
      ScriptReads(decode, lines[1..], end);
      var text, texts := Ts.Trim(lines[0]), ScriptTexts(lines[1..]);
      assert [] + texts == texts && ([text] + texts)[1..] == texts;
      Assoc([decode(text)], Decoded(decode, texts), Fault(end));
      UpToErrorStep(decode(text), Decoded(decode, texts) + Fault(end));
    }
  }

  lemma ChopKeepsText(line: string)
    ensures Ts.Trim(Ts.ChopCr(line)) == Ts.Trim(line)
  {
    var t := Ts.ChopCr(line);
    var a, b := ScriptTrims(t);
    var c, d := ScriptTrims(line);
    if t != line {
      assert line == t + ['\r'];
      Assoc(a + Ts.Trim(t), b, ['\r']);
      OneTrim(Ts.IsWhitespace, line, a, Ts.Trim(t), b + ['\r'], c, Ts.Trim(line), d);
    }
  }

  lemma {:induction false} TextsConcat(a: seq<string>, b: seq<string>)
    ensures ScriptTexts(a + b) == ScriptTexts(a) + ScriptTexts(b)
    decreases |a|
  {
    if a == [] {
      assert a + b == b && ScriptTexts(a) + ScriptTexts(b) == ScriptTexts(b);
    } else {
      TextsConcat(a[1..], b);
      assert (a + b)[1..] == a[1..] + b;
      Assoc(if Ts.Trim(a[0]) == "" then [] else [Ts.Trim(a[0])], ScriptTexts(a[1..]), ScriptTexts(b));
    }
  }

  /** Carriage returns at the line ends make no difference. */
  lemma {:induction false} ChoppedTexts(lines: seq<string>)
    ensures ScriptTexts(Ts.ChopAll(lines)) == ScriptTexts(lines)
  {
    if lines != [] {
      ChopKeepsText(lines[0]);
      ChoppedTexts(lines[1..]);
      TextsStep(Ts.ChopCr(lines[0]), Ts.ChopAll(lines[1..]));
    }
  }

  lemma TextsStep(line: string, rest: seq<string>)
    ensures ScriptTexts([line] + rest)
            == (if Ts.Trim(line) == "" then [] else [Ts.Trim(line)]) + ScriptTexts(rest)
  {
    assert ([line] + rest)[1..] == rest;
  }

  /** Whether the text decoder has dropped a byte order mark from the lines. */
  predicate MarkMissing(bytes: Bytes, end: Ending) { Lines.MARK <= bytes && (end.Eof? || LF in bytes) }

  /** The TypeScript reader parses the texts of all lines up to the first error. */
  lemma ScriptItems<T>(decode: string -> Result<T>, bytes: Bytes, end: Ending)
    requires !MarkMissing(bytes, end)
    ensures Ts.Objects(decode, Ts.BodyLines(bytes, end).items, end)
            == UpToError(Decoded(decode, ScriptTexts(AllLines(bytes, end))) + Fault(end))
  {
    ScriptReads(decode, Ts.BodyLines(bytes, end).items, end);
    SameLineTexts(bytes, end);
  }

  lemma SameLineTexts(bytes: Bytes, end: Ending)
    requires !MarkMissing(bytes, end)
    ensures ScriptTexts(Ts.BodyLines(bytes, end).items) == ScriptTexts(AllLines(bytes, end))
  {
    var (lines, last) := Lines.RustLines(bytes);
    ChoppedTexts(lines);
    if end.Eof? {
      Lines.DecodeThenSplit(bytes);
      LastTexts(last);
      TextsConcat(Ts.ChopAll(lines), Ts.LastLine(last));
      TextsConcat(lines, [last]);
    } else {
      Lines.DecodeThenSplitFailing(bytes, end.error);
      assert lines + [] == lines;
    }
  }

  lemma LastTexts(last: string)
    ensures ScriptTexts(Ts.LastLine(last)) == ScriptTexts([last])
  {
    ChopKeepsText(last);
    assert [last] + [] == [last] && [Ts.ChopCr(last)] + [] == [Ts.ChopCr(last)];
    TextsStep(last, []);
    TextsStep(Ts.ChopCr(last), []);
  }

  /** A leading byte order mark is an odd end of the first line. */
  lemma MarkIsOdd(bytes: Bytes, end: Ending)
    requires MarkMissing(bytes, end)
    ensures var lines := AllLines(bytes, end);
            lines != [] && lines[0] != "" && lines[0][0] == Utf8.BOM && OddEnds(lines[0])
  {
    var text := Utf8.DecodeLossy(bytes);
    Lines.StartsWithMark(bytes);
    Utf8.DecodeCommutesWithSplit(bytes);
    Lines.LinesIffTerminated(bytes);
    var first := AllLines(bytes, end)[0];
    assert first == if '\n' in text then Split(text, '\n').lines[0] else Split(text, '\n').tail;
    if '\n' in text { var line, rest := Cut(text, '\n'); }
    OddAt(first, 0);
  }

  lemma OddAt(line: string, k: nat)
    requires k < |line| && Odd(line[k]) && forall i :: 0 <= i < k ==> Blank(line[i])
    ensures OddEnds(line)
  {
  }

  /** For every body, however it ends, whose lines have no odd ends, and every JSON parser: the TypeScript reader
      yields what the Rust reader yields, up to the first error, of a line that does not parse or of the
      transport. */
  lemma ReadersAgree<T>(decode: string -> Result<T>, bytes: Bytes, end: Ending)
    requires forall l :: l in AllLines(bytes, end) ==> !OddEnds(l)
    ensures Ts.Objects(decode, Ts.BodyLines(bytes, end).items, end)
            == UpToError(Rust.Items(Rust.NdjsonAction(decode), bytes, end))
  {
    if MarkMissing(bytes, end) { MarkIsOdd(bytes, end); }
    RustItems(decode, bytes, end);
    ScriptItems(decode, bytes, end);
    TextsAgree(AllLines(bytes, end));
  }

  /** A parser that accepts every text and gives it back. */
  function Accept(s: string): Result<string> { Ok(s) }

  /** And only for those: a parser that accepts every text shows any odd end. */
  lemma ReadersAgreeOnlyThen(bytes: Bytes, end: Ending)
    ensures Ts.Objects(Accept, Ts.BodyLines(bytes, end).items, end)
            == UpToError(Rust.Items(Rust.NdjsonAction(Accept), bytes, end))
            <==> forall l :: l in AllLines(bytes, end) ==> !OddEnds(l)
  {
    var lines := AllLines(bytes, end);
    RustItems(Accept, bytes, end);
    AcceptedTexts(RustTexts(lines), end);
    if MarkMissing(bytes, end) {
      MarkIsOdd(bytes, end);
      MarkedReadersDiffer(bytes, end);
    } else {
      ScriptItems(Accept, bytes, end);
      TextsAgree(lines);
      AcceptedTexts(ScriptTexts(lines), end);
    }
  }

  /** Rust passes the mark on, TypeScript never does. */
  lemma MarkedReadersDiffer(bytes: Bytes, end: Ending)
    requires MarkMissing(bytes, end)
    ensures Ts.Objects(Accept, Ts.BodyLines(bytes, end).items, end).items != RustTexts(AllLines(bytes, end))
  {
    MarkIsOdd(bytes, end);
    var lines, first := Ts.BodyLines(bytes, end).items, AllLines(bytes, end)[0];
    var a, b := RustTrims(first);
    OddIsDisagreement(Utf8.BOM);
    FirstKept(Rust.IsWhitespace, first, a, Rust.Trim(first), b, 0);
    TextIn(AllLines(bytes, end), first);
    ScriptReads(Accept, lines, end);
    AcceptedTexts(ScriptTexts(lines), end);
    TextsAreTrimmed(lines);
    assert Ragged(Ts.IsWhitespace, Rust.Trim(first)) by { assert Ts.IsWhitespace(Utf8.BOM); }
  }

  lemma {:induction false} AcceptedTexts(texts: seq<string>, end: Ending)
    ensures UpToError(Decoded(Accept, texts) + Fault(end)) == Ts.Outcome(texts, end)
    decreases |texts|
  {
    if texts == [] {
      assert Decoded(Accept, texts) + Fault(end) == Fault<string>(end);
    } else {
      AcceptedTexts(texts[1..], end);
      var first: seq<Result<string>> := [Accept(texts[0])];
      Assoc(first, Decoded(Accept, texts[1..]), Fault(end));
      UpToErrorStep(Accept(texts[0]), Decoded(Accept, texts[1..]) + Fault(end));
      assert texts == [texts[0]] + texts[1..];
    }
  }
}
