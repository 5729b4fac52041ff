/** Lines: TypeScript decodes the stream and then splits the text; Rust splits the bytes and then decodes
    each line. */
module LineAgreement {
  import opened Common
  import Utf8
  import Ts = TypeScriptStream

  /** The lines the Rust client interprets at a clean end, each decoded by itself, before its parsers
      drop the carriage return: the terminated ones and a non-empty rest. */
  function RustLines(bytes: Bytes): (seq<string>, string) {
    var p := Split(bytes, LF);
    (Utf8.DecodeLines(p.lines), Utf8.DecodeLossy(p.tail))
  }

  /** The byte order mark. */
  const MARK: Bytes := [0xEF, 0xBB, 0xBF]

  /** Decoding then splitting gives the lines of splitting then decoding, less one trailing carriage
      return each and an empty last line, exactly when the body does not start with a byte order mark;
      the text decoder drops the mark, and the Rust client keeps it in its first line. */
  lemma DecodeThenSplit(bytes: Bytes)
    ensures var (lines, last) := RustLines(bytes);
            Ts.BodyLines(bytes, Eof).items == Ts.ChopAll(lines) + Ts.LastLine(last) <==> !(MARK <= bytes)
  {
    var text := Utf8.DecodeLossy(bytes);
    Utf8.DecodeCommutesWithSplit(bytes);
    StartsWithMark(bytes);
    if ShowsMark(text) {
      MarkShows(text);
    }
  }

  /** Lines with and without a leading mark differ. */
  lemma MarkShows(text: string)
    requires ShowsMark(text)
    ensures var p, q := Split(text, '\n'), Split(text[1..], '\n');
            Ts.ChopAll(q.lines) + Ts.LastLine(q.tail) != Ts.ChopAll(p.lines) + Ts.LastLine(p.tail)
  {
    if '\n' in text[1..] {
      var p, q := Split(text, '\n'), Split(text[1..], '\n');
      MarkInFirstLine(text);
      FirstsDiffer(Ts.ChopAll(q.lines), Ts.LastLine(q.tail), Ts.ChopAll(p.lines), Ts.LastLine(p.tail));
    } else {
      assert text == [text[0]] + text[1..];
      assert '\n' !in text;
      ChopMark(text[1..]);
      LastLinesDiffer(text);
    }
  }

  lemma FirstsDiffer<T>(a: seq<T>, x: seq<T>, b: seq<T>, y: seq<T>)
    requires a != [] && b != [] && a[0] != b[0]
    ensures a + x != b + y
  {
    assert (a + x)[0] == a[0] && (b + y)[0] == b[0];
  }

  /** With a first line, the mark is in it. */
  lemma MarkInFirstLine(text: string)
    requires ShowsMark(text) && '\n' in text[1..]
    ensures var p, q := Split(text, '\n').lines, Split(text[1..], '\n').lines;
            p != [] && q != [] && Ts.ChopCr(q[0]) != Ts.ChopCr(p[0])
  {
    var line, rest := Cut(text[1..], '\n');
    assert text == [text[0]] + text[1..];
    Assoc([text[0]], line + ['\n'], rest);
    Assoc([text[0]], line, ['\n']);
    SplitStep([text[0]] + line, rest, '\n');
    ChopMark(line);
  }

  lemma LastLinesDiffer(text: string)
    requires '\n' !in text && text != "" && |Ts.ChopCr(text)| == 1 + |Ts.ChopCr(text[1..])|
    ensures var p, q := Split(text, '\n'), Split(text[1..], '\n');
            Ts.ChopAll(q.lines) + Ts.LastLine(q.tail) != Ts.ChopAll(p.lines) + Ts.LastLine(p.tail)
  {
    var p, q := Split(text, '\n'), Split(text[1..], '\n');
    assert p == Pieces([], text) && q == Pieces([], text[1..]);
    assert Ts.ChopAll([]) + Ts.LastLine(text) == [Ts.ChopCr(text)];
    assert Ts.ChopAll([]) + Ts.LastLine(text[1..]) == Ts.LastLine(text[1..]);
    assert Ts.LastLine(text[1..]) != [] ==> Ts.LastLine(text[1..])[0] == Ts.ChopCr(text[1..]);
  }

  /** A body that fails: the terminated lines are Rust's decoded one by one, less one trailing carriage return
      each, exactly when the body does not start with a byte order mark or has no terminated line. */
  lemma DecodeThenSplitFailing(bytes: Bytes, error: Error)
    ensures Ts.BodyLines(bytes, Failed(error)).items == Ts.ChopAll(RustLines(bytes).0)
            <==> !(MARK <= bytes) || LF !in bytes
  {
    var out := Utf8.Run(Utf8.INITIAL, bytes).1;
    DecodedLines(bytes);
    FailingItems(bytes, error);
    StartsWithMark(bytes);
    SameMark(out, Utf8.Flush(Utf8.Run(Utf8.INITIAL, bytes).0));
    LinesIffTerminated(bytes);
    if ShowsMark(out) { MarkShowsInLines(out); }
  }

  /** The final flush ends no line. */
  lemma DecodedLines(bytes: Bytes)
    ensures Split(Utf8.Run(Utf8.INITIAL, bytes).1, '\n').lines == RustLines(bytes).0
  {
    var r := Utf8.Run(Utf8.INITIAL, bytes);
    Utf8.DecodeCommutesWithSplit(bytes);
    SplitAppend(r.1, Utf8.Flush(r.0), '\n');
    SplitClean(r.1, '\n');
    NoMoreLines(Split(r.1, '\n').tail + Utf8.Flush(r.0));
    var lines := Split(r.1, '\n').lines;
    assert lines + [] == lines;
  }

  lemma FailingItems(bytes: Bytes, error: Error)
    ensures Ts.BodyLines(bytes, Failed(error)).items
            == Ts.ChopAll(Split(Ts.StripBom(Utf8.Run(Utf8.INITIAL, bytes).1), '\n').lines)
  {
    var lines := Ts.ChopAll(Split(Ts.StripBom(Utf8.Run(Utf8.INITIAL, bytes).1), '\n').lines);
    assert lines + [] == lines;
  }

  lemma NoMoreLines(tail: string)
    requires '\n' !in tail
    ensures Split(tail, '\n').lines == []
  {
  }

  /** The final flush does not change whether the mark comes first. */
  lemma SameMark(out: string, flushed: string)
    requires flushed == "" || flushed == [Utf8.REPLACEMENT]
    ensures ShowsMark(out + flushed) <==> ShowsMark(out)
  {
  }

  lemma LinesIffTerminated(bytes: Bytes)
    ensures RustLines(bytes).0 == [] <==> LF !in bytes
  {
    if LF in bytes { var line, rest := Cut(bytes, LF); }
  }

  /** The terminated lines with and without a leading mark differ, unless there are none. */
  lemma MarkShowsInLines(text: string)
    requires ShowsMark(text)
    ensures Ts.ChopAll(Split(text[1..], '\n').lines) == Ts.ChopAll(Split(text, '\n').lines)
            <==> Split(text, '\n').lines == []
  {
    if '\n' in text[1..] {
      MarkInFirstLine(text);
    } else {
      assert text == [text[0]] + text[1..];
      assert '\n' !in text;
    }
  }

  lemma ChopMark(line: string)
    ensures |Ts.ChopCr([Utf8.BOM] + line)| == 1 + |Ts.ChopCr(line)|
  {
  }

  /** The text still to come from a decoder state, the final flush included. */
  function Rest(st: Utf8.State, bytes: Bytes): string {
    Utf8.Run(st, bytes).1 + Utf8.Flush(Utf8.Run(st, bytes).0)
  }

  lemma RestHead(st: Utf8.State, bytes: Bytes)
    ensures Rest(st, bytes) == if bytes == [] then Utf8.Flush(st)
                               else Utf8.Step(st, bytes[0]).1 + Rest(Utf8.Step(st, bytes[0]).0, bytes[1..])
  {
    if bytes == [] {
      assert Rest(st, bytes) == "" + Utf8.Flush(st);
    } else {
      var st1, tail := Utf8.Step(st, bytes[0]).0, bytes[1..];
      Assoc(Utf8.Step(st, bytes[0]).1, Utf8.Run(st1, tail).1, Utf8.Flush(Utf8.Run(st1, tail).0));
    }
  }

  predicate ShowsMark(text: string) { text != "" && text[0] == Utf8.BOM }

  /** Two bytes into a three-byte sequence, the mark shows only if the third byte completes it. */
  lemma ThirdByte(cp: nat, bytes: Bytes)
    requires 0x20 <= cp <= 0x3FF && !(0x360 <= cp <= 0x37F)
    requires ShowsMark(Rest(Utf8.RawState(cp, 1, 2, 0x80, 0xBF), bytes))
    ensures cp == 0x3FB && bytes != [] && bytes[0] == 0xBF
  {
    RestHead(Utf8.RawState(cp, 1, 2, 0x80, 0xBF), bytes);
  }

  lemma SecondByte(h: Byte, bytes: Bytes)
    requires 0xE0 <= h <= 0xEF
    requires ShowsMark(Rest(Utf8.Lead(h).0, bytes))
    ensures h == 0xEF && |bytes| >= 2 && bytes[0] == 0xBB && bytes[1] == 0xBF
  {
    var st := Utf8.Lead(h).0;
    RestHead(st, bytes);
    if bytes != [] && st.lower <= bytes[0] <= st.upper {
      ThirdByte(st.cp * 64 + bytes[0] % 64, bytes[1..]);
    }
  }

  /** Inside a four-byte sequence, the mark cannot be next. */
  lemma FourBytes(st: Utf8.State, bytes: Bytes)
    requires st.needed == 3
    ensures !ShowsMark(Rest(st, bytes))
    decreases |bytes|
  {
    RestHead(st, bytes);
    if bytes != [] && st.lower <= bytes[0] <= st.upper && st.seen < 2 {
      FourBytes(Utf8.Step(st, bytes[0]).0, bytes[1..]);
    }
  }

  lemma TwoBytes(st: Utf8.State, bytes: Bytes)
    requires st.needed == 1
    ensures !ShowsMark(Rest(st, bytes))
  {
    RestHead(st, bytes);
  }

  lemma MarkOnly(bytes: Bytes)
    requires ShowsMark(Rest(Utf8.INITIAL, bytes))
    ensures MARK <= bytes
  {
    RestHead(Utf8.INITIAL, bytes);
    var h, tail := bytes[0], bytes[1..];
    if 0xC2 <= h <= 0xDF {
      TwoBytes(Utf8.Lead(h).0, tail);
    } else if 0xF0 <= h <= 0xF4 {
      FourBytes(Utf8.Lead(h).0, tail);
    } else if 0xE0 <= h <= 0xEF {
      SecondByte(h, tail);
    }
  }

  /** The first character decoded is the mark exactly when the first three bytes are. */
  lemma StartsWithMark(bytes: Bytes)
    ensures MARK <= bytes <==> ShowsMark(Utf8.DecodeLossy(bytes))
  {
    if MARK <= bytes {
      assert bytes == MARK + bytes[3..];
      Utf8.RunConcat(Utf8.INITIAL, MARK, bytes[3..]);
      Utf8.DecodeChar(Utf8.BOM);
      assert Utf8.EncodeChar(Utf8.BOM) == MARK;
    }
    if ShowsMark(Utf8.DecodeLossy(bytes)) {
      MarkOnly(bytes);
    }
  }
}
