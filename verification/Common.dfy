/** Values and sequence helpers shared by every part of the model. */
module Common {

  type Byte = b: int | 0 <= b < 256
  type Bytes = seq<Byte>

  const LF: Byte := 10
  const CR: Byte := 13

  datatype Option<+T> = None | Some(value: T)

  /** The errors a client stream can surface. */
  datatype Error =
    | Transport(code: int)
    | Decode(reason: string)
    | Api(status: nat, message: string)
    | TokenTooLong

  datatype Result<+T> = Ok(value: T) | Err(error: Error)

  /** How a response body ends: cleanly, or with a transport failure. */
  datatype Ending = Eof | Failed(error: Error)

  /** The bytes of a chunked body. */
  function Concat(chunks: seq<Bytes>): Bytes {
    if chunks == [] then [] else chunks[0] + Concat(chunks[1..])
  }

  /** The first position of `x` in `s`. */
  function IndexOf<T(==)>(s: seq<T>, x: T): (r: Option<nat>)
    ensures r.None? <==> x !in s
    ensures r.Some? ==> r.value < |s| && s[r.value] == x && x !in s[..r.value]
  {
    if s == [] then None
    else if s[0] == x then Some(0)
    else match IndexOf(s[1..], x)
      case None => None
      case Some(i) =>
        assert s[..i + 1] == [s[0]] + s[1..][..i];
        Some(i + 1)
  }

  lemma IndexOfIs<T>(s: seq<T>, x: T, i: nat)
    requires i < |s| && s[i] == x && x !in s[..i]
    ensures IndexOf(s, x) == Some(i)
  {
    var j := IndexOf(s, x).value;
    assert forall k :: 0 <= k < i ==> s[k] == s[..i][k];
    assert forall k :: 0 <= k < j ==> s[k] == s[..j][k];
  }

  /** `s` cut at every `sep`: the terminated pieces, and the piece left after the last `sep`. */
  datatype Pieces<T> = Pieces(lines: seq<seq<T>>, tail: seq<T>)

  function Split<T(==)>(s: seq<T>, sep: T): Pieces<T>
    decreases |s|
  {
    match IndexOf(s, sep)
    case None => Pieces([], s)
    case Some(i) =>
      var rest := Split(s[i + 1..], sep);
      Pieces([s[..i]] + rest.lines, rest.tail)
  }

  /** The part of `s` before its first `sep`, and the part after. */
  lemma Cut<T>(s: seq<T>, sep: T) returns (line: seq<T>, rest: seq<T>)
    requires sep in s
    ensures sep !in line && s == line + [sep] + rest
    ensures Split(s, sep).lines == [line] + Split(rest, sep).lines && Split(s, sep).tail == Split(rest, sep).tail
  {
    var i := IndexOf(s, sep).value;
    line, rest := s[..i], s[i + 1..];
  }

  /** The first piece, by position. */
  lemma SplitFirst<T>(s: seq<T>, sep: T)
    requires sep in s
    ensures var i, rest := IndexOf(s, sep).value, Split(s[IndexOf(s, sep).value + 1..], sep);
            Split(s, sep).lines == [s[..i]] + rest.lines && Split(s, sep).tail == rest.tail
  {
  }

  lemma {:induction false} SplitClean<T>(s: seq<T>, sep: T)
    ensures sep !in Split(s, sep).tail
    ensures forall k :: 0 <= k < |Split(s, sep).lines| ==> sep !in Split(s, sep).lines[k]
    decreases |s|
  {
    if sep in s {
      var line, rest := Cut(s, sep);
      SplitClean(rest, sep);
    }
  }

  /** Putting the separators back is the inverse of `Split`. */
  function Join<T>(p: Pieces<T>, sep: T): seq<T>
    decreases |p.lines|
  {
    if p.lines == [] then p.tail
    else p.lines[0] + [sep] + Join(Pieces(p.lines[1..], p.tail), sep)
  }

  lemma {:induction false} JoinSplit<T>(s: seq<T>, sep: T)
    ensures Join(Split(s, sep), sep) == s
    decreases |s|
  {
    if sep in s {
      var line, rest := Cut(s, sep);
      JoinSplit(rest, sep);
      JoinStep(line, Split(rest, sep), sep);
    }
  }

  lemma JoinStep<T>(line: seq<T>, rest: Pieces<T>, sep: T)
    ensures Join(Pieces([line] + rest.lines, rest.tail), sep) == line + [sep] + Join(rest, sep)
  {
    assert ([line] + rest.lines)[1..] == rest.lines;
  }

  lemma {:induction false} SplitJoin<T>(p: Pieces<T>, sep: T)
    requires sep !in p.tail && forall k :: 0 <= k < |p.lines| ==> sep !in p.lines[k]
    ensures Split(Join(p, sep), sep) == p
    decreases |p.lines|
  {
    if p.lines != [] {
      var rest := Pieces(p.lines[1..], p.tail);
      SplitJoin(rest, sep);
      SplitStep(p.lines[0], Join(rest, sep), sep);
    }
  }

  /** One terminated piece at the front of `s` is the first piece of the split. */
  lemma SplitStep<T>(line: seq<T>, rest: seq<T>, sep: T)
    requires sep !in line
    ensures Split(line + [sep] + rest, sep)
            == Pieces([line] + Split(rest, sep).lines, Split(rest, sep).tail)
  {
    var s := line + [sep] + rest;
    assert s[..|line|] == line;
    IndexOfIs(s, sep, |line|);
    assert s[|line| + 1..] == rest;
  }

  /** Splitting may stop anywhere and go on later with the tail it was left with. */
  lemma {:induction false} SplitAppend<T>(a: seq<T>, b: seq<T>, sep: T)
    ensures Split(a + b, sep).lines == Split(a, sep).lines + Split(Split(a, sep).tail + b, sep).lines
    ensures Split(a + b, sep).tail == Split(Split(a, sep).tail + b, sep).tail
    decreases |a|
  {
    if sep in a {
      var line, rest := Cut(a, sep);
      Assoc(line + [sep], rest, b);
      SplitStep(line, rest + b, sep);
      SplitAppend(rest, b, sep);
      Assoc([line], Split(rest, sep).lines, Split(Split(rest, sep).tail + b, sep).lines);
    }
  }

  lemma Assoc<T>(a: seq<T>, b: seq<T>, c: seq<T>)
    ensures a + b + c == a + (b + c)
  {
  }
}
