/** The UTF-8 decoder of section 8.1.1 of the WHATWG Encoding Standard, the UTF-8 encoder, and the
    strict decoder behind `str::from_utf8`. */
module Utf8 {
  import opened Common

  const REPLACEMENT: char := '\U{FFFD}'
  const BOM: char := '\U{FEFF}'

  // ---- The streaming (lossy) decoder ----------------------------------------------------------

  /** The decoder's code point, bytes seen, bytes needed, and lower and upper boundary. */
  datatype RawState = RawState(cp: nat, seen: nat, needed: nat, lower: Byte, upper: Byte)

  const INITIAL: State := RawState(0, 0, 0, 0x80, 0xBF)

  /** The states the decoder can be in: what is decoded so far can still become a scalar value. */
  ghost predicate Reachable(st: RawState) {
    match st.needed
    case 0 => st == RawState(0, 0, 0, 0x80, 0xBF)
    case 1 => st.seen == 0 && 0x02 <= st.cp <= 0x1F && st.lower == 0x80 && st.upper == 0xBF
    case 2 =>
      (st.seen == 0 && st.cp <= 0x0F
       && st.lower == (if st.cp == 0 then 0xA0 else 0x80) && st.upper == (if st.cp == 0x0D then 0x9F else 0xBF))
      || (st.seen == 1 && 0x20 <= st.cp <= 0x3FF && !(0x360 <= st.cp <= 0x37F)
          && st.lower == 0x80 && st.upper == 0xBF)
    case 3 =>
      (st.seen == 0 && st.cp <= 0x04
       && st.lower == (if st.cp == 0 then 0x90 else 0x80) && st.upper == (if st.cp == 4 then 0x8F else 0xBF))
      || (st.seen == 1 && 0x10 <= st.cp <= 0x10F && st.lower == 0x80 && st.upper == 0xBF)
      || (st.seen == 2 && 0x400 <= st.cp <= 0x43FF && st.lower == 0x80 && st.upper == 0xBF)
    case _ => false
  }

  type State = st: RawState | Reachable(st) witness RawState(0, 0, 0, 0x80, 0xBF)

  /** The decoder's handler on one byte. On an unexpected byte inside a sequence the standard emits
      an error and puts the byte back on the queue, so it is handled again from the initial state. */
  function Step(st: State, b: Byte): (r: (State, string)) {
    if st.needed == 0 then Lead(b)
    else if !(st.lower <= b <= st.upper) then
      var (st', out) := Lead(b);
      (st', [REPLACEMENT] + out)
    else
      var cp := st.cp * 64 + b % 64;
      if st.seen + 1 == st.needed then (INITIAL, [cp as char])
      else (RawState(cp, st.seen + 1, st.needed, 0x80, 0xBF), "")
  }

  /** The handler on a byte that starts a sequence. */
  function Lead(b: Byte): (r: (State, string)) {
    if b <= 0x7F then (INITIAL, [b as char])
    else if 0xC2 <= b <= 0xDF then (RawState(b % 32, 0, 1, 0x80, 0xBF), "")
    else if 0xE0 <= b <= 0xEF then
      (RawState(b % 16, 0, 2, if b == 0xE0 then 0xA0 else 0x80, if b == 0xED then 0x9F else 0xBF), "")
    else if 0xF0 <= b <= 0xF4 then
      (RawState(b % 8, 0, 3, if b == 0xF0 then 0x90 else 0x80, if b == 0xF4 then 0x8F else 0xBF), "")
    else (INITIAL, [REPLACEMENT])
  }

  function Run(st: State, bytes: Bytes): (r: (State, string))
    decreases |bytes|
  {
    if bytes == [] then (st, "")
    else
      var (st1, out1) := Step(st, bytes[0]);
      var (st2, out2) := Run(st1, bytes[1..]);
      (st2, out1 + out2)
  }

  /** The handler on end-of-queue. */
  function Flush(st: State): string {
    if st.needed != 0 then [REPLACEMENT] else ""
  }

  /** Decoding a whole byte string: `String::from_utf8_lossy`. */
  function DecodeLossy(bytes: Bytes): string {
    var (st, out) := Run(INITIAL, bytes);
    out + Flush(st)
  }

  /** The decoder does not see where its input was cut. */
  lemma {:induction false} RunConcat(st: State, a: Bytes, b: Bytes)
    ensures Run(st, a + b).0 == Run(Run(st, a).0, b).0
    ensures Run(st, a + b).1 == Run(st, a).1 + Run(Run(st, a).0, b).1
    decreases |a|
  {
    if a == [] {
      assert a + b == b;
    } else {
      var st', rest := Step(st, a[0]).0, a[1..];
      RunConcat(st', rest, b);
      RunCons(st, a[0], rest + b);
      RunCons(st, a[0], rest);
      assert a == [a[0]] + rest;
      Assoc([a[0]], rest, b);
      Assoc(Step(st, a[0]).1, Run(st', rest).1, Run(Run(st', rest).0, b).1);
    }
  }

  /** A line feed ends whatever sequence it interrupts, exactly as the end of the input would. */
  lemma StepLineFeed(st: State)
    ensures Step(st, LF).0 == INITIAL && Step(st, LF).1 == Flush(st) + "\n"
  {
  }

  /** Only the byte 0x0A decodes to a line feed. */
  lemma {:induction false} NoLineFeed(st: State, bytes: Bytes)
    requires LF !in bytes
    ensures '\n' !in Run(st, bytes).1 && '\n' !in Flush(Run(st, bytes).0)
    decreases |bytes|
  {
    if bytes != [] {
      assert bytes[0] in bytes;
      assert '\n' !in Step(st, bytes[0]).1;
      NoLineFeed(Step(st, bytes[0]).0, bytes[1..]);
    }
  }

  lemma RunByte(st: State, b: Byte)
    ensures Run(st, [b]).0 == Step(st, b).0 && Run(st, [b]).1 == Step(st, b).1
  {
    assert [b][1..] == [];
    assert Run(Step(st, b).0, []).1 == "";
  }

  lemma RunLine(line: Bytes, rest: Bytes)
    ensures Run(INITIAL, line + [LF] + rest).0 == Run(INITIAL, rest).0
    ensures Run(INITIAL, line + [LF] + rest).1 == DecodeLossy(line) + "\n" + Run(INITIAL, rest).1
  {
    var mid := Run(INITIAL, line).0;
    RunConcat(INITIAL, line + [LF], rest);
    RunConcat(INITIAL, line, [LF]);
    StepLineFeed(mid);
    RunByte(mid, LF);
    assert Run(INITIAL, line).1 + (Flush(mid) + "\n") == DecodeLossy(line) + "\n";
  }

  function DecodeLines(lines: seq<Bytes>): (r: seq<string>)
    ensures |r| == |lines|
    ensures forall k :: 0 <= k < |r| ==> r[k] == DecodeLossy(lines[k])
  {
    if lines == [] then []
    else
      assert forall k :: 1 <= k < |lines| ==> lines[k] == lines[1..][k - 1];
      [DecodeLossy(lines[0])] + DecodeLines(lines[1..])
  }

  /** Decoding then splitting into lines is splitting then decoding each line. */
  lemma {:induction false} DecodeCommutesWithSplit(bytes: Bytes)
    ensures Split(DecodeLossy(bytes), '\n')
            == Pieces(DecodeLines(Split(bytes, LF).lines), DecodeLossy(Split(bytes, LF).tail))
    decreases |bytes|
  {
    match IndexOf(bytes, LF)
    case None =>
      NoLineFeed(INITIAL, bytes);
    case Some(i) =>
      var line, rest := bytes[..i], bytes[i + 1..];
      assert bytes == line + [LF] + rest;
      RunLine(line, rest);
      NoLineFeed(INITIAL, line);
      assert DecodeLossy(bytes) == DecodeLossy(line) + "\n" + DecodeLossy(rest);
      SplitStep(DecodeLossy(line), DecodeLossy(rest), '\n');
      DecodeCommutesWithSplit(rest);
      var p := Split(rest, LF);
      assert DecodeLines([line] + p.lines) == [DecodeLossy(line)] + DecodeLines(p.lines) by {
        assert ([line] + p.lines)[1..] == p.lines;
      }
  }

  // ---- The encoder ----------------------------------------------------------------------------

  function EncodeChar(c: char): (r: Bytes)
    ensures 1 <= |r| <= 4
  {
    var cp := c as int;
    if cp <= 0x7F then [cp]
    else if cp <= 0x7FF then [0xC0 + cp / 64, 0x80 + cp % 64]
    else if cp <= 0xFFFF then [0xE0 + cp / 64 / 64, 0x80 + cp / 64 % 64, 0x80 + cp % 64]
    else [0xF0 + cp / 64 / 64 / 64, 0x80 + cp / 64 / 64 % 64, 0x80 + cp / 64 % 64, 0x80 + cp % 64]
  }

  function Encode(s: string): Bytes {
    if s == "" then [] else EncodeChar(s[0]) + Encode(s[1..])
  }

  lemma {:induction false} EncodeConcat(s: string, t: string)
    ensures Encode(s + t) == Encode(s) + Encode(t)
    decreases |s|
  {
    if s == "" {
      assert s + t == t;
    } else {
      assert (s + t)[1..] == s[1..] + t;
      EncodeConcat(s[1..], t);
    }
  }

  /** A byte below 0x80 occurs in an encoding exactly when the character does. */
  lemma {:induction false} EncodeAscii(s: string, c: char)
    requires c as int < 0x80
    ensures c as int in Encode(s) <==> c in s
    decreases |s|
  {
    if s != "" {
      EncodeAscii(s[1..], c);
      assert c as int in EncodeChar(s[0]) <==> c == s[0];
      assert s == [s[0]] + s[1..];
    }
  }

  /** One encoded character drives the decoder from the initial state back to it. */
  lemma DecodeChar(c: char)
    ensures Run(INITIAL, EncodeChar(c)).0 == INITIAL && Run(INITIAL, EncodeChar(c)).1 == [c]
  {
    var cp := c as int;
    var q := cp / 64;
    if cp <= 0x7F {
      RunByte(INITIAL, cp);
    } else if cp <= 0x7FF {
      RunTwo(q, cp % 64);
    } else if cp <= 0xFFFF {
      RunThree(q / 64, q % 64, cp % 64);
    } else {
      RunFour(q / 64 / 64, q / 64 % 64, q % 64, cp % 64);
    }
  }

  lemma RunTwo(h: nat, z: nat)
    requires 2 <= h < 32 && z < 64
    ensures Run(INITIAL, [0xC0 + h, 0x80 + z]).0 == INITIAL
    ensures Run(INITIAL, [0xC0 + h, 0x80 + z]).1 == [(h * 64 + z) as char]
  {
    var st := RawState(h, 0, 1, 0x80, 0xBF);
    RunByte(st, 0x80 + z);
    RunSilent(INITIAL, 0xC0 + h, [0x80 + z], st);
    assert [0xC0 + h, 0x80 + z] == [0xC0 + h] + [0x80 + z];
  }

  /** The last continuation byte completes the code point. */
  lemma LastStep(st: State, z: nat)
    requires st.needed == st.seen + 1 && st.lower == 0x80 && st.upper == 0xBF && z < 64
    ensures Step(st, 0x80 + z).0 == INITIAL && Step(st, 0x80 + z).1 == [(st.cp * 64 + z) as char]
  {
    assert (0x80 + z) % 64 == z;
  }

  lemma RunThree(h: nat, y: nat, z: nat)
    requires h < 16 && y < 64 && z < 64 && (h == 0 ==> y >= 0x20) && (h == 0x0D ==> y < 0x20)
    ensures Run(INITIAL, [0xE0 + h, 0x80 + y, 0x80 + z]).0 == INITIAL
    ensures Run(INITIAL, [0xE0 + h, 0x80 + y, 0x80 + z]).1 == [((h * 64 + y) * 64 + z) as char]
  {
    var st, st' := StepsOfThree(h, y);
    RunThreeBytes(0xE0 + h, 0x80 + y, 0x80 + z, st, st');
    LastStep(st', z);
  }

  lemma StepsOfThree(h: nat, y: nat) returns (st: State, st': State)
    requires h < 16 && y < 64 && (h == 0 ==> y >= 0x20) && (h == 0x0D ==> y < 0x20)
    ensures Step(INITIAL, 0xE0 + h) == (st, "") && Step(st, 0x80 + y) == (st', "")
    ensures st'.needed == 2 && st'.seen == 1 && st'.lower == 0x80 && st'.upper == 0xBF && st'.cp == h * 64 + y
  {
    st := RawState(h, 0, 2, if h == 0 then 0xA0 else 0x80, if h == 0x0D then 0x9F else 0xBF);
    st' := RawState(h * 64 + y, 1, 2, 0x80, 0xBF);
  }

  /** Two bytes that complete nothing, and one that decides. */
  lemma RunThreeBytes(a: Byte, b: Byte, c: Byte, st: State, st': State)
    requires Step(INITIAL, a) == (st, "") && Step(st, b) == (st', "")
    ensures Run(INITIAL, [a, b, c]).0 == Step(st', c).0 && Run(INITIAL, [a, b, c]).1 == Step(st', c).1
  {
    RunByte(st', c);
    RunSilent2(INITIAL, a, b, [c], st, st');
    assert [a, b, c] == [a] + ([b] + [c]);
  }

  lemma RunFour(h: nat, x: nat, y: nat, z: nat)
    requires h < 5 && x < 64 && y < 64 && z < 64 && (h == 0 ==> x >= 0x10) && (h == 4 ==> x < 0x10)
    ensures Run(INITIAL, [0xF0 + h, 0x80 + x, 0x80 + y, 0x80 + z]).0 == INITIAL
    ensures Run(INITIAL, [0xF0 + h, 0x80 + x, 0x80 + y, 0x80 + z]).1
            == [(((h * 64 + x) * 64 + y) * 64 + z) as char]
  {
    var st, st', st'' := StepsOfFour(h, x, y);
    RunFourBytes(0xF0 + h, 0x80 + x, 0x80 + y, 0x80 + z, st, st', st'');
    LastStep(st'', z);
  }

  /** Three bytes that complete nothing, and one that decides. */
  lemma RunFourBytes(a: Byte, b: Byte, c: Byte, d: Byte, st: State, st': State, st'': State)
    requires Step(INITIAL, a) == (st, "") && Step(st, b) == (st', "") && Step(st', c) == (st'', "")
    ensures Run(INITIAL, [a, b, c, d]).0 == Step(st'', d).0 && Run(INITIAL, [a, b, c, d]).1 == Step(st'', d).1
  {
    RunByte(st'', d);
    RunSilent(st', c, [d], st'');
    RunSilent2(INITIAL, a, b, [c] + [d], st, st');
    assert [a, b, c, d] == [a] + ([b] + ([c] + [d]));
  }

  lemma StepsOfFour(h: nat, x: nat, y: nat) returns (st: State, st': State, st'': State)
    requires h < 5 && x < 64 && y < 64 && (h == 0 ==> x >= 0x10) && (h == 4 ==> x < 0x10)
    ensures Step(INITIAL, 0xF0 + h) == (st, "") && Step(st, 0x80 + x) == (st', "") && Step(st', 0x80 + y) == (st'', "")
    ensures st''.needed == 3 && st''.seen == 2 && st''.lower == 0x80 && st''.upper == 0xBF
    ensures st''.cp == (h * 64 + x) * 64 + y
  {
    st := RawState(h, 0, 3, if h == 0 then 0x90 else 0x80, if h == 4 then 0x8F else 0xBF);
    st' := RawState(h * 64 + x, 1, 3, 0x80, 0xBF);
    st'' := RawState((h * 64 + x) * 64 + y, 2, 3, 0x80, 0xBF);
  }

  lemma RunSilent2(st: State, b: Byte, c: Byte, rest: Bytes, mid: State, next: State)
    requires Step(st, b).0 == mid && Step(st, b).1 == "" && Step(mid, c).0 == next && Step(mid, c).1 == ""
    ensures Run(st, [b] + ([c] + rest)).0 == Run(next, rest).0
    ensures Run(st, [b] + ([c] + rest)).1 == Run(next, rest).1
  {
    RunSilent(st, b, [c] + rest, mid);
    RunSilent(mid, c, rest, next);
  }

  /** A byte that completes nothing only moves the decoder on. */
  lemma RunSilent(st: State, b: Byte, rest: Bytes, next: State)
    requires Step(st, b).0 == next && Step(st, b).1 == ""
    ensures Run(st, [b] + rest).0 == Run(next, rest).0
    ensures Run(st, [b] + rest).1 == Run(next, rest).1
  {
    RunCons(st, b, rest);
  }

  lemma RunCons(st: State, b: Byte, rest: Bytes)
    ensures Run(st, [b] + rest).0 == Run(Step(st, b).0, rest).0
    ensures Run(st, [b] + rest).1 == Step(st, b).1 + Run(Step(st, b).0, rest).1
  {
    assert ([b] + rest)[1..] == rest;
  }

  /** The lossy decoder loses nothing on encoded text. */
  lemma {:induction false} DecodeEncode(s: string)
    ensures Run(INITIAL, Encode(s)).0 == INITIAL && Run(INITIAL, Encode(s)).1 == s
    ensures DecodeLossy(Encode(s)) == s
    decreases |s|
  {
    if s != "" {
      RunConcat(INITIAL, EncodeChar(s[0]), Encode(s[1..]));
      DecodeChar(s[0]);
      DecodeEncode(s[1..]);
      assert s == [s[0]] + s[1..];
    }
  }

  lemma EncodeInjective(s: string, t: string)
    requires Encode(s) == Encode(t)
    ensures s == t
  {
    DecodeEncode(s);
    DecodeEncode(t);
  }

  // ---- The strict decoder ---------------------------------------------------------------------

  predicate Continuation(b: Byte) { 0x80 <= b <= 0xBF }

  /** Append the six payload bits of a continuation byte. */
  function Shift(cp: nat, b: Byte): (r: nat)
    ensures Continuation(b) ==> r / 64 == cp && 0x80 + r % 64 == b
  {
    cp * 64 + b % 64
  }

  /** The scalar value at the front of `b` and its length, by the table of well-formed sequences. */
  function DecodeFirst(b: Bytes): (r: Option<(char, nat)>)
    requires b != []
    ensures r.Some? ==> 1 <= r.value.1 <= |b|
  {
    if b[0] <= 0x7F then Some((b[0] as char, 1))
    else if 0xC2 <= b[0] <= 0xDF then
      if |b| >= 2 && Continuation(b[1]) then Some((Shift(b[0] - 0xC0, b[1]) as char, 2)) else None
    else if 0xE0 <= b[0] <= 0xEF then
      if |b| >= 3 && (if b[0] == 0xE0 then 0xA0 else 0x80) <= b[1] <= (if b[0] == 0xED then 0x9F else 0xBF)
         && Continuation(b[2])
      then Some((Shift(Shift(b[0] - 0xE0, b[1]), b[2]) as char, 3)) else None
    else if 0xF0 <= b[0] <= 0xF4 then
      if |b| >= 4 && (if b[0] == 0xF0 then 0x90 else 0x80) <= b[1] <= (if b[0] == 0xF4 then 0x8F else 0xBF)
         && Continuation(b[2]) && Continuation(b[3])
      then Some((Shift(Shift(Shift(b[0] - 0xF0, b[1]), b[2]), b[3]) as char, 4)) else None
    else None
  }

  /** `str::from_utf8`. */
  function FromUtf8(b: Bytes): Option<string> {
    if b == [] then Some("")
    else match DecodeFirst(b)
      case None => None
      case Some((c, n)) =>
        match FromUtf8(b[n..])
        case None => None
        case Some(s) => Some([c] + s)
  }

  lemma DecodeFirstEncode(c: char, rest: Bytes)
    ensures DecodeFirst(EncodeChar(c) + rest) == Some((c, |EncodeChar(c)|))
  {
    var e := EncodeChar(c);
    DecodeFirstChar(c);
    DecodeFirstPrefix(e, rest);
  }

  /** The first character does not depend on what follows its bytes. */
  lemma DecodeFirstPrefix(e: Bytes, rest: Bytes)
    requires e != [] && DecodeFirst(e).Some?
    ensures DecodeFirst(e + rest) == DecodeFirst(e)
  {
    var b := e + rest;
    assert forall k :: 0 <= k < |e| ==> b[k] == e[k];
  }

  lemma DecodeFirstChar(c: char)
    ensures DecodeFirst(EncodeChar(c)) == Some((c, |EncodeChar(c)|))
  {
    var cp := c as int;
    assert Shift(cp / 64, 0x80 + cp % 64) == cp;
    if cp > 0x7FF { assert Shift(cp / 64 / 64, 0x80 + cp / 64 % 64) == cp / 64; }
    if cp > 0xFFFF { assert Shift(cp / 64 / 64 / 64, 0x80 + cp / 64 / 64 % 64) == cp / 64 / 64; }
  }

  lemma EncodeDecodeFirst(b: Bytes)
    requires b != [] && DecodeFirst(b).Some?
    ensures EncodeChar(DecodeFirst(b).value.0) == b[..DecodeFirst(b).value.1]
  {
    var n := DecodeFirst(b).value.1;
    if n == 1 {
      assert b[..1] == [b[0]];
    } else if n == 2 {
      assert b[..2] == [b[0], b[1]];
    } else if n == 3 {
      assert b[..3] == [b[0], b[1], b[2]];
    } else {
      assert b[..4] == [b[0], b[1], b[2], b[3]];
    }
  }

  lemma FromUtf8Cons(b: Bytes, c: char, n: nat, s: string)
    requires b != [] && DecodeFirst(b) == Some((c, n)) && FromUtf8(b[n..]) == Some(s)
    ensures FromUtf8(b) == Some([c] + s)
  {
  }

  lemma {:induction false} FromUtf8Encode(s: string)
    ensures FromUtf8(Encode(s)) == Some(s)
    decreases |s|
  {
    if s != "" {
      var e, rest := EncodeChar(s[0]), Encode(s[1..]);
      DecodeFirstEncode(s[0], rest);
      assert (e + rest)[|e|..] == rest;
      FromUtf8Encode(s[1..]);
      FromUtf8Cons(e + rest, s[0], |e|, s[1..]);
      assert s == [s[0]] + s[1..];
    }
  }

  lemma {:induction false} EncodeFromUtf8(b: Bytes)
    requires FromUtf8(b).Some?
    ensures Encode(FromUtf8(b).value) == b
    decreases |b|
  {
    if b != [] {
      var c, n, s := FromUtf8First(b);
      EncodeFromUtf8(b[n..]);
      EncodeCons(c, s);
    }
  }

  lemma FromUtf8First(b: Bytes) returns (c: char, n: nat, s: string)
    requires b != [] && FromUtf8(b).Some?
    ensures 1 <= n <= |b| && EncodeChar(c) == b[..n]
    ensures FromUtf8(b[n..]) == Some(s) && FromUtf8(b).value == [c] + s
  {
    c, n := DecodeFirst(b).value.0, DecodeFirst(b).value.1;
    s := FromUtf8(b[n..]).value;
    EncodeDecodeFirst(b);
  }

  lemma EncodeCons(c: char, s: string)
    ensures Encode([c] + s) == EncodeChar(c) + Encode(s)
  {
    assert ([c] + s)[1..] == s;
  }

  /** The strict decoder accepts exactly the encodings and inverts the encoder on them. */
  lemma FromUtf8Exact(b: Bytes, s: string)
    ensures FromUtf8(b) == Some(s) <==> b == Encode(s)
  {
    FromUtf8Encode(s);
    if FromUtf8(b) == Some(s) { EncodeFromUtf8(b); }
  }
}
