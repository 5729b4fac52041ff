/** What the lossy UTF-8 decoder makes of malformed input, said of the encoder alone: one U+FFFD for the longest
    piece that begins a character, and decoding goes on at the byte that does not continue it. */
module Utf8Replacement {
  import opened Common
  import opened Utf8

  /** Some character's encoding begins with these bytes, or is them. */
  ghost predicate Begins(x: Bytes) { exists c :: x <= EncodeChar(c) }

  /** Some character's encoding begins with these bytes and goes on. */
  ghost predicate Unfinished(x: Bytes) { x != [] && exists c :: x < EncodeChar(c) }

  // ---- The bytes a state stands for -------------------------------------------------------------

  function Held(st: State): Bytes {
    match st.needed
    case 1 => [0xC0 + st.cp]
    case 2 => if st.seen == 0 then [0xE0 + st.cp] else [0xE0 + st.cp / 64, 0x80 + st.cp % 64]
    case 3 =>
      if st.seen == 0 then [0xF0 + st.cp]
      else if st.seen == 1 then [0xF0 + st.cp / 64, 0x80 + st.cp % 64]
      else [0xF0 + st.cp / 64 / 64, 0x80 + st.cp / 64 % 64, 0x80 + st.cp % 64]
    case _ => []
  }

  lemma Continues(cp: nat, b: Byte)
    requires 0x80 <= b <= 0xBF
    ensures var v := cp * 64 + b % 64; v / 64 == cp && v % 64 == b % 64 && 0x80 + b % 64 == b
  {
  }

  /** A byte in range that does not complete the character yet. */
  lemma Accepts(st: State, b: Byte)
    requires st.needed != 0 && st.lower <= b <= st.upper && st.seen + 1 != st.needed
    ensures Step(st, b) == (RawState(st.cp * 64 + b % 64, st.seen + 1, st.needed, 0x80, 0xBF), "")
  {
  }

  lemma HeldMore(st: State, b: Byte)
    requires st.needed != 0 && st.lower <= b <= st.upper && st.seen + 1 != st.needed
    ensures var r := Step(st, b);
            r.1 == "" && r.0.needed == st.needed && r.0.seen == st.seen + 1 && Held(r.0) == Held(st) + [b]
  {
    Accepts(st, b);
    HeldGrows(st, Step(st, b).0, b);
  }

  /** The next state, one byte on. */
  ghost predicate Follows(st: State, next: State, b: Byte) {
    && 0x80 <= b <= 0xBF && next.cp == st.cp * 64 + b % 64
    && next.seen == st.seen + 1 && next.needed == st.needed
  }

  lemma GrowsTwoOfThree(st: State, next: State, b: Byte)
    requires Follows(st, next, b) && st.needed == 2 && st.seen == 0
    ensures Held(next) == Held(st) + [b]
  {
    Continues(st.cp, b);
    assert Held(st) == [0xE0 + st.cp] && Held(next) == [0xE0 + st.cp, b];
  }

  lemma HeldTwoOfFour(next: State, cp: nat, b: Byte)
    requires next.needed == 3 && next.seen == 1 && next.cp / 64 == cp && 0x80 + next.cp % 64 == b
    ensures Held(next) == [0xF0 + cp, b]
  {
  }

  lemma GrowsTwoOfFour(st: State, next: State, b: Byte)
    requires Follows(st, next, b) && st.needed == 3 && st.seen == 0
    ensures Held(next) == Held(st) + [b]
  {
    Continues(st.cp, b);
    HeldTwoOfFour(next, st.cp, b);
  }

  lemma GrowsThreeOfFour(st: State, next: State, b: Byte)
    requires Follows(st, next, b) && st.needed == 3 && st.seen == 1
    ensures Held(next) == Held(st) + [b]
  {
    Continues(st.cp, b);
    assert Held(st) == [0xF0 + st.cp / 64, 0x80 + st.cp % 64];
    assert Held(next) == [0xF0 + st.cp / 64, 0x80 + st.cp % 64, b];
  }

  lemma HeldGrows(st: State, next: State, b: Byte)
    requires Follows(st, next, b) && st.seen + 1 != st.needed && st.needed != 0
    ensures Held(next) == Held(st) + [b]
  {
    if st.needed == 2 {
      GrowsTwoOfThree(st, next, b);
    } else if st.seen == 0 {
      GrowsTwoOfFour(st, next, b);
    } else {
      GrowsThreeOfFour(st, next, b);
    }
  }

  lemma CompletesTwo(cp: nat, b: Byte)
    requires 0x02 <= cp <= 0x1F && 0x80 <= b <= 0xBF
    ensures EncodeChar((cp * 64 + b % 64) as char) == [0xC0 + cp, b]
  {
    Continues(cp, b);
  }

  lemma CompletesThree(cp: nat, b: Byte)
    requires 0x20 <= cp <= 0x3FF && !(0x360 <= cp <= 0x37F) && 0x80 <= b <= 0xBF
    ensures EncodeChar((cp * 64 + b % 64) as char) == [0xE0 + cp / 64, 0x80 + cp % 64, b]
  {
    Continues(cp, b);
  }

  lemma CompletesFour(cp: nat, b: Byte)
    requires 0x400 <= cp <= 0x43FF && 0x80 <= b <= 0xBF
    ensures EncodeChar((cp * 64 + b % 64) as char) == [0xF0 + cp / 64 / 64, 0x80 + cp / 64 % 64, 0x80 + cp % 64, b]
  {
    Continues(cp, b);
  }

  /** A byte in range either completes a character or is held too. */
  lemma HeldStep(st: State, b: Byte)
    requires st.needed != 0 && st.lower <= b <= st.upper
    ensures var r := Step(st, b);
            if st.seen + 1 == st.needed then |r.1| == 1 && EncodeChar(r.1[0]) == Held(st) + [b]
            else r.1 == "" && r.0.needed == st.needed && r.0.seen == st.seen + 1 && Held(r.0) == Held(st) + [b]
  {
    Continues(st.cp, b);
    if st.seen + 1 != st.needed {
      HeldMore(st, b);
    } else if st.needed == 1 {
      CompletesTwo(st.cp, b);
    } else if st.needed == 2 {
      CompletesThree(st.cp, b);
    } else {
      CompletesFour(st.cp, b);
    }
  }

  lemma LeadParts(b: Byte)
    ensures 0xC2 <= b <= 0xDF ==> 0xC0 + b % 32 == b
    ensures 0xE0 <= b <= 0xEF ==> 0xE0 + b % 16 == b
    ensures 0xF0 <= b <= 0xF4 ==> 0xF0 + b % 8 == b
  {
  }

  lemma LeadStep(b: Byte)
    ensures var r := Lead(b);
            if r.1 == "" then r.0.needed != 0 && r.0.seen == 0 && Held(r.0) == [b]
            else r.0 == INITIAL && (if b <= 0x7F then EncodeChar(b as char) == [b] else r.1 == [REPLACEMENT])
  {
    LeadParts(b);
  }

  /** Whatever is held can be completed. */
  lemma Completes(st: State) returns (c: char)
    requires st.needed != 0
    ensures Held(st) < EncodeChar(c)
    decreases st.needed - st.seen
  {
    var r := Step(st, st.lower);
    HeldStep(st, st.lower);
    if st.seen + 1 == st.needed {
      c := r.1[0];
    } else {
      c := Completes(r.0);
    }
  }

  /** Bytes that begin a character are held, nothing put out. */
  lemma UnfinishedIsHeld(x: Bytes)
    requires Unfinished(x)
    ensures var r := Run(INITIAL, x); r.1 == "" && r.0.needed != 0 && Held(r.0) == x
  {
    var c :| x < EncodeChar(c);
    if |x| == 1 {
      FirstHeld(x, c);
    } else if |x| == 2 {
      SecondHeld(x, c);
    } else {
      ThirdHeld(x, c);
    }
  }

  lemma FirstHeld(x: Bytes, c: char)
    requires |x| == 1 && x < EncodeChar(c)
    ensures var r := Run(INITIAL, x); r.1 == "" && r.0.needed == |EncodeChar(c)| - 1 && r.0.seen == 0 && Held(r.0) == x
  {
    var b := x[0];
    assert x == [b] && EncodeChar(c)[0] == b;
    RunByte(INITIAL, b);
    LeadStep(b);
  }

  /** One more byte of the same character. */
  lemma NextHeld(x: Bytes, b: Byte, st: State)
    requires Run(INITIAL, x) == (st, "") && st.needed != 0 && st.seen + 1 < st.needed && Held(st) == x
    requires st.lower <= b <= st.upper
    ensures var r := Run(INITIAL, x + [b]);
            r.1 == "" && r.0.needed == st.needed && r.0.seen == st.seen + 1 && Held(r.0) == x + [b]
  {
    HeldStep(st, b);
    RunConcat(INITIAL, x, [b]);
    RunByte(st, b);
  }

  lemma SecondHeld(x: Bytes, c: char)
    requires |x| == 2 && x < EncodeChar(c)
    ensures var r := Run(INITIAL, x); r.1 == "" && r.0.needed == |EncodeChar(c)| - 1 && r.0.seen == 1 && Held(r.0) == x
  {
    assert x[..1] < EncodeChar(c) && x == x[..1] + [x[1]];
    FirstHeld(x[..1], c);
    InRange(x, c, Run(INITIAL, x[..1]).0);
    NextHeld(x[..1], x[1], Run(INITIAL, x[..1]).0);
  }

  /** The second byte of a character is one its first allows. */
  lemma InRange(x: Bytes, c: char, st: State)
    requires |x| == 2 && x < EncodeChar(c) && st.needed == |EncodeChar(c)| - 1 && st.seen == 0 && Held(st) == x[..1]
    ensures st.lower <= x[1] <= st.upper
  {
    var cp := c as int;
    assert EncodeChar(c)[0] == x[0] && EncodeChar(c)[1] == x[1] && Held(st)[0] == x[0];
    if |EncodeChar(c)| == 3 {
      assert x[1] == 0x80 + cp / 64 % 64 && st.cp == cp / 64 / 64;
    } else {
      assert x[1] == 0x80 + cp / 64 / 64 % 64 && st.cp == cp / 64 / 64 / 64;
    }
  }

  lemma ThirdHeld(x: Bytes, c: char)
    requires |x| == 3 && x < EncodeChar(c)
    ensures var r := Run(INITIAL, x); r.1 == "" && r.0.needed == 3 && Held(r.0) == x
  {
    assert x[..2] < EncodeChar(c) && x == x[..2] + [x[2]];
    SecondHeld(x[..2], c);
    assert EncodeChar(c)[2] == x[2];
    NextHeld(x[..2], x[2], Run(INITIAL, x[..2]).0);
  }

  // ---- Replacement ------------------------------------------------------------------------------

  lemma InRangeBegins(st: State, b: Byte)
    requires st.needed != 0 && st.lower <= b <= st.upper
    ensures Begins(Held(st) + [b])
  {
    HeldStep(st, b);
    if st.seen + 1 == st.needed {
      assert Held(st) + [b] <= EncodeChar(Step(st, b).1[0]);
    } else {
      var c := Completes(Step(st, b).0);
      assert Held(st) + [b] <= EncodeChar(c);
    }
  }

  lemma LeadBegins(b: Byte)
    requires Lead(b).1 == "" || b <= 0x7F
    ensures Begins([b])
  {
    LeadStep(b);
    if b <= 0x7F {
      assert [b] <= EncodeChar(b as char);
    } else {
      var c := Completes(Lead(b).0);
      assert [b] <= EncodeChar(c);
    }
  }

  lemma BadLead(b: Byte)
    requires !Begins([b])
    ensures Lead(b) == (INITIAL, [REPLACEMENT])
  {
    LeadStep(b);
    if Lead(b).1 == "" || b <= 0x7F { LeadBegins(b); }
  }

  /** Decoding from a byte on, from any state. */
  lemma DecodeFrom(b: Byte, rest: Bytes)
    ensures DecodeLossy([b] + rest)
            == Lead(b).1 + (Run(Lead(b).0, rest).1 + Flush(Run(Lead(b).0, rest).0))
  {
    RunCons(INITIAL, b, rest);
    Assoc(Lead(b).1, Run(Lead(b).0, rest).1, Flush(Run(Lead(b).0, rest).0));
  }

  /** A byte that begins no character is replaced by itself. */
  lemma ReplacesByte(b: Byte, rest: Bytes)
    requires !Begins([b])
    ensures DecodeLossy([b] + rest) == [REPLACEMENT] + DecodeLossy(rest)
  {
    BadLead(b);
    DecodeFrom(b, rest);
  }

  /** Bytes that begin a character, and a byte with which none goes on: the bytes are replaced, and decoding goes on
      with the byte. */
  lemma ReplacesUnfinished(x: Bytes, b: Byte, rest: Bytes)
    requires Unfinished(x) && !Begins(x + [b])
    ensures DecodeLossy(x + ([b] + rest)) == [REPLACEMENT] + DecodeLossy([b] + rest)
  {
    UnfinishedIsHeld(x);
    var st := Run(INITIAL, x).0;
    if st.lower <= b <= st.upper { InRangeBegins(st, b); }
    RunConcat(INITIAL, x, [b] + rest);
    RunCons(st, b, rest);
    DecodeFrom(b, rest);
    var out, end := Run(Lead(b).0, rest).1, Flush(Run(Lead(b).0, rest).0);
    assert Run(INITIAL, x + ([b] + rest)).1 == [REPLACEMENT] + Lead(b).1 + out;
    Assoc([REPLACEMENT], Lead(b).1, out);
    Assoc([REPLACEMENT], Lead(b).1 + out, end);
    Assoc(Lead(b).1, out, end);
  }

  /** So are bytes that begin a character at the end of the input. */
  lemma ReplacesAtEnd(x: Bytes)
    requires Unfinished(x)
    ensures DecodeLossy(x) == [REPLACEMENT]
  {
    UnfinishedIsHeld(x);
  }

  /** And a whole character is decoded. */
  lemma DecodesCharacter(c: char, rest: Bytes)
    ensures DecodeLossy(EncodeChar(c) + rest) == [c] + DecodeLossy(rest)
  {
    DecodeChar(c);
    RunConcat(INITIAL, EncodeChar(c), rest);
    Assoc([c], Run(INITIAL, rest).1, Flush(Run(INITIAL, rest).0));
  }
}
