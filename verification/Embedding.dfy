/** Decoding an embedding: padded base64 of little-endian 32-bit words, in Rust and in Go. */
module Embedding {
  import opened Common
  import opened Bits
  import Base64

  const STANDARD: string := Base64.Table('+', '/')

  /** The bit pattern of an `f32`. */
  type Word = w: int | 0 <= w < 0x1_0000_0000

  function ToLe(w: Word): Bytes { [w % 256, w / 256 % 256, w / 256 / 256 % 256, w / 256 / 256 / 256] }

  function FromLe(b0: Byte, b1: Byte, b2: Byte, b3: Byte): Word {
    b0 as int + 256 * (b1 as int + 256 * (b2 as int + 256 * b3 as int))
  }

  /** The bytes of a vector. */
  function Flatten(words: seq<Word>): Bytes {
    if words == [] then [] else ToLe(words[0]) + Flatten(words[1..])
  }

  /** `chunks_exact(4)` and `from_le_bytes`. */
  function Words(b: Bytes): (words: seq<Word>)
    requires |b| % 4 == 0
    ensures |words| == |b| / 4
  {
    if b == [] then [] else [FromLe(b[0], b[1], b[2], b[3])] + Words(b[4..])
  }

  lemma {:induction false} WordsFlatten(words: seq<Word>)
    ensures |Flatten(words)| % 4 == 0 && Words(Flatten(words)) == words
    decreases |words|
  {
    if words != [] {
      WordsFlatten(words[1..]);
      var head, rest := ToLe(words[0]), Flatten(words[1..]);
      assert (head + rest)[4..] == rest;
      LeRoundTrip(words[0]);
      assert words == [words[0]] + words[1..];
    }
  }

  /** Byte `4 * k + i` holds the bits of weight `256^i` of word `k`. */
  lemma LittleEndian(b: Bytes, k: nat, i: nat)
    requires |b| % 4 == 0 && k < |b| / 4 && i < 4
    ensures Words(b)[k] / Weight(i) % 256 == b[4 * k + i]
  {
    WordAt(b, k);
    ByteAt(b[4 * k], b[4 * k + 1], b[4 * k + 2], b[4 * k + 3], i);
  }

  function Weight(i: nat): (w: nat)
    ensures w > 0
  {
    if i == 0 then 1 else 256 * Weight(i - 1)
  }

  lemma ByteAt(b0: Byte, b1: Byte, b2: Byte, b3: Byte, i: nat)
    requires i < 4
    ensures FromLe(b0, b1, b2, b3) / Weight(i) % 256 == [b0, b1, b2, b3][i]
  {
    assert Weight(1) == 256 && Weight(2) == 65536 && Weight(3) == 16777216;
    var w := FromLe(b0, b1, b2, b3);
    assert w / 256 == b1 + 256 * (b2 + 256 * b3);
    assert w / 65536 == b2 + 256 * b3;
    assert w / 16777216 == b3;
  }

  lemma LeRoundTrip(w: Word)
    ensures var b := ToLe(w); FromLe(b[0], b[1], b[2], b[3]) == w
  {
  }

  // ---- Rust -------------------------------------------------------------------------------------

  function RustDecode(s: string): Option<seq<Word>> {
    match Base64.DecodePadded(STANDARD, s)
    case None => None
    case Some(b) => if |b| % 4 != 0 then None else Some(Words(b))
  }

  // ---- Go ---------------------------------------------------------------------------------------

  /** Go's decoder skips line ends. */
  function DropLineEnds(s: string): string {
    if s == "" then ""
    else (if s[0] == '\r' || s[0] == '\n' then "" else [s[0]]) + DropLineEnds(s[1..])
  }

  /** Wherever they stand, line ends go and every other character stays. */
  lemma {:induction false} DropEach(a: string, c: char, b: string)
    ensures DropLineEnds(a + [c] + b)
            == DropLineEnds(a) + (if c == '\r' || c == '\n' then "" else [c]) + DropLineEnds(b)
    decreases |a|
  {
    var mine := if c == '\r' || c == '\n' then "" else [c];
    if a == "" {
      assert a + [c] + b == [c] + b && ([c] + b)[1..] == b;
      assert DropLineEnds(a) + mine == mine;
    } else {
      var first := if a[0] == '\r' || a[0] == '\n' then "" else [a[0]];
      assert (a + [c] + b)[1..] == a[1..] + [c] + b;
      DropEach(a[1..], c, b);
      Assoc(first, DropLineEnds(a[1..]), mine);
      Assoc(first, DropLineEnds(a[1..]) + mine, DropLineEnds(b));
    }
  }

  /** Nor does it look at the bits left over in the last digit. */
  function GoBytes(s: string): Option<Bytes> {
    var t := DropLineEnds(s);
    if |t| % 4 != 0 then None
    else match Base64.Read(STANDARD, Base64.StripPadding(t))
      case None => None
      case Some(d) => Base64.FromDigitsLeniently(d)
  }

  function GoDecode(s: string): Option<seq<Word>> {
    match GoBytes(s)
    case None => None
    case Some(b) => if |b| % 4 != 0 then None else Some(Words(b))
  }

  /** Or-ing four bytes, shifted by 0, 8, 16 and 24 bits, assembles the little-endian word. */
  method Bits32(b0: Byte, b1: Byte, b2: Byte, b3: Byte) returns (bits: Word)
    ensures bits == FromLe(b0, b1, b2, b3)
  {
    OrAssembles(b0, b1, b2, b3);
    bits := Or(Or(Or(b0, 0x100 * b1), 0x1_0000 * b2), 0x100_0000 * b3);
  }

  lemma OrAssembles(b0: nat, b1: nat, b2: nat, b3: nat)
    requires b0 < 256 && b1 < 256 && b2 < 256
    ensures Or(Or(Or(b0, 0x100 * b1), 0x1_0000 * b2), 0x100_0000 * b3)
            == b0 + 0x100 * b1 + 0x1_0000 * b2 + 0x100_0000 * b3
  {
    Powers();
    OrShifted(b0, b1, 8);
    OrShifted(b0 + 0x100 * b1, b2, 16);
    OrShifted(b0 + 0x100 * b1 + 0x1_0000 * b2, b3, 24);
  }

  lemma Powers()
    ensures Pow2(8) == 256 && Pow2(16) == 65536 && Pow2(24) == 16777216
  {
    assert Pow2(4) == 16;
    assert Pow2(8) == 256;
    assert Pow2(12) == 4096;
    assert Pow2(16) == 65536;
    assert Pow2(20) == 1048576;
  }

  lemma {:induction false} WordAt(b: Bytes, k: nat)
    requires |b| % 4 == 0 && k < |b| / 4
    ensures Words(b)[k] == FromLe(b[4 * k], b[4 * k + 1], b[4 * k + 2], b[4 * k + 3])
    decreases |b|
  {
    if |b| > 4 { WordAt(b[4..], if k == 0 then 0 else k - 1); }
  }

  method ReadWord(b: Bytes, i: nat) returns (bits: Word)
    requires |b| % 4 == 0 && i < |b| / 4
    ensures bits == Words(b)[i]
  {
    WordAt(b, i);
    bits := Bits32(b[i * 4], b[i * 4 + 1], b[i * 4 + 2], b[i * 4 + 3]);
  }

  /** The loop writes each word into a slice made beforehand. */
  method ReadWords(b: Bytes) returns (words: seq<Word>)
    requires |b| % 4 == 0
    ensures words == Words(b)
  {
    var vec := new Word[|b| / 4];
    for i := 0 to vec.Length
      invariant forall k :: 0 <= k < i ==> vec[k] == Words(b)[k]
    {
      var bits := ReadWord(b, i);
      vec[i] := bits;
    }
    words := vec[..];
  }

  /** Decode the base64, refuse a length not divisible by four, read the words. */
  method DecodeF32(s: string) returns (r: Option<seq<Word>>)
    ensures r == GoDecode(s)
  {
    var data := GoBytes(s);
    if data.None? { return None; }
    var b := data.value;
    if |b| % 4 != 0 { return None; }
    var words := ReadWords(b);
    r := Some(words);
  }

  // ---- Agreement --------------------------------------------------------------------------------

  lemma {:induction false} NoLineEnds(s: string)
    requires '\r' !in s && '\n' !in s
    ensures DropLineEnds(s) == s
    decreases |s|
  {
    if s != "" {
      NoLineEnds(s[1..]);
      assert s[0] in s;
      assert s == [s[0]] + s[1..];
    }
  }

  lemma GoReadsCanonical(b: Bytes)
    ensures GoBytes(Base64.EncodePadded(STANDARD, b)) == Some(b)
  {
    var s := Base64.EncodePadded(STANDARD, b);
    Base64.TableIsAlphabet('+', '/');
    Base64.WriteChars(STANDARD, Base64.Digits(b));
    NoLineEnds(s);
    Base64.StripPadded(STANDARD, b);
    Base64.ReadWrite(STANDARD, Base64.Digits(b));
    Base64.FromDigitsDigits(b);
    Base64.LenientIsStrict(Base64.Digits(b));
  }

  /** The characters a base64 string may consist of, line ends aside: digits, and one or two `=` to make the number of
      characters a multiple of four. */
  ghost predicate Spells(t: string, d: seq<Base64.Digit>) {
    && |t| % 4 == 0
    && var e := Base64.Write(STANDARD, d);
       t == e || t == e + "=" || t == e + "=="
  }

  /** Exactly what the Go decoder accepts: line ends anywhere, and any bits in what is left over; the bytes are those
      the bits of the digits fill. */
  lemma GoAccepts(s: string, b: Bytes)
    ensures GoBytes(s) == Some(b)
            <==> exists d :: Spells(DropLineEnds(s), d) && Base64.Fills(d, b)
  {
    var t := DropLineEnds(s);
    if GoBytes(s) == Some(b) {
      var d := ReadIsSpelled(t);
      Base64.LenientExact(d);
    }
    if d :| Spells(t, d) && Base64.Fills(d, b) {
      SpelledIsRead(t, d);
      FilledIsDecoded(d, b);
    }
  }

  lemma FilledIsDecoded(d: seq<Base64.Digit>, b: Bytes)
    requires |d| % 4 != 1 && Base64.Fills(d, b)
    ensures Base64.FromDigitsLeniently(d) == Some(b)
  {
    Base64.LenientExact(d);
    Base64.OneFill(d, Base64.FromDigitsLeniently(d).value, b);
  }

  lemma ReadIsSpelled(t: string) returns (d: seq<Base64.Digit>)
    requires |t| % 4 == 0 && Base64.Read(STANDARD, Base64.StripPadding(t)).Some?
    ensures Spells(t, d) && Base64.Read(STANDARD, Base64.StripPadding(t)) == Some(d)
  {
    d := Base64.Read(STANDARD, Base64.StripPadding(t)).value;
    Base64.TableIsAlphabet('+', '/');
    Base64.WriteRead(STANDARD, Base64.StripPadding(t));
    Base64.AppendStripped(t);
  }

  lemma Stripped(e: string, t: string, pad: string)
    requires '=' !in e && t == e + pad && (pad == "" || pad == "=" || pad == "==")
    ensures Base64.StripPadding(t) == e
  {
    assert e != "" ==> e[|e| - 1] in e;
    assert t[..|e|] == e;
  }

  lemma SpelledIsRead(t: string, d: seq<Base64.Digit>)
    requires Spells(t, d)
    ensures Base64.Read(STANDARD, Base64.StripPadding(t)) == Some(d) && |d| % 4 != 1
  {
    Base64.TableIsAlphabet('+', '/');
    var e := Base64.Write(STANDARD, d);
    PaddedIsRead(STANDARD, d, e, t, if t == e then "" else if t == e + "=" then "=" else "==");
  }

  lemma PaddedIsRead(a: string, d: seq<Base64.Digit>, e: string, t: string, pad: string)
    requires Base64.Alphabet(a) && e == Base64.Write(a, d) && t == e + pad && |t| % 4 == 0
    requires pad == "" || pad == "=" || pad == "=="
    ensures Base64.Read(a, Base64.StripPadding(t)) == Some(d) && |d| % 4 != 1
  {
    Base64.WriteChars(a, d);
    Base64.ReadWrite(a, d);
    Stripped(e, t, pad);
  }

  /** Both decoders read the canonical string of any words back, and reject that of any byte string whose
      length is not a multiple of four. */
  lemma RoundTrip(words: seq<Word>)
    ensures RustDecode(Base64.EncodePadded(STANDARD, Flatten(words))) == Some(words)
    ensures GoDecode(Base64.EncodePadded(STANDARD, Flatten(words))) == Some(words)
  {
    var b := Flatten(words);
    Base64.TableIsAlphabet('+', '/');
    Base64.PaddedBijection(STANDARD, b, Base64.EncodePadded(STANDARD, b));
    GoReadsCanonical(b);
    WordsFlatten(words);
  }

  lemma RejectsMisaligned(b: Bytes)
    requires |b| % 4 != 0
    ensures RustDecode(Base64.EncodePadded(STANDARD, b)) == None && GoDecode(Base64.EncodePadded(STANDARD, b)) == None
  {
    Base64.TableIsAlphabet('+', '/');
    Base64.PaddedBijection(STANDARD, b, Base64.EncodePadded(STANDARD, b));
    GoReadsCanonical(b);
  }

  /** Rust accepts exactly the canonical strings among those Go accepts, and then they agree. */
  lemma RustIsCanonicalGo(s: string, words: seq<Word>)
    ensures RustDecode(s) == Some(words)
            <==> GoDecode(s) == Some(words) && GoBytes(s).Some? && s == Base64.EncodePadded(STANDARD, GoBytes(s).value)
  {
    Base64.TableIsAlphabet('+', '/');
    if Base64.DecodePadded(STANDARD, s).Some? {
      var b := Base64.DecodePadded(STANDARD, s).value;
      Base64.PaddedBijection(STANDARD, b, s);
      GoReadsCanonical(b);
    }
    if GoBytes(s).Some? {
      Base64.PaddedBijection(STANDARD, GoBytes(s).value, s);
    }
  }
}
