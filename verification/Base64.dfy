/** Base64, sections 4 and 5 of RFC 4648: bytes to six-bit digits, digits to an alphabet. */
module Base64 {
  import opened Common

  type Digit = d: int | 0 <= d < 64

  // ---- Bytes and digits -------------------------------------------------------------------------

  /** Three bytes to four digits; one or two bytes left over to two or three digits, low bits zero. */
  function Digits(b: Bytes): seq<Digit> {
    if |b| == 0 then []
    else if |b| == 1 then Spread(b[0], 0, 0)[..2]
    else if |b| == 2 then Spread(b[0], b[1], 0)[..3]
    else Spread(b[0], b[1], b[2]) + Digits(b[3..])
  }

  function Spread(x: Byte, y: Byte, z: Byte): seq<Digit> {
    [x / 4, x % 4 * 16 + y / 16, y % 16 * 4 + z / 64, z % 64]
  }

  /** The bytes of the digits. Strict: one digit cannot be left over, nor may bits be set that encode
      nothing. */
  function FromDigits(d: seq<Digit>): Option<Bytes> {
    if |d| == 0 then Some([])
    else if |d| == 1 then None
    else if |d| == 2 then if d[1] % 16 == 0 then Some(Pack(d[0], d[1], 0, 0)[..1]) else None
    else if |d| == 3 then
      if d[2] % 4 == 0 then Some(Pack(d[0], d[1], d[2], 0)[..2]) else None
    else match FromDigits(d[4..])
      case None => None
      case Some(rest) => Some(Pack(d[0], d[1], d[2], d[3]) + rest)
  }

  function Pack(x: Digit, y: Digit, z: Digit, w: Digit): Bytes {
    [x * 4 + y / 16, y % 16 * 16 + z / 4, z % 4 * 64 + w]
  }

  lemma PackSpread(x: Byte, y: Byte, z: Byte)
    ensures var d := Spread(x, y, z); Pack(d[0], d[1], d[2], d[3]) == [x, y, z]
  {
    var d := Spread(x, y, z);
    assert d[1] / 16 == x % 4 && d[1] % 16 == y / 16;
    assert d[2] / 4 == y % 16 && d[2] % 4 == z / 64;
    assert d[3] == z % 64;
  }

  lemma SpreadPack(x: Digit, y: Digit, z: Digit, w: Digit)
    ensures var b := Pack(x, y, z, w); Spread(b[0], b[1], b[2]) == [x, y, z, w]
  {
    var b := Pack(x, y, z, w);
    assert b[0] / 4 == x && b[0] % 4 == y / 16;
    assert b[1] / 16 == y % 16 && b[1] % 16 == z / 4;
    assert b[2] / 64 == z % 4 && b[2] % 64 == w;
  }

  lemma {:induction false} FromDigitsDigits(b: Bytes)
    ensures FromDigits(Digits(b)) == Some(b)
    decreases |b|
  {
    if |b| == 1 {
      PackSpread(b[0], 0, 0);
      var d := Spread(b[0], 0, 0);
      assert d[..2] == [d[0], d[1]] && d[1] % 16 == 0 && d[2] == 0 && d[3] == 0;
      assert b == [b[0], 0, 0][..1];
    } else if |b| == 2 {
      PackSpread(b[0], b[1], 0);
      var d := Spread(b[0], b[1], 0);
      assert d[..3] == [d[0], d[1], d[2]] && d[2] % 4 == 0 && d[3] == 0;
      assert b == [b[0], b[1], 0][..2];
    } else if |b| >= 3 {
      FromDigitsDigits(b[3..]);
      PackSpread(b[0], b[1], b[2]);
      var head, rest := Spread(b[0], b[1], b[2]), Digits(b[3..]);
      assert (head + rest)[4..] == rest;
      assert b == [b[0], b[1], b[2]] + b[3..];
    }
  }

  lemma {:induction false} DigitsFromDigits(d: seq<Digit>)
    requires FromDigits(d).Some?
    ensures Digits(FromDigits(d).value) == d
    decreases |d|
  {
    if |d| == 2 {
      SpreadPack(d[0], d[1], 0, 0);
    } else if |d| == 3 {
      SpreadPack(d[0], d[1], d[2], 0);
    } else if |d| >= 4 {
      DigitsFromDigits(d[4..]);
      SpreadPack(d[0], d[1], d[2], d[3]);
      var head, rest := Pack(d[0], d[1], d[2], d[3]), FromDigits(d[4..]).value;
      assert (head + rest)[3..] == rest;
      assert d == [d[0], d[1], d[2], d[3]] + d[4..];
    }
  }

  // ---- Bits -------------------------------------------------------------------------------------

  type Bit = b: int | 0 <= b < 2

  /** The last `width` bits of a number, the most significant first. */
  function BitsOf(n: nat, width: nat): seq<Bit> {
    if width == 0 then [] else BitsOf(n / 2, width - 1) + [n % 2]
  }

  /** How the bits of one group are written. */
  type Writing = nat -> seq<Bit>

  function InBits(width: nat): Writing { n => BitsOf(n, width) }

  /** The bits of groups, one after the other. */
  function BitString(groups: seq<nat>, bits: Writing): seq<Bit> {
    if groups == [] then [] else bits(groups[0]) + BitString(groups[1..], bits)
  }

  function Zeros(n: nat): seq<Bit> { seq(n, _ => 0) }

  function Power(k: nat): nat { if k == 0 then 1 else 2 * Power(k - 1) }

  // Cutting a number's bits

  lemma {:induction false} BitsJoin(hi: nat, lo: nat, m: nat, k: nat)
    requires lo < Power(k)
    ensures BitsOf(hi * Power(k) + lo, m + k) == BitsOf(hi, m) + BitsOf(lo, k)
    decreases k
  {
    if k == 0 {
      assert BitsOf(hi, m) + [] == BitsOf(hi, m);
    } else {
      var p := hi * Power(k - 1);
      assert hi * Power(k) == 2 * p by { Doubled(hi, Power(k - 1)); }
      assert (2 * p + lo) / 2 == p + lo / 2 && (2 * p + lo) % 2 == lo % 2;
      BitsJoin(hi, lo / 2, m, k - 1);
      Assoc(BitsOf(hi, m), BitsOf(lo / 2, k - 1), [lo % 2]);
    }
  }

  lemma Doubled(a: nat, b: nat)
    ensures a * (2 * b) == 2 * (a * b)
  {
  }

  lemma Powers()
    ensures Power(2) == 4 && Power(4) == 16 && Power(6) == 64 && Power(8) == 256
  {
    assert Power(3) == 8 && Power(5) == 32 && Power(7) == 128;
  }

  /** Bits cut after the first `m`; `p` is the weight of the others. */
  lemma BitsCut(v: nat, hi: nat, lo: nat, m: nat, k: nat, p: nat)
    requires p == Power(k) && v == hi * p + lo && lo < p
    ensures InBits(m + k)(v) == InBits(m)(hi) + InBits(k)(lo)
  {
    BitsJoin(hi, lo, m, k);
  }

  lemma {:induction false} BitCount(n: nat, width: nat)
    ensures |BitsOf(n, width)| == width
    decreases width
  {
    if width > 0 { BitCount(n / 2, width - 1); }
  }

  lemma {:induction false} NoBits(width: nat)
    ensures BitsOf(0, width) == Zeros(width)
    decreases width
  {
    if width > 0 { NoBits(width - 1); }
  }

  lemma {:induction false} BitsInjective(a: nat, b: nat, width: nat)
    requires a < Power(width) && b < Power(width) && BitsOf(a, width) == BitsOf(b, width)
    ensures a == b
    decreases width
  {
    if width > 0 {
      var x, y := BitsOf(a / 2, width - 1), BitsOf(b / 2, width - 1);
      assert (x + [a % 2])[..|x|] == x && (y + [b % 2])[..|y|] == y;
      BitCount(a / 2, width - 1);
      BitCount(b / 2, width - 1);
      BitsInjective(a / 2, b / 2, width - 1);
    }
  }

  // What the bit strings need of the writings

  /** Packing four digits into three bytes cuts two of the digits. */
  ghost predicate Cuts(byte: Writing, digit: Writing, two: Writing, four: Writing,
                       x: Digit, y: Digit, z: Digit, w: Digit)
  {
    && byte(Pack(x, y, z, w)[0]) == digit(x) + two(y / 16)
    && byte(Pack(x, y, z, w)[1]) == four(y % 16) + four(z / 4)
    && byte(Pack(x, y, z, w)[2]) == two(z % 4) + digit(w)
    && digit(y) == two(y / 16) + four(y % 16) && digit(z) == four(z / 4) + two(z % 4)
  }

  ghost predicate Widths(byte: Writing, digit: Writing, two: Writing, four: Writing) {
    && (forall x: Digit, y: Digit, z: Digit, w: Digit :: Cuts(byte, digit, two, four, x, y, z, w))
    && Wide(byte, 8) && Wide(digit, 6) && Wide(two, 2) && Wide(four, 4)
    && two(0) == Zeros(2) && four(0) == Zeros(4)
  }

  /** Every number takes this many bits. */
  ghost predicate Wide(bits: Writing, width: nat) { forall n: nat :: |bits(n)| == width }

  /** Numbers of that many bits are told apart. */
  ghost predicate Distinct(bits: Writing, width: nat) {
    forall m: nat, n: nat :: m < Power(width) && n < Power(width) && bits(m) == bits(n) ==> m == n
  }

  lemma InBitsWide(width: nat)
    ensures Wide(InBits(width), width) && Distinct(InBits(width), width)
  {
    forall n: nat ensures |InBits(width)(n)| == width { BitCount(n, width); }
    forall m: nat, n: nat | m < Power(width) && n < Power(width) && InBits(width)(m) == InBits(width)(n)
      ensures m == n
    {
      BitsInjective(m, n, width);
    }
  }

  lemma ByteCuts(x: Digit, y: Digit, z: Digit, w: Digit)
    ensures var b := Pack(x, y, z, w);
            && InBits(8)(b[0]) == InBits(6)(x) + InBits(2)(y / 16)
            && InBits(8)(b[1]) == InBits(4)(y % 16) + InBits(4)(z / 4)
            && InBits(8)(b[2]) == InBits(2)(z % 4) + InBits(6)(w)
  {
    Powers();
    BitsCut(x * 4 + y / 16, x, y / 16, 6, 2, 4);
    BitsCut(y % 16 * 16 + z / 4, y % 16, z / 4, 4, 4, 16);
    BitsCut(z % 4 * 64 + w, z % 4, w, 2, 6, 64);
  }

  lemma DigitCuts(y: Digit)
    ensures InBits(6)(y) == InBits(2)(y / 16) + InBits(4)(y % 16) == InBits(4)(y / 4) + InBits(2)(y % 4)
  {
    Powers();
    BitsCut(y, y / 16, y % 16, 2, 4, 16);
    BitsCut(y, y / 4, y % 4, 4, 2, 4);
  }

  lemma TheWidths()
    ensures Widths(InBits(8), InBits(6), InBits(2), InBits(4))
  {
    forall x: Digit, y: Digit, z: Digit, w: Digit ensures Cuts(InBits(8), InBits(6), InBits(2), InBits(4), x, y, z, w) {
      ByteCuts(x, y, z, w);
      DigitCuts(y);
      DigitCuts(z);
    }
    InBitsWide(8);
    InBitsWide(6);
    InBitsWide(2);
    InBitsWide(4);
    NoBits(2);
    NoBits(4);
  }

  // Bit strings

  lemma BitStringNext(first: nat, rest: seq<nat>, bits: Writing)
    ensures BitString([first] + rest, bits) == bits(first) + BitString(rest, bits)
  {
    assert ([first] + rest)[1..] == rest;
  }

  lemma BitStringTwo(a: nat, b: nat, rest: seq<nat>, bits: Writing)
    ensures BitString([a, b] + rest, bits) == bits(a) + (bits(b) + BitString(rest, bits))
  {
    BitStringNext(a, [b] + rest, bits);
    BitStringNext(b, rest, bits);
    assert [a] + ([b] + rest) == [a, b] + rest;
  }

  lemma BitStringThree(a: nat, b: nat, c: nat, rest: seq<nat>, bits: Writing)
    ensures BitString([a, b, c] + rest, bits) == bits(a) + (bits(b) + (bits(c) + BitString(rest, bits)))
  {
    BitStringNext(a, [b, c] + rest, bits);
    BitStringTwo(b, c, rest, bits);
    assert [a] + ([b, c] + rest) == [a, b, c] + rest;
  }

  lemma BitStringFour(a: nat, b: nat, c: nat, d: nat, rest: seq<nat>, bits: Writing)
    ensures BitString([a, b, c, d] + rest, bits) == bits(a) + (bits(b) + (bits(c) + (bits(d) + BitString(rest, bits))))
  {
    BitStringNext(a, [b, c, d] + rest, bits);
    BitStringThree(b, c, d, rest, bits);
    assert [a] + ([b, c, d] + rest) == [a, b, c, d] + rest;
  }

  lemma {:induction false} BitStringLength(groups: seq<nat>, bits: Writing, width: nat)
    requires forall n: nat :: |bits(n)| == width
    ensures |BitString(groups, bits)| == |groups| * width
    decreases |groups|
  {
    if groups != [] { BitStringLength(groups[1..], bits, width); }
  }

  lemma {:induction false} SameGroups(a: seq<nat>, b: seq<nat>, bits: Writing, width: nat)
    requires width > 0 && Wide(bits, width) && Distinct(bits, width) && BitString(a, bits) == BitString(b, bits)
    requires forall k :: 0 <= k < |a| ==> a[k] < Power(width)
    requires forall k :: 0 <= k < |b| ==> b[k] < Power(width)
    ensures a == b
    decreases |a|
  {
    BitStringLength(a, bits, width);
    BitStringLength(b, bits, width);
    if a != [] && b != [] {
      var u, v := BitString(a[1..], bits), BitString(b[1..], bits);
      assert (bits(a[0]) + u)[..width] == bits(a[0]) && (bits(b[0]) + v)[..width] == bits(b[0]);
      assert (bits(a[0]) + u)[width..] == u && (bits(b[0]) + v)[width..] == v;
      SameGroups(a[1..], b[1..], bits, width);
      assert a == [a[0]] + a[1..] && b == [b[0]] + b[1..];
    }
  }

  // Digits and bytes

  /** The bytes a lenient decoder makes of digits: as many as the bits fill, whatever bits are left over. */
  function FromDigitsLeniently(d: seq<Digit>): Option<Bytes> {
    if |d| == 0 then Some([])
    else if |d| == 1 then None
    else if |d| == 2 then Some(Pack(d[0], d[1], 0, 0)[..1])
    else if |d| == 3 then Some(Pack(d[0], d[1], d[2], 0)[..2])
    else match FromDigitsLeniently(d[4..])
      case None => None
      case Some(rest) => Some(Pack(d[0], d[1], d[2], d[3]) + rest)
  }

  /** The bits of the last digit that fill no byte. */
  function LeftOver(d: seq<Digit>, two: Writing, four: Writing): seq<Bit> {
    if |d| % 4 == 2 then four(d[|d| - 1] % 16) else if |d| % 4 == 3 then two(d[|d| - 1] % 4) else []
  }

  /** The bits of the digits are those of the bytes and those left over. */
  ghost predicate SameBits(d: seq<Digit>, b: Bytes, byte: Writing, digit: Writing, two: Writing, four: Writing) {
    BitString(d, digit) == BitString(b, byte) + LeftOver(d, two, four)
  }

  lemma TwoLeft(x: Digit, y: Digit, byte: Writing, digit: Writing, two: Writing, four: Writing)
    requires Widths(byte, digit, two, four)
    ensures SameBits([x, y], Pack(x, y, 0, 0)[..1], byte, digit, two, four)
  {
    var b, none: seq<nat> := Pack(x, y, 0, 0), [];
    assert Cuts(byte, digit, two, four, x, y, 0, 0);
    assert b[..1] == [b[0]] + none && [x, y] + none == [x, y];
    BitStringTwo(x, y, none, digit);
    BitStringNext(b[0], none, byte);
    TwoRegroup(digit(x), digit(y), two(y / 16), four(y % 16));
  }

  lemma TwoRegroup(x: seq<Bit>, y: seq<Bit>, y1: seq<Bit>, y0: seq<Bit>)
    requires y == y1 + y0
    ensures x + (y + []) == (x + y1 + []) + y0
  {
    assert y + [] == y && x + y1 + [] == x + y1;
    Assoc(x, y1, y0);
  }

  lemma ThreeLeft(x: Digit, y: Digit, z: Digit, byte: Writing, digit: Writing, two: Writing, four: Writing)
    requires Widths(byte, digit, two, four)
    ensures SameBits([x, y, z], Pack(x, y, z, 0)[..2], byte, digit, two, four)
  {
    var b, none: seq<nat> := Pack(x, y, z, 0), [];
    assert Cuts(byte, digit, two, four, x, y, z, 0);
    assert b[..2] == [b[0], b[1]] + none && [x, y, z] + none == [x, y, z];
    BitStringThree(x, y, z, none, digit);
    BitStringTwo(b[0], b[1], none, byte);
    ThreeRegroup(digit(x), digit(y), digit(z), two(y / 16), four(y % 16), four(z / 4), two(z % 4));
  }

  lemma ThreeRegroup(x: seq<Bit>, y: seq<Bit>, z: seq<Bit>, y1: seq<Bit>, y0: seq<Bit>, z1: seq<Bit>, z0: seq<Bit>)
    requires y == y1 + y0 && z == z1 + z0
    ensures x + (y + (z + [])) == (x + y1 + (y0 + z1 + [])) + z0
  {
    assert z + [] == z && y0 + z1 + [] == y0 + z1;
    Assoc(x + y1, y0, z1);
    Assoc(x, y1, y0);
    Assoc(x, y, z);
    Assoc(x + y, z1, z0);
  }

  lemma LeftOverNext(d: seq<Digit>, two: Writing, four: Writing)
    requires |d| >= 4
    ensures LeftOver(d, two, four) == LeftOver(d[4..], two, four)
  {
  }

  lemma FourFirst(d: seq<nat>)
    requires |d| >= 4
    ensures d == [d[0], d[1], d[2], d[3]] + d[4..]
  {
  }

  lemma DigitsFirst(d: seq<nat>, bits: Writing)
    requires |d| >= 4
    ensures BitString(d, bits) == bits(d[0]) + (bits(d[1]) + (bits(d[2]) + (bits(d[3]) + BitString(d[4..], bits))))
  {
    FourFirst(d);
    BitStringFour(d[0], d[1], d[2], d[3], d[4..], bits);
  }

  /** A group in front: its three bytes are its four digits, cut elsewhere. */
  lemma GroupRegroup(x: seq<Bit>, y: seq<Bit>, z: seq<Bit>, w: seq<Bit>, y1: seq<Bit>, y0: seq<Bit>, z1: seq<Bit>,
                     z0: seq<Bit>, digits: seq<Bit>, bytes: seq<Bit>, left: seq<Bit>)
    requires y == y1 + y0 && z == z1 + z0 && digits == bytes + left
    ensures x + (y + (z + (w + digits))) == (x + y1 + (y0 + z1 + (z0 + w + bytes))) + left
  {
    Assoc(w, bytes, left);
    Assoc(z0, w, bytes);
    Assoc(z1, z0, w + bytes);
    Assoc(y0, z1, z0 + (w + bytes));
    Assoc(y1, y0, z + (w + bytes));
    Assoc(x, y1, y0 + (z + (w + bytes)));
    Assoc(z, w + bytes, left);
    Assoc(y, z + (w + bytes), left);
    Assoc(x, y + (z + (w + bytes)), left);
  }

  lemma GroupSame(d: seq<Digit>, head: Bytes, rest: Bytes, byte: Writing, digit: Writing, two: Writing, four: Writing)
    requires Widths(byte, digit, two, four) && |d| >= 4 && head == Pack(d[0], d[1], d[2], d[3])
    requires SameBits(d[4..], rest, byte, digit, two, four)
    ensures SameBits(d, head + rest, byte, digit, two, four)
  {
    assert Cuts(byte, digit, two, four, d[0], d[1], d[2], d[3]);
    DigitsFirst(d, digit);
    assert head == [head[0], head[1], head[2]];
    BitStringThree(head[0], head[1], head[2], rest, byte);
    LeftOverNext(d, two, four);
    GroupRegroup(digit(d[0]), digit(d[1]), digit(d[2]), digit(d[3]), two(d[1] / 16), four(d[1] % 16), four(d[2] / 4),
                 two(d[2] % 4), BitString(d[4..], digit), BitString(rest, byte), LeftOver(d, two, four));
  }

  /** What the lenient decoder makes of digits has their bits; it refuses only one digit left over. */
  ghost predicate Lenient(d: seq<Digit>, r: Option<Bytes>, byte: Writing, digit: Writing, two: Writing, four: Writing) {
    (r.Some? <==> |d| % 4 != 1) && (r.Some? ==> SameBits(d, r.value, byte, digit, two, four))
  }

  lemma ShortValue(d: seq<Digit>)
    requires |d| < 4
    ensures FromDigitsLeniently(d)
            == if |d| == 0 then Some([])
               else if |d| == 1 then None
               else if |d| == 2 then Some(Pack(d[0], d[1], 0, 0)[..1])
               else Some(Pack(d[0], d[1], d[2], 0)[..2])
  {
  }

  lemma LenientNone(byte: Writing, digit: Writing, two: Writing, four: Writing)
    ensures Lenient([], Some([]), byte, digit, two, four)
  {
  }

  lemma LenientTwo(x: Digit, y: Digit, byte: Writing, digit: Writing, two: Writing, four: Writing)
    requires Widths(byte, digit, two, four)
    ensures Lenient([x, y], Some(Pack(x, y, 0, 0)[..1]), byte, digit, two, four)
  {
    TwoLeft(x, y, byte, digit, two, four);
  }

  lemma LenientThree(x: Digit, y: Digit, z: Digit, byte: Writing, digit: Writing, two: Writing, four: Writing)
    requires Widths(byte, digit, two, four)
    ensures Lenient([x, y, z], Some(Pack(x, y, z, 0)[..2]), byte, digit, two, four)
  {
    ThreeLeft(x, y, z, byte, digit, two, four);
  }

  lemma ShortOfTwo(d: seq<Digit>, byte: Writing, digit: Writing, two: Writing, four: Writing)
    requires Widths(byte, digit, two, four) && |d| == 2
    ensures Lenient(d, FromDigitsLeniently(d), byte, digit, two, four)
  {
    ShortValue(d);
    LenientTwo(d[0], d[1], byte, digit, two, four);
    assert d == [d[0], d[1]];
  }

  lemma ShortOfThree(d: seq<Digit>, byte: Writing, digit: Writing, two: Writing, four: Writing)
    requires Widths(byte, digit, two, four) && |d| == 3
    ensures Lenient(d, FromDigitsLeniently(d), byte, digit, two, four)
  {
    ShortValue(d);
    LenientThree(d[0], d[1], d[2], byte, digit, two, four);
    assert d == [d[0], d[1], d[2]];
  }

  lemma LenientShort(d: seq<Digit>, byte: Writing, digit: Writing, two: Writing, four: Writing)
    requires Widths(byte, digit, two, four) && |d| < 4
    ensures Lenient(d, FromDigitsLeniently(d), byte, digit, two, four)
  {
    if |d| == 2 {
      ShortOfTwo(d, byte, digit, two, four);
    } else if |d| == 3 {
      ShortOfThree(d, byte, digit, two, four);
    } else {
      ShortValue(d);
      LenientNone(byte, digit, two, four);
    }
  }

  lemma LenientNext(d: seq<Digit>)
    requires |d| >= 4
    ensures var rest := FromDigitsLeniently(d[4..]);
            FromDigitsLeniently(d)
            == if rest.None? then None else Some(Pack(d[0], d[1], d[2], d[3]) + rest.value)
  {
  }

  lemma LenientLong(d: seq<Digit>, rest: Option<Bytes>, byte: Writing, digit: Writing, two: Writing, four: Writing)
    requires Widths(byte, digit, two, four) && |d| >= 4 && Lenient(d[4..], rest, byte, digit, two, four)
    ensures var head := Pack(d[0], d[1], d[2], d[3]);
            Lenient(d, if rest.None? then None else Some(head + rest.value), byte, digit, two, four)
  {
    if rest.Some? { GroupSame(d, Pack(d[0], d[1], d[2], d[3]), rest.value, byte, digit, two, four); }
  }

  lemma {:induction false} LenientBits(d: seq<Digit>, byte: Writing, digit: Writing, two: Writing, four: Writing)
    requires Widths(byte, digit, two, four)
    ensures Lenient(d, FromDigitsLeniently(d), byte, digit, two, four)
    decreases |d|
  {
    if |d| < 4 {
      LenientShort(d, byte, digit, two, four);
    } else {
      LenientBits(d[4..], byte, digit, two, four);
      LenientNext(d);
      LenientLong(d, FromDigitsLeniently(d[4..]), byte, digit, two, four);
    }
  }

  /** The bytes are all that the bits of the digits fill. */
  ghost predicate Fills(d: seq<Digit>, b: Bytes) {
    |b| == 6 * |d| / 8 && BitString(b, InBits(8)) <= BitString(d, InBits(6))
  }

  /** Bytes with the same bits, less than a byte left over, are all that is filled. */
  lemma HowMany(d: seq<Digit>, b: Bytes, byte: Writing, digit: Writing, two: Writing, four: Writing)
    requires Widths(byte, digit, two, four) && SameBits(d, b, byte, digit, two, four)
    ensures |b| == 6 * |d| / 8 && BitString(b, byte) <= BitString(d, digit)
  {
    BitStringLength(d, digit, 6);
    BitStringLength(b, byte, 8);
    assert |LeftOver(d, two, four)| < 8;
    assert |b| * 8 <= |d| * 6 < |b| * 8 + 8;
  }

  /** A lenient decoder takes every number of digits but one left over, and gives the bytes their bits fill. */
  lemma LenientExact(d: seq<Digit>)
    ensures FromDigitsLeniently(d).Some? <==> |d| % 4 != 1
    ensures FromDigitsLeniently(d).Some? ==> Fills(d, FromDigitsLeniently(d).value)
  {
    TheWidths();
    LenientBits(d, InBits(8), InBits(6), InBits(2), InBits(4));
    if FromDigitsLeniently(d).Some? {
      HowMany(d, FromDigitsLeniently(d).value, InBits(8), InBits(6), InBits(2), InBits(4));
    }
  }

  /** Digits have one filling only. */
  lemma OneFill(d: seq<Digit>, b: Bytes, c: Bytes)
    requires Fills(d, b) && Fills(d, c)
    ensures b == c
  {
    Powers();
    InBitsWide(8);
    BitStringLength(b, InBits(8), 8);
    BitStringLength(c, InBits(8), 8);
    SameGroups(b, c, InBits(8), 8);
  }

  lemma {:induction false} LenientIsStrict(d: seq<Digit>)
    requires FromDigits(d).Some?
    ensures FromDigitsLeniently(d) == FromDigits(d)
    decreases |d|
  {
    if |d| >= 4 { LenientIsStrict(d[4..]); }
  }

  /** The strict decoder takes only zeros for the bits left over. */
  lemma {:induction false} StrictIsZero(d: seq<Digit>)
    requires FromDigits(d).Some?
    ensures |d| % 4 == 2 ==> d[|d| - 1] % 16 == 0
    ensures |d| % 4 == 3 ==> d[|d| - 1] % 4 == 0
    decreases |d|
  {
    if |d| >= 4 { StrictIsZero(d[4..]); }
  }

  /** The bits are those of the bytes, filled up with zeros. */
  ghost predicate FillsUp(d: seq<Digit>, b: Bytes, byte: Writing, digit: Writing, n: nat) {
    BitString(d, digit) == BitString(b, byte) + Zeros(n)
  }

  /** How many bits are left over. */
  function Spare(n: nat): nat { if n % 4 == 2 then 4 else if n % 4 == 3 then 2 else 0 }

  lemma DigitsFillUp(b: Bytes, byte: Writing, digit: Writing, two: Writing, four: Writing)
    requires Widths(byte, digit, two, four)
    ensures FillsUp(Digits(b), b, byte, digit, Spare(|Digits(b)|))
  {
    var d := Digits(b);
    FromDigitsDigits(b);
    LenientIsStrict(d);
    LenientBits(d, byte, digit, two, four);
    StrictIsZero(d);
  }

  /** Two ways to fill up the same bytes with less than a digit of zeros are one. */
  lemma OneFilling(d: seq<Digit>, e: seq<Digit>, b: Bytes, byte: Writing, digit: Writing, m: nat, n: nat)
    requires Wide(digit, 6) && Distinct(digit, 6) && Power(6) == 64 && m < 6 && n < 6
    requires FillsUp(d, b, byte, digit, m) && FillsUp(e, b, byte, digit, n)
    ensures d == e
  {
    BitStringLength(d, digit, 6);
    BitStringLength(e, digit, 6);
    assert |d| * 6 - m == |e| * 6 - n;
    assert m == n;
    SameGroups(d, e, digit, 6);
  }

  lemma DigitsAre(b: Bytes, d: seq<Digit>, byte: Writing, digit: Writing, two: Writing, four: Writing)
    requires Widths(byte, digit, two, four) && Distinct(digit, 6)
    ensures d == Digits(b) <==> exists n: nat :: n < 6 && FillsUp(d, b, byte, digit, n)
  {
    DigitsFillUp(b, byte, digit, two, four);
    if n: nat :| n < 6 && FillsUp(d, b, byte, digit, n) {
      Powers();
      OneFilling(d, Digits(b), b, byte, digit, n, Spare(|Digits(b)|));
    }
  }

  /** Section 4 of RFC 4648: the digits of a byte string are its bits, the most significant first, in groups of six,
      the last one filled up with zeros. */
  lemma DigitsAreBits(b: Bytes, d: seq<Digit>)
    ensures d == Digits(b) <==> exists n: nat :: n < 6 && FillsUp(d, b, InBits(8), InBits(6), n)
  {
    TheWidths();
    InBitsWide(6);
    DigitsAre(b, d, InBits(8), InBits(6), InBits(2), InBits(4));
  }

  // ---- Digits and characters --------------------------------------------------------------------

  /** A 64-character alphabet without the padding character. */
  ghost predicate Alphabet(a: string) {
    |a| == 64 && '=' !in a && (forall i, j :: 0 <= i < j < 64 ==> a[i] != a[j])
  }

  /** The alphabets of sections 4 and 5 differ in their last two characters. */
  function Table(c62: char, c63: char): (a: string)
    ensures |a| == 64
  {
    seq(64, k requires 0 <= k < 64 =>
      if k < 26 then ('A' as int + k) as char
      else if k < 52 then ('a' as int + (k - 26)) as char
      else if k < 62 then ('0' as int + (k - 52)) as char
      else if k == 62 then c62 else c63)
  }

  lemma TableIsAlphabet(c62: char, c63: char)
    requires c62 != c63 && {c62, c63} <= {'+', '/', '-', '_'}
    ensures Alphabet(Table(c62, c63))
  {
    assert c62 in {c62, c63} && c63 in {c62, c63};
  }

  /** The value of a character, by the ranges it may be in: tables 1 and 2 of RFC 4648. */
  function CharValue(c62: char, c63: char, c: char): Option<nat> {
    if 'A' <= c <= 'Z' then Some(c as nat - 'A' as nat)
    else if 'a' <= c <= 'z' then Some(26 + (c as nat - 'a' as nat))
    else if '0' <= c <= '9' then Some(52 + (c as nat - '0' as nat))
    else if c == c62 then Some(62)
    else if c == c63 then Some(63)
    else None
  }

  /** A character stands in the alphabet where its value says, and nowhere if it has none. */
  lemma TableReads(c62: char, c63: char, c: char)
    requires c62 != c63 && {c62, c63} <= {'+', '/', '-', '_'}
    ensures IndexOf(Table(c62, c63), c) == CharValue(c62, c63, c)
  {
    var table, v := Table(c62, c63), CharValue(c62, c63, c);
    TableIsAlphabet(c62, c63);
    if v.Some? {
      assert table[v.value] == c;
      assert forall k :: 0 <= k < v.value ==> table[k] != c;
      IndexOfIs(table, c, v.value);
    } else {
      assert forall k :: 0 <= k < 64 ==> table[k] != c;
    }
  }

  function Write(a: string, d: seq<Digit>): string
    requires |a| == 64
  {
    if d == [] then "" else [a[d[0]]] + Write(a, d[1..])
  }

  /** The digits of a string over the alphabet. */
  function Read(a: string, s: string): Option<seq<Digit>>
    requires |a| == 64
  {
    if s == "" then Some([])
    else
      var first, rest := IndexOf(a, s[0]), Read(a, s[1..]);
      if first.None? || rest.None? then None else Some([first.value] + rest.value)
  }

  lemma {:induction false} ReadWrite(a: string, d: seq<Digit>)
    requires Alphabet(a)
    ensures Read(a, Write(a, d)) == Some(d)
    decreases |d|
  {
    if d != [] {
      ReadWrite(a, d[1..]);
      assert IndexOf(a, a[d[0]]) == Some(d[0]) by { var i := IndexOf(a, a[d[0]]); }
      assert ([a[d[0]]] + Write(a, d[1..]))[1..] == Write(a, d[1..]);
      assert d == [d[0]] + d[1..];
    }
  }

  lemma {:induction false} WriteRead(a: string, s: string)
    requires Alphabet(a) && Read(a, s).Some?
    ensures Write(a, Read(a, s).value) == s
    decreases |s|
  {
    if s != "" {
      WriteRead(a, s[1..]);
      var d := Read(a, s).value;
      assert d[1..] == Read(a, s[1..]).value;
    }
  }

  // ---- The unpadded codec -----------------------------------------------------------------------

  function Encode(a: string, b: Bytes): string
    requires |a| == 64
  {
    Write(a, Digits(b))
  }

  function Decode(a: string, s: string): Option<Bytes>
    requires |a| == 64
  {
    match Read(a, s)
    case None => None
    case Some(d) => FromDigits(d)
  }

  /** Encoding is a bijection onto the accepted strings: decoding inverts it, and whatever the strict
      decoder accepts is the encoding of what it returns. */
  lemma Bijection(a: string, b: Bytes, s: string)
    requires Alphabet(a)
    ensures Decode(a, s) == Some(b) <==> s == Encode(a, b)
  {
    ReadWrite(a, Digits(b));
    FromDigitsDigits(b);
    if Decode(a, s) == Some(b) {
      WriteRead(a, s);
      DigitsFromDigits(Read(a, s).value);
    }
  }

  // ---- The padded codec -------------------------------------------------------------------------

  /** Padding to a multiple of four characters. */
  function Padding(n: nat): string {
    if n % 3 == 1 then "==" else if n % 3 == 2 then "=" else ""
  }

  function EncodePadded(a: string, b: Bytes): string
    requires |a| == 64
  {
    Encode(a, b) + Padding(|b|)
  }

  /** A string without its padding, at most two characters of it. */
  function StripPadding(s: string): string {
    if s == "" || s[|s| - 1] != '=' then s
    else if |s| > 1 && s[|s| - 2] == '=' then s[..|s| - 2]
    else s[..|s| - 1]
  }

  /** The strict padded decoder. */
  function DecodePadded(a: string, s: string): Option<Bytes>
    requires |a| == 64
  {
    if |s| % 4 != 0 then None else Decode(a, StripPadding(s))
  }

  lemma {:induction false} DigitCount(b: Bytes)
    ensures |Digits(b)| == |b| / 3 * 4 + (if |b| % 3 == 0 then 0 else |b| % 3 + 1)
    decreases |b|
  {
    if |b| >= 3 { DigitCount(b[3..]); }
  }

  lemma {:induction false} WriteChars(a: string, d: seq<Digit>)
    requires Alphabet(a)
    ensures |Write(a, d)| == |d| && forall c :: c in Write(a, d) ==> c in a
    decreases |d|
  {
    if d != [] { WriteChars(a, d[1..]); }
  }

  lemma ModFour(q: nat, k: nat)
    requires k < 4
    ensures (q * 4 + k) % 4 == k && (q * 4 + 4) % 4 == 0
  {
  }

  lemma Remainder(n: nat)
    ensures (n / 3 * 4 + (if n % 3 == 0 then 0 else n % 3 + 1)) % 4 == if n % 3 == 0 then 0 else n % 3 + 1
    ensures (n / 3 * 4 + (if n % 3 == 0 then 0 else n % 3 + 1) + |Padding(n)|) % 4 == 0
  {
    var q, k := n / 3, n % 3;
    ModFour(q, if k == 0 then 0 else k + 1);
    ModFour(q, 0);
  }

  lemma EncodeShape(a: string, b: Bytes)
    requires Alphabet(a)
    ensures '=' !in Encode(a, b)
    ensures |Encode(a, b)| % 4 == (if |b| % 3 == 0 then 0 else |b| % 3 + 1)
    ensures (|Encode(a, b)| + |Padding(|b|)|) % 4 == 0
  {
    DigitCount(b);
    WriteChars(a, Digits(b));
    Remainder(|b|);
  }

  lemma StripAppended(e: string, n: nat)
    requires '=' !in e
    ensures StripPadding(e + Padding(n)) == e
  {
    var s := e + Padding(n);
    assert e != "" ==> e[|e| - 1] in e;
    assert s[..|e|] == e;
  }

  lemma AppendStripped(s: string)
    ensures var t := StripPadding(s);
            s == t || s == t + "=" || s == t + "=="
  {
  }

  lemma StripPadded(a: string, b: Bytes)
    requires Alphabet(a)
    ensures |EncodePadded(a, b)| % 4 == 0 && StripPadding(EncodePadded(a, b)) == Encode(a, b)
  {
    EncodeShape(a, b);
    StripAppended(Encode(a, b), |b|);
  }

  lemma PaddedBijection(a: string, b: Bytes, s: string)
    requires Alphabet(a)
    ensures DecodePadded(a, s) == Some(b) <==> s == EncodePadded(a, b)
  {
    StripPadded(a, b);
    Bijection(a, b, StripPadding(s));
    if DecodePadded(a, s) == Some(b) { PaddingIsCanonical(a, b, s); }
  }

  lemma PaddingIsCanonical(a: string, b: Bytes, s: string)
    requires Alphabet(a)
    requires |s| % 4 == 0 && StripPadding(s) == Encode(a, b)
    ensures s == EncodePadded(a, b)
  {
    EncodeShape(a, b);
    AppendStripped(s);
    assert StripPadding(s) + "" == StripPadding(s);
  }
}
