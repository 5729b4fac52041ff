/** Opaque batch and file ids: the routing fields joined by a separator, signed when a secret is
    configured, in unpadded base64url behind a prefix. */
module BatchId {
  import opened Bits
  import opened Common
  import Base64
  import Utf8

  const SEP: Byte := 0x1f
  const BATCH_PREFIX := "batch_"
  const FILE_PREFIX := "file_"
  const TAG_LEN: nat := 16

  /** The URL-safe alphabet, section 5 of RFC 4648. */
  const URL_SAFE: string := Base64.Table('-', '_')

  /** A keyed MAC cut to its first 16 bytes. */
  type Tag = t: Bytes | |t| == TAG_LEN witness seq(TAG_LEN, i => 0)
  type Signer = Bytes -> Tag

  datatype DecodedBatch = DecodedBatch(provider: string, upstream: string, owner: Option<string>)

  // ---- The constant-time comparison -------------------------------------------------------------

  /** The fold has no early exit, and is zero exactly on equal tags. */
  method Verify(signer: Signer, payload: Bytes, tag: Bytes) returns (ok: bool)
    ensures ok <==> tag == signer(payload)
  {
    if |tag| != TAG_LEN { return false; }
    var expected := signer(payload);
    var acc: nat := 0;
    for k := 0 to TAG_LEN
      invariant acc == 0 <==> expected[..k] == tag[..k]
    {
      XorZero(expected[k], tag[k]);
      OrZero(acc, Xor(expected[k], tag[k]));
      assert expected[..k + 1] == expected[..k] + [expected[k]] && tag[..k + 1] == tag[..k] + [tag[k]];
      acc := Or(acc, Xor(expected[k], tag[k]));
    }
    assert expected[..TAG_LEN] == expected && tag[..TAG_LEN] == tag;
    ok := acc == 0;
  }

  // ---- Encoding ---------------------------------------------------------------------------------

  function Join3(a: Bytes, b: Bytes, c: Bytes): Bytes { a + [SEP] + b + [SEP] + c }

  function SignedPayload(signer: Signer, provider: string, upstream: string, owner: string): Bytes {
    var head := Join3(Utf8.Encode(provider), Utf8.Encode(upstream), Utf8.Encode(owner));
    head + [SEP] + signer(head)
  }

  function LegacyPayload(provider: string, upstream: string): Bytes {
    Utf8.Encode(provider) + [SEP] + Utf8.Encode(upstream)
  }

  function Token(prefix: string, payload: Bytes): string { prefix + Base64.Encode(URL_SAFE, payload) }

  function EncodeBatch(provider: string, upstream: string, owner: string, signer: Option<Signer>): string {
    Token(BATCH_PREFIX,
          if signer.Some? then SignedPayload(signer.value, provider, upstream, owner)
          else LegacyPayload(provider, upstream))
  }

  function EncodeFile(provider: string, upstream: string): string {
    Token(FILE_PREFIX, LegacyPayload(provider, upstream))
  }

  // ---- Decoding ---------------------------------------------------------------------------------

  function DecodePayload(prefix: string, token: string): Option<Bytes> {
    if prefix <= token then Base64.Decode(URL_SAFE, token[|prefix|..]) else None
  }

  /** Split on the first separator. */
  function SplitOnce(b: Bytes): Option<(Bytes, Bytes)> {
    match IndexOf(b, SEP)
    case None => None
    case Some(i) => Some((b[..i], b[i + 1..]))
  }

  /** Split on the last separator. */
  function RSplitOnce(b: Bytes): Option<(Bytes, Bytes)> {
    if b == [] then None
    else if b[|b| - 1] == SEP then Some((b[..|b| - 1], []))
    else match RSplitOnce(b[..|b| - 1])
      case None => None
      case Some((head, tail)) => Some((head, tail + [b[|b| - 1]]))
  }

  function SplitFields(b: Bytes): Option<(string, string)> {
    match SplitOnce(b)
    case None => None
    case Some((provider, upstream)) =>
      var p, u := Utf8.FromUtf8(provider), Utf8.FromUtf8(upstream);
      if provider == [] || p.None? || u.None? then None else Some((p.value, u.value))
  }

  /** The fields of a signed head. */
  function SplitHead(head: Bytes): Option<DecodedBatch> {
    match SplitOnce(head)
    case None => None
    case Some((provider, rest)) =>
      match RSplitOnce(rest)
      case None => None
      case Some((upstream, owner)) =>
        var p, u, o := Utf8.FromUtf8(provider), Utf8.FromUtf8(upstream), Utf8.FromUtf8(owner);
        if provider == [] || p.None? || u.None? || o.None? then None
        else Some(DecodedBatch(p.value, u.value, Some(o.value)))
  }

  /** The tag is raw bytes and may itself contain the separator, so it is cut off by length. */
  function DecodeSigned(signer: Signer, b: Bytes): Option<DecodedBatch> {
    if |b| < TAG_LEN + 1 || b[|b| - TAG_LEN - 1] != SEP then None
    else
      var head, tag := b[..|b| - TAG_LEN - 1], b[|b| - TAG_LEN..];
      if tag != signer(head) then None else SplitHead(head)
  }

  function DecodeBatch(token: string, signer: Option<Signer>): Option<DecodedBatch> {
    match DecodePayload(BATCH_PREFIX, token)
    case None => None
    case Some(b) =>
      if signer.Some? then DecodeSigned(signer.value, b)
      else match SplitFields(b)
        case None => None
        case Some((p, u)) => Some(DecodedBatch(p, u, None))
  }

  function DecodeFile(token: string): Option<(string, string)> {
    match DecodePayload(FILE_PREFIX, token)
    case None => None
    case Some(b) => SplitFields(b)
  }

  // ---- Splitting and joining --------------------------------------------------------------------

  lemma SplitOnceExact(b: Bytes, x: Bytes, y: Bytes)
    ensures SplitOnce(b) == Some((x, y)) <==> SEP !in x && b == x + [SEP] + y
  {
    if SEP !in x && b == x + [SEP] + y {
      assert b[..|x|] == x && b[|x| + 1..] == y;
      IndexOfIs(b, SEP, |x|);
    }
  }

  lemma {:induction false} RSplitOnceExact(b: Bytes, x: Bytes, y: Bytes)
    ensures RSplitOnce(b) == Some((x, y)) <==> SEP !in y && b == x + [SEP] + y
    decreases |b|
  {
    if b != [] {
      var init, last := b[..|b| - 1], b[|b| - 1];
      assert b == init + [last];
      if last == SEP {
        assert y == [] ==> x + [SEP] + y == x + [SEP];
        assert y != [] ==> (x + [SEP] + y)[|x| + |y|] == y[|y| - 1] && y[|y| - 1] in y;
        assert (x + [SEP])[..|x|] == x;
      } else if y != [] && y[|y| - 1] == last {
        var y' := y[..|y| - 1];
        assert y == y' + [last];
        RSplitOnceExact(init, x, y');
        assert x + [SEP] + y == x + [SEP] + y' + [last];
      } else if RSplitOnce(init).Some? {
        var (h, t) := RSplitOnce(init).value;
        assert (t + [last])[|t|] == last;
      }
    }
  }

  // ---- The codec as the program runs it ---------------------------------------------------------

  method Encode(provider: string, upstream: string, owner: string, signer: Option<Signer>) returns (token: string)
    ensures token == EncodeBatch(provider, upstream, owner, signer)
  {
    if signer.None? {
      token := EncodeWith(BATCH_PREFIX, provider, upstream);
      return;
    }
    var head := Utf8.Encode(provider);
    head := head + [SEP];
    head := head + Utf8.Encode(upstream);
    head := head + [SEP];
    head := head + Utf8.Encode(owner);
    var tag := signer.value(head);
    var payload := head;
    payload := payload + [SEP];
    payload := payload + tag;
    token := BATCH_PREFIX + Base64.Encode(URL_SAFE, payload);
  }

  method EncodeWith(prefix: string, provider: string, upstream: string) returns (token: string)
    ensures token == Token(prefix, LegacyPayload(provider, upstream))
  {
    var payload := Utf8.Encode(provider);
    payload := payload + [SEP];
    payload := payload + Utf8.Encode(upstream);
    token := prefix + Base64.Encode(URL_SAFE, payload);
  }

  method Decode(token: string, signer: Option<Signer>) returns (r: Option<DecodedBatch>)
    ensures r == DecodeBatch(token, signer)
  {
    var payload := DecodePayload(BATCH_PREFIX, token);
    if payload.None? { return None; }
    if signer.Some? {
      r := DecodeSignedPayload(signer.value, payload.value);
    } else {
      r := match SplitFields(payload.value)
        case None => None
        case Some((p, u)) => Some(DecodedBatch(p, u, None));
    }
  }

  method DecodeSignedPayload(signer: Signer, b: Bytes) returns (r: Option<DecodedBatch>)
    ensures r == DecodeSigned(signer, b)
  {
    if |b| < TAG_LEN + 1 { return None; }
    var head, tag := b[..|b| - TAG_LEN], b[|b| - TAG_LEN..];
    if head[|head| - 1] != SEP { return None; }
    head := head[..|head| - 1];
    assert head == b[..|b| - TAG_LEN - 1];
    var ok := Verify(signer, head, tag);
    if !ok { return None; }
    r := SplitHead(head);
  }

  // ---- Exact inverses ---------------------------------------------------------------------------

  lemma UrlSafeIsAlphabet()
    ensures Base64.Alphabet(URL_SAFE)
  {
    Base64.TableIsAlphabet('-', '_');
  }

  /** A token decodes to a payload exactly when it is that payload's token. */
  lemma PayloadExact(prefix: string, token: string, b: Bytes)
    ensures DecodePayload(prefix, token) == Some(b) <==> token == Token(prefix, b)
  {
    UrlSafeIsAlphabet();
    if prefix <= token {
      Base64.Bijection(URL_SAFE, b, token[|prefix|..]);
      assert token == prefix + token[|prefix|..];
    }
    if token == Token(prefix, b) {
      Base64.Bijection(URL_SAFE, b, Base64.Encode(URL_SAFE, b));
      assert token[|prefix|..] == Base64.Encode(URL_SAFE, b);
    }
  }

  /** The fields an id can carry: a provider that is not empty, and no separator where one would move
      a boundary. */
  predicate Addressable(provider: string, owner: string) {
    provider != "" && SEP as char !in provider && SEP as char !in owner
  }

  lemma SplitHeadExact(head: Bytes, p: string, u: string, o: string)
    ensures SplitHead(head) == Some(DecodedBatch(p, u, Some(o)))
            <==> Addressable(p, o) && head == Join3(Utf8.Encode(p), Utf8.Encode(u), Utf8.Encode(o))
  {
    if SplitHead(head) == Some(DecodedBatch(p, u, Some(o))) {
      SplitHeadOnly(head, p, u, o);
    }
    if Addressable(p, o) && head == Join3(Utf8.Encode(p), Utf8.Encode(u), Utf8.Encode(o)) {
      SplitHeadJoin(p, u, o);
    }
  }

  lemma JoinBracket(x: Bytes, y: Bytes, z: Bytes)
    ensures Join3(x, y, z) == x + [SEP] + (y + [SEP] + z)
  {
    Assoc(x + [SEP], y, [SEP]);
    Assoc(x + [SEP], y + [SEP], z);
  }

  lemma SplitHeadJoin(p: string, u: string, o: string)
    requires Addressable(p, o)
    ensures SplitHead(Join3(Utf8.Encode(p), Utf8.Encode(u), Utf8.Encode(o))) == Some(DecodedBatch(p, u, Some(o)))
  {
    var x, y, z := Utf8.Encode(p), Utf8.Encode(u), Utf8.Encode(o);
    Utf8.EncodeAscii(p, SEP as char);
    Utf8.EncodeAscii(o, SEP as char);
    Utf8.FromUtf8Exact(x, p);
    Utf8.FromUtf8Exact(y, u);
    Utf8.FromUtf8Exact(z, o);
    JoinBracket(x, y, z);
    SplitOnceExact(Join3(x, y, z), x, y + [SEP] + z);
    RSplitOnceExact(y + [SEP] + z, y, z);
  }

  lemma SplitHeadOnly(head: Bytes, p: string, u: string, o: string)
    requires SplitHead(head) == Some(DecodedBatch(p, u, Some(o)))
    ensures Addressable(p, o) && head == Join3(Utf8.Encode(p), Utf8.Encode(u), Utf8.Encode(o))
  {
    var (x, rest) := SplitOnce(head).value;
    var (y, z) := RSplitOnce(rest).value;
    SplitOnceExact(head, x, rest);
    RSplitOnceExact(rest, y, z);
    Utf8.FromUtf8Exact(x, p);
    Utf8.FromUtf8Exact(y, u);
    Utf8.FromUtf8Exact(z, o);
    Utf8.EncodeAscii(p, SEP as char);
    Utf8.EncodeAscii(o, SEP as char);
    JoinBracket(x, y, z);
  }

  /** Cutting the tag off by length is the inverse of appending it, whatever bytes it holds. */
  lemma CutTag(signer: Signer, b: Bytes, head: Bytes)
    ensures |b| >= TAG_LEN + 1 && b[|b| - TAG_LEN - 1] == SEP && b[..|b| - TAG_LEN - 1] == head
            && b[|b| - TAG_LEN..] == signer(head)
            <==> b == head + [SEP] + signer(head)
  {
    if b == head + [SEP] + signer(head) {
      assert |b| == |head| + 1 + TAG_LEN;
      assert b[..|head|] == head && b[|head| + 1..] == signer(head);
    }
    if |b| >= TAG_LEN + 1 {
      var n := |b| - TAG_LEN - 1;
      assert b == b[..n] + [b[n]] + b[n + 1..];
    }
  }

  lemma DecodeSignedExact(signer: Signer, b: Bytes, p: string, u: string, o: string)
    ensures DecodeSigned(signer, b) == Some(DecodedBatch(p, u, Some(o)))
            <==> Addressable(p, o) && b == SignedPayload(signer, p, u, o)
  {
    var head := Join3(Utf8.Encode(p), Utf8.Encode(u), Utf8.Encode(o));
    CutTag(signer, b, head);
    SplitHeadExact(head, p, u, o);
    if DecodeSigned(signer, b).Some? {
      SplitHeadExact(b[..|b| - TAG_LEN - 1], p, u, o);
    }
  }

  /** With a signer, a token decodes to a batch exactly when the batch names an owner, its fields can be
      carried, and the token is the one minted for them: nothing else decodes, and the tag bytes do not
      matter. */
  lemma SignedExact(token: string, signer: Signer, d: DecodedBatch)
    ensures DecodeBatch(token, Some(signer)) == Some(d)
            <==> d.owner.Some? && Addressable(d.provider, d.owner.value)
                 && token == EncodeBatch(d.provider, d.upstream, d.owner.value, Some(signer))
  {
    var o := if d.owner.Some? then d.owner.value else "";
    var payload := SignedPayload(signer, d.provider, d.upstream, o);
    PayloadExact(BATCH_PREFIX, token, payload);
    DecodeSignedExact(signer, payload, d.provider, d.upstream, o);
    if DecodeBatch(token, Some(signer)) == Some(d) {
      var b := DecodePayload(BATCH_PREFIX, token).value;
      DecodeSignedExact(signer, b, d.provider, d.upstream, o);
    }
  }

  /** Minting and decoding with one signer gives the fields back exactly when they can be carried. */
  lemma SignedRoundTrip(p: string, u: string, o: string, signer: Signer)
    ensures DecodeBatch(EncodeBatch(p, u, o, Some(signer)), Some(signer)) == Some(DecodedBatch(p, u, Some(o)))
            <==> Addressable(p, o)
  {
    SignedExact(EncodeBatch(p, u, o, Some(signer)), signer, DecodedBatch(p, u, Some(o)));
  }

  lemma SplitFieldsExact(b: Bytes, p: string, u: string)
    ensures SplitFields(b) == Some((p, u)) <==> p != "" && SEP as char !in p && b == LegacyPayload(p, u)
  {
    var x, y := Utf8.Encode(p), Utf8.Encode(u);
    Utf8.EncodeAscii(p, SEP as char);
    Utf8.FromUtf8Exact(x, p);
    Utf8.FromUtf8Exact(y, u);
    SplitOnceExact(b, x, y);
    if SplitFields(b) == Some((p, u)) {
      var (provider, upstream) := SplitOnce(b).value;
      Utf8.FromUtf8Exact(provider, p);
      Utf8.FromUtf8Exact(upstream, u);
    }
  }

  /** Without a signer, the same for the two-field form; no owner is carried. */
  lemma UnsignedExact(token: string, d: DecodedBatch)
    ensures DecodeBatch(token, None) == Some(d)
            <==> d.owner == None && d.provider != "" && SEP as char !in d.provider
                 && token == EncodeBatch(d.provider, d.upstream, "", None)
  {
    PayloadExact(BATCH_PREFIX, token, LegacyPayload(d.provider, d.upstream));
    SplitFieldsExact(LegacyPayload(d.provider, d.upstream), d.provider, d.upstream);
    if DecodePayload(BATCH_PREFIX, token).Some? {
      SplitFieldsExact(DecodePayload(BATCH_PREFIX, token).value, d.provider, d.upstream);
    }
  }

  /** What a signed payload holds is told from the outside: the fields of the unsigned one, then the owner, then the
      tag over both, at its fixed length from the end. */
  lemma SignedLayout(signer: Signer, p: string, u: string, o: string)
    ensures var b := SignedPayload(signer, p, u, o);
            && LegacyPayload(p, u) + [SEP] + Utf8.Encode(o) + [SEP] <= b
            && |b| == |Utf8.Encode(p)| + |Utf8.Encode(u)| + |Utf8.Encode(o)| + 3 + TAG_LEN
            && b[|b| - TAG_LEN..] == signer(LegacyPayload(p, u) + [SEP] + Utf8.Encode(o))
  {
    var b, head := SignedPayload(signer, p, u, o), LegacyPayload(p, u) + [SEP] + Utf8.Encode(o);
    assert Join3(Utf8.Encode(p), Utf8.Encode(u), Utf8.Encode(o)) == head;
    assert b == head + [SEP] + signer(head);
    assert b[..|head| + 1] == head + [SEP];
  }

  lemma LetterBytes(c: char)
    requires c as int < 0x80
    ensures Utf8.Encode([c]) == [c as int]
  {
    Utf8.EncodeCons(c, "");
    assert [c] + "" == [c];
  }

  /** The ids of one provider and upstream id, computed by hand. */
  lemma KnownIds()
    ensures EncodeBatch("a", "b", "", None) == "batch_YR9i"
    ensures EncodeFile("a", "b") == "file_YR9i"
  {
    LetterBytes('a');
    LetterBytes('b');
    var b: Bytes := [97, 31, 98];
    assert LegacyPayload("a", "b") == b;
    assert b[3..] == [] && Base64.Digits(b) == [24, 17, 61, 34];
    KnownDigits([24, 17, 61, 34]);
  }

  lemma KnownDigits(d: seq<Base64.Digit>)
    requires d == [24, 17, 61, 34]
    ensures Base64.Write(URL_SAFE, d) == "YR9i"
  {
    assert URL_SAFE[24] == 'Y' && URL_SAFE[17] == 'R' && URL_SAFE[61] == '9' && URL_SAFE[34] == 'i';
    DigitFirst(34, []);
    DigitFirst(61, [34]);
    DigitFirst(17, [61, 34]);
    DigitFirst(24, [17, 61, 34]);
    assert d == [24] + [17, 61, 34] && [17] + [61, 34] == [17, 61, 34] && [61] + [34] == [61, 34];
    assert [34] + [] == [34];
  }

  lemma DigitFirst(x: Base64.Digit, rest: seq<Base64.Digit>)
    ensures Base64.Write(URL_SAFE, [x] + rest) == [URL_SAFE[x]] + Base64.Write(URL_SAFE, rest)
  {
    assert ([x] + rest)[1..] == rest;
  }

  /** File ids, and the two id spaces do not cross. */
  lemma FileExact(token: string, p: string, u: string, signer: Option<Signer>)
    ensures DecodeFile(token) == Some((p, u)) <==> p != "" && SEP as char !in p && token == EncodeFile(p, u)
    ensures DecodeFile(token).Some? ==> DecodeBatch(token, signer) == None
  {
    PayloadExact(FILE_PREFIX, token, LegacyPayload(p, u));
    SplitFieldsExact(LegacyPayload(p, u), p, u);
    if DecodePayload(FILE_PREFIX, token).Some? {
      SplitFieldsExact(DecodePayload(FILE_PREFIX, token).value, p, u);
      assert token[0] == 'f' && BATCH_PREFIX[0] == 'b';
    }
  }
}
