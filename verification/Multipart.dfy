/** The transcription upload: a multipart form body and its reading back by section 5.1.1 of RFC 2046. */
module Multipart {
  import opened Common

  const CRLF: Bytes := [CR, LF]
  const BLANK: Bytes := [CR, LF, CR, LF]
  const QUOTE: Byte := 34
  const DASH: Byte := 45
  const CLOSE: Bytes := [DASH, DASH]

  /** The fixed texts of a form: the boundary line, the header texts, the field names. */
  datatype Format = Format(boundary: Bytes, disposition: Bytes, filename: Bytes, octets: Bytes, names: Names) {
    /** The line end before a boundary line belongs to the delimiter. */
    function Delimiter(): Bytes { CRLF + boundary }

    predicate Valid() {
      && boundary != [] && boundary[0] == DASH && CR !in boundary
      && CR !in disposition && CR !in filename
      && octets != [] && octets[0] != DASH && CR !in octets
      && names.Valid()
    }
  }

  datatype Names = Names(model: Bytes, language: Bytes, prompt: Bytes, responseFormat: Bytes,
                         temperature: Bytes, file: Bytes) {
    predicate Valid() {
      Word(model) && Word(language) && Word(prompt) && Word(responseFormat) && Word(temperature) && Word(file)
    }
  }

  /** Bytes that may stand between the quotes of a header line. */
  predicate Word(s: Bytes) { QUOTE !in s && CR !in s && LF !in s }

  predicate IsAscii(s: string) { forall i :: 0 <= i < |s| ==> s[i] as int < 0x80 }

  /** The bytes of an ASCII text. */
  function Ascii(s: string): Bytes
    requires IsAscii(s)
  {
    seq(|s|, i requires 0 <= i < |s| => s[i] as int)
  }

  const BOUNDARY: Bytes := Ascii("--llmleaf-rust-client-boundary")
  const DISPOSITION: Bytes := Ascii("Content-Disposition: form-data; name=\"")
  const FILENAME: Bytes := Ascii("; filename=\"")
  const OCTETS: Bytes := Ascii("Content-Type: application/octet-stream")
  const NAMES: Names := Names(Ascii("model"), Ascii("language"), Ascii("prompt"),
                              Ascii("response_format"), Ascii("temperature"), Ascii("file"))

  /** The texts this client writes. */
  const FORMAT: Format := Format(BOUNDARY, DISPOSITION, FILENAME, OCTETS, NAMES)

  // ---- The form ---------------------------------------------------------------------------------

  /** A transcription request; text is its UTF-8 bytes, the temperature already printed. */
  datatype Request = Request(model: Bytes, language: Option<Bytes>, prompt: Option<Bytes>,
                             responseFormat: Option<Bytes>, temperature: Option<Bytes>)

  datatype Part = Part(name: Bytes, filename: Option<Bytes>, content: Bytes)

  function Optional(name: Bytes, value: Option<Bytes>): seq<Part> {
    if value.Some? then [Part(name, None, value.value)] else []
  }

  /** `str::replace` of one byte. */
  function Replace(s: Bytes, x: Byte, sub: Bytes): Bytes {
    if s == [] then [] else (if s[0] == x then sub else [s[0]]) + Replace(s[1..], x, sub)
  }

  /** The percent-encoded quote, `%22`. */
  const ESCAPED: Bytes := [37, 50, 50]

  function Sanitize(fileName: Bytes): Bytes {
    Replace(Replace(Replace(fileName, QUOTE, ESCAPED), CR, []), LF, [])
  }

  /** The optional text fields, in the order they are written. */
  function Options(n: Names, r: Request): seq<Part> {
    Optional(n.language, r.language) + Optional(n.prompt, r.prompt)
    + Optional(n.responseFormat, r.responseFormat) + Optional(n.temperature, r.temperature)
  }

  /** The parts the body is to carry. */
  function Parts(n: Names, r: Request, fileName: Bytes, audio: Bytes): seq<Part> {
    [Part(n.model, None, r.model)] + Options(n, r) + [Part(n.file, Some(Sanitize(fileName)), audio)]
  }

  // ---- The body ---------------------------------------------------------------------------------

  /** What follows the name in a header. */
  function AfterName(f: Format, p: Part): Bytes {
    if p.filename.Some? then f.filename + p.filename.value + [QUOTE] + CRLF + f.octets else []
  }

  /** The header lines of a part. */
  function Header(f: Format, p: Part): Bytes {
    f.disposition + p.name + [QUOTE] + AfterName(f, p)
  }

  function Text(f: Format, p: Part): Bytes { Header(f, p) + BLANK + p.content }

  /** What follows a boundary: the part, up to and with the next delimiter. */
  function Section(f: Format, p: Part): Bytes { CRLF + Text(f, p) + f.Delimiter() }

  function Sections(f: Format, parts: seq<Part>): Bytes {
    if parts == [] then [] else Section(f, parts[0]) + Sections(f, parts[1..])
  }

  /** The body of a list of parts. */
  function Body(f: Format, parts: seq<Part>): Bytes { f.boundary + (Sections(f, parts) + (CLOSE + CRLF)) }

  lemma {:induction false} SectionsSnoc(f: Format, parts: seq<Part>, p: Part)
    ensures Sections(f, parts + [p]) == Sections(f, parts) + Section(f, p)
    decreases |parts|
  {
    if parts == [] {
      assert parts + [p] == [p] && [p][1..] == [];
    } else {
      assert (parts + [p])[1..] == parts[1..] + [p];
      SectionsSnoc(f, parts[1..], p);
      Assoc(Section(f, parts[0]), Sections(f, parts[1..]), Section(f, p));
    }
  }

  /** A boundary line, a header, a blank line, a content and the next boundary, however bracketed. */
  lemma Bracket(b: Bytes, h: Bytes, v: Bytes)
    ensures b + CRLF + h + BLANK + v + CRLF + b == b + (CRLF + (h + BLANK + v) + (CRLF + b))
  {
    Assoc(b + CRLF, h, BLANK);
    Assoc(b + CRLF, h + BLANK, v);
    var t := h + BLANK + v;
    Assoc(b + CRLF + t, CRLF, b);
    Assoc(b, CRLF, t);
    Assoc(b, CRLF + t, CRLF + b);
  }

  /** What is written for a part, in front of the next boundary. */
  function Written(f: Format, p: Part): Bytes {
    f.boundary + CRLF + Header(f, p) + BLANK + p.content + CRLF
  }

  /** Writing a part adds its section. */
  lemma WritePart(f: Format, body: Bytes, parts: seq<Part>, p: Part)
    requires body + f.boundary == f.boundary + Sections(f, parts)
    ensures body + Written(f, p) + f.boundary == f.boundary + Sections(f, parts + [p])
  {
    Bracket(f.boundary, Header(f, p), p.content);
    Assoc(body, Written(f, p), f.boundary);
    Assoc(body, f.boundary, Section(f, p));
    Assoc(f.boundary, Sections(f, parts), Section(f, p));
    SectionsSnoc(f, parts, p);
  }

  // ---- The writer -------------------------------------------------------------------------------

  /** Append one text field. */
  method Field(f: Format, body: Bytes, name: Bytes, value: Bytes, ghost parts: seq<Part>) returns (body': Bytes)
    requires body + f.boundary == f.boundary + Sections(f, parts)
    ensures body' + f.boundary == f.boundary + Sections(f, parts + [Part(name, None, value)])
  {
    var header := f.disposition + name + [QUOTE];
    body' := body + (f.boundary + CRLF + header + BLANK + value + CRLF);
    ghost var p := Part(name, None, value);
    assert Header(f, p) == header;
    WritePart(f, body, parts, p);
  }

  method OptionalField(f: Format, body: Bytes, name: Bytes, value: Option<Bytes>, ghost parts: seq<Part>)
    returns (body': Bytes)
    requires body + f.boundary == f.boundary + Sections(f, parts)
    ensures body' + f.boundary == f.boundary + Sections(f, parts + Optional(name, value))
  {
    body' := body;
    if value.Some? {
      body' := Field(f, body, name, value.value, parts);
    } else {
      assert parts + [] == parts;
    }
  }

  method OptionalFields(f: Format, body: Bytes, r: Request, ghost parts: seq<Part>) returns (body': Bytes)
    requires body + f.boundary == f.boundary + Sections(f, parts)
    ensures body' + f.boundary == f.boundary + Sections(f, parts + Options(f.names, r))
  {
    var n := f.names;
    ghost var a, b := Optional(n.language, r.language), Optional(n.prompt, r.prompt);
    ghost var c, d := Optional(n.responseFormat, r.responseFormat), Optional(n.temperature, r.temperature);
    body' := OptionalField(f, body, n.language, r.language, parts);
    body' := OptionalField(f, body', n.prompt, r.prompt, parts + a);
    body' := OptionalField(f, body', n.responseFormat, r.responseFormat, parts + a + b);
    body' := OptionalField(f, body', n.temperature, r.temperature, parts + a + b + c);
    Assoc(parts, a, b);
    Assoc(parts, a + b, c);
    Assoc(parts, a + b + c, d);
  }

  /** Append the file part and the closing boundary. */
  method FilePart(f: Format, body: Bytes, fileName: Bytes, audio: Bytes, ghost parts: seq<Part>)
    returns (body': Bytes)
    requires body + f.boundary == f.boundary + Sections(f, parts)
    ensures body' == Body(f, parts + [Part(f.names.file, Some(fileName), audio)])
  {
    var header := f.disposition + f.names.file + [QUOTE] + (f.filename + fileName + [QUOTE] + CRLF + f.octets);
    var open := f.boundary + CRLF + header + BLANK;
    body' := body + open;
    body' := body' + audio;
    body' := body' + (CRLF + f.boundary + CLOSE + CRLF);
    ghost var p := Part(f.names.file, Some(fileName), audio);
    Closing(body, open, audio, f.boundary);
    WritePart(f, body, parts, p);
    Assoc(f.boundary, Sections(f, parts + [p]), CLOSE + CRLF);
  }

  lemma Closing(body: Bytes, open: Bytes, audio: Bytes, b: Bytes)
    ensures body + open + audio + (CRLF + b + CLOSE + CRLF) == body + (open + audio + CRLF) + b + (CLOSE + CRLF)
  {
    Assoc(body, open, audio);
    Assoc(body, open + audio, CRLF);
    var s := body + open + audio;
    Assoc(CRLF + b, CLOSE, CRLF);
    Assoc(CRLF, b, CLOSE + CRLF);
    Assoc(s, CRLF, b + (CLOSE + CRLF));
    Assoc(s + CRLF, b, CLOSE + CRLF);
  }

  /** Write the whole form. */
  method TranscriptionForm(f: Format, r: Request, fileName: Bytes, audio: Bytes) returns (body: Bytes)
    ensures body == Body(f, Parts(f.names, r, fileName, audio))
  {
    ghost var first := [Part(f.names.model, None, r.model)];
    assert [] + f.boundary == f.boundary == f.boundary + [];
    body := Field(f, [], f.names.model, r.model, []);
    assert [] + first == first;
    body := OptionalFields(f, body, r, first);
    body := FilePart(f, body, Sanitize(fileName), audio, first + Options(f.names, r));
  }

  // ---- Searching --------------------------------------------------------------------------------

  predicate At(s: Bytes, k: nat, needle: Bytes) { k + |needle| <= |s| && s[k..k + |needle|] == needle }

  /** The first occurrence of `needle`. */
  function Find(s: Bytes, needle: Bytes): (r: Option<nat>)
    ensures r.Some? ==> At(s, r.value, needle) && forall k :: 0 <= k < r.value ==> !At(s, k, needle)
    ensures r.None? ==> forall k :: 0 <= k ==> !At(s, k, needle)
    decreases |s|
  {
    if |s| < |needle| then None
    else if s[..|needle|] == needle then Some(0)
    else
      var r := Find(s[1..], needle);
      AtShift(s, needle);
      if r.None? then None else Some(r.value + 1)
  }

  lemma AtShift(s: Bytes, needle: Bytes)
    requires s != []
    ensures forall k: nat {:trigger At(s, k, needle)} :: 1 <= k ==> At(s, k, needle) == At(s[1..], k - 1, needle)
  {
    forall k: nat | 1 <= k ensures At(s, k, needle) == At(s[1..], k - 1, needle) {
      assert s == s[..1] + s[1..];
      AtSuffix(s[..1], s[1..], k - 1, needle);
    }
  }

  lemma FindIs(s: Bytes, needle: Bytes, k: nat)
    requires At(s, k, needle) && forall j :: 0 <= j < k ==> !At(s, j, needle)
    ensures Find(s, needle) == Some(k)
  {
    assert Find(s, needle).Some?;
  }

  /** An occurrence in the middle of `a + b + c` is one in `b`. */
  lemma AtMiddle(a: Bytes, b: Bytes, c: Bytes, k: nat, needle: Bytes)
    requires k + |needle| <= |b|
    ensures At(a + b + c, |a| + k, needle) == At(b, k, needle)
  {
    assert (a + b + c)[|a| + k..|a| + k + |needle|] == b[k..k + |needle|];
  }

  lemma NotAt(s: Bytes, k: nat, needle: Bytes, j: nat)
    requires j < |needle| && (k + j < |s| ==> s[k + j] != needle[j])
    ensures !At(s, k, needle)
  {
    assert k + |needle| <= |s| ==> s[k..k + |needle|][j] == s[k + j];
  }

  /** A blank line and a delimiter both begin with CR; a header that goes on after each of its own CRs with
      a byte neither of those has two places later hides neither. */
  predicate Solid(h: Bytes) {
    forall k :: 0 <= k < |h| && h[k] == CR ==> k + 2 < |h| && h[k + 2] != CR && h[k + 2] != DASH
  }

  /** No occurrence of a needle of the form CR, any byte, CR or DASH begins inside a solid header. */
  lemma NotInside(h: Bytes, rest: Bytes, needle: Bytes, k: nat)
    requires Solid(h) && k < |h|
    requires |needle| > 2 && needle[0] == CR && (needle[2] == CR || needle[2] == DASH)
    ensures !At(h + rest, k, needle)
  {
    NotAt(h + rest, k, needle, if h[k] == CR then 2 else 0);
  }

  lemma FirstBlank(h: Bytes, rest: Bytes)
    requires Solid(h)
    ensures Find(h + BLANK + rest, BLANK) == Some(|h|)
  {
    AtMiddle(h, BLANK, rest, 0, BLANK);
    Assoc(h, BLANK, rest);
    forall k: nat | k < |h| ensures !At(h + BLANK + rest, k, BLANK) {
      NotInside(h, BLANK + rest, BLANK, k);
    }
    FindIs(h + BLANK + rest, BLANK, |h|);
  }

  /** The first blank line of a prefix that ends inside `h + BLANK` does not exist. */
  lemma NoBlank(h: Bytes, rest: Bytes, i: nat)
    requires Solid(h) && i < |h| + 4
    ensures i <= |h + BLANK + rest| && Find((h + BLANK + rest)[..i], BLANK).None?
  {
    FirstBlank(h, rest);
    var s := h + BLANK + rest;
    var r := Find(s[..i], BLANK);
    if r.Some? {
      assert s[..i][r.value..r.value + 4] == s[r.value..r.value + 4];
      assert At(s, r.value, BLANK);
    }
  }

  // ---- The delimiter ----------------------------------------------------------------------------

  lemma DelimiterBytes(f: Format)
    requires f.Valid()
    ensures |f.Delimiter()| > 2 && f.Delimiter()[0] == CR && f.Delimiter()[2] == DASH
    ensures forall k :: 1 <= k < |f.Delimiter()| ==> f.Delimiter()[k] != CR
  {
    assert forall k :: 2 <= k < |f.Delimiter()| ==> f.Delimiter()[k] == f.boundary[k - 2];
  }

  /** Two occurrences of a delimiter never overlap: it begins with the only CR it has. */
  lemma NoSelfOverlap(f: Format, s: Bytes, i: nat, j: nat)
    requires f.Valid() && At(s, i, f.Delimiter()) && i < j < i + |f.Delimiter()|
    ensures !At(s, j, f.Delimiter())
  {
    DelimiterBytes(f);
    assert s[i..i + |f.Delimiter()|][j - i] == s[j];
    NotAt(s, j, f.Delimiter(), 0);
  }

  /** The first delimiter of `x + delimiter + tail` is the one written there, unless `x` holds one. */
  lemma FirstDelimiter(f: Format, x: Bytes, tail: Bytes)
    requires f.Valid()
    ensures var r := Find(x + f.Delimiter() + tail, f.Delimiter());
            && r.Some? && r.value <= |x|
            && (Find(x, f.Delimiter()).None? <==> r.value == |x|)
  {
    var d := f.Delimiter();
    AtMiddle(x, d, tail, 0, d);
    Assoc(x, d, tail);
    var s := x + d + tail;
    var r := Find(s, d).value;
    if r < |x| {
      if |x| < r + |d| { NoSelfOverlap(f, s, r, |x|); }
      AtPrefix(x, d + tail, r, d);
    } else if Find(x, d).Some? {
      AtPrefix(x, d + tail, Find(x, d).value, d);
    }
  }

  lemma AtPrefix(x: Bytes, rest: Bytes, k: nat, needle: Bytes)
    requires k + |needle| <= |x|
    ensures At(x + rest, k, needle) == At(x, k, needle)
  {
    assert (x + rest)[k..k + |needle|] == x[k..k + |needle|];
  }

  lemma AtSuffix(a: Bytes, b: Bytes, k: nat, needle: Bytes)
    ensures At(a + b, |a| + k, needle) == At(b, k, needle)
  {
    assert k + |needle| <= |b| ==> (a + b)[|a| + k..|a| + k + |needle|] == b[k..k + |needle|];
  }

  /** Searching past a front in which no occurrence begins. */
  lemma FindSuffix(a: Bytes, b: Bytes, needle: Bytes)
    requires forall k: nat :: k < |a| ==> !At(a + b, k, needle)
    ensures Find(a + b, needle).None? <==> Find(b, needle).None?
  {
    var r, q := Find(a + b, needle), Find(b, needle);
    if r.Some? { AtSuffix(a, b, r.value - |a|, needle); }
    if q.Some? { AtSuffix(a, b, q.value, needle); }
  }

  /** A content the delimiter cannot be found in, not even with the help of the line end before it. */
  predicate Clean(f: Format, content: Bytes) {
    !(f.boundary <= content) && Find(content, f.Delimiter()).None?
  }

  /** Seen with the line end in front of it, a clean content holds no delimiter. */
  lemma CleanAfterLineEnd(f: Format, content: Bytes)
    requires f.Valid()
    ensures Clean(f, content) <==> Find(CRLF + content, f.Delimiter()).None?
  {
    var d := f.Delimiter();
    DelimiterBytes(f);
    if f.boundary <= content {
      assert At(CRLF + content, 0, d) by { assert (CRLF + content)[0..|d|] == CRLF + content[..|f.boundary|]; }
    } else {
      NotAtLineEnd(f, content);
      NotAt(CRLF + content, 1, d, 0);
      FindSuffix(CRLF, content, d);
    }
  }

  lemma NotAtLineEnd(f: Format, content: Bytes)
    requires !(f.boundary <= content)
    ensures !At(CRLF + content, 0, f.Delimiter())
  {
    var d := f.Delimiter();
    assert |f.boundary| <= |content| ==> (CRLF + content)[0..|d|] == CRLF + content[..|f.boundary|];
    assert d[2..] == f.boundary;
    assert |f.boundary| <= |content| ==> (CRLF + content[..|f.boundary|])[2..] == content[..|f.boundary|];
  }

  /** A solid header adds no delimiter to the content below it. */
  lemma HeaderIsHarmless(f: Format, h: Bytes, content: Bytes)
    requires f.Valid() && Solid(h)
    ensures Find(h + BLANK + content, f.Delimiter()).None? <==> Clean(f, content)
  {
    var d := f.Delimiter();
    DelimiterBytes(f);
    CleanAfterLineEnd(f, content);
    var c := CRLF + content;
    assert h + BLANK + content == (h + CRLF) + c by {
      assert BLANK == CRLF + CRLF;
      Assoc(h, CRLF, CRLF);
      Assoc(h + CRLF, CRLF, content);
    }
    Assoc(h, CRLF, c);
    forall k: nat | k < |h + CRLF| ensures !At(h + CRLF + c, k, d) {
      if k < |h| { NotInside(h, CRLF + c, d, k); }
      else { NotAt(h + CRLF + c, k, d, if k == |h| then 2 else 0); }
    }
    FindSuffix(h + CRLF, c, d);
  }

  // ---- The reader -------------------------------------------------------------------------------

  /** `s` without the prefix it must have. */
  function Strip(s: Bytes, prefix: Bytes): Option<Bytes> {
    if prefix <= s then Some(s[|prefix|..]) else None
  }

  lemma StripIs(prefix: Bytes, rest: Bytes)
    ensures Strip(prefix + rest, prefix) == Some(rest)
  {
    assert (prefix + rest)[..|prefix|] == prefix && (prefix + rest)[|prefix|..] == rest;
  }

  /** The text up to the next quote, and what follows the quote. */
  function Quoted(s: Bytes): Option<(Bytes, Bytes)> {
    match IndexOf(s, QUOTE)
    case None => None
    case Some(i) => Some((s[..i], s[i + 1..]))
  }

  lemma QuotedIs(w: Bytes, rest: Bytes)
    requires QUOTE !in w
    ensures Quoted(w + [QUOTE] + rest) == Some((w, rest))
  {
    var s := w + [QUOTE] + rest;
    assert s[..|w|] == w && s[|w| + 1..] == rest;
    IndexOfIs(s, QUOTE, |w|);
  }

  /** The `filename` parameter and the content type, when the header goes on after the name. */
  function ReadFileName(f: Format, s: Bytes): Option<Bytes> {
    match Strip(s, f.filename)
    case None => None
    case Some(rest) =>
      match Quoted(rest)
      case None => None
      case Some((file, after)) => if after == CRLF + f.octets then Some(file) else None
  }

  /** The `name` and `filename` parameters of the disposition line (section 4.2 of RFC 7578). */
  function ReadHeader(f: Format, header: Bytes): Option<(Bytes, Option<Bytes>)> {
    match Strip(header, f.disposition)
    case None => None
    case Some(rest) =>
      match Quoted(rest)
      case None => None
      case Some((name, after)) =>
        if after == [] then Some((name, None))
        else if ReadFileName(f, after).None? then None
        else Some((name, ReadFileName(f, after)))
  }

  /** A body part: header lines, a blank line, the content. */
  function ReadPart(f: Format, s: Bytes): Option<Part> {
    match Find(s, BLANK)
    case None => None
    case Some(i) =>
      var header := ReadHeader(f, s[..i]);
      if header.None? then None else Some(Part(header.value.0, header.value.1, s[i + 4..]))
  }

  /** Transport padding: white space a receiver skips between a delimiter and its line end. */
  function SkipPadding(s: Bytes): (r: Bytes)
    ensures |r| <= |s|
  {
    if s != [] && (s[0] == 32 || s[0] == 9) then SkipPadding(s[1..]) else s
  }

  function Both(part: Option<Part>, later: Option<seq<Part>>): Option<seq<Part>> {
    if part.None? || later.None? then None else Some([part.value] + later.value)
  }

  /** After a delimiter and its line end: the text up to the next delimiter, and what follows that. */
  function Next(f: Format, s: Bytes): (r: Option<(Bytes, Bytes)>)
    ensures r.Some? ==> |r.value.1| < |s|
  {
    match Strip(SkipPadding(s), CRLF)
    case None => None
    case Some(rest) =>
      match Find(rest, f.Delimiter())
      case None => None
      case Some(i) => Some((rest[..i], rest[i + |f.Delimiter()|..]))
  }

  /** After a delimiter: a close, or a line end and the parts between the delimiters to come. */
  function ReadParts(f: Format, s: Bytes): Option<seq<Part>>
    decreases |s|
  {
    if CLOSE <= s then Some([])
    else
      var next := Next(f, s);
      if next.None? then None else Both(ReadPart(f, next.value.0), ReadParts(f, next.value.1))
  }

  /** Parse a body: skip to the first delimiter, the body's own start counting as a line start. */
  function Parse(f: Format, body: Bytes): Option<seq<Part>> {
    match Find(CRLF + body, f.Delimiter())
    case None => None
    case Some(i) => ReadParts(f, (CRLF + body)[i + |f.Delimiter()|..])
  }

  // ---- Reading back one part --------------------------------------------------------------------

  predicate WellNamed(p: Part) { Word(p.name) && (p.filename.Some? ==> Word(p.filename.value)) }

  lemma SolidJoin(a: Bytes, b: Bytes)
    requires CR !in a && Solid(b)
    ensures Solid(a + b)
  {
    forall k | 0 <= k < |a + b| && (a + b)[k] == CR
      ensures k + 2 < |a + b| && (a + b)[k + 2] != CR && (a + b)[k + 2] != DASH
    {
      assert (a + b)[k] in a || b[k - |a|] == CR;
    }
  }

  lemma HeaderIsSolid(f: Format, p: Part)
    requires f.Valid() && WellNamed(p)
    ensures Solid(Header(f, p))
  {
    if p.filename.Some? {
      assert Solid(CRLF + f.octets);
      SolidJoin(f.filename + p.filename.value + [QUOTE], CRLF + f.octets);
      Assoc(f.filename + p.filename.value + [QUOTE], CRLF, f.octets);
    }
    SolidJoin(f.disposition + p.name + [QUOTE], AfterName(f, p));
  }

  lemma ReadFileNameIs(f: Format, p: Part)
    requires WellNamed(p) && p.filename.Some?
    ensures ReadFileName(f, AfterName(f, p)) == p.filename
  {
    var w := p.filename.value;
    Assoc(f.filename + w + [QUOTE], CRLF, f.octets);
    Assoc(f.filename, w, [QUOTE]);
    Assoc(f.filename, w + [QUOTE], CRLF + f.octets);
    StripIs(f.filename, w + [QUOTE] + (CRLF + f.octets));
    QuotedIs(w, CRLF + f.octets);
  }

  lemma ReadHeaderIs(f: Format, p: Part)
    requires WellNamed(p)
    ensures ReadHeader(f, Header(f, p)) == Some((p.name, p.filename))
  {
    var after := AfterName(f, p);
    Assoc(f.disposition, p.name, [QUOTE]);
    Assoc(f.disposition, p.name + [QUOTE], after);
    StripIs(f.disposition, p.name + [QUOTE] + after);
    QuotedIs(p.name, after);
    if p.filename.Some? { ReadFileNameIs(f, p); }
  }

  /** A part is read back whole, and from no shorter piece of its text. */
  lemma ReadPartIs(f: Format, p: Part, i: nat)
    requires f.Valid() && WellNamed(p) && i <= |Text(f, p)|
    ensures ReadPart(f, Text(f, p)[..i]) == Some(p) <==> i == |Text(f, p)|
  {
    var h, s := Header(f, p), Text(f, p);
    HeaderIsSolid(f, p);
    FirstBlank(h, p.content);
    if i == |s| {
      assert s[..i] == s && s[..|h|] == h && s[|h| + 4..] == p.content;
      ReadHeaderIs(f, p);
    } else if i < |h| + 4 {
      NoBlank(h, p.content, i);
    } else {
      assert s[..i] == h + BLANK + p.content[..i - |h| - 4];
      FirstBlank(h, p.content[..i - |h| - 4]);
      assert s[..i][|h| + 4..] == p.content[..i - |h| - 4];
    }
  }

  // ---- Reading back a body ----------------------------------------------------------------------

  /** One reading step, once the next delimiter is found. */
  lemma ReadStep(f: Format, rest: Bytes, i: nat)
    requires Find(rest, f.Delimiter()) == Some(i)
    ensures ReadParts(f, CRLF + rest) == Both(ReadPart(f, rest[..i]), ReadParts(f, rest[i + |f.Delimiter()|..]))
  {
    assert !(CLOSE <= CRLF + rest) by { assert (CRLF + rest)[0] == CR; }
    NextIs(f, rest, i);
  }

  lemma NextIs(f: Format, rest: Bytes, i: nat)
    requires Find(rest, f.Delimiter()) == Some(i)
    ensures Next(f, CRLF + rest) == Some((rest[..i], rest[i + |f.Delimiter()|..]))
  {
    assert (CRLF + rest)[0] == CR;
    StripIs(CRLF, rest);
  }

  /** One section in front: the reader finds this part first exactly when its content is clean. */
  lemma ReadSection(f: Format, p: Part, tail: Bytes)
    requires f.Valid() && WellNamed(p)
    ensures Clean(f, p.content) ==>
              ReadParts(f, Section(f, p) + tail) == Both(Some(p), ReadParts(f, tail))
    ensures !Clean(f, p.content) ==>
              var r := ReadParts(f, Section(f, p) + tail);
              r.Some? ==> r.value != [] && r.value[0] != p
  {
    var x := Text(f, p);
    SectionBrackets(f, p, tail);
    FirstDelimiter(f, x, tail);
    ContentIsClean(f, p);
    var i := Find(x + f.Delimiter() + tail, f.Delimiter()).value;
    ReadFirst(f, x, tail, i);
    ReadPartIs(f, p, i);
  }

  /** The first part read is the text up to the delimiter found, and the rest what follows that. */
  lemma ReadFirst(f: Format, x: Bytes, tail: Bytes, i: nat)
    requires Find(x + f.Delimiter() + tail, f.Delimiter()) == Some(i) && i <= |x|
    ensures var later := (x + f.Delimiter() + tail)[i + |f.Delimiter()|..];
            && ReadParts(f, CRLF + (x + f.Delimiter() + tail)) == Both(ReadPart(f, x[..i]), ReadParts(f, later))
            && (i == |x| ==> later == tail)
  {
    var rest := x + f.Delimiter() + tail;
    ReadStep(f, rest, i);
    assert rest[..i] == x[..i];
    assert i == |x| ==> rest[i + |f.Delimiter()|..] == tail;
  }

  lemma SectionBrackets(f: Format, p: Part, tail: Bytes)
    ensures Section(f, p) + tail == CRLF + (Text(f, p) + f.Delimiter() + tail)
  {
    var d, x := f.Delimiter(), Text(f, p);
    Assoc(CRLF + x, d, tail);
    Assoc(CRLF, x, d + tail);
    Assoc(x, d, tail);
  }

  /** The text of a part holds a delimiter exactly when its content is not clean. */
  lemma ContentIsClean(f: Format, p: Part)
    requires f.Valid() && WellNamed(p)
    ensures Find(Text(f, p), f.Delimiter()).None? <==> Clean(f, p.content)
  {
    HeaderIsSolid(f, p);
    HeaderIsHarmless(f, Header(f, p), p.content);
  }

  lemma {:induction false} ReadSections(f: Format, parts: seq<Part>, tail: Bytes)
    requires f.Valid() && forall p :: p in parts ==> WellNamed(p)
    requires CLOSE <= tail
    ensures ReadParts(f, Sections(f, parts) + tail) == Some(parts)
            <==> forall p :: p in parts ==> Clean(f, p.content)
    decreases |parts|
  {
    if parts == [] {
      assert Sections(f, parts) + tail == tail;
    } else {
      var p, later := parts[0], parts[1..];
      Assoc(Section(f, p), Sections(f, later), tail);
      ReadSection(f, p, Sections(f, later) + tail);
      ReadSections(f, later, tail);
      assert parts == [p] + later;
    }
  }

  /** The upload round trip: reading the written body gives back exactly the parts, in order, with every name,
      file name and content, if and only if no content holds the delimiter or starts with the boundary line. */
  lemma BodyRoundTrip(f: Format, parts: seq<Part>)
    requires f.Valid() && forall p :: p in parts ==> WellNamed(p)
    ensures Parse(f, Body(f, parts)) == Some(parts) <==> forall p :: p in parts ==> Clean(f, p.content)
  {
    var d, rest := f.Delimiter(), Sections(f, parts) + (CLOSE + CRLF);
    Assoc(CRLF, f.boundary, rest);
    AtPrefix(d, rest, 0, d);
    FindIs(d + rest, d, 0);
    assert (d + rest)[|d|..] == rest;
    ReadSections(f, parts, CLOSE + CRLF);
  }

  // ---- The upload -------------------------------------------------------------------------------

  lemma {:induction false} ReplaceKeeps(s: Bytes, x: Byte, sub: Bytes, y: Byte)
    requires y !in sub && (y != x ==> y !in s)
    ensures y !in Replace(s, x, sub)
  {
    if s != [] {
      ReplaceKeeps(s[1..], x, sub, y);
      assert y != x ==> y != s[0];
    }
  }

  /** A sanitised file name can stand between the quotes, whatever the file name. */
  lemma SanitizeIsWord(fileName: Bytes)
    ensures Word(Sanitize(fileName))
  {
    var a := Replace(fileName, QUOTE, ESCAPED);
    var b := Replace(a, CR, []);
    ReplaceKeeps(fileName, QUOTE, ESCAPED, QUOTE);
    ReplaceKeeps(a, CR, [], QUOTE);
    ReplaceKeeps(a, CR, [], CR);
    ReplaceKeeps(b, LF, [], QUOTE);
    ReplaceKeeps(b, LF, [], CR);
    ReplaceKeeps(b, LF, [], LF);
  }

  /** A file name that needs no sanitising is kept. */
  lemma {:induction false} SanitizeKeepsWords(fileName: Bytes)
    requires Word(fileName)
    ensures Sanitize(fileName) == fileName
  {
    ReplaceAbsent(fileName, QUOTE, ESCAPED);
    ReplaceAbsent(fileName, CR, []);
    ReplaceAbsent(fileName, LF, []);
  }

  lemma {:induction false} ReplaceAbsent(s: Bytes, x: Byte, sub: Bytes)
    requires x !in s
    ensures Replace(s, x, sub) == s
  {
    if s != [] {
      ReplaceAbsent(s[1..], x, sub);
    }
  }

  lemma {:induction false} ReplaceConcat(a: Bytes, b: Bytes, x: Byte, sub: Bytes)
    ensures Replace(a + b, x, sub) == Replace(a, x, sub) + Replace(b, x, sub)
    decreases |a|
  {
    if a == [] {
      assert a + b == b;
    } else {
      assert (a + b)[1..] == a[1..] + b;
      ReplaceConcat(a[1..], b, x, sub);
      Assoc(if a[0] == x then sub else [a[0]], Replace(a[1..], x, sub), Replace(b, x, sub));
    }
  }

  /** Sanitising works byte by byte: a quote becomes `%22`, a line end goes, any other byte stays. */
  lemma SanitizeEach(a: Bytes, c: Byte, b: Bytes)
    ensures Sanitize([]) == [] && Sanitize(a + [c] + b) == Sanitize(a) + Sanitize([c]) + Sanitize(b)
    ensures Sanitize([c]) == if c == QUOTE then Ascii("%22") else if c == CR || c == LF then [] else [c]
  {
    SanitizeConcat(a + [c], b);
    SanitizeConcat(a, [c]);
    SanitizeByte(c);
  }

  lemma SanitizeConcat(a: Bytes, b: Bytes)
    ensures Sanitize(a + b) == Sanitize(a) + Sanitize(b)
  {
    var a', b' := Replace(a, QUOTE, ESCAPED), Replace(b, QUOTE, ESCAPED);
    ReplaceConcat(a, b, QUOTE, ESCAPED);
    ReplaceConcat(a', b', CR, []);
    ReplaceConcat(Replace(a', CR, []), Replace(b', CR, []), LF, []);
  }

  lemma SanitizeByte(c: Byte)
    ensures Sanitize([c]) == if c == QUOTE then Ascii("%22") else if c == CR || c == LF then [] else [c]
  {
    var one := [c];
    assert one[1..] == [] && Ascii("%22") == ESCAPED;
    if c == QUOTE {
      assert Replace(one, QUOTE, ESCAPED) == ESCAPED;
      ReplaceAbsent(ESCAPED, CR, []);
      ReplaceAbsent(ESCAPED, LF, []);
    } else {
      assert Replace(one, QUOTE, ESCAPED) == one;
      if c == CR {
        assert Replace(one, CR, []) == [];
      } else {
        assert Replace(one, CR, []) == one;
        assert Replace(one, LF, []) == if c == LF then [] else one;
      }
    }
  }

  predicate AllWellNamed(parts: seq<Part>) { forall p :: p in parts ==> WellNamed(p) }

  lemma OptionalIsWellNamed(name: Bytes, value: Option<Bytes>)
    requires Word(name)
    ensures AllWellNamed(Optional(name, value))
  {
  }

  lemma BothWellNamed(a: seq<Part>, b: seq<Part>)
    requires AllWellNamed(a) && AllWellNamed(b)
    ensures AllWellNamed(a + b)
  {
  }

  lemma OptionsAreWellNamed(n: Names, r: Request)
    requires n.Valid()
    ensures AllWellNamed(Options(n, r))
  {
    var a, b := Optional(n.language, r.language), Optional(n.prompt, r.prompt);
    var c, d := Optional(n.responseFormat, r.responseFormat), Optional(n.temperature, r.temperature);
    OptionalIsWellNamed(n.language, r.language);
    OptionalIsWellNamed(n.prompt, r.prompt);
    OptionalIsWellNamed(n.responseFormat, r.responseFormat);
    OptionalIsWellNamed(n.temperature, r.temperature);
    BothWellNamed(a, b);
    BothWellNamed(a + b, c);
    BothWellNamed(a + b + c, d);
  }

  lemma PartsAreWellNamed(n: Names, r: Request, fileName: Bytes, audio: Bytes)
    requires n.Valid()
    ensures AllWellNamed(Parts(n, r, fileName, audio))
  {
    var first, last := [Part(n.model, None, r.model)], [Part(n.file, Some(Sanitize(fileName)), audio)];
    SanitizeIsWord(fileName);
    OptionsAreWellNamed(n, r);
    BothWellNamed(first, Options(n, r));
    BothWellNamed(first + Options(n, r), last);
  }

  lemma NamesAreValid()
    ensures NAMES.Valid()
  {
  }

  lemma TextsAreValid()
    ensures |BOUNDARY| > 0 && BOUNDARY[0] == DASH && CR !in BOUNDARY
    ensures CR !in DISPOSITION && CR !in FILENAME
  {
  }

  /** The texts of this client meet what the reading needs of them. */
  lemma FormatIsValid()
    ensures FORMAT.Valid()
  {
    NamesAreValid();
    TextsAreValid();
  }

  /** Every request, file name and audio body: the form this client writes reads back as the parts it was
      asked to send if and only if no text field and no audio contains CRLF and the boundary line, or starts
      with the boundary line. */
  lemma UploadRoundTrip(r: Request, fileName: Bytes, audio: Bytes)
    ensures var parts := Parts(FORMAT.names, r, fileName, audio);
            Parse(FORMAT, Body(FORMAT, parts)) == Some(parts) <==> forall p :: p in parts ==> Clean(FORMAT, p.content)
  {
    FormatIsValid();
    PartsAreWellNamed(FORMAT.names, r, fileName, audio);
    BodyRoundTrip(FORMAT, Parts(FORMAT.names, r, fileName, audio));
  }

  // ---- What is read back ------------------------------------------------------------------------

  /** The names of a form, in the order of the fields. */
  const ORDER: seq<Bytes> := [Ascii("model"), Ascii("language"), Ascii("prompt"), Ascii("response_format"),
                              Ascii("temperature"), Ascii("file")]

  /** The contents found under a name. */
  function Under(parts: seq<Part>, name: Bytes): seq<Bytes> {
    if parts == [] then []
    else (if parts[0].name == name then [parts[0].content] else []) + Under(parts[1..], name)
  }

  function Given(value: Option<Bytes>): seq<Bytes> { if value.Some? then [value.value] else [] }

  /** One of six distinct names, by its place. */
  ghost predicate Placed(order: seq<Bytes>, name: Bytes, k: nat) { k < |order| && order[k] == name }

  /** The parts of a form say what the request asks: under every name its value, once, or nothing if it is not
      given; only the audio has a file name; no other names; the names in their order. */
  ghost predicate Carries(order: seq<Bytes>, parts: seq<Part>, r: Request, fileName: Bytes, audio: Bytes)
    requires |order| == 6
  {
    && Under(parts, order[0]) == [r.model]
    && Under(parts, order[1]) == Given(r.language)
    && Under(parts, order[2]) == Given(r.prompt)
    && Under(parts, order[3]) == Given(r.responseFormat)
    && Under(parts, order[4]) == Given(r.temperature)
    && Under(parts, order[5]) == [audio]
    && (forall p :: p in parts ==> p.name in order)
    && (forall p :: p in parts ==> p.filename == if p.name == order[5] then Some(Sanitize(fileName)) else None)
    && InOrder(order, parts)
  }

  ghost predicate InOrder(order: seq<Bytes>, parts: seq<Part>) {
    forall i, j, a, b :: 0 <= i < j < |parts| && Placed(order, parts[i].name, a) && Placed(order, parts[j].name, b)
                         ==> a < b
  }

  ghost predicate Distinct(order: seq<Bytes>) { forall i, j :: 0 <= i < j < |order| ==> order[i] != order[j] }

  /** Names from place `lo` on and before place `hi`, in order, each with what is given under it. */
  ghost predicate Stretch(order: seq<Bytes>, parts: seq<Part>, lo: nat, hi: nat, values: seq<seq<Bytes>>)
    requires lo <= hi <= |order| && |values| == hi - lo
  {
    && (forall p :: p in parts ==> exists k :: lo <= k < hi && Placed(order, p.name, k))
    && (forall k :: lo <= k < hi ==> Under(parts, order[k]) == values[k - lo])
    && InOrder(order, parts)
  }

  lemma {:induction false} UnderConcat(a: seq<Part>, b: seq<Part>, name: Bytes)
    ensures Under(a + b, name) == Under(a, name) + Under(b, name)
    decreases |a|
  {
    if a == [] {
      assert a + b == b;
    } else {
      assert (a + b)[1..] == a[1..] + b;
      UnderConcat(a[1..], b, name);
    }
  }

  lemma {:induction false} UnderNone(parts: seq<Part>, name: Bytes)
    requires forall p :: p in parts ==> p.name != name
    ensures Under(parts, name) == []
  {
    if parts != [] {
      assert parts[0] in parts;
      UnderNone(parts[1..], name);
    }
  }

  /** A name placed elsewhere is not found in a stretch. */
  lemma UnderOutside(order: seq<Bytes>, parts: seq<Part>, lo: nat, hi: nat, values: seq<seq<Bytes>>, k: nat)
    requires Distinct(order) && lo <= hi <= |order| && |values| == hi - lo && Stretch(order, parts, lo, hi, values)
    requires k < |order| && !(lo <= k < hi)
    ensures Under(parts, order[k]) == []
  {
    UnderNone(parts, order[k]);
  }

  lemma StretchJoin(order: seq<Bytes>, a: seq<Part>, b: seq<Part>, lo: nat, mid: nat, hi: nat,
                    v: seq<seq<Bytes>>, w: seq<seq<Bytes>>)
    requires Distinct(order) && lo <= mid <= hi <= |order| && |v| == mid - lo && |w| == hi - mid
    requires Stretch(order, a, lo, mid, v) && Stretch(order, b, mid, hi, w)
    ensures Stretch(order, a + b, lo, hi, v + w)
  {
    forall k | lo <= k < hi ensures Under(a + b, order[k]) == (v + w)[k - lo] {
      UnderConcat(a, b, order[k]);
      if k < mid { UnderOutside(order, b, mid, hi, w, k); } else { UnderOutside(order, a, lo, mid, v, k); }
    }
    JoinInOrder(order, a, b, mid);
    forall p | p in a + b ensures exists k :: lo <= k < hi && Placed(order, p.name, k) {
      assert p in a || p in b;
      var k :| 0 <= k && (lo <= k < mid || mid <= k < hi) && Placed(order, p.name, k);
      assert lo <= k < hi && Placed(order, p.name, k);
    }
  }

  lemma JoinInOrder(order: seq<Bytes>, a: seq<Part>, b: seq<Part>, mid: nat)
    requires Distinct(order) && InOrder(order, a) && InOrder(order, b)
    requires forall p :: p in a ==> exists k :: 0 <= k < mid && Placed(order, p.name, k)
    requires forall p :: p in b ==> exists k :: mid <= k && Placed(order, p.name, k)
    ensures InOrder(order, a + b)
  {
    var all := a + b;
    forall i, j, x, y | 0 <= i < j < |all| && Placed(order, all[i].name, x) && Placed(order, all[j].name, y)
      ensures x < y
    {
      if j < |a| {
        assert all[i] == a[i] && all[j] == a[j];
      } else if i >= |a| {
        assert all[i] == b[i - |a|] && all[j] == b[j - |a|];
      } else {
        assert a[i] in a && b[j - |a|] in b;
        var p :| 0 <= p < mid && Placed(order, a[i].name, p);
        var q :| mid <= q && Placed(order, b[j - |a|].name, q);
        assert p == x && q == y;
      }
    }
  }

  lemma StretchOptional(order: seq<Bytes>, k: nat, value: Option<Bytes>)
    requires k < |order|
    ensures Stretch(order, Optional(order[k], value), k, k + 1, [Given(value)])
  {
    StretchOne(order, k, Part(order[k], None, if value.Some? then value.value else []));
  }

  lemma StretchOne(order: seq<Bytes>, k: nat, p: Part)
    requires k < |order| && p.name == order[k]
    ensures Stretch(order, [p], k, k + 1, [[p.content]])
    ensures Under([], order[k]) == []
  {
    assert Placed(order, p.name, k);
    assert [p][1..] == [];
  }

  /** What the optional fields hold, in order. */
  function GivenAll(r: Request): seq<seq<Bytes>> {
    [Given(r.language)] + [Given(r.prompt)] + [Given(r.responseFormat)] + [Given(r.temperature)]
  }

  lemma OptionsStretch(order: seq<Bytes>, n: Names, r: Request)
    requires |order| == 6 && Distinct(order)
    requires n == Names(order[0], order[1], order[2], order[3], order[4], order[5])
    ensures Stretch(order, Options(n, r), 1, 5, GivenAll(r))
  {
    var a, b := Optional(n.language, r.language), Optional(n.prompt, r.prompt);
    var c, d := Optional(n.responseFormat, r.responseFormat), Optional(n.temperature, r.temperature);
    var v, w := [Given(r.language)] + [Given(r.prompt)], [Given(r.responseFormat)];
    StretchOptional(order, 1, r.language);
    StretchOptional(order, 2, r.prompt);
    StretchOptional(order, 3, r.responseFormat);
    StretchOptional(order, 4, r.temperature);
    StretchJoin(order, a, b, 1, 2, 3, [Given(r.language)], [Given(r.prompt)]);
    StretchJoin(order, a + b, c, 1, 3, 4, v, w);
    StretchJoin(order, a + b + c, d, 1, 4, 5, v + w, [Given(r.temperature)]);
  }

  /** A text field, a stretch of optional ones and the file. */
  lemma FormStretch(order: seq<Bytes>, first: Part, options: seq<Part>, last: Part, values: seq<seq<Bytes>>)
    requires |order| == 6 && Distinct(order) && |values| == 4 && Stretch(order, options, 1, 5, values)
    requires first.name == order[0] && last.name == order[5]
    ensures Stretch(order, [first] + options + [last], 0, 6, [[first.content]] + values + [[last.content]])
  {
    StretchOne(order, 0, first);
    StretchOne(order, 5, last);
    StretchJoin(order, [first], options, 0, 1, 5, [[first.content]], values);
    StretchJoin(order, [first] + options, [last], 0, 5, 6, [[first.content]] + values, [[last.content]]);
  }

  lemma PartsCarry(order: seq<Bytes>, n: Names, r: Request, fileName: Bytes, audio: Bytes)
    requires |order| == 6 && Distinct(order)
    requires n == Names(order[0], order[1], order[2], order[3], order[4], order[5])
    ensures Carries(order, Parts(n, r, fileName, audio), r, fileName, audio)
  {
    var first, last := Part(n.model, None, r.model), Part(n.file, Some(Sanitize(fileName)), audio);
    OptionsStretch(order, n, r);
    FormStretch(order, first, Options(n, r), last, GivenAll(r));
    FileNames(order, n, r, fileName, audio);
    StretchCarries(order, Parts(n, r, fileName, audio), r, fileName, audio, [[r.model]] + GivenAll(r) + [[audio]]);
  }

  /** Only the file part has a file name. */
  lemma FileNames(order: seq<Bytes>, n: Names, r: Request, fileName: Bytes, audio: Bytes)
    requires |order| == 6 && Distinct(order)
    requires n == Names(order[0], order[1], order[2], order[3], order[4], order[5])
    ensures forall p :: p in Parts(n, r, fileName, audio) ==>
              p.filename == if p.name == order[5] then Some(Sanitize(fileName)) else None
  {
    forall p | p in Options(n, r) ensures p.filename == None && p.name != order[5] {
      assert p in Optional(n.language, r.language) || p in Optional(n.prompt, r.prompt)
             || p in Optional(n.responseFormat, r.responseFormat) || p in Optional(n.temperature, r.temperature);
    }
  }

  lemma StretchAt(order: seq<Bytes>, parts: seq<Part>, values: seq<seq<Bytes>>, k: nat)
    requires |values| == |order| && Stretch(order, parts, 0, |order|, values) && k < |order|
    ensures Under(parts, order[k]) == values[k]
  {
  }

  lemma StretchNames(order: seq<Bytes>, parts: seq<Part>, values: seq<seq<Bytes>>)
    requires |values| == |order| && Stretch(order, parts, 0, |order|, values)
    ensures forall p :: p in parts ==> p.name in order
  {
    forall p | p in parts ensures p.name in order {
      var k :| 0 <= k < |order| && Placed(order, p.name, k);
    }
  }

  lemma AllValues(r: Request, audio: Bytes, all: seq<seq<Bytes>>)
    requires all == [[r.model]] + GivenAll(r) + [[audio]]
    ensures |all| == 6 && all[0] == [r.model] && all[1] == Given(r.language) && all[2] == Given(r.prompt)
    ensures all[3] == Given(r.responseFormat) && all[4] == Given(r.temperature) && all[5] == [audio]
  {
  }

  lemma StretchCarries(order: seq<Bytes>, parts: seq<Part>, r: Request, fileName: Bytes, audio: Bytes,
                       all: seq<seq<Bytes>>)
    requires |order| == 6 && all == [[r.model]] + GivenAll(r) + [[audio]]
    requires Stretch(order, parts, 0, 6, all)
    requires forall p :: p in parts ==> p.filename == if p.name == order[5] then Some(Sanitize(fileName)) else None
    ensures Carries(order, parts, r, fileName, audio)
  {
    AllValues(r, audio, all);
    StretchAt(order, parts, all, 0);
    StretchAt(order, parts, all, 1);
    StretchAt(order, parts, all, 2);
    StretchAt(order, parts, all, 3);
    StretchAt(order, parts, all, 4);
    StretchAt(order, parts, all, 5);
    StretchNames(order, parts, all);
  }

  lemma NamesInOrder()
    ensures Distinct(ORDER) && NAMES == Names(ORDER[0], ORDER[1], ORDER[2], ORDER[3], ORDER[4], ORDER[5])
  {
  }

  /** Nothing in the request can be taken for a delimiter. */
  predicate CleanRequest(f: Format, r: Request, audio: Bytes) {
    Clean(f, r.model) && Clean(f, audio)
    && CleanOption(f, r.language) && CleanOption(f, r.prompt)
    && CleanOption(f, r.responseFormat) && CleanOption(f, r.temperature)
  }

  predicate CleanOption(f: Format, value: Option<Bytes>) { value.Some? ==> Clean(f, value.value) }

  lemma CleanParts(f: Format, n: Names, r: Request, fileName: Bytes, audio: Bytes)
    requires CleanRequest(f, r, audio)
    ensures forall p :: p in Parts(n, r, fileName, audio) ==> Clean(f, p.content)
  {
    forall p | p in Options(n, r) ensures Clean(f, p.content) {
      assert p in Optional(n.language, r.language) || p in Optional(n.prompt, r.prompt)
             || p in Optional(n.responseFormat, r.responseFormat) || p in Optional(n.temperature, r.temperature);
    }
  }

  /** The form read back says what the request asks. */
  lemma FormCarriesRequest(body: Bytes, r: Request, fileName: Bytes, audio: Bytes)
    requires body == Body(FORMAT, Parts(FORMAT.names, r, fileName, audio)) && CleanRequest(FORMAT, r, audio)
    ensures Parse(FORMAT, body).Some? && Carries(ORDER, Parse(FORMAT, body).value, r, fileName, audio)
  {
    UploadRoundTrip(r, fileName, audio);
    CleanParts(FORMAT, FORMAT.names, r, fileName, audio);
    NamesInOrder();
    PartsCarry(ORDER, FORMAT.names, r, fileName, audio);
  }

  /** The upload of this client: for every request, file name and audio that cannot be taken for a delimiter,
      reading the bytes it writes finds under every name what the request says. */
  method Upload(r: Request, fileName: Bytes, audio: Bytes) returns (body: Bytes)
    ensures CleanRequest(FORMAT, r, audio) ==>
              Parse(FORMAT, body).Some? && Carries(ORDER, Parse(FORMAT, body).value, r, fileName, audio)
  {
    body := TranscriptionForm(FORMAT, r, fileName, audio);
    if CleanRequest(FORMAT, r, audio) { FormCarriesRequest(body, r, fileName, audio); }
  }

  /** Free of CRLF and the boundary line is not enough: a model name that is the boundary line itself holds
      no delimiter, but the line end of its header completes one. */
  lemma DelimiterFreeIsNotEnough(r: Request, fileName: Bytes, audio: Bytes)
    requires r.model == FORMAT.boundary
    ensures Find(r.model, FORMAT.Delimiter()).None?
    ensures var parts := Parts(FORMAT.names, r, fileName, audio);
            Parse(FORMAT, Body(FORMAT, parts)) != Some(parts)
  {
    FormatIsValid();
    UploadRoundTrip(r, fileName, audio);
    var parts := Parts(FORMAT.names, r, fileName, audio);
    assert parts[0].content == FORMAT.boundary && parts[0] in parts;
  }
}
