/** The Rust client's response item codec. */
module RustItems {
  import opened Common
  import opened ResponseItems

  // ---- Encoding ---------------------------------------------------------------------------------

  function EncodePart(p: Part): Json {
    match p
    case InputText(t) => Obj(map[TypeKey := Str(INPUT_TEXT), TextKey := Str(t)])
    case InputImage(url, detail) =>
      Obj(Put(map[TypeKey := Str(INPUT_IMAGE), ImageUrlKey := Str(url)], DetailKey, detail))
    case OutputText(t, annotations) =>
      Obj(map[TypeKey := Str(OUTPUT_TEXT), TextKey := Str(t), AnnotationsKey := Arr(annotations)])
  }

  function EncodeContent(c: Content): Json {
    match c
    case Text(t) => Str(t)
    case Parts(ps) => Arr(seq(|ps|, i requires 0 <= i < |ps| => EncodePart(ps[i])))
  }

  /** A list of reasoning texts, left out when empty. */
  function PutEntries(o: Fields, k: Key, token: string, texts: seq<string>): Fields {
    if texts == [] then o else o[k := Arr(Entries(token, texts))]
  }

  /** Every item but a message takes its token from its variant; an unmodelled item is written as it was read. */
  function Encode(it: Item): Json {
    match it
    case Message(id, role, content, status) =>
      var o: Fields := Put(Put(map[RoleKey := Str(role)], IdKey, id), StatusKey, status);
      Obj(if content.Some? then o[ContentKey := EncodeContent(content.value)] else o)
    case FunctionCall(id, callId, name, arguments, status) =>
      Obj(Put(Put(map[TypeKey := Str(FUNCTION_CALL), CallIdKey := Str(callId), NameKey := Str(name),
                      ArgumentsKey := Str(arguments)], IdKey, id), StatusKey, status))
    case FunctionCallOutput(id, callId, output) =>
      Obj(Put(map[TypeKey := Str(FUNCTION_CALL_OUTPUT), CallIdKey := Str(callId), OutputKey := Str(output)], IdKey, id))
    case Reasoning(id, summary, thoughts, encrypted) =>
      var o: Fields := Put(Put(map[TypeKey := Str(REASONING)], IdKey, id), EncryptedKey, encrypted);
      Obj(PutEntries(PutEntries(o, SummaryKey, SUMMARY_TEXT, summary), ContentKey, REASONING_TEXT, thoughts))
    case Compaction(kind, id, state, encrypted, signature) =>
      Obj(Put(Put(Put(Put(map[TypeKey := Str(kind)], IdKey, id), ContentKey, state), EncryptedKey, encrypted),
              SignatureKey, signature))
    case Other(v) => v
  }

  /** `serialize_reasoning_texts`: one tagged element per text, the token given by the list. */
  method SerializeReasoningTexts(texts: seq<string>, kind: string) returns (elements: seq<Json>)
    ensures elements == Entries(kind, texts)
  {
    elements := [];
    for k := 0 to |texts|
      invariant elements == Entries(kind, texts[..k])
    {
      elements := elements + [Entry(kind, texts[k])];
    }
    assert texts[..|texts|] == texts;
  }

  // ---- Decoding ---------------------------------------------------------------------------------

  /** A required string field. */
  function ReadText(o: Fields, k: Key): Read<string> {
    if k in o && o[k].Str? then Value(o[k].s) else Malformed
  }

  /** An optional string field; null counts as absent. */
  function ReadOption(o: Fields, k: Key): Read<Option<string>> {
    if k !in o || o[k].Null? then Value(None) else if o[k].Str? then Value(Some(o[k].s)) else Malformed
  }

  function ReadFields(j: Json): Read<Fields> { if j.Obj? then Value(j.fields) else Malformed }

  function ReadAnnotations(o: Fields): Read<seq<Json>> {
    if AnnotationsKey !in o then Value([])
    else if o[AnnotationsKey].Arr? then Value(o[AnnotationsKey].items)
    else Malformed
  }

  /** An unknown part type is an error. */
  function DecodePart(j: Json): Read<Part> {
    var o :- ReadFields(j);
    var token :- ReadText(o, TypeKey);
    if token == INPUT_TEXT then
      var text :- ReadText(o, TextKey);
      Value(InputText(text))
    else if token == INPUT_IMAGE then
      var url :- ReadText(o, ImageUrlKey);
      var detail :- ReadOption(o, DetailKey);
      Value(InputImage(url, detail))
    else if token == OUTPUT_TEXT then
      var text :- ReadText(o, TextKey);
      var annotations :- ReadAnnotations(o);
      Value(OutputText(text, annotations))
    else Malformed
  }

  /** A string or an array of parts, whichever fits. */
  function DecodeContent(o: Fields): Read<Option<Content>> {
    if ContentKey !in o then Value(None)
    else
      match o[ContentKey]
      case Null => Value(None)
      case Str(s) => Value(Some(Text(s)))
      case Arr(items) =>
        var parts :- All(items, DecodePart);
        Value(Some(Parts(parts)))
      case _ => Malformed
  }

  function DecodeMessage(o: Fields): Read<Item> {
    var id :- ReadOption(o, IdKey);
    var role :- ReadText(o, RoleKey);
    var content :- DecodeContent(o);
    var status :- ReadOption(o, StatusKey);
    Value(Message(id, role, content, status))
  }

  function DecodeFunctionCall(o: Fields): Read<Item> {
    var id :- ReadOption(o, IdKey);
    var callId :- ReadText(o, CallIdKey);
    var name :- ReadText(o, NameKey);
    var arguments :- ReadText(o, ArgumentsKey);
    var status :- ReadOption(o, StatusKey);
    Value(FunctionCall(id, callId, name, arguments, status))
  }

  function DecodeFunctionCallOutput(o: Fields): Read<Item> {
    var id :- ReadOption(o, IdKey);
    var callId :- ReadText(o, CallIdKey);
    var output :- ReadText(o, OutputKey);
    Value(FunctionCallOutput(id, callId, output))
  }

  function DecodeEntry(j: Json): Read<string> {
    var o :- ReadFields(j);
    ReadText(o, TextKey)
  }

  function DecodeEntries(o: Fields, k: Key): Read<seq<string>> {
    if k !in o then Value([]) else if o[k].Arr? then All(o[k].items, DecodeEntry) else Malformed
  }

  function DecodeReasoning(o: Fields): Read<Item> {
    var id :- ReadOption(o, IdKey);
    var summary :- DecodeEntries(o, SummaryKey);
    var thoughts :- DecodeEntries(o, ContentKey);
    var encrypted :- ReadOption(o, EncryptedKey);
    Value(Reasoning(id, summary, thoughts, encrypted))
  }

  function DecodeCompaction(o: Fields): Read<Item> {
    var kind :- ReadText(o, TypeKey);
    var id :- ReadOption(o, IdKey);
    var state :- ReadOption(o, ContentKey);
    var encrypted :- ReadOption(o, EncryptedKey);
    var signature :- ReadOption(o, SignatureKey);
    Value(Compaction(kind, id, state, encrypted, signature))
  }

  /** The type token, when there is one and it is a string. */
  function Token(o: Fields): Option<string> {
    if TypeKey in o && o[TypeKey].Str? then Some(o[TypeKey].s) else None
  }

  /** An absent token means a message; an item of an unknown type is kept verbatim. */
  function Decode(j: Json): Read<Item> {
    var o :- ReadFields(j);
    var token := Token(o);
    if token.None? || token.value == MESSAGE then DecodeMessage(o)
    else if token.value == FUNCTION_CALL then DecodeFunctionCall(o)
    else if token.value == FUNCTION_CALL_OUTPUT then DecodeFunctionCallOutput(o)
    else if token.value == REASONING then DecodeReasoning(o)
    else if token.value == COMPACTION then DecodeCompaction(o)
    else Value(Other(j))
  }

  /** The `output` field of a response. */
  function DecodeOutput(field: Option<Json>): Read<seq<Item>> {
    if field.None? then Value([]) else if field.value.Arr? then All(field.value.items, Decode) else Malformed
  }

  // ---- Agreement with the wire form -------------------------------------------------------------

  lemma EncodesPart(p: Part)
    ensures PartForm(EncodePart(p), p)
  {
  }

  lemma EncodesParts(ps: seq<Part>)
    ensures ContentForm(EncodeContent(Parts(ps)), Parts(ps))
  {
    forall i | 0 <= i < |ps| ensures PartForm(EncodePart(ps[i]), ps[i]) {
      EncodesPart(ps[i]);
    }
  }

  lemma EncodesReasoning(it: Item)
    requires it.Reasoning?
    ensures Form(Encode(it), it)
  {
  }

  /** What the encoder writes is a wire form of the item itself. */
  lemma EncodesForm(it: Item)
    requires WellFormed(it)
    ensures Form(Encode(it), it)
  {
    match it
    case Message(_, _, content, _) =>
      if content.Some? && content.value.Parts? { EncodesParts(content.value.parts); }
    case Reasoning(_, _, _, _) => EncodesReasoning(it);
    case _ =>
  }

  lemma DecodesPart(j: Json, p: Part)
    requires PartForm(j, p)
    ensures DecodePart(j) == Value(p)
  {
  }

  lemma DecodesParts(items: seq<Json>, ps: seq<Part>)
    requires ContentForm(Arr(items), Parts(ps))
    ensures All(items, DecodePart) == Value(ps)
  {
    forall i | 0 <= i < |ps| ensures DecodePart(items[i]) == Value(ps[i]) {
      DecodesPart(items[i], ps[i]);
    }
    AllIs(items, DecodePart, ps);
  }

  lemma DecodesEntries(o: Fields, k: Key, token: string, texts: seq<string>)
    requires EntriesForm(o, k, token, texts)
    ensures DecodeEntries(o, k) == Value(texts)
  {
    if k in o {
      forall i | 0 <= i < |texts| ensures DecodeEntry(o[k].items[i]) == Value(texts[i]) {
        assert EntryForm(o[k].items[i], token, texts[i]);
      }
      AllIs(o[k].items, DecodeEntry, texts);
    }
  }

  /** Every wire form of an item is read as the item, annotations and unmodelled items included. */
  lemma DecodesForm(j: Json, it: Item)
    requires WellFormed(it) && Form(j, it)
    ensures Decode(j) == Value(it)
  {
    var o := j.fields;
    match it
    case Message(_, _, content, _) =>
      if content.Some? && content.value.Parts? { DecodesParts(o[ContentKey].items, content.value.parts); }
    case Reasoning(_, summary, thoughts, _) =>
      DecodesEntries(o, SummaryKey, SUMMARY_TEXT, summary);
      DecodesEntries(o, ContentKey, REASONING_TEXT, thoughts);
    case _ =>
  }

  lemma DecodesToWellFormed(j: Json)
    requires Decode(j).Value?
    ensures WellFormed(Decode(j).value)
  {
  }

  /** Exactly the items of an unmodelled type are kept aside, and they are written back verbatim. */
  lemma KeepsUnmodelled(j: Json)
    ensures Decode(j).Value? && Decode(j).value.Other? <==> Unmodelled(j)
    ensures Unmodelled(j) ==> Encode(Decode(j).value) == j
  {
  }
}
