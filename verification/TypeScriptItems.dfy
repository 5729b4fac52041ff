/** The TypeScript client's response item codec. */
module TypeScriptItems {
  import opened Common
  import opened ResponseItems

  // ---- Encoding ---------------------------------------------------------------------------------

  function EncodePart(p: Part): Json {
    match p
    case InputText(t) => Obj(map[TypeKey := Str(INPUT_TEXT), TextKey := Str(t)])
    case InputImage(url, detail) =>
      Obj(Put(map[TypeKey := Str(INPUT_IMAGE), ImageUrlKey := Str(url)], DetailKey, detail))
    case OutputText(t, _) => Obj(map[TypeKey := Str(OUTPUT_TEXT), TextKey := Str(t), AnnotationsKey := Arr([])])
  }

  function EncodeContent(c: Content): Json {
    match c
    case Text(t) => Str(t)
    case Parts(ps) => Arr(seq(|ps|, i requires 0 <= i < |ps| => EncodePart(ps[i])))
  }

  /** A list of reasoning texts, set only when it has entries. */
  function PutEntries(o: Fields, k: Key, token: string, texts: seq<string>): Fields {
    if |texts| > 0 then o[k := Arr(Entries(token, texts))] else o
  }

  function Encode(it: Item): Json
    requires !it.Other?
  {
    match it
    case FunctionCall(id, callId, name, arguments, status) =>
      Obj(Put(Put(map[TypeKey := Str(FUNCTION_CALL), CallIdKey := Str(callId), NameKey := Str(name),
                      ArgumentsKey := Str(arguments)], IdKey, id), StatusKey, status))
    case FunctionCallOutput(id, callId, output) =>
      Obj(Put(map[TypeKey := Str(FUNCTION_CALL_OUTPUT), CallIdKey := Str(callId), OutputKey := Str(output)], IdKey, id))
    case Reasoning(id, summary, thoughts, encrypted) =>
      var o: Fields := Put(map[TypeKey := Str(REASONING)], IdKey, id);
      Obj(Put(PutEntries(PutEntries(o, SummaryKey, SUMMARY_TEXT, summary), ContentKey, REASONING_TEXT, thoughts),
              EncryptedKey, encrypted))
    case Compaction(_, id, state, encrypted, signature) =>
      Obj(Put(Put(Put(Put(map[TypeKey := Str(COMPACTION)], IdKey, id), ContentKey, state), EncryptedKey, encrypted),
              SignatureKey, signature))
    case Message(id, role, content, status) =>
      var o: Fields := Put(map[RoleKey := Str(role)], IdKey, id);
      Obj(Put(if content.Some? then o[ContentKey := EncodeContent(content.value)] else o, StatusKey, status))
  }

  // ---- Decoding ---------------------------------------------------------------------------------

  /** A string, or empty for anything else. */
  function ReadText(o: Fields, k: Key): string { if k in o && o[k].Str? then o[k].s else "" }

  /** A string, or absent for anything else. */
  function ReadOption(o: Fields, k: Key): Option<string> { if k in o && o[k].Str? then Some(o[k].s) else None }

  /** The values of an array; anything else is an empty one. */
  function ReadItems(o: Fields, k: Key): seq<Json> { if k in o && o[k].Arr? then o[k].items else [] }

  /** An unknown part is skipped. */
  function DecodePart(j: Json): Read<Part> {
    if !j.Obj? then Dropped
    else
      var token := ReadText(j.fields, TypeKey);
      if token == INPUT_TEXT then Value(InputText(ReadText(j.fields, TextKey)))
      else if token == INPUT_IMAGE then
        Value(InputImage(ReadText(j.fields, ImageUrlKey), ReadOption(j.fields, DetailKey)))
      else if token == OUTPUT_TEXT then Value(OutputText(ReadText(j.fields, TextKey), []))
      else Dropped
  }

  function DecodeContent(o: Fields): Option<Content> {
    if ContentKey !in o then None
    else
      match o[ContentKey]
      case Str(s) => Some(Text(s))
      case Arr(items) => Some(Parts(Kept(items, DecodePart)))
      case _ => None
  }

  /** `decodeResponseMessageContent`: parts are collected one by one. */
  method DecodeResponseMessageContent(o: Fields) returns (r: Option<Content>)
    ensures r == DecodeContent(o)
  {
    if ContentKey !in o || o[ContentKey].Null? { return None; }
    var v := o[ContentKey];
    if v.Str? { return Some(Text(v.s)); }
    if !v.Arr? { return None; }
    var parts := [];
    for k := 0 to |v.items|
      invariant parts == Kept(v.items[..k], DecodePart)
    {
      assert v.items[..k + 1] == v.items[..k] + [v.items[k]];
      KeptSnoc(v.items[..k], v.items[k], DecodePart);
      var p := DecodePart(v.items[k]);
      if p.Value? { parts := parts + [p.value]; }
    }
    assert v.items[..|v.items|] == v.items;
    r := Some(Parts(parts));
  }

  function DecodeEntry(j: Json): Read<string> {
    if j.Obj? then Value(ReadText(j.fields, TextKey)) else Dropped
  }

  function DecodeEntries(o: Fields, k: Key): seq<string> { Kept(ReadItems(o, k), DecodeEntry) }

  /** An absent token means a message; an item of an unknown type is skipped. */
  function Decode(j: Json): Read<Item> {
    if !j.Obj? then Dropped
    else
      var o := j.fields;
      var token := ReadOption(o, TypeKey);
      if token.None? || token.value == MESSAGE then
        Value(Message(ReadOption(o, IdKey), ReadText(o, RoleKey), DecodeContent(o), ReadOption(o, StatusKey)))
      else if token.value == FUNCTION_CALL then
        Value(FunctionCall(ReadOption(o, IdKey), ReadText(o, CallIdKey), ReadText(o, NameKey),
                           ReadText(o, ArgumentsKey), ReadOption(o, StatusKey)))
      else if token.value == FUNCTION_CALL_OUTPUT then
        Value(FunctionCallOutput(ReadOption(o, IdKey), ReadText(o, CallIdKey), ReadText(o, OutputKey)))
      else if token.value == REASONING then
        Value(Reasoning(ReadOption(o, IdKey), DecodeEntries(o, SummaryKey), DecodeEntries(o, ContentKey),
                        ReadOption(o, EncryptedKey)))
      else if token.value == COMPACTION then
        Value(Compaction(COMPACTION, ReadOption(o, IdKey), ReadOption(o, ContentKey), ReadOption(o, EncryptedKey),
                         ReadOption(o, SignatureKey)))
      else Dropped
  }

  /** The `output` field of a response: what cannot be read is skipped. */
  function DecodeOutput(field: Option<Json>): Read<seq<Item>> {
    Value(if field.Some? && field.value.Arr? then Kept(field.value.items, Decode) else [])
  }

  // ---- Agreement with the wire form -------------------------------------------------------------

  lemma EncodesPart(p: Part)
    ensures PartForm(EncodePart(p), ErasePart(p))
  {
  }

  lemma EncodesParts(ps: seq<Part>)
    ensures ContentForm(EncodeContent(Parts(ps)), Parts(EraseParts(ps)))
  {
    forall i | 0 <= i < |ps| ensures PartForm(EncodePart(ps[i]), ErasePart(ps[i])) {
      EncodesPart(ps[i]);
    }
  }

  lemma EncodesReasoning(it: Item)
    requires it.Reasoning?
    ensures Form(Encode(it), it)
  {
  }

  /** What the encoder writes is a wire form of the item without annotations. */
  lemma EncodesForm(it: Item)
    requires WellFormed(it) && !it.Other?
    ensures Form(Encode(it), Erase(it))
  {
    match it
    case Message(_, _, content, _) =>
      if content.Some? && content.value.Parts? { EncodesParts(content.value.parts); }
    case Reasoning(_, _, _, _) => EncodesReasoning(it);
    case _ =>
  }

  lemma DecodesPart(j: Json, p: Part)
    requires PartForm(j, p)
    ensures DecodePart(j) == Value(ErasePart(p))
  {
  }

  lemma DecodesParts(items: seq<Json>, ps: seq<Part>)
    requires ContentForm(Arr(items), Parts(ps))
    ensures Kept(items, DecodePart) == EraseParts(ps)
  {
    forall i | 0 <= i < |ps| ensures DecodePart(items[i]) == Value(ErasePart(ps[i])) {
      DecodesPart(items[i], ps[i]);
    }
    KeptIs(items, DecodePart, EraseParts(ps));
  }

  lemma DecodesEntries(o: Fields, k: Key, token: string, texts: seq<string>)
    requires EntriesForm(o, k, token, texts)
    ensures DecodeEntries(o, k) == texts
  {
    if k in o {
      forall i | 0 <= i < |texts| ensures DecodeEntry(o[k].items[i]) == Value(texts[i]) {
        assert EntryForm(o[k].items[i], token, texts[i]);
      }
      KeptIs(o[k].items, DecodeEntry, texts);
    }
  }

  /** Every wire form of an item is read as the item, without annotations. */
  lemma DecodesForm(j: Json, it: Item)
    requires WellFormed(it) && !it.Other? && Form(j, it)
    ensures Decode(j) == Value(Erase(it))
  {
    var o := j.fields;
    match it
    case Message(_, _, content, _) =>
      if content.Some? && content.value.Parts? { DecodesParts(o[ContentKey].items, content.value.parts); }
    case Reasoning(_, summary, thoughts, _) =>
      DecodesEntries(o, SummaryKey, SUMMARY_TEXT, summary);
      DecodesEntries(o, ContentKey, REASONING_TEXT, thoughts);
    case _ =>
  }

  lemma {:induction false} KeptPartsAreErased(items: seq<Json>)
    ensures EraseParts(Kept(items, DecodePart)) == Kept(items, DecodePart)
  {
    if items != [] {
      KeptPartsAreErased(items[1..]);
      var first, rest := One(DecodePart(items[0])), Kept(items[1..], DecodePart);
      assert forall i :: 0 <= i < |rest| ==> ErasePart(rest[i]) == EraseParts(rest)[i];
    }
  }

  /** Whatever the decoder returns, it could have been sent: well formed and free of annotations. */
  lemma DecodesToWellFormed(j: Json)
    requires Decode(j).Value?
    ensures var it := Decode(j).value; WellFormed(it) && !it.Other? && Erase(it) == it
  {
    var it := Decode(j).value;
    if it.Message? && it.content.Some? && it.content.value.Parts? {
      KeptPartsAreErased(j.fields[ContentKey].items);
    }
  }
}
