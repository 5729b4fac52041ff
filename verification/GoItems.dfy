/** The Go client's response item codec. */
module GoItems {
  import opened Common
  import opened ResponseItems

  // ---- Encoding ---------------------------------------------------------------------------------

  function EncodePart(p: Part): Json {
    match p
    case InputImage(url, detail) =>
      Obj(Put(map[TypeKey := Str(INPUT_IMAGE), ImageUrlKey := Str(url)], DetailKey, detail))
    case OutputText(t, _) => Obj(map[TypeKey := Str(OUTPUT_TEXT), TextKey := Str(t), AnnotationsKey := Arr([])])
    case InputText(t) => Obj(map[TypeKey := Str(INPUT_TEXT), TextKey := Str(t)])
  }

  function EncodeContent(c: Content): Json {
    match c
    case Text(t) => Str(t)
    case Parts(ps) => Arr(seq(|ps|, i requires 0 <= i < |ps| => EncodePart(ps[i])))
  }

  /** The summary list is always there, the content list only when it is not empty. */
  function ReasoningFields(summary: seq<string>, thoughts: seq<string>): Fields {
    var o: Fields := map[TypeKey := Str(REASONING), SummaryKey := Arr(Entries(SUMMARY_TEXT, summary))];
    if thoughts == [] then o else o[ContentKey := Arr(Entries(REASONING_TEXT, thoughts))]
  }

  function Encode(it: Item): Json
    requires !it.Other?
  {
    match it
    case FunctionCall(id, callId, name, arguments, status) =>
      Obj(Put(Put(map[TypeKey := Str(FUNCTION_CALL), CallIdKey := Str(callId), NameKey := Str(name),
                      ArgumentsKey := Str(arguments)], IdKey, id), StatusKey, status))
    case FunctionCallOutput(id, callId, output) =>
      Obj(Put(map[TypeKey := Str(FUNCTION_CALL_OUTPUT), CallIdKey := Str(callId), OutputKey := Str(output)], IdKey, id))
    case Reasoning(id, summary, thoughts, encrypted) =>
      Obj(Put(Put(ReasoningFields(summary, thoughts), IdKey, id), EncryptedKey, encrypted))
    case Compaction(_, id, state, encrypted, signature) =>
      Obj(Put(Put(Put(Put(map[TypeKey := Str(COMPACTION)], IdKey, id), ContentKey, state), EncryptedKey, encrypted),
              SignatureKey, signature))
    case Message(id, role, content, status) =>
      var o: Fields := Put(Put(map[RoleKey := Str(role)], IdKey, id), StatusKey, status);
      Obj(if content.Some? then o[ContentKey := EncodeContent(content.value)] else o)
  }

  /** `reasoningItemToWire`: both lists are built an entry at a time. */
  method ReasoningItemToWire(it: Item) returns (j: Json)
    requires it.Reasoning?
    ensures j == Encode(it)
  {
    var o: Fields := map[TypeKey := Str(REASONING)];
    var summary := [];
    for k := 0 to |it.summary|
      invariant summary == Entries(SUMMARY_TEXT, it.summary[..k])
    {
      summary := summary + [Entry(SUMMARY_TEXT, it.summary[k])];
    }
    assert it.summary[..|it.summary|] == it.summary;
    o := o[SummaryKey := Arr(summary)];
    var content := [];
    for k := 0 to |it.thoughts|
      invariant content == Entries(REASONING_TEXT, it.thoughts[..k])
    {
      content := content + [Entry(REASONING_TEXT, it.thoughts[k])];
    }
    assert it.thoughts[..|it.thoughts|] == it.thoughts;
    if |content| > 0 {
      o := o[ContentKey := Arr(content)];
    }
    j := Obj(Put(Put(o, IdKey, it.id), EncryptedKey, it.encrypted));
  }

  // ---- Decoding ---------------------------------------------------------------------------------

  /** A string field: absent and null leave it empty, any other type is an error. */
  function ReadText(o: Fields, k: Key): Read<string> {
    if k !in o || o[k].Null? then Value("") else if o[k].Str? then Value(o[k].s) else Malformed
  }

  /** An optional string field. */
  function ReadOption(o: Fields, k: Key): Read<Option<string>> {
    if k !in o || o[k].Null? then Value(None) else if o[k].Str? then Value(Some(o[k].s)) else Malformed
  }

  /** A null leaves the fields it would set empty. */
  function ReadFields(j: Json): Read<Fields> {
    match j
    case Null => Value(map[])
    case Obj(o) => Value(o)
    case _ => Malformed
  }

  /** Any part of an unknown type is taken for an input text. */
  function DecodePart(j: Json): Read<Part> {
    var o :- ReadFields(j);
    var token :- ReadText(o, TypeKey);
    var text :- ReadText(o, TextKey);
    var url :- ReadText(o, ImageUrlKey);
    var detail :- ReadOption(o, DetailKey);
    Value(if token == INPUT_IMAGE then InputImage(url, detail)
          else if token == OUTPUT_TEXT then OutputText(text, [])
          else InputText(text))
  }

  /** A string or an array is content; anything else is ignored. */
  function DecodeContent(o: Fields): Read<Option<Content>> {
    if ContentKey !in o then Value(None)
    else
      match o[ContentKey]
      case Str(s) => Value(Some(Text(s)))
      case Arr(items) =>
        var parts :- All(items, DecodePart);
        Value(Some(Parts(parts)))
      case _ => Value(None)
  }

  function DecodeMessage(o: Fields): Read<Item> {
    var id :- ReadOption(o, IdKey);
    var role :- ReadText(o, RoleKey);
    var status :- ReadOption(o, StatusKey);
    var content :- DecodeContent(o);
    Value(Message(id, role, content, status))
  }

  function DecodeFunctionCall(o: Fields): Read<Item> {
    var id :- ReadOption(o, IdKey);
    var callId :- ReadText(o, CallIdKey);
    var name :- ReadText(o, NameKey);
    var arguments :- ReadText(o, ArgumentsKey);
    var status :- ReadOption(o, StatusKey);
    Value(FunctionCall(id, callId, name, arguments, status))
  }

  function DecodeFunctionCallOutput(o: Fields): Read<Item> {
    var id :- ReadOption(o, IdKey);
    var callId :- ReadText(o, CallIdKey);
    var output :- ReadText(o, OutputKey);
    Value(FunctionCallOutput(id, callId, output))
  }

  function DecodeEntry(j: Json): Read<string> {
    var o :- ReadFields(j);
    var token :- ReadText(o, TypeKey);
    ReadText(o, TextKey)
  }

  function DecodeEntries(o: Fields, k: Key): Read<seq<string>> {
    if k !in o || o[k].Null? then Value([])
    else if o[k].Arr? then All(o[k].items, DecodeEntry)
    else Malformed
  }

  function DecodeReasoning(o: Fields): Read<Item> {
    var id :- ReadOption(o, IdKey);
    var summary :- DecodeEntries(o, SummaryKey);
    var thoughts :- DecodeEntries(o, ContentKey);
    var encrypted :- ReadOption(o, EncryptedKey);
    Value(Reasoning(id, summary, thoughts, encrypted))
  }

  function DecodeCompaction(o: Fields): Read<Item> {
    var id :- ReadOption(o, IdKey);
    var state :- ReadOption(o, ContentKey);
    var encrypted :- ReadOption(o, EncryptedKey);
    var signature :- ReadOption(o, SignatureKey);
    Value(Compaction(COMPACTION, id, state, encrypted, signature))
  }

  /** Any item of an unknown type is taken for a message. */
  function Decode(j: Json): Read<Item> {
    var o :- ReadFields(j);
    var token :- ReadText(o, TypeKey);
    if token == FUNCTION_CALL then DecodeFunctionCall(o)
    else if token == FUNCTION_CALL_OUTPUT then DecodeFunctionCallOutput(o)
    else if token == REASONING then DecodeReasoning(o)
    else if token == COMPACTION then DecodeCompaction(o)
    else DecodeMessage(o)
  }

  /** The `output` field of a response. */
  function DecodeOutput(field: Option<Json>): Read<seq<Item>> {
    if field.None? || field.value.Null? then Value([])
    else if field.value.Arr? then All(field.value.items, Decode)
    else Malformed
  }

  // ---- Agreement with the wire form -------------------------------------------------------------

  lemma EncodesParts(ps: seq<Part>)
    ensures ContentForm(EncodeContent(Parts(ps)), Parts(EraseParts(ps)))
  {
    forall i | 0 <= i < |ps| ensures PartForm(EncodePart(ps[i]), ErasePart(ps[i])) {
      EncodesPart(ps[i]);
    }
  }

  lemma EncodesPart(p: Part)
    ensures PartForm(EncodePart(p), ErasePart(p))
  {
  }

  lemma EncodesReasoning(it: Item)
    requires it.Reasoning?
    ensures Form(Encode(it), it)
  {
  }

  /** What the encoder writes is a wire form of the item without annotations. */
  lemma EncodesForm(it: Item)
    requires WellFormed(it) && !it.Other?
    ensures Form(Encode(it), Erase(it))
  {
    match it
    case Message(_, _, content, _) =>
      if content.Some? && content.value.Parts? { EncodesParts(content.value.parts); }
    case Reasoning(_, _, _, _) => EncodesReasoning(it);
    case _ =>
  }

  lemma DecodesPart(j: Json, p: Part)
    requires PartForm(j, p)
    ensures DecodePart(j) == Value(ErasePart(p))
  {
  }

  lemma DecodesParts(items: seq<Json>, ps: seq<Part>)
    requires ContentForm(Arr(items), Parts(ps))
    ensures All(items, DecodePart) == Value(EraseParts(ps))
  {
    forall i | 0 <= i < |ps| ensures DecodePart(items[i]) == Value(ErasePart(ps[i])) {
      DecodesPart(items[i], ps[i]);
    }
    AllIs(items, DecodePart, EraseParts(ps));
  }

  lemma DecodesEntries(o: Fields, k: Key, token: string, texts: seq<string>)
    requires EntriesForm(o, k, token, texts)
    ensures DecodeEntries(o, k) == Value(texts)
  {
    if k in o {
      forall i | 0 <= i < |texts| ensures DecodeEntry(o[k].items[i]) == Value(texts[i]) {
        assert EntryForm(o[k].items[i], token, texts[i]);
      }
      AllIs(o[k].items, DecodeEntry, texts);
    }
  }

  /** Every wire form of an item is read as the item, without annotations. */
  lemma DecodesForm(j: Json, it: Item)
    requires WellFormed(it) && !it.Other? && Form(j, it)
    ensures Decode(j) == Value(Erase(it))
  {
    var o := j.fields;
    match it
    case Message(_, _, content, _) =>
      if content.Some? && content.value.Parts? { DecodesParts(o[ContentKey].items, content.value.parts); }
    case Reasoning(_, summary, thoughts, _) =>
      DecodesEntries(o, SummaryKey, SUMMARY_TEXT, summary);
      DecodesEntries(o, ContentKey, REASONING_TEXT, thoughts);
    case _ =>
  }

  /** Whatever the decoder returns, it could have been sent: well formed and free of annotations. */
  lemma DecodesToWellFormed(j: Json)
    requires Decode(j).Value?
    ensures var it := Decode(j).value; WellFormed(it) && !it.Other? && Erase(it) == it
  {
    var it := Decode(j).value;
    if it.Message? && it.content.Some? && it.content.value.Parts? {
      var items, ps := ReadFields(j).value[ContentKey].items, it.content.value.parts;
      AllIs(items, DecodePart, ps);
      assert EraseParts(ps) == ps;
    }
  }
}
