/** The items of the Responses dialect and the wire form three independent codecs have to agree on. */
module ResponseItems {
  import opened Common

  // ---- JSON -------------------------------------------------------------------------------------

  /** The field names the codecs know, and every other name. */
  datatype Key =
    | TypeKey | IdKey | RoleKey | ContentKey | StatusKey | CallIdKey | NameKey | ArgumentsKey | OutputKey
    | SummaryKey | EncryptedKey | SignatureKey | TextKey | ImageUrlKey | DetailKey | AnnotationsKey
    | OtherKey(name: string)

  type Fields = map<Key, Json>

  /** Parsed JSON; a number is kept as its text. */
  datatype Json =
    | Null | Bool(b: bool) | Num(text: string) | Str(s: string) | Arr(items: seq<Json>) | Obj(fields: Fields)

  /** Set a field when there is a value for it. */
  function Put(o: Fields, k: Key, v: Option<string>): Fields {
    if v.Some? then o[k := Str(v.value)] else o
  }

  /** What reading a value comes to: the value, an error, or a value silently skipped. */
  datatype Read<+T> = Value(value: T) | Malformed | Dropped {
    predicate IsFailure() { !Value? }

    function PropagateFailure<U>(): Read<U>
      requires IsFailure()
    {
      if Malformed? then Malformed else Dropped
    }

    function Extract(): T
      requires !IsFailure()
    {
      value
    }
  }

  // ---- Items ------------------------------------------------------------------------------------

  datatype Part =
    | InputText(text: string)
    | InputImage(imageUrl: string, detail: Option<string>)
    | OutputText(text: string, annotations: seq<Json>)

  datatype Content = Text(text: string) | Parts(parts: seq<Part>)

  /** A response item. An absent list and an empty one are the same item; only the Rust client has `Other`. */
  datatype Item =
    | Message(id: Option<string>, role: string, content: Option<Content>, status: Option<string>)
    | FunctionCall(id: Option<string>, callId: string, name: string, arguments: string, status: Option<string>)
    | FunctionCallOutput(id: Option<string>, callId: string, output: string)
    | Reasoning(id: Option<string>, summary: seq<string>, thoughts: seq<string>, encrypted: Option<string>)
    | Compaction(kind: string, id: Option<string>, state: Option<string>, encrypted: Option<string>,
                 signature: Option<string>)
    | Other(value: Json)

  const MESSAGE := "message"
  const FUNCTION_CALL := "function_call"
  const FUNCTION_CALL_OUTPUT := "function_call_output"
  const REASONING := "reasoning"
  const COMPACTION := "compaction"
  const INPUT_TEXT := "input_text"
  const INPUT_IMAGE := "input_image"
  const OUTPUT_TEXT := "output_text"
  const SUMMARY_TEXT := "summary_text"
  const REASONING_TEXT := "reasoning_text"

  predicate Modelled(token: string) {
    || token == MESSAGE || token == FUNCTION_CALL || token == FUNCTION_CALL_OUTPUT
    || token == REASONING || token == COMPACTION
  }

  /** An object whose type token no client models. */
  predicate Unmodelled(j: Json) {
    j.Obj? && TypeKey in j.fields && j.fields[TypeKey].Str? && !Modelled(j.fields[TypeKey].s)
  }

  predicate WellFormed(it: Item) {
    && (it.Compaction? ==> it.kind == COMPACTION)
    && (it.Other? ==> Unmodelled(it.value))
  }

  // ---- Annotations ------------------------------------------------------------------------------

  function ErasePart(p: Part): Part {
    if p.OutputText? then OutputText(p.text, []) else p
  }

  function EraseParts(ps: seq<Part>): seq<Part> { seq(|ps|, i requires 0 <= i < |ps| => ErasePart(ps[i])) }

  /** The item without the annotations of its output texts, which only the Rust client keeps. */
  function Erase(it: Item): Item {
    if it.Message? && it.content.Some? && it.content.value.Parts?
    then it.(content := Some(Parts(EraseParts(it.content.value.parts))))
    else it
  }

  // ---- The wire form ----------------------------------------------------------------------------

  predicate Has(o: Fields, k: Key, s: string) { k in o && o[k] == Str(s) }

  predicate MayHave(o: Fields, k: Key, s: Option<string>) { if s.Some? then Has(o, k, s.value) else k !in o }

  predicate PartForm(j: Json, p: Part) {
    && j.Obj?
    && match p
       case InputText(t) =>
         j.fields.Keys == {TypeKey, TextKey} && Has(j.fields, TypeKey, INPUT_TEXT) && Has(j.fields, TextKey, t)
       case InputImage(url, detail) =>
         && j.fields.Keys <= {TypeKey, ImageUrlKey, DetailKey} && Has(j.fields, TypeKey, INPUT_IMAGE)
         && Has(j.fields, ImageUrlKey, url) && MayHave(j.fields, DetailKey, detail)
       case OutputText(t, annotations) =>
         && j.fields.Keys == {TypeKey, TextKey, AnnotationsKey} && Has(j.fields, TypeKey, OUTPUT_TEXT)
         && Has(j.fields, TextKey, t) && j.fields[AnnotationsKey] == Arr(annotations)
  }

  predicate ContentForm(j: Json, c: Content) {
    match c
    case Text(t) => j == Str(t)
    case Parts(ps) => j.Arr? && |j.items| == |ps| && forall i :: 0 <= i < |ps| ==> PartForm(j.items[i], ps[i])
  }

  predicate EntryForm(j: Json, token: string, t: string) {
    j.Obj? && Has(j.fields, TypeKey, token) && Has(j.fields, TextKey, t)
  }

  /** A list of reasoning texts; the list decides the token, and an empty list may be left out. */
  predicate EntriesForm(o: Fields, k: Key, token: string, texts: seq<string>) {
    if k !in o then texts == []
    else
      && o[k].Arr? && |o[k].items| == |texts|
      && forall i :: 0 <= i < |texts| ==> EntryForm(o[k].items[i], token, texts[i])
  }

  /** `j` is a wire form of `it`: a message is a role-keyed object without a type token, every other item
      carries its token, optional fields are there exactly when set. */
  predicate Form(j: Json, it: Item) {
    && j.Obj?
    && var o := j.fields;
       match it
       case Message(id, role, content, status) =>
         && TypeKey !in o && MayHave(o, IdKey, id) && Has(o, RoleKey, role) && MayHave(o, StatusKey, status)
         && if content.Some? then ContentKey in o && ContentForm(o[ContentKey], content.value) else ContentKey !in o
       case FunctionCall(id, callId, name, arguments, status) =>
         && Has(o, TypeKey, FUNCTION_CALL) && MayHave(o, IdKey, id) && Has(o, CallIdKey, callId)
         && Has(o, NameKey, name) && Has(o, ArgumentsKey, arguments) && MayHave(o, StatusKey, status)
       case FunctionCallOutput(id, callId, output) =>
         && Has(o, TypeKey, FUNCTION_CALL_OUTPUT) && MayHave(o, IdKey, id)
         && Has(o, CallIdKey, callId) && Has(o, OutputKey, output)
       case Reasoning(id, summary, thoughts, encrypted) =>
         && Has(o, TypeKey, REASONING) && MayHave(o, IdKey, id) && MayHave(o, EncryptedKey, encrypted)
         && EntriesForm(o, SummaryKey, SUMMARY_TEXT, summary) && EntriesForm(o, ContentKey, REASONING_TEXT, thoughts)
       case Compaction(kind, id, state, encrypted, signature) =>
         && Has(o, TypeKey, kind) && MayHave(o, IdKey, id) && MayHave(o, ContentKey, state)
         && MayHave(o, EncryptedKey, encrypted) && MayHave(o, SignatureKey, signature)
       case Other(v) => j == v
  }

  // ---- Lists ------------------------------------------------------------------------------------

  function Entry(token: string, t: string): Json { Obj(map[TypeKey := Str(token), TextKey := Str(t)]) }

  /** One tagged entry per text. */
  function Entries(token: string, texts: seq<string>): seq<Json> {
    seq(|texts|, i requires 0 <= i < |texts| => Entry(token, texts[i]))
  }

  /** Read every value of a list; the first one that cannot be read fails the list. */
  function All<T>(items: seq<Json>, read: Json -> Read<T>): Read<seq<T>> {
    if items == [] then Value([])
    else
      var first :- read(items[0]);
      var rest :- All(items[1..], read);
      Value([first] + rest)
  }

  /** `All` succeeds exactly when every value can be read, with the values in order. */
  lemma {:induction false} AllIs<T>(items: seq<Json>, read: Json -> Read<T>, values: seq<T>)
    ensures All(items, read) == Value(values)
            <==> |values| == |items| && forall i :: 0 <= i < |items| ==> read(items[i]) == Value(values[i])
  {
    if items != [] && values != [] {
      AllIs(items[1..], read, values[1..]);
      assert values == [values[0]] + values[1..];
      assert forall i :: 1 <= i < |items| ==> items[i] == items[1..][i - 1];
      assert forall i :: 1 <= i < |values| ==> values[i] == values[1..][i - 1];
    }
  }

  function One<T>(r: Read<T>): seq<T> { if r.Value? then [r.value] else [] }

  /** Read the values of a list that can be read, skipping the others. */
  function Kept<T>(items: seq<Json>, read: Json -> Read<T>): seq<T> {
    if items == [] then [] else One(read(items[0])) + Kept(items[1..], read)
  }

  lemma {:induction false} KeptIs<T>(items: seq<Json>, read: Json -> Read<T>, values: seq<T>)
    requires |values| == |items| && forall i :: 0 <= i < |items| ==> read(items[i]) == Value(values[i])
    ensures Kept(items, read) == values
  {
    if items != [] {
      KeptIs(items[1..], read, values[1..]);
    }
  }

  lemma {:induction false} KeptSnoc<T>(items: seq<Json>, x: Json, read: Json -> Read<T>)
    ensures Kept(items + [x], read) == Kept(items, read) + One(read(x))
    decreases |items|
  {
    if items == [] {
      assert items + [x] == [x] && [x][1..] == [];
    } else {
      assert (items + [x])[1..] == items[1..] + [x] && (items + [x])[0] == items[0];
      KeptSnoc(items[1..], x, read);
      Assoc(One(read(items[0])), Kept(items[1..], read), One(read(x)));
    }
  }
}
