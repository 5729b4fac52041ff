/** Reading response items from any JSON, whoever wrote it: when the strict decoder accepts an item, and when all
    three clients read the same one. */
module ItemReading {
  import opened Common
  import opened ResponseItems
  import GoItems
  import RustItems
  import TypeScriptItems

  // ---- What each client asks of a field -----------------------------------------------------------

  /** A field the Rust client requires. */
  predicate Required(o: Fields, k: Key) { k in o && o[k].Str? }

  /** A field that may be absent or null, but has no other type than a string. */
  predicate Textual(o: Fields, k: Key) { k !in o || o[k].Null? || o[k].Str? }

  predicate Listed(o: Fields, k: Key, typed: Json -> bool) {
    k !in o || (o[k].Arr? && forall i :: 0 <= i < |o[k].items| ==> typed(o[k].items[i]))
  }

  /** A content part the Rust client can read. */
  predicate PartTyped(j: Json) {
    && j.Obj? && Required(j.fields, TypeKey)
    && var o, token := j.fields, j.fields[TypeKey].s;
       || (token == INPUT_TEXT && Required(o, TextKey))
       || (token == INPUT_IMAGE && Required(o, ImageUrlKey) && Textual(o, DetailKey))
       || (token == OUTPUT_TEXT && Required(o, TextKey) && (AnnotationsKey in o ==> o[AnnotationsKey].Arr?))
  }

  predicate EntryTyped(j: Json) { j.Obj? && Required(j.fields, TextKey) }

  predicate ContentTyped(o: Fields) { Textual(o, ContentKey) || Listed(o, ContentKey, PartTyped) }

  /** An object of a modelled type with every field the strict decoder needs. */
  predicate Typed(j: Json) {
    && j.Obj?
    && var o := j.fields;
       var token := RustItems.Token(o);
       && Textual(o, IdKey)
       && if token.None? || token.value == MESSAGE then
            Required(o, RoleKey) && Textual(o, StatusKey) && ContentTyped(o)
          else if token.value == FUNCTION_CALL then
            Required(o, CallIdKey) && Required(o, NameKey) && Required(o, ArgumentsKey) && Textual(o, StatusKey)
          else if token.value == FUNCTION_CALL_OUTPUT then
            Required(o, CallIdKey) && Required(o, OutputKey)
          else if token.value == REASONING then
            Listed(o, SummaryKey, EntryTyped) && Listed(o, ContentKey, EntryTyped) && Textual(o, EncryptedKey)
          else
            && token.value == COMPACTION
            && Textual(o, ContentKey) && Textual(o, EncryptedKey) && Textual(o, SignatureKey)
  }

  /** A part none of whose text fields has a type the Go client fails on, whether the part uses it or not. */
  predicate PartPlain(j: Json) {
    j.Obj? && Textual(j.fields, TextKey) && Textual(j.fields, ImageUrlKey) && Textual(j.fields, DetailKey)
  }

  predicate EntryPlain(j: Json) { j.Obj? && Textual(j.fields, TypeKey) }

  /** An object with nothing in it that the Go client fails on and the Rust client does not look at. */
  predicate Plain(j: Json) {
    && j.Obj?
    && var o := j.fields;
       var token := RustItems.Token(o);
       && Textual(o, TypeKey)
       && (token.None? || token.value == MESSAGE ==> Textual(o, ContentKey) || Listed(o, ContentKey, PartPlain))
       && (token == Some(REASONING) ==> Listed(o, SummaryKey, EntryPlain) && Listed(o, ContentKey, EntryPlain))
  }

  // ---- Lists ------------------------------------------------------------------------------------

  /** A list is read exactly when all of its values are. */
  lemma {:induction false} AllReads<T>(items: seq<Json>, read: Json -> Read<T>)
    ensures All(items, read).Value? <==> forall i :: 0 <= i < |items| ==> read(items[i]).Value?
    ensures All(items, read).Value? ==> |All(items, read).value| == |items|
  {
    if items != [] {
      AllReads(items[1..], read);
      assert forall i :: 1 <= i < |items| ==> items[i] == items[1..][i - 1];
    }
  }

  // ---- Parts and entries --------------------------------------------------------------------------

  lemma ReadsPart(j: Json)
    ensures RustItems.DecodePart(j).Value? <==> PartTyped(j)
  {
  }

  lemma SamePart(j: Json)
    requires RustItems.DecodePart(j).Value?
    ensures var p := ErasePart(RustItems.DecodePart(j).value);
            && TypeScriptItems.DecodePart(j) == Value(p)
            && (GoItems.DecodePart(j).Value? <==> PartPlain(j))
            && (GoItems.DecodePart(j).Value? ==> GoItems.DecodePart(j) == Value(p))
  {
  }

  lemma SameParts(items: seq<Json>)
    requires All(items, RustItems.DecodePart).Value?
    ensures var ps := EraseParts(All(items, RustItems.DecodePart).value);
            && Kept(items, TypeScriptItems.DecodePart) == ps
            && (All(items, GoItems.DecodePart).Value? <==> forall i :: 0 <= i < |items| ==> PartPlain(items[i]))
            && (All(items, GoItems.DecodePart).Value? ==> All(items, GoItems.DecodePart) == Value(ps))
  {
    var ps := All(items, RustItems.DecodePart).value;
    AllIs(items, RustItems.DecodePart, ps);
    forall i | 0 <= i < |items|
      ensures TypeScriptItems.DecodePart(items[i]) == Value(EraseParts(ps)[i])
      ensures GoItems.DecodePart(items[i]).Value? <==> PartPlain(items[i])
      ensures GoItems.DecodePart(items[i]).Value? ==> GoItems.DecodePart(items[i]) == Value(EraseParts(ps)[i])
    {
      SamePart(items[i]);
    }
    KeptIs(items, TypeScriptItems.DecodePart, EraseParts(ps));
    AllReads(items, GoItems.DecodePart);
    AllIs(items, GoItems.DecodePart, EraseParts(ps));
  }

  lemma SameEntry(j: Json)
    requires RustItems.DecodeEntry(j).Value?
    ensures TypeScriptItems.DecodeEntry(j) == RustItems.DecodeEntry(j)
    ensures GoItems.DecodeEntry(j).Value? <==> EntryPlain(j)
    ensures GoItems.DecodeEntry(j).Value? ==> GoItems.DecodeEntry(j) == RustItems.DecodeEntry(j)
  {
  }

  /** A list of reasoning texts. */
  lemma SameEntries(o: Fields, k: Key)
    requires RustItems.DecodeEntries(o, k).Value?
    ensures var texts := RustItems.DecodeEntries(o, k).value;
            && TypeScriptItems.DecodeEntries(o, k) == texts
            && (GoItems.DecodeEntries(o, k).Value? <==> Listed(o, k, EntryPlain))
            && (GoItems.DecodeEntries(o, k).Value? ==> GoItems.DecodeEntries(o, k) == Value(texts))
  {
    if k in o {
      var items, texts := o[k].items, RustItems.DecodeEntries(o, k).value;
      AllIs(items, RustItems.DecodeEntry, texts);
      forall i | 0 <= i < |items|
        ensures TypeScriptItems.DecodeEntry(items[i]) == Value(texts[i])
        ensures GoItems.DecodeEntry(items[i]).Value? <==> EntryPlain(items[i])
        ensures GoItems.DecodeEntry(items[i]).Value? ==> GoItems.DecodeEntry(items[i]) == Value(texts[i])
      {
        SameEntry(items[i]);
      }
      KeptIs(items, TypeScriptItems.DecodeEntry, texts);
      AllReads(items, GoItems.DecodeEntry);
      AllIs(items, GoItems.DecodeEntry, texts);
    }
  }

  lemma ReadsEntries(o: Fields, k: Key)
    ensures RustItems.DecodeEntries(o, k).Value? <==> Listed(o, k, EntryTyped)
  {
    if k in o && o[k].Arr? { AllReads(o[k].items, RustItems.DecodeEntry); }
  }

  lemma ReadsContent(o: Fields)
    ensures RustItems.DecodeContent(o).Value? <==> ContentTyped(o)
  {
    if ContentKey in o && o[ContentKey].Arr? {
      var items := o[ContentKey].items;
      AllReads(items, RustItems.DecodePart);
      forall i | 0 <= i < |items| ensures RustItems.DecodePart(items[i]).Value? <==> PartTyped(items[i]) {
        ReadsPart(items[i]);
      }
    }
  }

  // ---- Items ------------------------------------------------------------------------------------

  /** Exactly the typed objects are read by the Rust client as items of a modelled type. */
  lemma ReadsExactly(j: Json)
    ensures RustItems.Decode(j).Value? && !RustItems.Decode(j).value.Other? <==> Typed(j)
  {
    if j.Obj? {
      ReadsContent(j.fields);
      ReadsEntries(j.fields, SummaryKey);
      ReadsEntries(j.fields, ContentKey);
    }
  }

  lemma SameContent(o: Fields)
    requires RustItems.DecodeContent(o).Value?
    ensures var c := RustItems.DecodeContent(o).value;
            var erased := if c.Some? && c.value.Parts? then Some(Parts(EraseParts(c.value.parts))) else c;
            && TypeScriptItems.DecodeContent(o) == erased
            && (GoItems.DecodeContent(o).Value? <==> Textual(o, ContentKey) || Listed(o, ContentKey, PartPlain))
            && (GoItems.DecodeContent(o).Value? ==> GoItems.DecodeContent(o) == Value(erased))
  {
    if ContentKey in o && o[ContentKey].Arr? { SameParts(o[ContentKey].items); }
  }

  lemma SameMessage(o: Fields)
    requires RustItems.DecodeMessage(o).Value?
    ensures var it := Erase(RustItems.DecodeMessage(o).value);
            && it == Message(TypeScriptItems.ReadOption(o, IdKey), TypeScriptItems.ReadText(o, RoleKey),
                             TypeScriptItems.DecodeContent(o), TypeScriptItems.ReadOption(o, StatusKey))
            && (GoItems.DecodeMessage(o).Value? <==> Textual(o, ContentKey) || Listed(o, ContentKey, PartPlain))
            && (GoItems.DecodeMessage(o).Value? ==> GoItems.DecodeMessage(o) == Value(it))
  {
    SameContent(o);
  }

  lemma SameReasoning(o: Fields)
    requires RustItems.DecodeReasoning(o).Value?
    ensures var it := RustItems.DecodeReasoning(o).value;
            && it
               == Reasoning(TypeScriptItems.ReadOption(o, IdKey), TypeScriptItems.DecodeEntries(o, SummaryKey),
                            TypeScriptItems.DecodeEntries(o, ContentKey), TypeScriptItems.ReadOption(o, EncryptedKey))
            && (GoItems.DecodeReasoning(o).Value?
                <==> Listed(o, SummaryKey, EntryPlain) && Listed(o, ContentKey, EntryPlain))
            && (GoItems.DecodeReasoning(o).Value? ==> GoItems.DecodeReasoning(o) == Value(it))
  {
    SameEntries(o, SummaryKey);
    SameEntries(o, ContentKey);
  }

  /** Whatever JSON the strict decoder reads as an item of a modelled type: TypeScript reads the same item up to
      annotations; Go reads it too if and only if nothing else in the object has a type it fails on. */
  lemma StrictThenLenient(j: Json)
    requires RustItems.Decode(j).Value? && !RustItems.Decode(j).value.Other?
    ensures var it := Erase(RustItems.Decode(j).value);
            && TypeScriptItems.Decode(j) == Value(it)
            && (GoItems.Decode(j).Value? <==> Plain(j))
            && (GoItems.Decode(j).Value? ==> GoItems.Decode(j) == Value(it))
  {
    var o := j.fields;
    var token := RustItems.Token(o);
    if token.None? || token.value == MESSAGE {
      SameMessage(o);
    } else if token.value == REASONING {
      SameReasoning(o);
    }
  }

  /** All three clients read an object as one item, up to annotations, if and only if it is typed for the strict
      decoder and plain for Go. */
  lemma AllReadAlike(j: Json)
    ensures RustItems.Decode(j).Value? && GoItems.Decode(j).Value?
            && TypeScriptItems.Decode(j) == GoItems.Decode(j) == Value(Erase(RustItems.Decode(j).value))
            <==> Typed(j) && Plain(j)
  {
    ReadsExactly(j);
    if Typed(j) {
      StrictThenLenient(j);
    } else if RustItems.Decode(j).Value? {
      RustItems.KeepsUnmodelled(j);
      assert TypeScriptItems.Decode(j) == Dropped;
    }
  }

  /** A call without its fields: an error in Rust, a call with empty fields in Go and TypeScript. */
  lemma EmptyCallDiffers()
    ensures var j := Obj(map[TypeKey := Str(FUNCTION_CALL)]);
            && RustItems.Decode(j) == Malformed
            && GoItems.Decode(j) == TypeScriptItems.Decode(j) == Value(FunctionCall(None, "", "", "", None))
  {
  }

  // ---- The lenient decoders ----------------------------------------------------------------------

  /** A part the Go client can read: any object, or null. */
  predicate GoPart(j: Json) {
    j.Null? || (j.Obj? && Textual(j.fields, TypeKey) && Textual(j.fields, TextKey)
                && Textual(j.fields, ImageUrlKey) && Textual(j.fields, DetailKey))
  }

  predicate GoEntry(j: Json) { j.Null? || (j.Obj? && Textual(j.fields, TypeKey) && Textual(j.fields, TextKey)) }

  predicate GoEntries(o: Fields, k: Key) { Listed(o, k, GoEntry) || (k in o && o[k].Null?) }

  /** An object in which no field has a type the Go client fails on. */
  predicate GoTyped(o: Fields) {
    && Textual(o, TypeKey) && Textual(o, IdKey)
    && if Has(o, TypeKey, FUNCTION_CALL) then
         Textual(o, CallIdKey) && Textual(o, NameKey) && Textual(o, ArgumentsKey) && Textual(o, StatusKey)
       else if Has(o, TypeKey, FUNCTION_CALL_OUTPUT) then Textual(o, CallIdKey) && Textual(o, OutputKey)
       else if Has(o, TypeKey, REASONING) then
         GoEntries(o, SummaryKey) && GoEntries(o, ContentKey) && Textual(o, EncryptedKey)
       else if Has(o, TypeKey, COMPACTION) then
         Textual(o, ContentKey) && Textual(o, EncryptedKey) && Textual(o, SignatureKey)
       else
         && Textual(o, RoleKey) && Textual(o, StatusKey)
         && (ContentKey in o && o[ContentKey].Arr? ==> Listed(o, ContentKey, GoPart))
  }

  lemma GoReadsPart(j: Json)
    ensures GoItems.DecodePart(j).Value? <==> GoPart(j)
  {
  }

  lemma GoReadsContent(o: Fields)
    ensures GoItems.DecodeContent(o).Value?
            <==> (ContentKey in o && o[ContentKey].Arr? ==> Listed(o, ContentKey, GoPart))
  {
    if ContentKey in o && o[ContentKey].Arr? {
      var items := o[ContentKey].items;
      AllReads(items, GoItems.DecodePart);
      forall i | 0 <= i < |items| ensures GoItems.DecodePart(items[i]).Value? <==> GoPart(items[i]) {
        GoReadsPart(items[i]);
      }
    }
  }

  lemma GoReadsEntries(o: Fields, k: Key)
    ensures GoItems.DecodeEntries(o, k).Value? <==> GoEntries(o, k)
  {
    if k in o && o[k].Arr? { AllReads(o[k].items, GoItems.DecodeEntry); }
  }

  /** The Go client fails exactly where a field it looks at has another type; a missing or null one never fails. */
  lemma GoReadsExactly(j: Json)
    ensures GoItems.Decode(j).Value? <==> j.Null? || (j.Obj? && GoTyped(j.fields))
  {
    if j.Obj? {
      GoReadsContent(j.fields);
      GoReadsEntries(j.fields, SummaryKey);
      GoReadsEntries(j.fields, ContentKey);
    }
  }

  /** A part of a type the clients know. */
  predicate KnownPart(j: Json) {
    j.Obj? && (Has(j.fields, TypeKey, INPUT_TEXT) || Has(j.fields, TypeKey, INPUT_IMAGE)
               || Has(j.fields, TypeKey, OUTPUT_TEXT))
  }

  predicate IsObject(j: Json) { j.Obj? }

  /** An object of a modelled type or of none, its parts of known types and its reasoning entries objects. */
  predicate Regular(o: Fields) {
    && (TypeKey !in o || !o[TypeKey].Str? || Modelled(o[TypeKey].s))
    && (ContentKey in o && o[ContentKey].Arr? ==> 
          Listed(o, ContentKey, if Has(o, TypeKey, REASONING) then IsObject else KnownPart))
    && (SummaryKey in o && o[SummaryKey].Arr? ==> Listed(o, SummaryKey, IsObject))
  }

  lemma LenientPart(j: Json)
    requires KnownPart(j) && GoItems.DecodePart(j).Value?
    ensures TypeScriptItems.DecodePart(j) == GoItems.DecodePart(j)
  {
  }

  lemma LenientContent(o: Fields)
    requires ContentKey in o && o[ContentKey].Arr? ==> Listed(o, ContentKey, KnownPart)
    requires GoItems.DecodeContent(o).Value?
    ensures GoItems.DecodeContent(o) == Value(TypeScriptItems.DecodeContent(o))
  {
    if ContentKey in o && o[ContentKey].Arr? {
      var items := o[ContentKey].items;
      var parts := All(items, GoItems.DecodePart).value;
      AllIs(items, GoItems.DecodePart, parts);
      forall i | 0 <= i < |items| ensures TypeScriptItems.DecodePart(items[i]) == Value(parts[i]) {
        LenientPart(items[i]);
      }
      KeptIs(items, TypeScriptItems.DecodePart, parts);
    }
  }

  lemma LenientEntries(o: Fields, k: Key)
    requires k in o && o[k].Arr? ==> Listed(o, k, IsObject)
    requires GoItems.DecodeEntries(o, k).Value?
    ensures GoItems.DecodeEntries(o, k) == Value(TypeScriptItems.DecodeEntries(o, k))
  {
    if k in o && o[k].Arr? {
      var items := o[k].items;
      var texts := All(items, GoItems.DecodeEntry).value;
      AllIs(items, GoItems.DecodeEntry, texts);
      forall i | 0 <= i < |items| ensures TypeScriptItems.DecodeEntry(items[i]) == Value(texts[i]) {
        assert IsObject(items[i]);
      }
      KeptIs(items, TypeScriptItems.DecodeEntry, texts);
    }
  }

  /** Where the Go client reads a regular object at all, it reads what the TypeScript client reads, missing fields
      and nulls included. */
  lemma LenientAlike(o: Fields)
    requires Regular(o) && GoItems.Decode(Obj(o)).Value?
    ensures GoItems.Decode(Obj(o)) == TypeScriptItems.Decode(Obj(o))
  {
    if Has(o, TypeKey, REASONING) {
      LenientEntries(o, SummaryKey);
      LenientEntries(o, ContentKey);
    } else if TypeKey !in o || o[TypeKey].Null? || Has(o, TypeKey, MESSAGE) {
      LenientContent(o);
    }
  }
}
