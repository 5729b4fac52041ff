/** What the TypeScript client reads of any object of a modelled type: the item the strict Rust client reads once the
    object is repaired. */
module ItemRepair {
  import opened Common
  import opened ResponseItems
  import opened ItemReading
  import RustItems
  import TypeScriptItems

  // ---- Repairs ----------------------------------------------------------------------------------

  /** A required text that is missing or no string becomes empty. */
  function Need(o: Fields, k: Key): Fields { if k in o && o[k].Str? then o else o[k := Str("")] }

  /** An optional text that is no string goes. */
  function Allow(o: Fields, k: Key): Fields { if k in o && !o[k].Str? then o - {k} else o }

  /** A list keeps what can be repaired; anything else in its place goes. */
  function Relist(o: Fields, k: Key, repair: Json -> seq<Json>): Fields {
    if k !in o then o else if o[k].Arr? then o[k := Arr(Each(o[k].items, repair))] else o - {k}
  }

  function Each(items: seq<Json>, repair: Json -> seq<Json>): seq<Json> {
    if items == [] then [] else repair(items[0]) + Each(items[1..], repair)
  }

  /** A part of a type that is not known goes. */
  function RepairPart(j: Json): seq<Json> {
    if !KnownPart(j) then []
    else
      var o := j.fields;
      if Has(o, TypeKey, INPUT_IMAGE) then [Obj(Allow(Need(o, ImageUrlKey), DetailKey))]
      else if Has(o, TypeKey, INPUT_TEXT) then [Obj(Need(o, TextKey))]
      else [Obj(if AnnotationsKey in o && !o[AnnotationsKey].Arr? then Need(o, TextKey) - {AnnotationsKey}
                else Need(o, TextKey))]
  }

  function RepairEntry(j: Json): seq<Json> { if j.Obj? then [Obj(Need(j.fields, TextKey))] else [] }

  function RepairContent(o: Fields): Fields {
    if ContentKey in o && o[ContentKey].Str? then o else Relist(o, ContentKey, RepairPart)
  }

  /** An object of a modelled type, every field given the type it should have. */
  function Repair(o: Fields): Fields {
    var o := Allow(o, IdKey);
    if Has(o, TypeKey, FUNCTION_CALL) then Allow(Need(Need(Need(o, CallIdKey), NameKey), ArgumentsKey), StatusKey)
    else if Has(o, TypeKey, FUNCTION_CALL_OUTPUT) then Need(Need(o, CallIdKey), OutputKey)
    else if Has(o, TypeKey, REASONING) then
      Allow(Relist(Relist(o, SummaryKey, RepairEntry), ContentKey, RepairEntry), EncryptedKey)
    else if Has(o, TypeKey, COMPACTION) then Allow(Allow(Allow(o, ContentKey), EncryptedKey), SignatureKey)
    else RepairContent(Allow(Need(o, RoleKey), StatusKey))
  }

  // ---- Lists ------------------------------------------------------------------------------------

  /** The repaired values of a list are read as the values that could be read before. */
  lemma {:induction false} EachKept<T>(items: seq<Json>, repair: Json -> seq<Json>, read: Json -> Read<T>)
    requires forall j :: if read(j).Value? then |repair(j)| == 1 && read(repair(j)[0]) == read(j) else repair(j) == []
    ensures Kept(Each(items, repair), read) == Kept(items, read)
  {
    if items != [] {
      var first, rest := repair(items[0]), Each(items[1..], repair);
      EachKept(items[1..], repair, read);
      assert if read(items[0]).Value? then |first| == 1 && read(first[0]) == read(items[0]) else first == [];
      if first == [] {
        assert first + rest == rest;
      } else {
        assert (first + rest)[1..] == rest;
      }
    }
  }

  lemma {:induction false} EachTyped(items: seq<Json>, repair: Json -> seq<Json>, typed: Json -> bool)
    requires forall j :: repair(j) != [] ==> |repair(j)| == 1 && typed(repair(j)[0])
    ensures forall i :: 0 <= i < |Each(items, repair)| ==> typed(Each(items, repair)[i])
  {
    if items != [] {
      EachTyped(items[1..], repair, typed);
      var first, rest := repair(items[0]), Each(items[1..], repair);
      assert first != [] ==> |first| == 1 && typed(first[0]);
      assert forall i :: |first| <= i < |first + rest| ==> (first + rest)[i] == rest[i - |first|];
    }
  }

  lemma PartRepaired(j: Json)
    ensures var p, r := TypeScriptItems.DecodePart(j), RepairPart(j);
            if p.Value? then |r| == 1 && TypeScriptItems.DecodePart(r[0]) == p && PartTyped(r[0]) else r == []
  {
  }

  lemma EntryRepaired(j: Json)
    ensures var t, r := TypeScriptItems.DecodeEntry(j), RepairEntry(j);
            if t.Value? then |r| == 1 && TypeScriptItems.DecodeEntry(r[0]) == t && EntryTyped(r[0]) else r == []
  {
  }

  lemma EntriesRepaired(o: Fields, k: Key)
    ensures var o' := Relist(o, k, RepairEntry);
            && TypeScriptItems.DecodeEntries(o', k) == TypeScriptItems.DecodeEntries(o, k) && Listed(o', k, EntryTyped)
  {
    forall j
      ensures var t, r := TypeScriptItems.DecodeEntry(j), RepairEntry(j);
              if t.Value? then |r| == 1 && TypeScriptItems.DecodeEntry(r[0]) == t && EntryTyped(r[0]) else r == []
    {
      EntryRepaired(j);
    }
    if k in o && o[k].Arr? {
      EachKept(o[k].items, RepairEntry, TypeScriptItems.DecodeEntry);
      EachTyped(o[k].items, RepairEntry, EntryTyped);
    }
  }

  lemma ContentRepaired(o: Fields)
    ensures var o' := RepairContent(o);
            && TypeScriptItems.DecodeContent(o') == TypeScriptItems.DecodeContent(o) && ContentTyped(o')
  {
    forall j
      ensures var p, r := TypeScriptItems.DecodePart(j), RepairPart(j);
              if p.Value? then |r| == 1 && TypeScriptItems.DecodePart(r[0]) == p && PartTyped(r[0]) else r == []
    {
      PartRepaired(j);
    }
    if ContentKey in o && o[ContentKey].Arr? {
      EachKept(o[ContentKey].items, RepairPart, TypeScriptItems.DecodePart);
      EachTyped(o[ContentKey].items, RepairPart, PartTyped);
    }
  }

  // ---- Items ------------------------------------------------------------------------------------

  /** An object of a modelled type or of none. */
  predicate OfModelledType(o: Fields) { TypeKey !in o || !o[TypeKey].Str? || Modelled(o[TypeKey].s) }

  // ---- One kind of item at a time ---------------------------------------------------------------

  /** A field is the same in both objects. */
  predicate SameAt(o: Fields, o': Fields, k: Key) { (k in o <==> k in o') && (k in o ==> o[k] == o'[k]) }

  /** Field `k` is read the same, and has the type it should have. */
  ghost predicate TextFixed(o: Fields, o': Fields, k: Key) {
    TypeScriptItems.ReadText(o', k) == TypeScriptItems.ReadText(o, k) && Required(o', k)
  }

  ghost predicate OptionFixed(o: Fields, o': Fields, k: Key) {
    TypeScriptItems.ReadOption(o', k) == TypeScriptItems.ReadOption(o, k) && Textual(o', k)
  }

  lemma CallFixed(o: Fields, o': Fields)
    requires o' == Allow(Need(Need(Need(Allow(o, IdKey), CallIdKey), NameKey), ArgumentsKey), StatusKey)
    ensures SameAt(o, o', TypeKey) && OptionFixed(o, o', IdKey) && OptionFixed(o, o', StatusKey)
    ensures TextFixed(o, o', CallIdKey) && TextFixed(o, o', NameKey) && TextFixed(o, o', ArgumentsKey)
  {
  }

  lemma OutputFixed(o: Fields, o': Fields)
    requires o' == Need(Need(Allow(o, IdKey), CallIdKey), OutputKey)
    ensures SameAt(o, o', TypeKey) && OptionFixed(o, o', IdKey)
    ensures TextFixed(o, o', CallIdKey) && TextFixed(o, o', OutputKey)
  {
  }

  lemma CompactionFixed(o: Fields, o': Fields)
    requires o' == Allow(Allow(Allow(Allow(o, IdKey), ContentKey), EncryptedKey), SignatureKey)
    ensures SameAt(o, o', TypeKey) && OptionFixed(o, o', IdKey) && OptionFixed(o, o', ContentKey)
    ensures OptionFixed(o, o', EncryptedKey) && OptionFixed(o, o', SignatureKey)
  {
  }

  ghost predicate EntriesFixed(o: Fields, o': Fields, k: Key) {
    TypeScriptItems.DecodeEntries(o', k) == TypeScriptItems.DecodeEntries(o, k) && Listed(o', k, EntryTyped)
  }

  lemma EntriesSame(o: Fields, o': Fields, k: Key)
    requires SameAt(o, o', k)
    ensures TypeScriptItems.DecodeEntries(o', k) == TypeScriptItems.DecodeEntries(o, k)
    ensures Listed(o', k, EntryTyped) == Listed(o, k, EntryTyped)
  {
  }

  lemma RelistFrame(o: Fields, k: Key, l: Key)
    requires l != k
    ensures SameAt(o, Relist(o, k, RepairEntry), l)
  {
  }

  lemma AllowFrame(o: Fields, k: Key, l: Key)
    requires l != k
    ensures SameAt(o, Allow(o, k), l)
  {
  }

  lemma AllowFixes(o: Fields, o': Fields, k: Key)
    requires SameAt(o, o', k)
    ensures OptionFixed(o, Allow(o', k), k)
  {
  }

  lemma OptionSame(o: Fields, o': Fields, o'': Fields, k: Key)
    requires OptionFixed(o, o', k) && SameAt(o', o'', k)
    ensures OptionFixed(o, o'', k)
  {
  }

  lemma BothListsFixed(a: Fields, c: Fields)
    requires c == Relist(Relist(a, SummaryKey, RepairEntry), ContentKey, RepairEntry)
    ensures EntriesFixed(a, c, SummaryKey) && EntriesFixed(a, c, ContentKey)
    ensures SameAt(a, c, TypeKey) && SameAt(a, c, IdKey) && SameAt(a, c, EncryptedKey)
  {
    var b := Relist(a, SummaryKey, RepairEntry);
    EntriesRepaired(a, SummaryKey);
    EntriesRepaired(b, ContentKey);
    RelistFrame(b, ContentKey, SummaryKey);
    RelistFrame(a, SummaryKey, ContentKey);
    EntriesSame(b, c, SummaryKey);
    EntriesSame(a, b, ContentKey);
  }

  lemma ReasoningFixed(o: Fields, o': Fields)
    requires o' == Allow(Relist(Relist(Allow(o, IdKey), SummaryKey, RepairEntry), ContentKey, RepairEntry),
                         EncryptedKey)
    ensures SameAt(o, o', TypeKey) && OptionFixed(o, o', IdKey) && OptionFixed(o, o', EncryptedKey)
    ensures EntriesFixed(o, o', SummaryKey) && EntriesFixed(o, o', ContentKey)
  {
    var a := Allow(o, IdKey);
    var c := Relist(Relist(a, SummaryKey, RepairEntry), ContentKey, RepairEntry);
    BothListsFixed(a, c);
    AllowFixes(o, o, IdKey);
    OptionSame(o, a, c, IdKey);
    AllowFrame(c, EncryptedKey, IdKey);
    OptionSame(o, c, o', IdKey);
    AllowFrame(o, IdKey, EncryptedKey);
    AllowFixes(o, c, EncryptedKey);
    forall k | k in {SummaryKey, ContentKey} ensures EntriesFixed(o, o', k) {
      AllowFrame(o, IdKey, k);
      AllowFrame(c, EncryptedKey, k);
      EntriesSame(o, a, k);
      EntriesSame(c, o', k);
    }
    AllowFrame(o, IdKey, TypeKey);
    AllowFrame(c, EncryptedKey, TypeKey);
  }

  lemma ContentSame(o: Fields, o': Fields)
    requires SameAt(o, o', ContentKey)
    ensures TypeScriptItems.DecodeContent(o') == TypeScriptItems.DecodeContent(o)
  {
  }

  lemma MessageFixed(o: Fields, o': Fields)
    requires o' == RepairContent(Allow(Need(Allow(o, IdKey), RoleKey), StatusKey))
    ensures SameAt(o, o', TypeKey) && OptionFixed(o, o', IdKey) && OptionFixed(o, o', StatusKey)
    ensures TextFixed(o, o', RoleKey)
    ensures TypeScriptItems.DecodeContent(o') == TypeScriptItems.DecodeContent(o) && ContentTyped(o')
  {
    var a := Allow(Need(Allow(o, IdKey), RoleKey), StatusKey);
    ContentRepaired(a);
    ContentSame(o, a);
  }

  /** What TypeScript makes of an object, kind by kind. */
  lemma ReadsCall(o: Fields)
    requires Has(o, TypeKey, FUNCTION_CALL)
    ensures TypeScriptItems.Decode(Obj(o))
            == Value(FunctionCall(TypeScriptItems.ReadOption(o, IdKey), TypeScriptItems.ReadText(o, CallIdKey),
                                  TypeScriptItems.ReadText(o, NameKey), TypeScriptItems.ReadText(o, ArgumentsKey),
                                  TypeScriptItems.ReadOption(o, StatusKey)))
    ensures (Textual(o, IdKey) && Required(o, CallIdKey) && Required(o, NameKey) && Required(o, ArgumentsKey)
             && Textual(o, StatusKey))
            ==> Typed(Obj(o))
  {
  }

  lemma ReadsOutput(o: Fields)
    requires Has(o, TypeKey, FUNCTION_CALL_OUTPUT)
    ensures TypeScriptItems.Decode(Obj(o))
            == Value(FunctionCallOutput(TypeScriptItems.ReadOption(o, IdKey), TypeScriptItems.ReadText(o, CallIdKey),
                                        TypeScriptItems.ReadText(o, OutputKey)))
    ensures Textual(o, IdKey) && Required(o, CallIdKey) && Required(o, OutputKey) ==> Typed(Obj(o))
  {
  }

  lemma ReadsCompaction(o: Fields)
    requires Has(o, TypeKey, COMPACTION)
    ensures TypeScriptItems.Decode(Obj(o))
            == Value(Compaction(COMPACTION, TypeScriptItems.ReadOption(o, IdKey),
                                TypeScriptItems.ReadOption(o, ContentKey),
                                TypeScriptItems.ReadOption(o, EncryptedKey),
                                TypeScriptItems.ReadOption(o, SignatureKey)))
    ensures Textual(o, IdKey) && Textual(o, ContentKey) && Textual(o, EncryptedKey) && Textual(o, SignatureKey) ==>
              Typed(Obj(o))
  {
  }

  lemma ReadsReasoning(o: Fields)
    requires Has(o, TypeKey, REASONING)
    ensures TypeScriptItems.Decode(Obj(o))
            == Value(Reasoning(TypeScriptItems.ReadOption(o, IdKey), TypeScriptItems.DecodeEntries(o, SummaryKey),
                               TypeScriptItems.DecodeEntries(o, ContentKey),
                               TypeScriptItems.ReadOption(o, EncryptedKey)))
    ensures (Textual(o, IdKey) && Listed(o, SummaryKey, EntryTyped) && Listed(o, ContentKey, EntryTyped)
             && Textual(o, EncryptedKey))
            ==> Typed(Obj(o))
  {
  }

  predicate IsMessage(o: Fields) { TypeKey !in o || !o[TypeKey].Str? || o[TypeKey].s == MESSAGE }

  lemma ReadsMessage(o: Fields)
    requires IsMessage(o)
    ensures TypeScriptItems.Decode(Obj(o))
            == Value(Message(TypeScriptItems.ReadOption(o, IdKey), TypeScriptItems.ReadText(o, RoleKey),
                             TypeScriptItems.DecodeContent(o), TypeScriptItems.ReadOption(o, StatusKey)))
    ensures Textual(o, IdKey) && Required(o, RoleKey) && Textual(o, StatusKey) && ContentTyped(o) ==> Typed(Obj(o))
  {
  }

  /** Repairing keeps what is read and makes the object one the strict client takes. */
  ghost predicate Repaired(o: Fields, o': Fields) {
    Typed(Obj(o')) && TypeScriptItems.Decode(Obj(o')) == TypeScriptItems.Decode(Obj(o))
  }

  lemma TypeStays(o: Fields)
    ensures SameAt(o, Allow(o, IdKey), TypeKey)
  {
  }

  lemma CallRepaired(o: Fields)
    requires Has(o, TypeKey, FUNCTION_CALL)
    ensures Repaired(o, Repair(o))
  {
    TypeStays(o);
    CallFixed(o, Repair(o));
    ReadsCall(o);
    ReadsCall(Repair(o));
  }

  lemma OutputRepaired(o: Fields)
    requires Has(o, TypeKey, FUNCTION_CALL_OUTPUT)
    ensures Repaired(o, Repair(o))
  {
    TypeStays(o);
    OutputFixed(o, Repair(o));
    ReadsOutput(o);
    ReadsOutput(Repair(o));
  }

  lemma CompactionRepaired(o: Fields)
    requires Has(o, TypeKey, COMPACTION)
    ensures Repaired(o, Repair(o))
  {
    TypeStays(o);
    CompactionFixed(o, Repair(o));
    ReadsCompaction(o);
    ReadsCompaction(Repair(o));
  }

  lemma ReasoningRepaired(o: Fields)
    requires Has(o, TypeKey, REASONING)
    ensures Repaired(o, Repair(o))
  {
    TypeStays(o);
    ReasoningFixed(o, Repair(o));
    ReadsReasoning(o);
    ReadsReasoning(Repair(o));
  }

  lemma MessageRepaired(o: Fields)
    requires IsMessage(o)
    ensures Repaired(o, Repair(o))
  {
    TypeStays(o);
    MessageFixed(o, Repair(o));
    ReadsMessage(o);
    ReadsMessage(Repair(o));
  }

  /** Every object of a modelled type, or of none, reads in TypeScript as the item that Rust reads of the repaired
      object, annotations aside. */
  lemma TypeScriptReadsRepaired(o: Fields)
    requires OfModelledType(o)
    ensures RustItems.Decode(Obj(Repair(o))).Value?
    ensures TypeScriptItems.Decode(Obj(o)) == Value(Erase(RustItems.Decode(Obj(Repair(o))).value))
  {
    if IsMessage(o) {
      MessageRepaired(o);
    } else if Has(o, TypeKey, FUNCTION_CALL) {
      CallRepaired(o);
    } else if Has(o, TypeKey, FUNCTION_CALL_OUTPUT) {
      OutputRepaired(o);
    } else if Has(o, TypeKey, REASONING) {
      ReasoningRepaired(o);
    } else {
      CompactionRepaired(o);
    }
    ReadsExactly(Obj(Repair(o)));
    StrictThenLenient(Obj(Repair(o)));
  }
}
