/** The three response item codecs together: what one client writes, any other reads back as the same items. */
module ItemAgreement {
  import opened Common
  import opened ResponseItems
  import GoItems
  import RustItems
  import TypeScriptItems

  datatype Client = Go | Rust | TypeScript

  /** The items a client has a type for: only the Rust client keeps items of types it does not know. */
  predicate Sendable(c: Client, it: Item) { WellFormed(it) && (c == Rust || !it.Other?) }

  function Encode(c: Client, it: Item): Json
    requires Sendable(c, it)
  {
    match c
    case Go => GoItems.Encode(it)
    case Rust => RustItems.Encode(it)
    case TypeScript => TypeScriptItems.Encode(it)
  }

  function Decode(c: Client, j: Json): Read<Item> {
    match c
    case Go => GoItems.Decode(j)
    case Rust => RustItems.Decode(j)
    case TypeScript => TypeScriptItems.Decode(j)
  }

  function EncodeAll(c: Client, its: seq<Item>): seq<Json>
    requires forall i :: 0 <= i < |its| ==> Sendable(c, its[i])
  {
    seq(|its|, i requires 0 <= i < |its| => Encode(c, its[i]))
  }

  function DecodeOutput(c: Client, field: Option<Json>): Read<seq<Item>> {
    match c
    case Go => GoItems.DecodeOutput(field)
    case Rust => RustItems.DecodeOutput(field)
    case TypeScript => TypeScriptItems.DecodeOutput(field)
  }

  /** What is left of an item on its way from one client to another: annotations only travel from Rust to Rust. */
  function Carried(from: Client, to: Client, it: Item): Item {
    if from == Rust && to == Rust then it else Erase(it)
  }

  lemma EraseTwice(it: Item)
    ensures Erase(Erase(it)) == Erase(it)
    ensures WellFormed(it) ==> WellFormed(Erase(it))
  {
    if it.Message? && it.content.Some? && it.content.value.Parts? {
      var ps := it.content.value.parts;
      assert EraseParts(EraseParts(ps)) == EraseParts(ps);
    }
  }

  lemma EncodesForm(c: Client, it: Item)
    requires Sendable(c, it)
    ensures Form(Encode(c, it), if c == Rust then it else Erase(it))
  {
    match c
    case Go => GoItems.EncodesForm(it);
    case Rust => RustItems.EncodesForm(it);
    case TypeScript => TypeScriptItems.EncodesForm(it);
  }

  lemma DecodesForm(c: Client, j: Json, it: Item)
    requires Sendable(c, it) && Form(j, it)
    ensures Decode(c, j) == Value(if c == Rust then it else Erase(it))
  {
    match c
    case Go => GoItems.DecodesForm(j, it);
    case Rust => RustItems.DecodesForm(j, it);
    case TypeScript => TypeScriptItems.DecodesForm(j, it);
  }

  /** For every two clients and every item both can hold: one reads what the other wrote as the same item. */
  lemma Agreement(from: Client, to: Client, it: Item)
    requires Sendable(from, it) && Sendable(to, it)
    ensures Decode(to, Encode(from, it)) == Value(Carried(from, to, it))
  {
    EraseTwice(it);
    EncodesForm(from, it);
    DecodesForm(to, Encode(from, it), if from == Rust then it else Erase(it));
  }

  /** The same for a whole list: nothing is lost, added or reordered. */
  lemma ListAgreement(from: Client, to: Client, its: seq<Item>)
    requires forall i :: 0 <= i < |its| ==> Sendable(from, its[i]) && Sendable(to, its[i])
    ensures DecodeOutput(to, Some(Arr(EncodeAll(from, its))))
            == Value(seq(|its|, i requires 0 <= i < |its| => Carried(from, to, its[i])))
  {
    var items, carried := EncodeAll(from, its), seq(|its|, i requires 0 <= i < |its| => Carried(from, to, its[i]));
    forall i | 0 <= i < |its| ensures Decode(to, items[i]) == Value(carried[i]) {
      Agreement(from, to, its[i]);
    }
    match to
    case Go => AllIs(items, GoItems.Decode, carried);
    case Rust => AllIs(items, RustItems.Decode, carried);
    case TypeScript => KeptIs(items, TypeScriptItems.Decode, carried);
  }

  /** Replay: whatever JSON a client read an item from, writing the item and reading it again gives that item,
      in the same client exactly, in any other that has a type for it up to annotations. */
  lemma Replay(c: Client, other: Client, j: Json)
    requires Decode(c, j).Value?
    ensures var it := Decode(c, j).value;
            && Sendable(c, it)
            && Decode(c, Encode(c, it)) == Value(it)
            && (Sendable(other, it) ==> Decode(other, Encode(c, it)) == Value(Carried(c, other, it)))
  {
    var it := Decode(c, j).value;
    match c {
      case Go => GoItems.DecodesToWellFormed(j);
      case Rust => RustItems.DecodesToWellFormed(j);
      case TypeScript => TypeScriptItems.DecodesToWellFormed(j);
    }
    Agreement(c, c, it);
    if Sendable(other, it) { Agreement(c, other, it); }
  }

  /** Outside the items all clients model they part ways: Rust keeps an item of an unknown type, TypeScript
      skips it, Go takes it for a message if it can read it at all. */
  lemma UnmodelledItems(j: Json)
    requires Unmodelled(j)
    ensures Decode(Rust, j) == Value(Other(j)) && Decode(TypeScript, j) == Dropped
    ensures Decode(Go, j) == Malformed || (Decode(Go, j).Value? && Decode(Go, j).value.Message?)
  {
    var o := j.fields;
    assert GoItems.Decode(j) == GoItems.DecodeMessage(o);
    GoContentIsNotDropped(o);
  }

  lemma GoContentIsNotDropped(o: Fields)
    ensures !GoItems.DecodeContent(o).Dropped?
  {
    if ContentKey in o && o[ContentKey].Arr? { GoPartsAreNotDropped(o[ContentKey].items); }
  }

  lemma {:induction false} GoPartsAreNotDropped(items: seq<Json>)
    ensures !All(items, GoItems.DecodePart).Dropped?
  {
    if items != [] {
      GoPartsAreNotDropped(items[1..]);
    }
  }

  /** A part whose type token no client knows. */
  predicate UnmodelledPartToken(j: Json) {
    && j.Obj? && TypeKey in j.fields && j.fields[TypeKey].Str?
    && j.fields[TypeKey].s != INPUT_TEXT && j.fields[TypeKey].s != INPUT_IMAGE && j.fields[TypeKey].s != OUTPUT_TEXT
  }

  /** The same for the parts of a message: an unknown part fails Rust, is skipped by TypeScript and becomes
      an input text in Go if it can be read at all. */
  lemma UnmodelledPart(j: Json)
    requires UnmodelledPartToken(j)
    ensures RustItems.DecodePart(j) == Malformed && TypeScriptItems.DecodePart(j) == Dropped
    ensures GoItems.DecodePart(j) == Malformed
            || (GoItems.DecodePart(j).Value? && GoItems.DecodePart(j).value.InputText?)
  {
  }

  /** So a message holding one: Rust fails, TypeScript gives the message without the part. */
  lemma {:induction false} UnmodelledPartInMessage(before: seq<Json>, j: Json, after: seq<Json>)
    requires UnmodelledPartToken(j)
    ensures !All(before + [j] + after, RustItems.DecodePart).Value?
    ensures Kept(before + [j] + after, TypeScriptItems.DecodePart) == Kept(before + after, TypeScriptItems.DecodePart)
    decreases |before|
  {
    UnmodelledPart(j);
    if before == [] {
      assert before + [j] + after == [j] + after && before + after == after && ([j] + after)[1..] == after;
      assert [] + Kept(after, TypeScriptItems.DecodePart) == Kept(after, TypeScriptItems.DecodePart);
    } else {
      var first, rest := before[0], before[1..];
      assert (before + [j] + after)[0] == first && (before + [j] + after)[1..] == rest + [j] + after;
      assert (before + after)[0] == first && (before + after)[1..] == rest + after;
      UnmodelledPartInMessage(rest, j, after);
    }
  }
}
