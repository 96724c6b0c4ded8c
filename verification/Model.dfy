/**
 The resource types the macros of src/codec/macros.rs generate, as data: what a type is, and
 what its values are.
 */
module Model {
  import opened Wrappers

  /** An element, or an alternative of a choice: its wire name and its type. */
  datatype Field = Field(name: string, content: Schema)

  /**
   One position of a struct. A choice group of the XML schema sits inline in the enclosing
   sequence, under the name of the alternative taken; it occurs at most once or repeatedly.
   */
  datatype Slot =
    | Named(field: Field)
    | Inline(alternatives: seq<Field>)
    | InlineMany(alternatives: seq<Field>)

  datatype Schema =
    | BoolType
    | NumberType(low: int, high: int)
    | TextType
    | EnumType(names: seq<string>)
    | TagType
    | RecordType(slots: seq<Slot>)
    | RepeatedType(item: Schema)
    | ChoiceType(alternatives: seq<Field>)

  datatype Value =
    | Bool(truth: bool)
    | Number(number: int)
    | Text(text: string)
    | Tag
    | Record(fields: seq<Option<Value>>)
    | Repeated(items: seq<Value>)
    | Choice(alternative: nat, content: Value)

  function SlotType(slot: Slot): Schema {
    match slot
    case Named(field) => field.content
    case Inline(alternatives) => ChoiceType(alternatives)
    case InlineMany(alternatives) => RepeatedType(ChoiceType(alternatives))
  }

  predicate HasType(t: Schema, v: Value)
    decreases v
  {
    match (t, v)
    case (BoolType, Bool(_)) => true
    case (NumberType(low, high), Number(n)) => low <= n <= high
    case (TextType, Text(_)) => true
    case (EnumType(names), Text(s)) => s in names
    case (TagType, Tag) => true
    case (RecordType(slots), Record(fields)) =>
      && |fields| == |slots|
      && forall i :: 0 <= i < |fields| && fields[i].Some? ==> HasType(SlotType(slots[i]), fields[i].value)
    case (RepeatedType(item), Repeated(items)) =>
      forall i :: 0 <= i < |items| ==> HasType(item, items[i])
    case (ChoiceType(alternatives), Choice(k, content)) =>
      k < |alternatives| && HasType(alternatives[k].content, content)
    case _ => false
  }

  /** Types that have values: every choice offers something, every range and list of names too. */
  predicate Inhabited(t: Schema) {
    match t
    case NumberType(low, high) => low <= high
    case EnumType(names) => names != []
    case RecordType(slots) =>
      forall i :: 0 <= i < |slots| ==> InhabitedSlot(slots[i])
    case ChoiceType(alternatives) => InhabitedChoice(alternatives)
    case _ => true
  }

  predicate InhabitedSlot(slot: Slot) {
    match slot
    case Named(field) => Inhabited(field.content)
    case Inline(alternatives) => InhabitedChoice(alternatives)
    case InlineMany(_) => true
  }

  predicate InhabitedChoice(alternatives: seq<Field>) {
    alternatives != [] && forall k :: 0 <= k < |alternatives| ==> Inhabited(alternatives[k].content)
  }

  lemma SomeValue(t: Schema) returns (v: Value)
    requires Inhabited(t)
    ensures HasType(t, v)
  {
    match t
    case BoolType => v := Bool(false);
    case NumberType(low, _) => v := Number(low);
    case TextType => v := Text("");
    case EnumType(names) => v := Text(names[0]);
    case TagType => v := Tag;
    case RecordType(slots) => v := Record(seq(|slots|, _ => None));
    case RepeatedType(_) => v := Repeated([]);
    case ChoiceType(alternatives) =>
      var content := SomeValue(alternatives[0].content);
      v := Choice(0, content);
  }
}
