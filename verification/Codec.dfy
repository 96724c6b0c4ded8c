/**
 The wire codec of src/codec/macros.rs: section 11.4 of SHIP 1.1.0, under which a sequence is
 an array of single-key objects and a choice group sits inline in it.
 */
module Codec {
  import opened Wrappers
  import opened Model
  import opened Json

  // ---- keys --------------------------------------------------------------------

  /** The keys under which a slot's content appears on the wire. */
  function KeysOf(slot: Slot): seq<string> {
    match slot
    case Named(field) => [field.name]
    case Inline(alternatives) => Names(alternatives)
    case InlineMany(alternatives) => Names(alternatives)
  }

  function Names(alternatives: seq<Field>): seq<string> {
    seq(|alternatives|, k requires 0 <= k < |alternatives| => alternatives[k].name)
  }

  function IndexOf(keys: seq<string>, key: string): (k: nat)
    ensures k <= |keys|
    ensures k < |keys| ==> keys[k] == key
    ensures forall j :: 0 <= j < k ==> keys[j] != key
  {
    if keys == [] then 0 else if keys[0] == key then 0 else 1 + IndexOf(keys[1..], key)
  }

  /** The slot that takes `key`: the named elements are tried first, then the groups in order. */
  function SlotFor(slots: seq<Slot>, key: string): (i: nat)
    ensures i <= |slots|
    ensures i < |slots| ==> key in KeysOf(slots[i])
  {
    var i := NamedFor(slots, key);
    if i < |slots| then i else GroupFor(slots, key)
  }

  function NamedFor(slots: seq<Slot>, key: string): (i: nat)
    ensures i <= |slots|
    ensures i < |slots| ==> slots[i].Named? && slots[i].field.name == key
    ensures forall j :: 0 <= j < i && slots[j].Named? ==> slots[j].field.name != key
  {
    if slots == [] then 0
    else if slots[0].Named? && slots[0].field.name == key then 0
    else 1 + NamedFor(slots[1..], key)
  }

  function GroupFor(slots: seq<Slot>, key: string): (i: nat)
    ensures i <= |slots|
    ensures i < |slots| ==> !slots[i].Named? && key in KeysOf(slots[i])
    ensures forall j :: 0 <= j < i && !slots[j].Named? ==> key !in KeysOf(slots[j])
  {
    if slots == [] then 0
    else if !slots[0].Named? && key in KeysOf(slots[0]) then 0
    else 1 + GroupFor(slots[1..], key)
  }

  /** The type of what stands under the slot's key number `a`. */
  function ContentType(slot: Slot, a: nat): Schema
    requires a < |KeysOf(slot)|
  {
    match slot
    case Named(field) => field.content
    case Inline(alternatives) => alternatives[a].content
    case InlineMany(alternatives) => alternatives[a].content
  }

  /** A slot after one more of its elements has been read: a single one is overwritten. */
  function Put(slot: Slot, before: Option<Value>, a: nat, v: Value): Value {
    match slot
    case Named(_) => v
    case Inline(_) => Choice(a, v)
    case InlineMany(_) =>
      if before.Some? && before.value.Repeated? then Repeated(before.value.items + [Choice(a, v)])
      else Repeated([Choice(a, v)])
  }

  // ---- encoding ------------------------------------------------------------------

  function Encode(t: Schema, v: Value): Json
    requires HasType(t, v)
    decreases v, 1
  {
    match v
    case Bool(b) => JBool(b)
    case Number(n) => JNumber(n)
    case Text(s) => JString(s)
    case Tag => JArray([])
    case Record(fields) => JArray(EncodeFrom(t.slots, v, 0))
    case Repeated(items) =>
      JArray(seq(|items|, i requires 0 <= i < |items| => Encode(t.item, items[i])))
    case Choice(k, content) =>
      Entry(t.alternatives[k].name, Encode(t.alternatives[k].content, content))
  }

  /** The elements for the slots from `i` on, in schema order. */
  function EncodeFrom(slots: seq<Slot>, v: Value, i: nat): seq<Json>
    requires HasType(RecordType(slots), v) && i <= |slots|
    decreases v, 0, |slots| - i
  {
    if i == |slots| then []
    else (if v.fields[i].Some? then EncodeSlot(slots[i], v.fields[i].value) else []) + EncodeFrom(slots, v, i + 1)
  }

  function EncodeSlot(slot: Slot, v: Value): seq<Json>
    requires HasType(SlotType(slot), v)
    decreases v, 2
  {
    match slot
    case Named(field) => [Entry(field.name, Encode(field.content, v))]
    case Inline(alternatives) => [Encode(ChoiceType(alternatives), v)]
    case InlineMany(alternatives) =>
      seq(|v.items|, i requires 0 <= i < |v.items| => Encode(ChoiceType(alternatives), v.items[i]))
  }

  // ---- decoding --------------------------------------------------------------------

  function Decode(t: Schema, j: Json): Option<Value>
    decreases j
  {
    match t
    case BoolType => if j.JBool? then Some(Bool(j.truth)) else None
    case NumberType(low, high) =>
      if j.JNumber? && low <= j.number <= high then Some(Number(j.number)) else None
    case TextType => if j.JString? then Some(Text(j.text)) else None
    case EnumType(names) => if j.JString? && j.text in names then Some(Text(j.text)) else None
    case TagType => if j.JArray? || j.JObject? || j.JNull? then Some(Tag) else None
    case RecordType(slots) =>
      if j.JArray? then
        var fields := DecodeElements(slots, j.elements, Blank(slots));
        if fields.Some? then Some(Record(fields.value)) else None
      else None
    case RepeatedType(item) =>
      if j.JArray? then
        var items := DecodeItems(item, j.elements);
        if items.Some? then Some(Repeated(items.value)) else None
      else None
    case ChoiceType(alternatives) =>
      if j.JObject? then DecodeChoice(alternatives, j.members) else None
  }

  function Blank(slots: seq<Slot>): seq<Option<Value>> {
    seq(|slots|, _ => None)
  }

  function DecodeItems(item: Schema, elements: seq<Json>): Option<seq<Value>>
    decreases elements
  {
    if elements == [] then Some([])
    else
      var first := Decode(item, elements[0]);
      if first.None? then None
      else
        var rest := DecodeItems(item, elements[1..]);
        if rest.None? then None else Some([first.value] + rest.value)
  }

  /** The first member whose key is an alternative decides; the members after it are skipped. */
  function DecodeChoice(alternatives: seq<Field>, members: seq<Member>): Option<Value>
    decreases members
  {
    if members == [] then None
    else
      var k := IndexOf(Names(alternatives), members[0].key);
      if k < |alternatives| then
        var content := Decode(alternatives[k].content, members[0].value);
        if content.Some? then Some(Choice(k, content.value)) else None
      else DecodeChoice(alternatives, members[1..])
  }

  function DecodeElements(slots: seq<Slot>, elements: seq<Json>, fields: seq<Option<Value>>): (r: Option<seq<Option<Value>>>)
    requires |fields| == |slots|
    ensures r.Some? ==> |r.value| == |slots|
    decreases elements
  {
    if elements == [] then Some(fields)
    else if !elements[0].JObject? then None
    else
      var next := DecodeMembers(slots, elements[0].members, fields);
      if next.None? then None else DecodeElements(slots, elements[1..], next.value)
  }

  function DecodeMembers(slots: seq<Slot>, members: seq<Member>, fields: seq<Option<Value>>): (r: Option<seq<Option<Value>>>)
    requires |fields| == |slots|
    ensures r.Some? ==> |r.value| == |slots|
    decreases members
  {
    if members == [] then Some(fields)
    else
      var i := SlotFor(slots, members[0].key);
      if i == |slots| then DecodeMembers(slots, members[1..], fields)
      else
        var a := IndexOf(KeysOf(slots[i]), members[0].key);
        var v := Decode(ContentType(slots[i], a), members[0].value);
        if v.None? then None
        else DecodeMembers(slots, members[1..], fields[i := Some(Put(slots[i], fields[i], a, v.value))])
  }

  // ---- the decoder as it runs, filling its target in place --------------------------

  /** The value under construction: each member read is stored into it at once. */
  class Target {
    const slots: seq<Slot>
    var fields: seq<Option<Value>>

    constructor (slots: seq<Slot>)
      ensures this.slots == slots && fields == Blank(slots)
    {
      this.slots := slots;
      fields := seq(|slots|, _ => None);
    }

    method VisitObject(members: seq<Member>) returns (ok: bool)
      requires |fields| == |slots|
      modifies this
      ensures |fields| == |slots|
      ensures ok == DecodeMembers(slots, members, old(fields)).Some?
      ensures ok ==> Some(fields) == DecodeMembers(slots, members, old(fields))
      decreases members
    {
      for n := 0 to |members|
        invariant |fields| == |slots|
        invariant DecodeMembers(slots, members[n..], fields) == DecodeMembers(slots, members, old(fields))
      {
        var key := members[n].key;
        assert members[n..][1..] == members[n + 1..];
        var i := SlotFor(slots, key);
        if i < |slots| {
          var a := IndexOf(KeysOf(slots[i]), key);
          var v := DecodeValue(ContentType(slots[i], a), members[n].value);
          if v.None? {
            return false;
          }
          fields := fields[i := Some(Put(slots[i], fields[i], a, v.value))];
        }
      }
      ok := true;
    }

    method VisitArray(elements: seq<Json>) returns (ok: bool)
      requires |fields| == |slots|
      modifies this
      ensures |fields| == |slots|
      ensures ok == DecodeElements(slots, elements, old(fields)).Some?
      ensures ok ==> Some(fields) == DecodeElements(slots, elements, old(fields))
      decreases elements
    {
      for n := 0 to |elements|
        invariant |fields| == |slots|
        invariant DecodeElements(slots, elements[n..], fields) == DecodeElements(slots, elements, old(fields))
      {
        assert elements[n..][1..] == elements[n + 1..];
        if !elements[n].JObject? {
          return false;
        }
        ok := VisitObject(elements[n].members);
        if !ok {
          return;
        }
      }
      ok := true;
    }
  }

  method DecodeValue(t: Schema, j: Json) returns (r: Option<Value>)
    ensures r == Decode(t, j)
    decreases j
  {
    if t.RecordType? && j.JArray? {
      var target := new Target(t.slots);
      var ok := target.VisitArray(j.elements);
      r := if ok then Some(Record(target.fields)) else None;
    } else if t.RepeatedType? && j.JArray? {
      var items := DecodeList(t.item, j.elements);
      r := if items.Some? then Some(Repeated(items.value)) else None;
    } else if t.ChoiceType? && j.JObject? {
      r := DecodeAlternative(t.alternatives, j.members);
    } else {
      r := match (t, j)
        case (BoolType, JBool(b)) => Some(Bool(b))
        case (NumberType(low, high), JNumber(n)) => if low <= n <= high then Some(Number(n)) else None
        case (TextType, JString(s)) => Some(Text(s))
        case (EnumType(names), JString(s)) => if s in names then Some(Text(s)) else None
        case (TagType, JArray(_)) => Some(Tag)
        case (TagType, JObject(_)) => Some(Tag)
        case (TagType, JNull) => Some(Tag)
        case _ => None;
    }
  }

  function Prepend(items: seq<Value>, rest: Option<seq<Value>>): Option<seq<Value>> {
    if rest.Some? then Some(items + rest.value) else None
  }

  lemma PrependNothing(rest: Option<seq<Value>>)
    ensures Prepend([], rest) == rest
  {
    assert rest.Some? ==> [] + rest.value == rest.value;
  }

  lemma PrependPrepend(items: seq<Value>, elements: seq<Json>, item: Schema)
    requires elements != []
    ensures var first := Decode(item, elements[0]);
            Prepend(items, DecodeItems(item, elements))
              == if first.None? then None else Prepend(items + [first.value], DecodeItems(item, elements[1..]))
  {
    var first, rest := Decode(item, elements[0]), DecodeItems(item, elements[1..]);
    if first.Some? && rest.Some? {
      assert items + ([first.value] + rest.value) == items + [first.value] + rest.value;
    }
  }

  method DecodeList(item: Schema, elements: seq<Json>) returns (r: Option<seq<Value>>)
    ensures r == DecodeItems(item, elements)
    decreases elements
  {
    var items: seq<Value> := [];
    PrependNothing(DecodeItems(item, elements));
    for n := 0 to |elements|
      invariant DecodeItems(item, elements) == Prepend(items, DecodeItems(item, elements[n..]))
    {
      assert elements[n..][1..] == elements[n + 1..];
      PrependPrepend(items, elements[n..], item);
      var v := DecodeValue(item, elements[n]);
      if v.None? {
        return None;
      }
      items := items + [v.value];
    }
    assert items + [] == items;
    r := Some(items);
  }

  method DecodeAlternative(alternatives: seq<Field>, members: seq<Member>) returns (r: Option<Value>)
    ensures r == DecodeChoice(alternatives, members)
    decreases members
  {
    for n := 0 to |members|
      invariant DecodeChoice(alternatives, members[n..]) == DecodeChoice(alternatives, members)
    {
      assert members[n..][1..] == members[n + 1..];
      var k := IndexOf(Names(alternatives), members[n].key);
      if k < |alternatives| {
        var content := DecodeValue(alternatives[k].content, members[n].value);
        return if content.Some? then Some(Choice(k, content.value)) else None;
      }
    }
    r := None;
  }

  method EncodeValue(t: Schema, v: Value) returns (j: Json)
    requires HasType(t, v)
    ensures j == Encode(t, v)
    decreases v, 1
  {
    match v
    case Bool(b) => j := JBool(b);
    case Number(n) => j := JNumber(n);
    case Text(s) => j := JString(s);
    case Tag => j := JArray([]);
    case Record(fields) =>
      var elements := EncodeRecord(t.slots, v);
      j := JArray(elements);
    case Repeated(items) =>
      var elements := EncodeList(t.item, items);
      j := JArray(elements);
    case Choice(k, content) =>
      var c := EncodeValue(t.alternatives[k].content, content);
      j := Entry(t.alternatives[k].name, c);
  }

  method EncodeList(item: Schema, items: seq<Value>) returns (elements: seq<Json>)
    requires forall i :: 0 <= i < |items| ==> HasType(item, items[i])
    ensures |elements| == |items|
    ensures forall i :: 0 <= i < |items| ==> elements[i] == Encode(item, items[i])
    decreases items
  {
    elements := [];
    for n := 0 to |items|
      invariant |elements| == n
      invariant forall i :: 0 <= i < n ==> elements[i] == Encode(item, items[i])
    {
      var e := EncodeValue(item, items[n]);
      elements := elements + [e];
    }
  }

  method EncodeRecord(slots: seq<Slot>, v: Value) returns (elements: seq<Json>)
    requires HasType(RecordType(slots), v)
    ensures elements == EncodeFrom(slots, v, 0)
    decreases v, 0
  {
    elements := [];
    for i := 0 to |slots|
      invariant elements + EncodeFrom(slots, v, i) == EncodeFrom(slots, v, 0)
    {
      if v.fields[i].Some? {
        var pushed := PushSlot(slots[i], v.fields[i].value);
        assert elements + (pushed + EncodeFrom(slots, v, i + 1)) == elements + pushed + EncodeFrom(slots, v, i + 1);
        elements := elements + pushed;
      } else {
        assert [] + EncodeFrom(slots, v, i + 1) == EncodeFrom(slots, v, i + 1);
      }
    }
    assert elements + [] == elements;
  }

  method PushSlot(slot: Slot, v: Value) returns (elements: seq<Json>)
    requires HasType(SlotType(slot), v)
    ensures elements == EncodeSlot(slot, v)
    decreases v, 2
  {
    match slot
    case Named(field) =>
      var e := EncodeValue(field.content, v);
      elements := [Entry(field.name, e)];
    case Inline(alternatives) =>
      var e := EncodeValue(ChoiceType(alternatives), v);
      elements := [e];
    case InlineMany(alternatives) =>
      elements := EncodeList(ChoiceType(alternatives), v.items);
  }
}
