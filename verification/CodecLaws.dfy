/**
 What the wire codec promises: decoding undoes encoding, and whatever a peer sent is re-encoded to
 the one canonical document for it.
 */
module CodecLaws {
  import opened Wrappers
  import opened Model
  import opened Json
  import opened Codec

  // ---- schemas that can be told apart on the wire -----------------------------------

  /** Every key of the record belongs to one slot, and to one alternative of it. */
  predicate DistinctKeys(slots: seq<Slot>) {
    forall i, j, a, b ::
      && 0 <= i < |slots| && 0 <= j < |slots| && 0 <= a < |KeysOf(slots[i])| && 0 <= b < |KeysOf(slots[j])|
      && KeysOf(slots[i])[a] == KeysOf(slots[j])[b]
      ==> i == j && a == b
  }

  predicate WellFormed(t: Schema) {
    match t
    case RecordType(slots) =>
      DistinctKeys(slots) && forall i :: 0 <= i < |slots| ==> WellFormedSlot(slots[i])
    case RepeatedType(item) => WellFormed(item)
    case ChoiceType(alternatives) => WellFormedChoice(alternatives)
    case _ => true
  }

  predicate WellFormedSlot(slot: Slot) {
    match slot
    case Named(field) => WellFormed(field.content)
    case Inline(alternatives) => WellFormedChoice(alternatives)
    case InlineMany(alternatives) => WellFormedChoice(alternatives)
  }

  predicate WellFormedChoice(alternatives: seq<Field>) {
    && DistinctKeys([Inline(alternatives)])
    && forall k :: 0 <= k < |alternatives| ==> WellFormed(alternatives[k].content)
  }

  lemma KeyDecides(slots: seq<Slot>, i: nat, a: nat)
    requires DistinctKeys(slots) && i < |slots| && a < |KeysOf(slots[i])|
    ensures SlotFor(slots, KeysOf(slots[i])[a]) == i
    ensures IndexOf(KeysOf(slots[i]), KeysOf(slots[i])[a]) == a
  {
    var key := KeysOf(slots[i])[a];
    if slots[i].Named? {
      assert NamedFor(slots, key) <= i;
    } else {
      assert GroupFor(slots, key) <= i;
    }
    var j := SlotFor(slots, key);
    assert j < |slots|;
    var b := IndexOf(KeysOf(slots[j]), key);
    assert KeysOf(slots[j])[b] == key;
  }

  lemma ContentIsWellFormed(slots: seq<Slot>, i: nat, a: nat)
    requires WellFormed(RecordType(slots)) && i < |slots| && a < |KeysOf(slots[i])|
    ensures WellFormed(ContentType(slots[i], a))
  {
    assert WellFormedSlot(slots[i]);
    if !slots[i].Named? {
      assert WellFormedChoice(slots[i].alternatives);
    }
  }

  // ---- decoding undoes encoding -------------------------------------------------------

  predicate EmptyGroup(slot: Slot, v: Value) {
    slot.InlineMany? && v == Repeated([])
  }

  /** No repeated choice group is present and empty: on the wire that is an absent group. */
  predicate NoEmptyGroup(t: Schema, v: Value)
    requires HasType(t, v)
    decreases v
  {
    match v
    case Record(fields) =>
      forall i :: 0 <= i < |fields| && fields[i].Some? ==>
        !EmptyGroup(t.slots[i], fields[i].value) && NoEmptyGroup(SlotType(t.slots[i]), fields[i].value)
    case Repeated(items) => forall i :: 0 <= i < |items| ==> NoEmptyGroup(t.item, items[i])
    case Choice(k, content) => NoEmptyGroup(t.alternatives[k].content, content)
    case _ => true
  }

  /** The value with its empty groups absent. */
  function Settle(t: Schema, v: Value): Value
    requires HasType(t, v)
    decreases v
  {
    match v
    case Record(fields) =>
      Record(seq(|fields|, i requires 0 <= i < |fields| =>
        if fields[i].None? || EmptyGroup(t.slots[i], fields[i].value) then None
        else Some(Settle(SlotType(t.slots[i]), fields[i].value))))
    case Repeated(items) =>
      Repeated(seq(|items|, i requires 0 <= i < |items| => Settle(t.item, items[i])))
    case Choice(k, content) => Choice(k, Settle(t.alternatives[k].content, content))
    case _ => v
  }

  lemma {:induction false} SettledAlready(t: Schema, v: Value)
    requires HasType(t, v)
    ensures Settle(t, v) == v <==> NoEmptyGroup(t, v)
    decreases v
  {
    match v
    case Record(fields) =>
      var settled := Settle(t, v).fields;
      forall i | 0 <= i < |fields| && fields[i].Some?
        ensures settled[i] == fields[i]
           <==> !EmptyGroup(t.slots[i], fields[i].value) && NoEmptyGroup(SlotType(t.slots[i]), fields[i].value)
      {
        SettledAlready(SlotType(t.slots[i]), fields[i].value);
      }
      assert settled == fields <==> forall i :: 0 <= i < |fields| ==> settled[i] == fields[i];
    case Repeated(items) =>
      var settled := Settle(t, v).items;
      forall i | 0 <= i < |items| ensures settled[i] == items[i] <==> NoEmptyGroup(t.item, items[i]) {
        SettledAlready(t.item, items[i]);
      }
      assert settled == items <==> forall i :: 0 <= i < |items| ==> settled[i] == items[i];
    case Choice(k, content) => SettledAlready(t.alternatives[k].content, content);
    case _ =>
  }

  lemma {:induction false} DecodeElementsAppend(slots: seq<Slot>, a: seq<Json>, b: seq<Json>, fields: seq<Option<Value>>)
    requires |fields| == |slots|
    ensures DecodeElements(slots, a + b, fields)
         == var first := DecodeElements(slots, a, fields);
            if first.None? then None else DecodeElements(slots, b, first.value)
    decreases |a|
  {
    if a == [] {
      assert a + b == b;
    } else {
      assert (a + b)[1..] == a[1..] + b;
      if a[0].JObject? {
        var next := DecodeMembers(slots, a[0].members, fields);
        if next.Some? {
          DecodeElementsAppend(slots, a[1..], b, next.value);
        }
      }
    }
  }

  /** One element, read back into its slot. */
  lemma OneElement(slots: seq<Slot>, i: nat, a: nat, content: Value, fields: seq<Option<Value>>)
    requires DistinctKeys(slots) && i < |slots| == |fields| && a < |KeysOf(slots[i])|
    requires HasType(ContentType(slots[i], a), content)
    requires Decode(ContentType(slots[i], a), Encode(ContentType(slots[i], a), content))
          == Some(Settle(ContentType(slots[i], a), content))
    ensures var t := ContentType(slots[i], a);
            (DecodeElements(slots, [Entry(KeysOf(slots[i])[a], Encode(t, content))], fields)
          == Some(fields[i := Some(Put(slots[i], fields[i], a, Settle(t, content)))]))
  {
    var t := ContentType(slots[i], a);
    var m := Member(KeysOf(slots[i])[a], Encode(t, content));
    KeyDecides(slots, i, a);
    var after := fields[i := Some(Put(slots[i], fields[i], a, Settle(t, content)))];
    hide KeysOf, Encode, Decode, Settle, DistinctKeys, Put;
    assert [m][1..] == [];
    assert DecodeMembers(slots, [m], fields) == DecodeMembers(slots, [], after);
    assert [JObject([m])][1..] == [];
    assert DecodeElements(slots, [JObject([m])], fields) == DecodeElements(slots, [], after);
  }

  /** Decoding an encoded value gives the value, with its empty groups absent. */
  lemma {:induction false} EncodedReadsSettled(t: Schema, v: Value)
    requires WellFormed(t) && HasType(t, v)
    ensures Decode(t, Encode(t, v)) == Some(Settle(t, v))
    decreases v, 1
  {
    match v
    case Record(fields) => EncodedReadsFrom(t.slots, v, 0, Blank(t.slots));
    case Repeated(items) => EncodedItems(t.item, v, 0);
    case Choice(k, content) =>
      EncodedReadsSettled(t.alternatives[k].content, content);
      var c := Inline(t.alternatives);
      KeyDecides([c], 0, k);
      assert KeysOf(c)[k] == t.alternatives[k].name;
    case _ =>
  }

  lemma {:induction false} EncodedItems(item: Schema, v: Value, n: nat)
    requires WellFormed(item) && HasType(RepeatedType(item), v) && n <= |v.items|
    ensures var encoded := Encode(RepeatedType(item), v).elements;
            DecodeItems(item, encoded[n..]) == Some(Settle(RepeatedType(item), v).items[n..])
    decreases v, 0, |v.items| - n
  {
    var encoded, settled := Encode(RepeatedType(item), v).elements, Settle(RepeatedType(item), v).items;
    if n < |v.items| {
      EncodedReadsSettled(item, v.items[n]);
      EncodedItems(item, v, n + 1);
      assert encoded[n..][1..] == encoded[n + 1..];
      assert settled[n..] == [settled[n]] + settled[n + 1..];
    } else {
      assert encoded[n..] == [] && settled[n..] == [];
    }
  }

  lemma {:induction false} EncodedReadsFrom(slots: seq<Slot>, v: Value, i: nat, fields: seq<Option<Value>>)
    requires WellFormed(RecordType(slots)) && HasType(RecordType(slots), v) && i <= |slots| == |fields|
    requires forall k :: 0 <= k < i ==> fields[k] == Settle(RecordType(slots), v).fields[k]
    requires forall k :: i <= k < |slots| ==> fields[k] == None
    ensures DecodeElements(slots, EncodeFrom(slots, v, i), fields) == Some(Settle(RecordType(slots), v).fields)
    decreases v, 0, |slots| - i
  {
    var settled := Settle(RecordType(slots), v).fields;
    if i == |slots| {
      assert fields == settled;
    } else {
      var next := fields[i := settled[i]];
      EncodedReadsFrom(slots, v, i + 1, next);
      var rest := EncodeFrom(slots, v, i + 1);
      if v.fields[i].Some? {
        EncodedSlot(slots, i, v.fields[i].value, fields);
        DecodeElementsAppend(slots, EncodeSlot(slots[i], v.fields[i].value), rest, fields);
      } else {
        assert [] + rest == rest;
        assert next == fields;
      }
    }
  }

  lemma {:induction false} EncodedSlot(slots: seq<Slot>, i: nat, w: Value, fields: seq<Option<Value>>)
    requires WellFormed(RecordType(slots)) && i < |slots| == |fields| && fields[i] == None
    requires HasType(SlotType(slots[i]), w)
    ensures DecodeElements(slots, EncodeSlot(slots[i], w), fields)
         == Some(fields[i := if EmptyGroup(slots[i], w) then None else Some(Settle(SlotType(slots[i]), w))])
    decreases w, 2
  {
    match slots[i]
    case Named(field) =>
      ContentIsWellFormed(slots, i, 0);
      EncodedReadsSettled(field.content, w);
      OneElement(slots, i, 0, w, fields);
    case Inline(alternatives) =>
      ContentIsWellFormed(slots, i, w.alternative);
      EncodedReadsSettled(alternatives[w.alternative].content, w.content);
      OneElement(slots, i, w.alternative, w.content, fields);
      assert KeysOf(slots[i])[w.alternative] == alternatives[w.alternative].name;
    case InlineMany(alternatives) =>
      EncodedGroup(slots, i, w, |w.items|, fields);
      var encoded, settled := EncodeSlot(slots[i], w), Settle(SlotType(slots[i]), w).items;
      assert encoded[..|w.items|] == encoded && settled[..|w.items|] == settled;
      assert fields[i := None] == fields;
  }

  /** The fields once a group has been read as far as `before`. */
  function Reading(fields: seq<Option<Value>>, i: nat, before: seq<Value>): seq<Option<Value>>
    requires i < |fields|
  {
    if before == [] then fields else fields[i := Some(Repeated(before))]
  }

  lemma {:induction false} EncodedGroup(slots: seq<Slot>, i: nat, w: Value, n: nat, fields: seq<Option<Value>>)
    requires WellFormed(RecordType(slots)) && i < |slots| == |fields| && fields[i] == None
    requires slots[i].InlineMany? && HasType(SlotType(slots[i]), w) && n <= |w.items|
    ensures |EncodeSlot(slots[i], w)| == |Settle(SlotType(slots[i]), w).items| == |w.items|
    ensures DecodeElements(slots, EncodeSlot(slots[i], w)[..n], fields)
         == Some(Reading(fields, i, Settle(SlotType(slots[i]), w).items[..n]))
    decreases w, 1, n
  {
    var encoded, settled := EncodeSlot(slots[i], w), Settle(SlotType(slots[i]), w).items;
    if n == 0 {
      assert encoded[..0] == [] && settled[..0] == [];
    } else {
      var c := w.items[n - 1];
      EncodedGroup(slots, i, w, n - 1, fields);
      GroupContent(slots, i, c);
      EncodedReadsSettled(slots[i].alternatives[c.alternative].content, c.content);
      GroupElement(slots, i, settled[..n - 1], c, fields);
      GroupGrows(slots, i, encoded, settled, n - 1, fields);
    }
  }

  lemma {:induction false} GroupGrows(slots: seq<Slot>, i: nat, encoded: seq<Json>, settled: seq<Value>, n: nat,
                                      fields: seq<Option<Value>>)
    requires i < |slots| == |fields| && n < |encoded| == |settled|
    requires DecodeElements(slots, encoded[..n], fields) == Some(Reading(fields, i, settled[..n]))
    requires DecodeElements(slots, [encoded[n]], Reading(fields, i, settled[..n]))
          == Some(Reading(fields, i, settled[..n] + [settled[n]]))
    ensures DecodeElements(slots, encoded[..n + 1], fields) == Some(Reading(fields, i, settled[..n + 1]))
  {
    hide DecodeElements, Reading;
    assert encoded[..n + 1] == encoded[..n] + [encoded[n]];
    assert settled[..n + 1] == settled[..n] + [settled[n]];
    DecodeElementsAppend(slots, encoded[..n], [encoded[n]], fields);
  }

  lemma GroupContent(slots: seq<Slot>, i: nat, c: Value)
    requires WellFormed(RecordType(slots)) && i < |slots| && slots[i].InlineMany?
    requires HasType(ChoiceType(slots[i].alternatives), c)
    ensures DistinctKeys(slots)
    ensures WellFormed(slots[i].alternatives[c.alternative].content)
    ensures HasType(slots[i].alternatives[c.alternative].content, c.content)
  {
    ContentIsWellFormed(slots, i, c.alternative);
  }

  lemma {:induction false} GroupElement(slots: seq<Slot>, i: nat, before: seq<Value>, c: Value,
                                        fields: seq<Option<Value>>)
    requires DistinctKeys(slots) && i < |slots| == |fields| && fields[i] == None && slots[i].InlineMany?
    requires HasType(ChoiceType(slots[i].alternatives), c)
    requires Decode(slots[i].alternatives[c.alternative].content,
                    Encode(slots[i].alternatives[c.alternative].content, c.content))
          == Some(Settle(slots[i].alternatives[c.alternative].content, c.content))
    ensures DecodeElements(slots, [Encode(ChoiceType(slots[i].alternatives), c)], Reading(fields, i, before))
         == Some(Reading(fields, i, before + [Settle(ChoiceType(slots[i].alternatives), c)]))
  {
    OneElement(slots, i, c.alternative, c.content, Reading(fields, i, before));
    assert KeysOf(slots[i])[c.alternative] == slots[i].alternatives[c.alternative].name;
    var x := Settle(ChoiceType(slots[i].alternatives), c);
    assert [] + [x] == [x];
    assert Reading(fields, i, before)[i := Some(Repeated(before + [x]))] == Reading(fields, i, before + [x]);
  }

  /** Decoding undoes encoding exactly for the values without a present but empty choice group. */
  lemma EncodedReadsBack(t: Schema, v: Value)
    requires WellFormed(t) && HasType(t, v)
    ensures Decode(t, Encode(t, v)) == Some(v) <==> NoEmptyGroup(t, v)
  {
    EncodedReadsSettled(t, v);
    SettledAlready(t, v);
  }

  // ---- what can be decoded ------------------------------------------------------------

  predicate ReadSlot(slot: Slot, field: Option<Value>) {
    field.Some? ==>
      && HasType(SlotType(slot), field.value)
      && !EmptyGroup(slot, field.value)
      && NoEmptyGroup(SlotType(slot), field.value)
  }

  predicate ReadSlots(slots: seq<Slot>, fields: seq<Option<Value>>) {
    |fields| == |slots| && forall i :: 0 <= i < |slots| ==> ReadSlot(slots[i], fields[i])
  }

  predicate Decoded(t: Schema, v: Value) {
    HasType(t, v) && NoEmptyGroup(t, v)
  }

  /** Whatever decodes is a value of the type, without empty groups. */
  lemma {:induction false} DecodedHasType(t: Schema, j: Json)
    requires Decode(t, j).Some?
    ensures Decoded(t, Decode(t, j).value)
    decreases j
  {
    match t
    case RecordType(slots) => ElementsHaveType(slots, j.elements, Blank(slots));
    case RepeatedType(item) => ItemsHaveType(item, j.elements);
    case ChoiceType(alternatives) => ChoiceHasType(alternatives, j.members);
    case _ =>
  }

  lemma {:induction false} ItemsHaveType(item: Schema, elements: seq<Json>)
    requires DecodeItems(item, elements).Some?
    ensures Decoded(RepeatedType(item), Repeated(DecodeItems(item, elements).value))
    decreases elements
  {
    if elements != [] {
      DecodedHasType(item, elements[0]);
      ItemsHaveType(item, elements[1..]);
    }
  }

  lemma {:induction false} ChoiceHasType(alternatives: seq<Field>, members: seq<Member>)
    requires DecodeChoice(alternatives, members).Some?
    ensures Decoded(ChoiceType(alternatives), DecodeChoice(alternatives, members).value)
    decreases members
  {
    var k := IndexOf(Names(alternatives), members[0].key);
    if k < |alternatives| {
      DecodedHasType(alternatives[k].content, members[0].value);
    } else {
      ChoiceHasType(alternatives, members[1..]);
    }
  }

  lemma PutHasType(slot: Slot, before: Option<Value>, a: nat, v: Value)
    requires a < |KeysOf(slot)| && ReadSlot(slot, before) && Decoded(ContentType(slot, a), v)
    ensures ReadSlot(slot, Some(Put(slot, before, a, v)))
  {
    match slot
    case InlineMany(alternatives) =>
      assert Decoded(ChoiceType(alternatives), Choice(a, v));
    case _ =>
  }

  lemma {:induction false} ElementsHaveType(slots: seq<Slot>, elements: seq<Json>, fields: seq<Option<Value>>)
    requires ReadSlots(slots, fields) && DecodeElements(slots, elements, fields).Some?
    ensures ReadSlots(slots, DecodeElements(slots, elements, fields).value)
    decreases elements
  {
    if elements != [] {
      MembersHaveType(slots, elements[0].members, fields);
      ElementsHaveType(slots, elements[1..], DecodeMembers(slots, elements[0].members, fields).value);
    }
  }

  lemma {:induction false} MembersHaveType(slots: seq<Slot>, members: seq<Member>, fields: seq<Option<Value>>)
    requires ReadSlots(slots, fields) && DecodeMembers(slots, members, fields).Some?
    ensures ReadSlots(slots, DecodeMembers(slots, members, fields).value)
    decreases members
  {
    hide ReadSlot, Put, Decoded, ContentType, KeysOf;
    if members != [] {
      var i := SlotFor(slots, members[0].key);
      if i == |slots| {
        MembersHaveType(slots, members[1..], fields);
      } else {
        var a := IndexOf(KeysOf(slots[i]), members[0].key);
        var t := ContentType(slots[i], a);
        DecodedHasType(t, members[0].value);
        var v := Decode(t, members[0].value).value;
        PutHasType(slots[i], fields[i], a, v);
        MembersHaveType(slots, members[1..], fields[i := Some(Put(slots[i], fields[i], a, v))]);
      }
    }
  }

  // ---- canonical documents --------------------------------------------------------------

  /**
   The documents of a type, as section 11.4 of SHIP 1.1.0 lays them out: every element of a
   sequence in an object of its own, in schema order, none unknown and no group element but a
   repeated one twice; an empty element is `[]`.
   */
  predicate Canonical(t: Schema, j: Json)
    decreases j
  {
    match t
    case BoolType => j.JBool?
    case NumberType(low, high) => j.JNumber? && low <= j.number <= high
    case TextType => j.JString?
    case EnumType(names) => j.JString? && j.text in names
    case TagType => j == JArray([])
    case RecordType(slots) => j.JArray? && CanonicalFrom(slots, 0, j.elements)
    case RepeatedType(item) =>
      j.JArray? && forall i :: 0 <= i < |j.elements| ==> Canonical(item, j.elements[i])
    case ChoiceType(alternatives) => j.JObject? && CanonicalElement(Inline(alternatives), j.members)
  }

  predicate CanonicalElement(slot: Slot, members: seq<Member>)
    decreases members
  {
    && |members| == 1
    && var a := IndexOf(KeysOf(slot), members[0].key);
       a < |KeysOf(slot)| && Canonical(ContentType(slot, a), members[0].value)
  }

  predicate CanonicalFrom(slots: seq<Slot>, i: nat, elements: seq<Json>)
    requires i <= |slots|
    decreases elements, |slots| - i
  {
    if i == |slots| then elements == []
    else
      || CanonicalFrom(slots, i + 1, elements)
      || (&& elements != [] && elements[0].JObject? && CanonicalElement(slots[i], elements[0].members)
          && CanonicalFrom(slots, if slots[i].InlineMany? then i else i + 1, elements[1..]))
  }

  lemma {:induction false} EncodedIsCanonical(t: Schema, v: Value)
    requires WellFormed(t) && HasType(t, v)
    ensures Canonical(t, Encode(t, v))
    decreases v, 1
  {
    match v
    case Record(fields) => EncodedFromIsCanonical(t.slots, v, 0);
    case Repeated(items) =>
      forall i | 0 <= i < |items| ensures Canonical(t.item, Encode(t.item, items[i])) {
        EncodedIsCanonical(t.item, items[i]);
      }
    case Choice(k, content) =>
      EncodedIsCanonical(t.alternatives[k].content, content);
      CanonicalAlternative(t.alternatives, v);
    case _ =>
  }

  lemma CanonicalAlternative(alternatives: seq<Field>, c: Value)
    requires DistinctKeys([Inline(alternatives)]) && HasType(ChoiceType(alternatives), c)
    requires Canonical(alternatives[c.alternative].content, Encode(alternatives[c.alternative].content, c.content))
    ensures Canonical(ChoiceType(alternatives), Encode(ChoiceType(alternatives), c))
  {
    var slot := Inline(alternatives);
    KeyDecides([slot], 0, c.alternative);
    assert KeysOf(slot)[c.alternative] == alternatives[c.alternative].name;
  }

  lemma {:induction false} EncodedFromIsCanonical(slots: seq<Slot>, v: Value, i: nat)
    requires WellFormed(RecordType(slots)) && HasType(RecordType(slots), v) && i <= |slots|
    ensures CanonicalFrom(slots, i, EncodeFrom(slots, v, i))
    decreases v, 0, |slots| - i
  {
    if i < |slots| {
      EncodedFromIsCanonical(slots, v, i + 1);
      var rest := EncodeFrom(slots, v, i + 1);
      assert [] + rest == rest;
      if v.fields[i].Some? {
        SlotElementsAreCanonical(slots, i, v.fields[i].value, 0, rest);
        assert EncodeSlot(slots[i], v.fields[i].value)[0..] == EncodeSlot(slots[i], v.fields[i].value);
      }
    }
  }

  /** One element of slot `i`, put before canonical elements, is canonical. */
  lemma {:induction false} ElementIsCanonical(slots: seq<Slot>, i: nat, a: nat, content: Json, rest: seq<Json>)
    requires DistinctKeys(slots) && i < |slots| && a < |KeysOf(slots[i])|
    requires Canonical(ContentType(slots[i], a), content)
    requires CanonicalFrom(slots, if slots[i].InlineMany? then i else i + 1, rest)
    ensures CanonicalFrom(slots, i, [Entry(KeysOf(slots[i])[a], content)] + rest)
  {
    KeyDecides(slots, i, a);
    var all := [Entry(KeysOf(slots[i])[a], content)] + rest;
    assert all[1..] == rest;
    assert CanonicalElement(slots[i], all[0].members);
  }

  lemma {:induction false} SlotElementsAreCanonical(slots: seq<Slot>, i: nat, w: Value, n: nat, rest: seq<Json>)
    requires WellFormed(RecordType(slots)) && i < |slots| && HasType(SlotType(slots[i]), w)
    requires n <= |EncodeSlot(slots[i], w)| && CanonicalFrom(slots, i + 1, rest)
    ensures CanonicalFrom(slots, i, EncodeSlot(slots[i], w)[n..] + rest)
    decreases w, 2, |EncodeSlot(slots[i], w)| - n
  {
    var encoded := EncodeSlot(slots[i], w);
    if n == |encoded| {
      assert encoded[n..] + rest == rest;
    } else {
      var after := encoded[n + 1..] + rest;
      assert encoded[n..] + rest == [encoded[n]] + after;
      SlotElementsAreCanonical(slots, i, w, n + 1, rest);
      if slots[i].Named? {
        assert after == rest;
        ContentIsWellFormed(slots, i, 0);
        EncodedIsCanonical(slots[i].field.content, w);
        ElementIsCanonical(slots, i, 0, Encode(slots[i].field.content, w), after);
      } else {
        var c := if slots[i].Inline? then w else w.items[n];
        assert slots[i].Inline? ==> after == rest;
        ContentIsWellFormed(slots, i, c.alternative);
        var t := slots[i].alternatives[c.alternative].content;
        EncodedIsCanonical(t, c.content);
        assert encoded[n] == Encode(ChoiceType(slots[i].alternatives), c);
        AlternativeIs(slots[i], c);
        ElementIsCanonical(slots, i, c.alternative, Encode(t, c.content), after);
      }
    }
  }

  lemma AlternativeIs(slot: Slot, c: Value)
    requires !slot.Named? && HasType(ChoiceType(slot.alternatives), c)
    ensures var t := ContentType(slot, c.alternative);
            HasType(t, c.content) && Encode(ChoiceType(slot.alternatives), c) == Entry(KeysOf(slot)[c.alternative], Encode(t, c.content))
  {
  }

  lemma {:induction false} EncodeFromAgrees(slots: seq<Slot>, v: Value, w: Value, i: nat)
    requires HasType(RecordType(slots), v) && HasType(RecordType(slots), w) && i <= |slots|
    requires forall k :: i <= k < |slots| ==> v.fields[k] == w.fields[k]
    ensures EncodeFrom(slots, v, i) == EncodeFrom(slots, w, i)
    decreases |slots| - i
  {
    if i < |slots| {
      EncodeFromAgrees(slots, v, w, i + 1);
    }
  }

  lemma {:induction false} ReadSlotsHaveType(slots: seq<Slot>, fields: seq<Option<Value>>)
    requires ReadSlots(slots, fields)
    ensures Decoded(RecordType(slots), Record(fields))
  {
    assert forall i :: 0 <= i < |slots| ==> ReadSlot(slots[i], fields[i]);
  }

  /** Every canonical document encodes a value. */
  lemma {:induction false} CanonicalIsEncoded(t: Schema, j: Json) returns (v: Value)
    requires Canonical(t, j)
    ensures Decoded(t, v) && Encode(t, v) == j
    decreases j
  {
    match t
    case BoolType => v := Bool(j.truth);
    case NumberType(_, _) => v := Number(j.number);
    case TextType => v := Text(j.text);
    case EnumType(_) => v := Text(j.text);
    case TagType => v := Tag;
    case RecordType(slots) =>
      var fields := CanonicalFromIsEncoded(slots, 0, j.elements);
      ReadSlotsHaveType(slots, fields);
      v := Record(fields);
    case RepeatedType(item) =>
      var items := CanonicalItems(item, j.elements);
      v := Repeated(items);
      assert Encode(t, v).elements == j.elements;
    case ChoiceType(alternatives) =>
      var a, content := CanonicalContent(Inline(alternatives), j.members);
      v := Choice(a, content);
      assert KeysOf(Inline(alternatives))[a] == alternatives[a].name;
  }

  lemma {:induction false} CanonicalItems(item: Schema, elements: seq<Json>) returns (items: seq<Value>)
    requires forall i :: 0 <= i < |elements| ==> Canonical(item, elements[i])
    ensures |items| == |elements|
    ensures forall i :: 0 <= i < |items| ==> Decoded(item, items[i]) && Encode(item, items[i]) == elements[i]
    decreases elements
  {
    items := [];
    if elements != [] {
      var first := CanonicalIsEncoded(item, elements[0]);
      var rest := CanonicalItems(item, elements[1..]);
      items := [first] + rest;
    }
  }

  lemma {:induction false} CanonicalContent(slot: Slot, members: seq<Member>) returns (a: nat, content: Value)
    requires CanonicalElement(slot, members)
    ensures a < |KeysOf(slot)| && Decoded(ContentType(slot, a), content)
    ensures JObject(members) == Entry(KeysOf(slot)[a], Encode(ContentType(slot, a), content))
    decreases members
  {
    a := IndexOf(KeysOf(slot), members[0].key);
    content := CanonicalIsEncoded(ContentType(slot, a), members[0].value);
    assert members == [members[0]];
  }

  /** A slot holding one element more, in front. */
  function PutFirst(slot: Slot, after: Option<Value>, a: nat, v: Value): Value {
    if slot.InlineMany? && after.Some? && after.value.Repeated? then Repeated([Choice(a, v)] + after.value.items)
    else Put(slot, None, a, v)
  }

  lemma {:induction false} EncodesFirst(slot: Slot, after: Option<Value>, a: nat, v: Value)
    requires a < |KeysOf(slot)| && ReadSlot(slot, after) && Decoded(ContentType(slot, a), v)
    requires !slot.InlineMany? ==> after == None
    ensures ReadSlot(slot, Some(PutFirst(slot, after, a, v)))
    ensures HasType(SlotType(slot), PutFirst(slot, after, a, v))
    ensures after.Some? ==> HasType(SlotType(slot), after.value)
    ensures EncodeSlot(slot, PutFirst(slot, after, a, v))
         == [Entry(KeysOf(slot)[a], Encode(ContentType(slot, a), v))]
          + if after.Some? then EncodeSlot(slot, after.value) else []
  {
    if slot.Named? {
    } else {
      AlternativeIs(slot, Choice(a, v));
      if slot.InlineMany? && after.Some? {
        GroupEncodesFirst(slot, after.value.items, Choice(a, v));
      } else if slot.InlineMany? {
        GroupEncodesFirst(slot, [], Choice(a, v));
        assert [Choice(a, v)] + [] == [Choice(a, v)];
      }
    }
  }

  lemma {:induction false} GroupEncodesFirst(slot: Slot, items: seq<Value>, c: Value)
    requires slot.InlineMany? && Decoded(SlotType(slot), Repeated(items))
    requires Decoded(ChoiceType(slot.alternatives), c)
    ensures Decoded(SlotType(slot), Repeated([c] + items))
    ensures EncodeSlot(slot, Repeated([c] + items))
         == [Encode(ChoiceType(slot.alternatives), c)] + EncodeSlot(slot, Repeated(items))
  {
    hide Encode;
    var t, all := ChoiceType(slot.alternatives), [c] + items;
    assert forall i :: 0 <= i < |items| ==> Decoded(t, items[i]);
    assert forall i :: 0 <= i < |all| ==> Decoded(t, all[i]);
  }

  lemma {:induction false} CanonicalFromIsEncoded(slots: seq<Slot>, i: nat, elements: seq<Json>)
    returns (fields: seq<Option<Value>>)
    requires i <= |slots| && CanonicalFrom(slots, i, elements)
    ensures ReadSlots(slots, fields) && HasType(RecordType(slots), Record(fields))
    ensures forall k :: 0 <= k < i ==> fields[k] == None
    ensures EncodeFrom(slots, Record(fields), i) == elements
    decreases elements, |slots| - i
  {
    if i == |slots| {
      fields := Blank(slots);
    } else if CanonicalFrom(slots, i + 1, elements) {
      fields := CanonicalFromIsEncoded(slots, i + 1, elements);
      assert [] + elements == elements;
    } else {
      var rest := CanonicalFromIsEncoded(slots, if slots[i].InlineMany? then i else i + 1, elements[1..]);
      var a, content := CanonicalContent(slots[i], elements[0].members);
      fields := PutsFirst(slots, i, a, content, rest, elements[1..]);
      assert elements == [elements[0]] + elements[1..];
    }
  }

  lemma {:induction false} PutsFirst(slots: seq<Slot>, i: nat, a: nat, v: Value, rest: seq<Option<Value>>, tail: seq<Json>)
    returns (fields: seq<Option<Value>>)
    requires i < |slots| && ReadSlots(slots, rest) && HasType(RecordType(slots), Record(rest))
    requires a < |KeysOf(slots[i])| && Decoded(ContentType(slots[i], a), v)
    requires !slots[i].InlineMany? ==> rest[i] == None
    requires EncodeFrom(slots, Record(rest), if slots[i].InlineMany? then i else i + 1) == tail
    ensures ReadSlots(slots, fields) && HasType(RecordType(slots), Record(fields))
    ensures forall k :: 0 <= k < i ==> fields[k] == rest[k]
    ensures EncodeFrom(slots, Record(fields), i) == [Entry(KeysOf(slots[i])[a], Encode(ContentType(slots[i], a), v))] + tail
  {
    hide *;
    ReadAt(slots, rest, i);
    var field := Some(PutFirst(slots[i], rest[i], a, v));
    fields := rest[i := field];
    EncodesFirst(slots[i], rest[i], a, v);
    PutsSlot(slots, rest, i, field);
    EncodeFromStep(slots, rest, i);
    EncodeFromStep(slots, fields, i);
    EncodeFromAgrees(slots, Record(fields), Record(rest), i + 1);
  }

  lemma ReadAt(slots: seq<Slot>, fields: seq<Option<Value>>, i: nat)
    requires ReadSlots(slots, fields) && i < |slots|
    ensures |fields| == |slots| && ReadSlot(slots[i], fields[i])
  {
  }

  lemma PutsSlot(slots: seq<Slot>, fields: seq<Option<Value>>, i: nat, field: Option<Value>)
    requires ReadSlots(slots, fields) && i < |slots| && ReadSlot(slots[i], field)
    ensures |fields| == |slots| && ReadSlots(slots, fields[i := field])
    ensures HasType(RecordType(slots), Record(fields[i := field]))
  {
    ReadSlotsHaveType(slots, fields[i := field]);
  }

  lemma EncodeFromStep(slots: seq<Slot>, fields: seq<Option<Value>>, i: nat)
    requires HasType(RecordType(slots), Record(fields)) && i < |slots|
    ensures |fields| == |slots| && (fields[i].Some? ==> HasType(SlotType(slots[i]), fields[i].value))
    ensures EncodeFrom(slots, Record(fields), i)
         == (if fields[i].Some? then EncodeSlot(slots[i], fields[i].value) else [])
          + EncodeFrom(slots, Record(fields), i + 1)
  {
  }

  /**
   A document is canonical exactly when it decodes and re-encoding what it decodes to gives
   that document back.
   */
  lemma CanonicalDocuments(t: Schema, j: Json)
    requires WellFormed(t)
    ensures Canonical(t, j)
       <==> Decode(t, j).Some? && HasType(t, Decode(t, j).value) && Encode(t, Decode(t, j).value) == j
  {
    if Canonical(t, j) {
      var v := CanonicalIsEncoded(t, j);
      EncodedReadsBack(t, v);
    }
    if Decode(t, j).Some? && HasType(t, Decode(t, j).value) && Encode(t, Decode(t, j).value) == j {
      EncodedIsCanonical(t, Decode(t, j).value);
    }
  }

  /** Any document that decodes has a canonical form with the same meaning. */
  lemma DecodedHasCanonicalForm(t: Schema, j: Json)
    requires WellFormed(t) && Decode(t, j).Some?
    ensures HasType(t, Decode(t, j).value)
    ensures var canonical := Encode(t, Decode(t, j).value);
            Canonical(t, canonical) && Decode(t, canonical) == Decode(t, j)
  {
    DecodedHasType(t, j);
    EncodedIsCanonical(t, Decode(t, j).value);
    EncodedReadsBack(t, Decode(t, j).value);
  }

  // ---- single values ----------------------------------------------------------------------

  /** Which documents each kind of leaf is read from, and as what. */
  lemma LeavesAreRead(t: Schema, j: Json, v: Value)
    ensures t.BoolType? ==> (Decode(t, j) == Some(v) <==> v.Bool? && j == JBool(v.truth))
    ensures t.NumberType? ==>
              (Decode(t, j) == Some(v) <==> v.Number? && j == JNumber(v.number) && t.low <= v.number <= t.high)
    ensures t.TextType? ==> (Decode(t, j) == Some(v) <==> v.Text? && j == JString(v.text))
    ensures t.EnumType? ==> (Decode(t, j) == Some(v) <==> v.Text? && j == JString(v.text) && v.text in t.names)
    ensures t.TagType? ==> (Decode(t, j) == Some(v) <==> v == Tag && !j.JBool? && !j.JNumber? && !j.JString?)
  {
  }

  /**
   A choice is read from the first member whose key names an alternative, wherever it stands; the
   members before and after it do not matter, and without one there is no choice.
   */
  lemma {:induction false} FirstKnownKeyDecides(alternatives: seq<Field>, members: seq<Member>) returns (n: nat)
    ensures n <= |members| && forall i :: 0 <= i < n ==> members[i].key !in Names(alternatives)
    ensures n == |members| ==> Decode(ChoiceType(alternatives), JObject(members)) == None
    ensures n < |members| ==>
              && members[n].key in Names(alternatives)
              && var k := IndexOf(Names(alternatives), members[n].key);
                 var content := Decode(alternatives[k].content, members[n].value);
                 Decode(ChoiceType(alternatives), JObject(members))
                   == if content.Some? then Some(Choice(k, content.value)) else None
  {
    if members == [] {
      n := 0;
    } else if IndexOf(Names(alternatives), members[0].key) < |alternatives| {
      n := 0;
    } else {
      var rest := FirstKnownKeyDecides(alternatives, members[1..]);
      n := rest + 1;
      assert Decode(ChoiceType(alternatives), JObject(members)) == Decode(ChoiceType(alternatives), JObject(members[1..]));
    }
  }
}
