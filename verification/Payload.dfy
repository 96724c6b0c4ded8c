/**
 The command frame of src/model/payload.rs. `Cmd` and `Filter` are written by hand there, since
 they embed choice groups inline; here their codec is proved to be the schema-directed one.
 */
module Payload {
  import opened Wrappers
  import opened Model
  import opened Json
  import opened Codec
  import opened CodecLaws

  /** The generated choice groups the frame embeds: `CmdData`, `FilterSelectors`, `FilterElements`. */
  datatype Groups = Groups(data: seq<Field>, selectors: seq<Field>, elements: seq<Field>)

  datatype Filter = Filter(
    filterId: Option<Value>,
    cmdControl: Option<Value>,
    selectors: Option<seq<Value>>,
    elements: Option<Value>)

  datatype Cmd = Cmd(
    function_: Option<Value>,
    filter: Option<seq<Filter>>,
    data: Option<Value>,
    manufacturerSpecificExtension: Option<Value>,
    lastUpdateAt: Option<Value>)

  const NO_FILTER := Filter(None, None, None, None)
  const NO_CMD := Cmd(None, None, None, None, None)

  const FILTER_ID := NumberType(0, 0xFFFF_FFFF)
  const CMD_CONTROL := RecordType([Named(Field("delete", TagType)), Named(Field("partial", TagType))])

  // ---- the same frame as a schema ----------------------------------------------------

  function FilterSlots(g: Groups): seq<Slot> {
    [Named(Field("filterId", FILTER_ID)), Named(Field("cmdControl", CMD_CONTROL)),
     InlineMany(g.selectors), Inline(g.elements)]
  }

  function CmdSlots(g: Groups): seq<Slot> {
    [Named(Field("function", TextType)), Named(Field("filter", RepeatedType(RecordType(FilterSlots(g))))),
     Inline(g.data), Named(Field("manufacturerSpecificExtension", TextType)), Named(Field("lastUpdateAt", TextType))]
  }

  function FilterFields(f: Filter): seq<Option<Value>> {
    [f.filterId, f.cmdControl, if f.selectors.Some? then Some(Repeated(f.selectors.value)) else None, f.elements]
  }

  function FilterValues(filters: seq<Filter>): seq<Value> {
    seq(|filters|, i requires 0 <= i < |filters| => Record(FilterFields(filters[i])))
  }

  function CmdFields(c: Cmd): seq<Option<Value>> {
    [c.function_, if c.filter.Some? then Some(Repeated(FilterValues(c.filter.value))) else None,
     c.data, c.manufacturerSpecificExtension, c.lastUpdateAt]
  }

  predicate FilterHasType(g: Groups, f: Filter) {
    HasType(RecordType(FilterSlots(g)), Record(FilterFields(f)))
  }

  predicate CmdHasType(g: Groups, c: Cmd) {
    HasType(RecordType(CmdSlots(g)), Record(CmdFields(c)))
  }

  lemma FilterSlotFor(g: Groups, key: string)
    ensures SlotFor(FilterSlots(g), key)
         == if key == "filterId" then 0 else if key == "cmdControl" then 1
            else if key in Names(g.selectors) then 2 else if key in Names(g.elements) then 3 else 4
  {
    var slots := FilterSlots(g);
    assert slots[0].Named? && slots[1].Named? && !slots[2].Named? && !slots[3].Named?;
    assert KeysOf(slots[2]) == Names(g.selectors) && KeysOf(slots[3]) == Names(g.elements);
  }

  lemma CmdSlotFor(g: Groups, key: string)
    ensures SlotFor(CmdSlots(g), key)
         == if key == "function" then 0 else if key == "filter" then 1
            else if key == "manufacturerSpecificExtension" then 3 else if key == "lastUpdateAt" then 4
            else if key in Names(g.data) then 2 else 5
  {
    var slots := CmdSlots(g);
    assert slots[0].Named? && slots[1].Named? && !slots[2].Named? && slots[3].Named? && slots[4].Named?;
    assert KeysOf(slots[2]) == Names(g.data);
  }

  // ---- decoding, key by key --------------------------------------------------------

  /** `read_value`: the alternative a key names, or none without looking at the value. */
  method ReadValue(alternatives: seq<Field>, key: string, j: Json) returns (known: bool, v: Option<Value>)
    ensures known == (key in Names(alternatives))
    ensures known ==>
              var k := IndexOf(Names(alternatives), key);
              var content := Decode(alternatives[k].content, j);
              v == if content.Some? then Some(Choice(k, content.value)) else None
  {
    var k := IndexOf(Names(alternatives), key);
    known, v := k < |alternatives|, None;
    if known {
      var content := DecodeValue(alternatives[k].content, j);
      v := if content.Some? then Some(Choice(k, content.value)) else None;
    }
  }

  class FilterTarget {
    const g: Groups
    var out: Filter

    constructor (g: Groups)
      ensures this.g == g && out == NO_FILTER
    {
      this.g := g;
      out := NO_FILTER;
    }

    /** One object of the array, as `FilterEntry` reads it. */
    method VisitObject(members: seq<Member>) returns (ok: bool)
      modifies this
      ensures DecodeMembers(FilterSlots(g), members, FilterFields(old(out)))
           == if ok then Some(FilterFields(out)) else None
    {
      for n := 0 to |members|
        invariant DecodeMembers(FilterSlots(g), members[n..], FilterFields(out))
               == DecodeMembers(FilterSlots(g), members, FilterFields(old(out)))
      {
        ok := VisitMember(members[n], members[n..]);
        if !ok {
          return;
        }
        assert members[n..][1..] == members[n + 1..];
      }
      ok := true;
    }

    method VisitMember(m: Member, ghost members: seq<Member>) returns (ok: bool)
      requires members != [] && members[0] == m
      modifies this
      ensures DecodeMembers(FilterSlots(g), members, FilterFields(old(out)))
           == if ok then DecodeMembers(FilterSlots(g), members[1..], FilterFields(out)) else None
    {
      FilterSlotFor(g, m.key);
      hide SlotFor, Decode, IndexOf;
      var v: Option<Value>;
      if m.key == "filterId" {
        v := DecodeValue(FILTER_ID, m.value);
        if v.Some? {
          out := out.(filterId := v);
          assert FilterFields(out) == FilterFields(old(out))[0 := v];
        }
        return v.Some?;
      }
      if m.key == "cmdControl" {
        v := DecodeValue(CMD_CONTROL, m.value);
        if v.Some? {
          out := out.(cmdControl := v);
          assert FilterFields(out) == FilterFields(old(out))[1 := v];
        }
        return v.Some?;
      }
      var known: bool;
      known, v := ReadValue(g.selectors, m.key, m.value);
      if known {
        if v.Some? {
          out := out.(selectors := Some(out.selectors.UnwrapOr([]) + [v.value]));
          assert [] + [v.value] == [v.value];
          assert FilterFields(out) == FilterFields(old(out))[2 := FilterFields(out)[2]];
        }
        return v.Some?;
      }
      known, v := ReadValue(g.elements, m.key, m.value);
      if known {
        if v.Some? {
          out := out.(elements := v);
          assert FilterFields(out) == FilterFields(old(out))[3 := v];
        }
        return v.Some?;
      }
      ok := true;
    }
  }

  method DecodeFilter(g: Groups, j: Json) returns (r: Option<Filter>)
    ensures Decode(RecordType(FilterSlots(g)), j) == if r.Some? then Some(Record(FilterFields(r.value))) else None
  {
    if !j.JArray? {
      return None;
    }
    var slots := FilterSlots(g);
    var target := new FilterTarget(g);
    assert FilterFields(target.out) == Blank(slots);
    for n := 0 to |j.elements|
      invariant target.g == g
      invariant DecodeElements(slots, j.elements[n..], FilterFields(target.out))
             == DecodeElements(slots, j.elements, Blank(slots))
    {
      assert j.elements[n..][1..] == j.elements[n + 1..];
      if !j.elements[n].JObject? {
        return None;
      }
      var ok := target.VisitObject(j.elements[n].members);
      if !ok {
        return None;
      }
    }
    r := Some(target.out);
  }

  method DecodeFilters(g: Groups, j: Json) returns (r: Option<seq<Filter>>)
    ensures Decode(RepeatedType(RecordType(FilterSlots(g))), j)
         == if r.Some? then Some(Repeated(FilterValues(r.value))) else None
  {
    if !j.JArray? {
      return None;
    }
    var t := RecordType(FilterSlots(g));
    var filters: seq<Filter> := [];
    assert FilterValues(filters) == [] && j.elements[0..] == j.elements;
    PrependNothing(DecodeItems(t, j.elements));
    for n := 0 to |j.elements|
      invariant DecodeItems(t, j.elements) == Prepend(FilterValues(filters), DecodeItems(t, j.elements[n..]))
    {
      PrependPrepend(FilterValues(filters), j.elements[n..], t);
      assert j.elements[n..][1..] == j.elements[n + 1..];
      var f := DecodeFilter(g, j.elements[n]);
      if f.None? {
        return None;
      }
      assert FilterValues(filters + [f.value]) == FilterValues(filters) + [Record(FilterFields(f.value))];
      filters := filters + [f.value];
    }
    assert FilterValues(filters) + [] == FilterValues(filters);
    r := Some(filters);
  }

  class CmdTarget {
    const g: Groups
    var out: Cmd

    constructor (g: Groups)
      ensures this.g == g && out == NO_CMD
    {
      this.g := g;
      out := NO_CMD;
    }

    /** One object of the array, as `CmdEntry` reads it. */
    method VisitObject(members: seq<Member>) returns (ok: bool)
      modifies this
      ensures DecodeMembers(CmdSlots(g), members, CmdFields(old(out))) == if ok then Some(CmdFields(out)) else None
    {
      for n := 0 to |members|
        invariant DecodeMembers(CmdSlots(g), members[n..], CmdFields(out))
               == DecodeMembers(CmdSlots(g), members, CmdFields(old(out)))
      {
        ok := VisitMember(members[n], members[n..]);
        if !ok {
          return;
        }
        assert members[n..][1..] == members[n + 1..];
      }
      ok := true;
    }

    method VisitMember(m: Member, ghost members: seq<Member>) returns (ok: bool)
      requires members != [] && members[0] == m
      modifies this
      ensures DecodeMembers(CmdSlots(g), members, CmdFields(old(out)))
           == if ok then DecodeMembers(CmdSlots(g), members[1..], CmdFields(out)) else None
    {
      CmdSlotFor(g, m.key);
      hide SlotFor, Decode, IndexOf, FilterSlots, FilterFields;
      var v: Option<Value>;
      if m.key == "function" {
        v := DecodeValue(TextType, m.value);
        if v.Some? {
          out := out.(function_ := v);
          assert CmdFields(out) == CmdFields(old(out))[0 := v];
        }
        return v.Some?;
      }
      if m.key == "filter" {
        var filters := DecodeFilters(g, m.value);
        if filters.Some? {
          out := out.(filter := filters);
          assert CmdFields(out) == CmdFields(old(out))[1 := CmdFields(out)[1]];
        }
        return filters.Some?;
      }
      if m.key == "manufacturerSpecificExtension" {
        v := DecodeValue(TextType, m.value);
        if v.Some? {
          out := out.(manufacturerSpecificExtension := v);
          assert CmdFields(out) == CmdFields(old(out))[3 := v];
        }
        return v.Some?;
      }
      if m.key == "lastUpdateAt" {
        v := DecodeValue(TextType, m.value);
        if v.Some? {
          out := out.(lastUpdateAt := v);
          assert CmdFields(out) == CmdFields(old(out))[4 := v];
        }
        return v.Some?;
      }
      var known: bool;
      known, v := ReadValue(g.data, m.key, m.value);
      if known {
        if v.Some? {
          out := out.(data := v);
          assert CmdFields(out) == CmdFields(old(out))[2 := v];
        }
        return v.Some?;
      }
      ok := true;
    }
  }

  method DecodeCmd(g: Groups, j: Json) returns (r: Option<Cmd>)
    ensures Decode(RecordType(CmdSlots(g)), j) == if r.Some? then Some(Record(CmdFields(r.value))) else None
  {
    if !j.JArray? {
      return None;
    }
    var slots := CmdSlots(g);
    var target := new CmdTarget(g);
    assert CmdFields(target.out) == Blank(slots);
    for n := 0 to |j.elements|
      invariant target.g == g
      invariant DecodeElements(slots, j.elements[n..], CmdFields(target.out))
             == DecodeElements(slots, j.elements, Blank(slots))
    {
      assert j.elements[n..][1..] == j.elements[n + 1..];
      if !j.elements[n].JObject? {
        return None;
      }
      var ok := target.VisitObject(j.elements[n].members);
      if !ok {
        return None;
      }
    }
    r := Some(target.out);
  }

  // ---- encoding, element by element ------------------------------------------------------

  /** What a slot adds to the array: nothing when its field is absent. */
  function Pushed(slot: Slot, field: Option<Value>): seq<Json>
    requires field.Some? ==> HasType(SlotType(slot), field.value)
  {
    if field.Some? then EncodeSlot(slot, field.value) else []
  }

  lemma PushedInOrder(slots: seq<Slot>, fields: seq<Option<Value>>, i: nat)
    requires HasType(RecordType(slots), Record(fields)) && i < |slots|
    ensures |fields| == |slots| && (fields[i].Some? ==> HasType(SlotType(slots[i]), fields[i].value))
    ensures EncodeFrom(slots, Record(fields), i) == Pushed(slots[i], fields[i]) + EncodeFrom(slots, Record(fields), i + 1)
  {
    hide HasType, EncodeFrom, EncodeSlot;
    EncodeFromStep(slots, fields, i);
  }

  method Push(slot: Slot, field: Option<Value>) returns (elements: seq<Json>)
    requires field.Some? ==> HasType(SlotType(slot), field.value)
    ensures elements == Pushed(slot, field)
  {
    elements := [];
    if field.Some? {
      elements := PushSlot(slot, field.value);
    }
  }

  method EncodeFilter(g: Groups, f: Filter) returns (j: Json)
    requires FilterHasType(g, f)
    ensures j == Encode(RecordType(FilterSlots(g)), Record(FilterFields(f)))
  {
    var slots, fields := FilterSlots(g), FilterFields(f);
    hide HasType, EncodeFrom, Pushed;
    PushedInOrder(slots, fields, 0);
    var filterId := Push(slots[0], f.filterId);
    PushedInOrder(slots, fields, 1);
    var cmdControl := Push(slots[1], f.cmdControl);
    PushedInOrder(slots, fields, 2);
    var selectors := Push(slots[2], fields[2]);
    PushedInOrder(slots, fields, 3);
    var elements := Push(slots[3], f.elements);
    EncodedToTheEnd(slots, fields);
    j := JArray(filterId + cmdControl + selectors + elements);
  }

  lemma EncodedRecord(slots: seq<Slot>, fields: seq<Option<Value>>)
    requires HasType(RecordType(slots), Record(fields))
    ensures Encode(RecordType(slots), Record(fields)) == JArray(EncodeFrom(slots, Record(fields), 0))
  {
  }

  lemma EncodedToTheEnd(slots: seq<Slot>, fields: seq<Option<Value>>)
    requires HasType(RecordType(slots), Record(fields))
    ensures EncodeFrom(slots, Record(fields), |slots|) == []
  {
  }

  /** The array of a record of five slots, field by field. */
  lemma FiveInOrder(slots: seq<Slot>, fields: seq<Option<Value>>)
    requires |slots| == |fields| == 5 && HasType(RecordType(slots), Record(fields))
    ensures forall i :: 0 <= i < 5 && fields[i].Some? ==> HasType(SlotType(slots[i]), fields[i].value)
    ensures Encode(RecordType(slots), Record(fields))
         == JArray(Pushed(slots[0], fields[0]) + Pushed(slots[1], fields[1]) + Pushed(slots[2], fields[2])
                 + Pushed(slots[3], fields[3]) + Pushed(slots[4], fields[4]))
  {
    hide EncodeFrom, Pushed, Encode;
    EncodedRecord(slots, fields);
    PushedInOrder(slots, fields, 0);
    PushedInOrder(slots, fields, 1);
    PushedInOrder(slots, fields, 2);
    PushedInOrder(slots, fields, 3);
    PushedInOrder(slots, fields, 4);
    EncodedToTheEnd(slots, fields);
  }

  method EncodeCmd(g: Groups, c: Cmd) returns (j: Json)
    requires CmdHasType(g, c)
    ensures j == Encode(RecordType(CmdSlots(g)), Record(CmdFields(c)))
  {
    var slots, fields := CmdSlots(g), CmdFields(c);
    FiveInOrder(slots, fields);
    FilterIsPushed(g, fields[1]);
    hide HasType, EncodeFrom, Pushed, Encode, FilterSlots, FilterValues;
    var function_ := Push(slots[0], fields[0]);
    var filter: seq<Json> := [];
    if c.filter.Some? {
      var filters := EncodeFilters(g, c.filter.value);
      filter := [Entry("filter", filters)];
    }
    var data := Push(slots[2], fields[2]);
    var extension := Push(slots[3], fields[3]);
    var lastUpdateAt := Push(slots[4], fields[4]);
    j := JArray(function_ + filter + data + extension + lastUpdateAt);
  }

  lemma FilterIsPushed(g: Groups, field: Option<Value>)
    requires var t := RepeatedType(RecordType(FilterSlots(g))); field.Some? ==> HasType(t, field.value)
    ensures var t := RepeatedType(RecordType(FilterSlots(g)));
            Pushed(CmdSlots(g)[1], field) == if field.Some? then [Entry("filter", Encode(t, field.value))] else []
  {
    hide Encode, HasType;
  }

  method EncodeFilters(g: Groups, filters: seq<Filter>) returns (j: Json)
    requires HasType(RepeatedType(RecordType(FilterSlots(g))), Repeated(FilterValues(filters)))
    ensures j == Encode(RepeatedType(RecordType(FilterSlots(g))), Repeated(FilterValues(filters)))
  {
    var t := RecordType(FilterSlots(g));
    var values := FilterValues(filters);
    assert forall i :: 0 <= i < |values| ==> HasType(t, values[i]);
    var elements: seq<Json> := [];
    for n := 0 to |filters|
      invariant |elements| == n
      invariant forall i :: 0 <= i < n ==> elements[i] == Encode(t, values[i])
    {
      assert HasType(t, values[n]);
      var e := EncodeFilter(g, filters[n]);
      elements := elements + [e];
    }
    j := JArray(elements);
    assert elements == Encode(RepeatedType(t), Repeated(values)).elements;
  }

  // ---- decoding undoes encoding -------------------------------------------------------------

  /** Only a filter embeds a repeated choice group; no generated type does. */
  predicate NoRepeatedGroup(t: Schema) {
    match t
    case RecordType(slots) => forall i :: 0 <= i < |slots| ==> NoRepeatedGroupIn(slots[i])
    case RepeatedType(item) => NoRepeatedGroup(item)
    case ChoiceType(alternatives) => NoneRepeatsGroup(alternatives)
    case _ => true
  }

  predicate NoRepeatedGroupIn(slot: Slot) {
    match slot
    case Named(field) => NoRepeatedGroup(field.content)
    case Inline(alternatives) => NoneRepeatsGroup(alternatives)
    case InlineMany(_) => false
  }

  predicate NoneRepeatsGroup(alternatives: seq<Field>) {
    forall k :: 0 <= k < |alternatives| ==> NoRepeatedGroup(alternatives[k].content)
  }

  lemma {:induction false} NothingToSettle(t: Schema, v: Value)
    requires HasType(t, v) && NoRepeatedGroup(t)
    ensures NoEmptyGroup(t, v)
    decreases v
  {
    match v
    case Record(fields) =>
      forall i | 0 <= i < |fields| && fields[i].Some?
        ensures !EmptyGroup(t.slots[i], fields[i].value) && NoEmptyGroup(SlotType(t.slots[i]), fields[i].value)
      {
        assert NoRepeatedGroupIn(t.slots[i]);
        NothingToSettle(SlotType(t.slots[i]), fields[i].value);
      }
    case Repeated(items) =>
      forall i | 0 <= i < |items| ensures NoEmptyGroup(t.item, items[i]) {
        NothingToSettle(t.item, items[i]);
      }
    case Choice(k, content) =>
      assert NoneRepeatsGroup(t.alternatives);
      NothingToSettle(t.alternatives[k].content, content);
    case _ =>
  }

  predicate Generated(g: Groups) {
    && NoneRepeatsGroup(g.data) && NoneRepeatsGroup(g.selectors) && NoneRepeatsGroup(g.elements)
  }

  predicate SelectorsSettled(f: Filter) {
    f.selectors != Some([])
  }

  lemma FilterSettled(g: Groups, f: Filter)
    requires Generated(g) && FilterHasType(g, f)
    ensures NoEmptyGroup(RecordType(FilterSlots(g)), Record(FilterFields(f))) <==> SelectorsSettled(f)
  {
    var slots, fields := FilterSlots(g), FilterFields(f);
    forall i | 0 <= i < 4 && fields[i].Some? ensures NoEmptyGroup(SlotType(slots[i]), fields[i].value) {
      NoGroupsInFilter(g, i);
      NothingToSettle(SlotType(slots[i]), fields[i].value);
    }
    assert EmptyGroup(slots[2], Repeated([]));
    assert fields[2].Some? && EmptyGroup(slots[2], fields[2].value) <==> f.selectors == Some([]);
  }

  lemma NoGroupsInFilter(g: Groups, i: nat)
    requires Generated(g) && i < 4
    ensures NoRepeatedGroup(SlotType(FilterSlots(g)[i]))
  {
    assert NoRepeatedGroup(CMD_CONTROL) by {
      assert forall k :: 0 <= k < 2 ==> NoRepeatedGroupIn(CMD_CONTROL.slots[k]);
    }
    assert NoRepeatedGroup(ChoiceType(g.selectors));
  }

  /** A filter survives the wire exactly when its selectors are absent or non-empty. */
  lemma FilterReadsBack(g: Groups, f: Filter)
    requires Generated(g) && WellFormed(RecordType(FilterSlots(g))) && FilterHasType(g, f)
    ensures var t := RecordType(FilterSlots(g));
            Decode(t, Encode(t, Record(FilterFields(f)))) == Some(Record(FilterFields(f))) <==> SelectorsSettled(f)
  {
    FilterSettled(g, f);
    EncodedReadsBack(RecordType(FilterSlots(g)), Record(FilterFields(f)));
  }

  lemma FiltersSettled(g: Groups, filters: seq<Filter>)
    requires Generated(g) && HasType(RepeatedType(RecordType(FilterSlots(g))), Repeated(FilterValues(filters)))
    ensures NoEmptyGroup(RepeatedType(RecordType(FilterSlots(g))), Repeated(FilterValues(filters)))
       <==> forall i :: 0 <= i < |filters| ==> SelectorsSettled(filters[i])
  {
    var t, values := RecordType(FilterSlots(g)), FilterValues(filters);
    forall i | 0 <= i < |filters|
      ensures HasType(t, values[i]) && (NoEmptyGroup(t, values[i]) <==> SelectorsSettled(filters[i]))
    {
      assert HasType(t, values[i]);
      FilterSettled(g, filters[i]);
    }
    hide SelectorsSettled, HasType, FilterSlots, FilterFields;
  }

  lemma CmdSettled(g: Groups, c: Cmd)
    requires Generated(g) && CmdHasType(g, c)
    ensures NoEmptyGroup(RecordType(CmdSlots(g)), Record(CmdFields(c)))
       <==> forall i :: 0 <= i < |c.filter.UnwrapOr([])| ==> SelectorsSettled(c.filter.value[i])
  {
    var slots, fields := CmdSlots(g), CmdFields(c);
    assert HasType(ChoiceType(g.data), Tag) ==> false;
    forall i | 0 <= i < 5 && i != 1 && fields[i].Some? ensures NoEmptyGroup(SlotType(slots[i]), fields[i].value) {
      assert NoRepeatedGroup(ChoiceType(g.data));
      NothingToSettle(SlotType(slots[i]), fields[i].value);
    }
    assert forall i :: 0 <= i < 5 && fields[i].Some? ==> !EmptyGroup(slots[i], fields[i].value);
    if c.filter.Some? {
      assert HasType(SlotType(slots[1]), fields[1].value);
      FiltersSettled(g, c.filter.value);
    }
    hide FilterSlots, FilterValues, SelectorsSettled;
  }

  /** A command survives the wire exactly when the selectors of its filters are absent or non-empty. */
  lemma CmdReadsBack(g: Groups, c: Cmd)
    requires Generated(g) && WellFormed(RecordType(CmdSlots(g))) && CmdHasType(g, c)
    ensures Decode(RecordType(CmdSlots(g)), Encode(RecordType(CmdSlots(g)), Record(CmdFields(c))))
          == Some(Record(CmdFields(c)))
       <==> forall i :: 0 <= i < |c.filter.UnwrapOr([])| ==> SelectorsSettled(c.filter.value[i])
  {
    CmdSettled(g, c);
    EncodedReadsBack(RecordType(CmdSlots(g)), Record(CmdFields(c)));
  }

  /** Nothing of a command is lost in its fields: commands with the same fields are the same. */
  lemma FieldsDecideCmd(c: Cmd, d: Cmd)
    requires CmdFields(c) == CmdFields(d)
    ensures c == d
  {
    assert forall i :: 0 <= i < 5 ==> CmdFields(c)[i] == CmdFields(d)[i];
    assert c.filter.Some? <==> CmdFields(c)[1].Some?;
    if c.filter.Some? {
      var a, b := c.filter.value, d.filter.value;
      assert FilterValues(a) == FilterValues(b);
      forall i | 0 <= i < |a| ensures a[i] == b[i] {
        assert FilterValues(a)[i] == FilterValues(b)[i];
        FieldsDecideFilter(a[i], b[i]);
      }
      assert a == b;
    }
  }

  lemma FieldsDecideFilter(a: Filter, b: Filter)
    requires FilterFields(a) == FilterFields(b)
    ensures a == b
  {
    assert forall i :: 0 <= i < 4 ==> FilterFields(a)[i] == FilterFields(b)[i];
  }
}
