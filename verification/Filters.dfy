/**
 The filters of a Restricted Function Exchange (section 5.3.4 of the SPINE Protocol
 Specification): which elements of an entry a command addresses, and which entries.
 */
module Filters {
  import opened Wrappers
  import opened Model
  import opened Merging

  /** An elements filter, aligned with the fields of the record it addresses. */
  datatype Elements = Elements(parts: seq<Part>)

  datatype Part =
    | Unmapped(named: bool)
    | Leaf(named: bool)
    | Nested(sub: Option<Elements>)
    | NestedEach(sub: Option<Elements>)

  predicate IsEmpty(e: Elements) {
    forall i :: 0 <= i < |e.parts| ==>
      match e.parts[i]
      case Unmapped(named) => !named
      case Leaf(named) => !named
      case Nested(sub) => sub.None?
      case NestedEach(sub) => sub.None?
  }

  /** The same element of a filter that says nothing. */
  function Unset(p: Part): Part {
    match p
    case Unmapped(_) => Unmapped(false)
    case Leaf(_) => Leaf(false)
    case Nested(_) => Nested(None)
    case NestedEach(_) => NestedEach(None)
  }

  /** Only the filter that says nothing counts as empty. */
  lemma EmptyIsUnset(e: Elements)
    ensures IsEmpty(e) <==> e == Elements(seq(|e.parts|, i requires 0 <= i < |e.parts| => Unset(e.parts[i])))
  {
    var unset := Elements(seq(|e.parts|, i requires 0 <= i < |e.parts| => Unset(e.parts[i])));
    assert e == unset <==> forall i :: 0 <= i < |e.parts| ==> e.parts[i] == unset.parts[i];
  }

  /** `clear_from`: removes the addressed elements. */
  function ClearFrom(e: Elements, v: Value): Value {
    if v.Record? && |v.fields| == |e.parts| then
      Record(seq(|v.fields|, i requires 0 <= i < |v.fields| => ClearPart(e.parts[i], v.fields[i])))
    else v
  }

  function ClearPart(p: Part, field: Option<Value>): Option<Value> {
    match p
    case Unmapped(_) => field
    case Leaf(named) => if named then None else field
    case Nested(Some(sub)) =>
      if IsEmpty(sub) || field.None? then None else Some(ClearFrom(sub, field.value))
    case NestedEach(Some(sub)) =>
      if IsEmpty(sub) || field.None? then None
      else if field.value.Repeated? then
        var items := field.value.items;
        Some(Repeated(seq(|items|, i requires 0 <= i < |items| => ClearFrom(sub, items[i]))))
      else field
    case _ => field
  }

  /** `retain_in`: removes everything but the addressed elements. */
  function RetainIn(e: Elements, v: Value): Value {
    if v.Record? && |v.fields| == |e.parts| then
      Record(seq(|v.fields|, i requires 0 <= i < |v.fields| => RetainPart(e.parts[i], v.fields[i])))
    else v
  }

  function RetainPart(p: Part, field: Option<Value>): Option<Value> {
    match p
    case Unmapped(_) => field
    case Leaf(named) => if named then field else None
    case Nested(Some(sub)) =>
      if IsEmpty(sub) || field.None? then field else Some(RetainIn(sub, field.value))
    case NestedEach(Some(sub)) =>
      if IsEmpty(sub) || field.None? then field
      else if field.value.Repeated? then
        var items := field.value.items;
        Some(Repeated(seq(|items|, i requires 0 <= i < |items| => RetainIn(sub, items[i]))))
      else field
    case _ => None
  }

  /** The filter names every element the value has, at every depth. */
  predicate NamesAll(e: Elements, v: Value) {
    v.Record? && |v.fields| == |e.parts| ==>
      forall i :: 0 <= i < |v.fields| && v.fields[i].Some? ==> PartNames(e.parts[i], v.fields[i].value)
  }

  predicate PartNames(p: Part, v: Value) {
    match p
    case Unmapped(_) => true
    case Leaf(named) => named
    case Nested(Some(sub)) => IsEmpty(sub) || NamesAll(sub, v)
    case NestedEach(Some(sub)) =>
      IsEmpty(sub) || (v.Repeated? ==> forall i :: 0 <= i < |v.items| ==> NamesAll(sub, v.items[i]))
    case _ => false
  }

  /** Exactly the values a filter names all of are retained whole. */
  lemma {:induction false} NamedIsRetained(e: Elements, v: Value)
    ensures RetainIn(e, v) == v <==> NamesAll(e, v)
  {
    if v.Record? && |v.fields| == |e.parts| {
      var retained := RetainIn(e, v).fields;
      forall i | 0 <= i < |v.fields|
        ensures retained[i] == v.fields[i] <==> (v.fields[i].Some? ==> PartNames(e.parts[i], v.fields[i].value))
      {
        assert retained[i] == RetainPart(e.parts[i], v.fields[i]);
        if v.fields[i].Some? {
          NamedPartIsRetained(e.parts[i], v.fields[i].value);
        } else {
          AbsentStaysAbsent(e.parts[i]);
        }
      }
      assert retained == v.fields <==> forall i :: 0 <= i < |v.fields| ==> retained[i] == v.fields[i];
    }
  }

  lemma AbsentStaysAbsent(p: Part)
    ensures RetainPart(p, None) == None
  {
  }

  lemma {:induction false} NamedPartIsRetained(p: Part, v: Value)
    ensures RetainPart(p, Some(v)) == Some(v) <==> PartNames(p, v)
  {
    match p
    case Nested(Some(sub)) => NamedIsRetained(sub, v);
    case NestedEach(Some(sub)) =>
      if !IsEmpty(sub) && v.Repeated? {
        var kept := RetainPart(p, Some(v)).value.items;
        forall i | 0 <= i < |v.items| ensures kept[i] == v.items[i] <==> NamesAll(sub, v.items[i]) {
          NamedIsRetained(sub, v.items[i]);
        }
        assert kept == v.items <==> forall i :: 0 <= i < |v.items| ==> kept[i] == v.items[i];
      }
    case _ =>
  }

  /**
   No repeated element loses anything to a filter that descends into each occurrence. Merging
   replaces a repeated element as a unit, so nothing else could give the lost parts back.
   */
  predicate RepetitionsKept(e: Elements, v: Value) {
    v.Record? && |v.fields| == |e.parts| ==>
      forall i :: 0 <= i < |v.fields| ==> PartKept(e.parts[i], v.fields[i])
  }

  predicate PartKept(p: Part, field: Option<Value>) {
    match p
    case Nested(Some(sub)) =>
      !IsEmpty(sub) && field.Some? ==> RepetitionsKept(sub, field.value)
    case NestedEach(Some(sub)) =>
      !IsEmpty(sub) && field.Some? && field.value.Repeated? ==>
        forall i :: 0 <= i < |field.value.items| ==> NamesAll(sub, field.value.items[i])
    case _ => true
  }

  lemma {:induction false} PartsMergeBack(p: Part, field: Option<Value>)
    ensures MergeFields(ClearPart(p, field), RetainPart(p, field)) == field <==> PartKept(p, field)
  {
    match p
    case Unmapped(_) =>
      if field.Some? {
        MergeIsIdempotent(field.value);
      }
    case Nested(Some(sub)) =>
      if field.Some? {
        SplitMergesBack(sub, field.value);
      }
    case NestedEach(Some(sub)) =>
      if field.Some? && !IsEmpty(sub) {
        if field.value.Repeated? {
          NamedPartIsRetained(p, field.value);
        } else {
          MergeIsIdempotent(field.value);
        }
      }
    case _ =>
  }

  /**
   What a filter clears and what it retains are two parts of the value whose merge is the
   value, at every depth of nesting, exactly when repeated elements are kept whole.
   */
  lemma {:induction false} SplitMergesBack(e: Elements, v: Value)
    ensures Merge(ClearFrom(e, v), RetainIn(e, v)) == v <==> RepetitionsKept(e, v)
  {
    if v.Record? && |v.fields| == |e.parts| {
      var cleared, retained := ClearFrom(e, v).fields, RetainIn(e, v).fields;
      MergeIsFieldwise(cleared, retained);
      var merged := Merge(ClearFrom(e, v), RetainIn(e, v)).fields;
      forall i | 0 <= i < |v.fields|
        ensures merged[i] == v.fields[i] <==> PartKept(e.parts[i], v.fields[i])
      {
        PartsMergeBack(e.parts[i], v.fields[i]);
      }
      assert merged == v.fields <==> forall i :: 0 <= i < |v.fields| ==> merged[i] == v.fields[i];
    } else {
      MergeIsIdempotent(v);
    }
  }

  /** A partial read merged back into the value it was taken from, under the same condition. */
  lemma {:induction false} RetainedMergesBack(e: Elements, v: Value)
    ensures Merge(v, RetainIn(e, v)) == v <==> RepetitionsKept(e, v)
  {
    if v.Record? && |v.fields| == |e.parts| {
      var retained := RetainIn(e, v).fields;
      MergeIsFieldwise(v.fields, retained);
      var merged := Merge(v, RetainIn(e, v)).fields;
      forall i | 0 <= i < |v.fields|
        ensures merged[i] == v.fields[i] <==> PartKept(e.parts[i], v.fields[i])
      {
        RetainedPartMergesBack(e.parts[i], v.fields[i]);
      }
      assert merged == v.fields <==> forall i :: 0 <= i < |v.fields| ==> merged[i] == v.fields[i];
    } else {
      MergeIsIdempotent(v);
    }
  }

  lemma {:induction false} RetainedPartMergesBack(p: Part, field: Option<Value>)
    ensures MergeFields(field, RetainPart(p, field)) == field <==> PartKept(p, field)
  {
    if field.Some? {
      MergeIsIdempotent(field.value);
      match p
      case Nested(Some(sub)) =>
        if !IsEmpty(sub) {
          RetainedMergesBack(sub, field.value);
        }
      case NestedEach(Some(sub)) =>
        if !IsEmpty(sub) && field.value.Repeated? {
          NamedPartIsRetained(p, field.value);
        }
      case _ =>
    }
  }

  /** The filter does not descend into the occurrences of a repeated element, at any depth. */
  predicate NoPopulatedEach(e: Elements) {
    forall i :: 0 <= i < |e.parts| ==>
      match e.parts[i]
      case Nested(Some(sub)) => IsEmpty(sub) || NoPopulatedEach(sub)
      case NestedEach(Some(sub)) => IsEmpty(sub)
      case _ => true
  }

  lemma {:induction false} RepetitionsAreKept(e: Elements, v: Value)
    requires NoPopulatedEach(e)
    ensures RepetitionsKept(e, v)
  {
    if v.Record? && |v.fields| == |e.parts| {
      forall i | 0 <= i < |v.fields| ensures PartKept(e.parts[i], v.fields[i]) {
        match e.parts[i]
        case Nested(Some(sub)) =>
          if !IsEmpty(sub) && v.fields[i].Some? {
            RepetitionsAreKept(sub, v.fields[i].value);
          }
        case _ =>
      }
    }
  }

  /** Such a filter's parts always merge back, whatever the value. */
  lemma PlainFiltersMergeBack(e: Elements, v: Value)
    requires NoPopulatedEach(e)
    ensures Merge(ClearFrom(e, v), RetainIn(e, v)) == v && Merge(v, RetainIn(e, v)) == v
  {
    RepetitionsAreKept(e, v);
    SplitMergesBack(e, v);
    RetainedMergesBack(e, v);
  }

  /** A selectors filter, aligned with the fields of the entry it selects. */
  datatype Selectors = Selectors(wanted: seq<Option<Value>>, intervals: seq<Option<Value>>)
  {
    /** Every element the filter sets is equal in the entry; intervals are not looked at. */
    predicate Matches(v: Value) {
      forall i :: 0 <= i < |wanted| && wanted[i].Some? ==>
        v.Record? && i < |v.fields| && v.fields[i] == wanted[i]
    }

    predicate UsesUnsupported() {
      exists i :: 0 <= i < |intervals| && intervals[i].Some?
    }
  }
}
