/**
 What an elements filter clears and what it retains, element by element: a path into a value says
 where an element is, and the filter says of each path whether it is addressed.
 */
module FilterPaths {
  import opened Wrappers
  import opened Model
  import opened Filters

  /** A field of a record, or an occurrence of a repeated element. */
  datatype Turn = Into(i: nat) | Item(k: nat)

  /** What a value is before its parts are looked at. */
  datatype Top = RecordOf(fields: nat) | RepeatedOf(items: nat) | Atom(value: Value)

  function TopOf(v: Value): Top {
    match v
    case Record(fields) => RecordOf(|fields|)
    case Repeated(items) => RepeatedOf(|items|)
    case _ => Atom(v)
  }

  /** The element at a path, if there is one. */
  function At(v: Value, path: seq<Turn>): Option<Value>
    decreases |path|
  {
    if path == [] then Some(v)
    else
      match path[0]
      case Into(i) =>
        if v.Record? && i < |v.fields| && v.fields[i].Some? then At(v.fields[i].value, path[1..]) else None
      case Item(k) =>
        if v.Repeated? && k < |v.items| then At(v.items[k], path[1..]) else None
  }

  /** The filter is one for records like this. */
  predicate Fits(e: Elements, v: Value) {
    v.Record? && |v.fields| == |e.parts|
  }

  /** The filter names the element at the path, or one the path leads through. */
  predicate NamesAt(e: Elements, v: Value, path: seq<Turn>)
    decreases |path|, 0
  {
    && Fits(e, v) && path != [] && path[0].Into? && path[0].i < |e.parts| && v.fields[path[0].i].Some?
    && NamesPartAt(e.parts[path[0].i], v.fields[path[0].i].value, path[1..])
  }

  predicate NamesPartAt(p: Part, v: Value, rest: seq<Turn>)
    decreases |rest|, 1
  {
    match p
    case Leaf(named) => named
    case Nested(Some(sub)) => IsEmpty(sub) || NamesAt(sub, v, rest)
    case NestedEach(Some(sub)) =>
      IsEmpty(sub)
      || (v.Repeated? && rest != [] && rest[0].Item? && rest[0].k < |v.items| && NamesAt(sub, v.items[rest[0].k], rest[1..]))
    case _ => false
  }

  /**
   The element at the path is one to keep: named, on the way to one that may be, or out of the
   filter's reach.
   */
  predicate SparesAt(e: Elements, v: Value, path: seq<Turn>)
    decreases |path|, 0
  {
    || !Fits(e, v) || path == []
    || (path[0].Into? && path[0].i < |e.parts| && v.fields[path[0].i].Some?
        && SparesPartAt(e.parts[path[0].i], v.fields[path[0].i].value, path[1..]))
  }

  predicate SparesPartAt(p: Part, v: Value, rest: seq<Turn>)
    decreases |rest|, 1
  {
    match p
    case Unmapped(_) => true
    case Leaf(named) => named
    case Nested(Some(sub)) => IsEmpty(sub) || SparesAt(sub, v, rest)
    case NestedEach(Some(sub)) =>
      IsEmpty(sub) || !v.Repeated? || rest == []
      || (rest[0].Item? && rest[0].k < |v.items| && SparesAt(sub, v.items[rest[0].k], rest[1..]))
    case _ => false
  }

  /** Of the same elements, those the condition holds of are left as they were. */
  predicate LeftAt(before: Value, after: Value, path: seq<Turn>, kept: bool) {
    && (At(after, path).Some? <==> At(before, path).Some? && kept)
    && (At(after, path).Some? ==> TopOf(At(after, path).value) == TopOf(At(before, path).value))
  }

  // ---- clearing -------------------------------------------------------------------------

  /** After a clear an element is there exactly if it was and the filter does not name it, at every depth. */
  lemma {:induction false} ClearedAt(e: Elements, v: Value, path: seq<Turn>)
    ensures LeftAt(v, ClearFrom(e, v), path, !NamesAt(e, v, path))
    decreases |path|, 1
  {
    if Fits(e, v) && path != [] && path[0].Into? && path[0].i < |v.fields| {
      var i := path[0].i;
      assert ClearFrom(e, v).fields[i] == ClearPart(e.parts[i], v.fields[i]);
      if v.fields[i].Some? {
        ClearedPartAt(e.parts[i], v.fields[i].value, path[1..]);
      } else {
        NothingToClear(e.parts[i]);
      }
    }
  }

  lemma NothingToClear(p: Part)
    ensures ClearPart(p, None) == None
  {
  }

  predicate PartLeftAt(before: Value, after: Option<Value>, rest: seq<Turn>, kept: bool) {
    if after.Some? then LeftAt(before, after.value, rest, kept) else !(At(before, rest).Some? && kept)
  }

  lemma {:induction false} ClearedPartAt(p: Part, v: Value, rest: seq<Turn>)
    ensures PartLeftAt(v, ClearPart(p, Some(v)), rest, !NamesPartAt(p, v, rest))
    decreases |rest|, 2
  {
    match p
    case Nested(Some(sub)) =>
      if !IsEmpty(sub) {
        ClearedAt(sub, v, rest);
      }
    case NestedEach(Some(sub)) =>
      if !IsEmpty(sub) && v.Repeated? && rest != [] && rest[0].Item? && rest[0].k < |v.items| {
        ClearedAt(sub, v.items[rest[0].k], rest[1..]);
      }
    case _ =>
  }

  // ---- retaining ------------------------------------------------------------------------

  /** After a read an element is there exactly if it was and the filter spares it, at every depth. */
  lemma {:induction false} RetainedAt(e: Elements, v: Value, path: seq<Turn>)
    ensures LeftAt(v, RetainIn(e, v), path, SparesAt(e, v, path))
    decreases |path|, 1
  {
    if Fits(e, v) && path != [] && path[0].Into? && path[0].i < |v.fields| {
      var i := path[0].i;
      assert RetainIn(e, v).fields[i] == RetainPart(e.parts[i], v.fields[i]);
      if v.fields[i].Some? {
        RetainedPartAt(e.parts[i], v.fields[i].value, path[1..]);
      } else {
        AbsentStaysAbsent(e.parts[i]);
      }
    }
  }

  lemma {:induction false} RetainedPartAt(p: Part, v: Value, rest: seq<Turn>)
    ensures PartLeftAt(v, RetainPart(p, Some(v)), rest, SparesPartAt(p, v, rest))
    decreases |rest|, 2
  {
    match p
    case Nested(Some(sub)) =>
      if !IsEmpty(sub) {
        RetainedAt(sub, v, rest);
      }
    case NestedEach(Some(sub)) =>
      if !IsEmpty(sub) && v.Repeated? && rest != [] && rest[0].Item? && rest[0].k < |v.items| {
        RetainedAt(sub, v.items[rest[0].k], rest[1..]);
      }
    case _ =>
  }

  // ---- the paths decide the value ------------------------------------------------------------

  ghost predicate SameEverywhere(a: Value, b: Value) {
    forall path :: LeftAt(a, b, path, true)
  }

  lemma AtField(v: Value, i: nat, path: seq<Turn>)
    requires v.Record? && i < |v.fields|
    ensures At(v, [Into(i)] + path) == if v.fields[i].Some? then At(v.fields[i].value, path) else None
  {
    assert ([Into(i)] + path)[1..] == path;
  }

  lemma AtItem(v: Value, k: nat, path: seq<Turn>)
    requires v.Repeated? && k < |v.items|
    ensures At(v, [Item(k)] + path) == At(v.items[k], path)
  {
    assert ([Item(k)] + path)[1..] == path;
  }

  lemma FieldsAgree(a: Value, b: Value, i: nat)
    requires SameEverywhere(a, b) && a.Record? && b.Record? && i < |a.fields| == |b.fields|
    ensures a.fields[i].Some? <==> b.fields[i].Some?
    ensures a.fields[i].Some? ==> SameEverywhere(a.fields[i].value, b.fields[i].value)
  {
    AtField(a, i, []);
    AtField(b, i, []);
    assert LeftAt(a, b, [Into(i)] + [], true);
    if a.fields[i].Some? {
      forall path ensures LeftAt(a.fields[i].value, b.fields[i].value, path, true) {
        AtField(a, i, path);
        AtField(b, i, path);
        assert LeftAt(a, b, [Into(i)] + path, true);
      }
    }
  }

  lemma ItemsAgree(a: Value, b: Value, k: nat)
    requires SameEverywhere(a, b) && a.Repeated? && b.Repeated? && k < |a.items| == |b.items|
    ensures SameEverywhere(a.items[k], b.items[k])
  {
    forall path ensures LeftAt(a.items[k], b.items[k], path, true) {
      AtItem(a, k, path);
      AtItem(b, k, path);
      assert LeftAt(a, b, [Item(k)] + path, true);
    }
  }

  /** Values that agree at every path are the same: nothing about a value escapes the two laws. */
  lemma {:induction false} PathsDecide(a: Value, b: Value)
    requires SameEverywhere(a, b)
    ensures a == b
    decreases a
  {
    assert LeftAt(a, b, [], true);
    match a
    case Record(f) =>
      forall i | 0 <= i < |f| ensures f[i] == b.fields[i] {
        FieldsAgree(a, b, i);
        if f[i].Some? {
          PathsDecide(f[i].value, b.fields[i].value);
        }
      }
      assert f == b.fields;
    case Repeated(items) =>
      forall k | 0 <= k < |items| ensures items[k] == b.items[k] {
        ItemsAgree(a, b, k);
        PathsDecide(items[k], b.items[k]);
      }
      assert items == b.items;
    case _ =>
  }
}
