/**
 Lists of identified entries: the partial and full updates, deletes and partial reads of
 src/model/rfe.rs. An entry is addressed by the values of its identifying fields.
 */
module Entries {
  import opened Wrappers
  import opened Sequences
  import opened Model
  import opened Merging
  import opened Filters

  type Identity = seq<Option<Value>>

  /** The fields that identify an entry, by position; `IDENTIFIER_FIELDS` is never empty. */
  predicate HasIdentity(ids: seq<nat>, v: Value) {
    v.Record? && forall k :: 0 <= k < |ids| ==> ids[k] < |v.fields| && v.fields[ids[k]].Some?
  }

  function IdentityOf(ids: seq<nat>, v: Value): Identity
    requires HasIdentity(ids, v)
  {
    seq(|ids|, k requires 0 <= k < |ids| => v.fields[ids[k]])
  }

  predicate SameEntry(ids: seq<nat>, a: Value, b: Value) {
    HasIdentity(ids, a) && HasIdentity(ids, b) && IdentityOf(ids, a) == IdentityOf(ids, b)
  }

  function RestoreIdentity(ids: seq<nat>, v: Value, from: Value): Value {
    if v.Record? && from.Record? && |v.fields| == |from.fields| then
      Record(seq(|v.fields|, i requires 0 <= i < |v.fields| =>
        if i in ids then from.fields[i] else v.fields[i]))
    else v
  }

  // ---- the operations on values ------------------------------------------------

  /** Where the entry `x` identifies is first stored, or the length of the list. */
  function Find(ids: seq<nat>, l: seq<Value>, x: Value): (i: nat)
    ensures i <= |l|
    ensures i < |l| ==> SameEntry(ids, l[i], x)
    ensures forall j :: 0 <= j < i ==> !SameEntry(ids, l[j], x)
  {
    if l == [] then 0 else if SameEntry(ids, l[0], x) then 0 else 1 + Find(ids, l[1..], x)
  }

  function Upsert(ids: seq<nat>, l: seq<Value>, x: Value): (r: seq<Value>)
    ensures |l| <= |r|
  {
    var i := Find(ids, l, x);
    if i < |l| then l[i := Merge(l[i], x)] else l + [x]
  }

  /** A partial update: each incoming entry merges into the one it identifies, or is appended. */
  function Apply(ids: seq<nat>, l: seq<Value>, u: seq<Value>): seq<Value>
    decreases |u|
  {
    if u == [] then l else Apply(ids, Upsert(ids, l, u[0]), u[1..])
  }

  /** How a command addresses entries: by its payload's identifiers, or by a selectors filter. */
  datatype Address = All | ByName(targets: seq<Value>) | BySelectors(selectors: Selectors)

  predicate Addresses(ids: seq<nat>, a: Address, v: Value) {
    match a
    case All => true
    case ByName(targets) => exists i :: 0 <= i < |targets| && SameEntry(ids, targets[i], v)
    case BySelectors(selectors) => selectors.Matches(v)
  }

  /** `addresses_named`: a payload that names nothing addresses every entry. */
  function AddressOf(named: seq<Value>): Address {
    if named == [] then All else ByName(named)
  }

  function Without(ids: seq<nat>, a: Address, l: seq<Value>): seq<Value> {
    if l == [] then []
    else (if Addresses(ids, a, l[0]) then [] else [l[0]]) + Without(ids, a, l[1..])
  }

  function Addressed(ids: seq<nat>, a: Address, l: seq<Value>): seq<Value> {
    if l == [] then []
    else (if Addresses(ids, a, l[0]) then [l[0]] else []) + Addressed(ids, a, l[1..])
  }

  function Cleared(ids: seq<nat>, e: Elements, v: Value): Value {
    RestoreIdentity(ids, ClearFrom(e, v), v)
  }

  function Retained(ids: seq<nat>, e: Elements, v: Value): Value {
    RestoreIdentity(ids, RetainIn(e, v), v)
  }

  function ClearedAll(ids: seq<nat>, a: Address, e: Elements, l: seq<Value>): seq<Value> {
    seq(|l|, i requires 0 <= i < |l| => if Addresses(ids, a, l[i]) then Cleared(ids, e, l[i]) else l[i])
  }

  function RetainedAll(ids: seq<nat>, e: Option<Elements>, l: seq<Value>): seq<Value> {
    if e.None? then l
    else seq(|l|, i requires 0 <= i < |l| => Retained(ids, e.value, l[i]))
  }

  /** A partial read: the selected entries, cut down to what the elements filter retains. */
  function Restricted(ids: seq<nat>, a: Address, e: Option<Elements>, l: seq<Value>): seq<Value> {
    RetainedAll(ids, e, Addressed(ids, a, l))
  }

  function AfterDelete(ids: seq<nat>, l: seq<Value>, update: Option<seq<Value>>,
                       selectors: Option<Selectors>, elements: Option<Elements>): Option<seq<Value>>
  {
    if selectors.None? && elements.None? then
      if update.None? then Some(l) else Some(Without(ids, ByName(update.value), l))
    else
      var a := if selectors.Some? then BySelectors(selectors.value) else AddressOf(update.UnwrapOr([]));
      Some(if elements.Some? then ClearedAll(ids, a, elements.value, l) else Without(ids, a, l))
  }

  // ---- the stored list, updated in place -----------------------------------------

  class EntryList {
    const ids: seq<nat>
    var entries: Option<seq<Value>>

    constructor (ids: seq<nat>, entries: Option<seq<Value>>)
      ensures this.ids == ids && this.entries == entries
    {
      this.ids := ids;
      this.entries := entries;
    }

    method ApplyFull(update: Option<seq<Value>>)
      modifies this
      ensures entries == update
    {
      entries := update;
    }

    method ApplyPartial(update: Option<seq<Value>>)
      modifies this
      ensures entries == if update.None? then old(entries)
                         else Some(Apply(ids, old(entries).UnwrapOr([]), update.value))
    {
      if update.None? {
        return;
      }
      var incoming := update.value;
      var list := entries.UnwrapOr([]);
      for n := 0 to |incoming|
        invariant Apply(ids, list, incoming[n..]) == Apply(ids, old(entries).UnwrapOr([]), incoming)
      {
        var item := incoming[n];
        var i := FindEntry(list, item);
        assert incoming[n..][1..] == incoming[n + 1..];
        if i < |list| {
          list := list[i := Merge(list[i], item)];
        } else {
          list := list + [item];
        }
      }
      entries := Some(list);
    }

    method FindEntry(list: seq<Value>, item: Value) returns (i: nat)
      ensures i == Find(ids, list, item)
    {
      i := 0;
      while i < |list| && !SameEntry(ids, list[i], item)
        invariant i <= |list|
        invariant forall j :: 0 <= j < i ==> !SameEntry(ids, list[j], item)
      {
        i := i + 1;
      }
    }

    /** Drops the entries addressed and keeps the others in order. */
    method DeleteAddressed(a: Address)
      modifies this
      ensures entries == if old(entries).None? then None else Some(Without(ids, a, old(entries).value))
    {
      if entries.None? {
        return;
      }
      var list := entries.value;
      var kept: seq<Value> := [];
      for n := 0 to |list|
        invariant kept + Without(ids, a, list[n..]) == Without(ids, a, list)
      {
        Tail(list, n);
        Moves(kept, list[n], Without(ids, a, list[n + 1..]));
        if !Addresses(ids, a, list[n]) {
          kept := kept + [list[n]];
        }
      }
      assert kept + [] == kept;
      entries := Some(kept);
    }

    method DeleteEntries(update: Option<seq<Value>>)
      modifies this
      ensures entries == if old(entries).None? || update.None? then old(entries)
                         else Some(Without(ids, ByName(update.value), old(entries).value))
    {
      if update.Some? {
        DeleteAddressed(ByName(update.value));
      }
    }

    method ClearAddressed(a: Address, elements: Elements)
      modifies this
      ensures entries == if old(entries).None? then None
                         else Some(ClearedAll(ids, a, elements, old(entries).value))
    {
      if entries.None? {
        return;
      }
      var list := entries.value;
      for n := 0 to |list|
        invariant |list| == |old(entries).value|
        invariant forall i :: 0 <= i < n ==>
          list[i] == ClearedAll(ids, a, elements, old(entries).value)[i]
        invariant forall i :: n <= i < |list| ==> list[i] == old(entries).value[i]
      {
        if Addresses(ids, a, list[n]) {
          var identity := list[n];
          list := list[n := RestoreIdentity(ids, ClearFrom(elements, identity), identity)];
        }
      }
      assert list == ClearedAll(ids, a, elements, old(entries).value);
      entries := Some(list);
    }

    /**
     `delete_restricted` for a list with both filters: selectors say which entries, an elements
     filter which parts of them; with neither, the payload's own entries go.
     */
    method DeleteRestricted(update: Option<seq<Value>>, selectors: Option<Selectors>, elements: Option<Elements>)
      returns (ok: bool)
      modifies this
      ensures ok == !(selectors.Some? && selectors.value.UsesUnsupported())
      ensures entries == if !ok || old(entries).None? then old(entries)
                         else AfterDelete(ids, old(entries).value, update, selectors, elements)
    {
      if selectors.None? && elements.None? {
        DeleteEntries(update);
        return true;
      }
      if selectors.Some? && selectors.value.UsesUnsupported() {
        return false;
      }
      var a := if selectors.Some? then BySelectors(selectors.value) else AddressOf(update.UnwrapOr([]));
      if elements.Some? {
        ClearAddressed(a, elements.value);
      } else {
        DeleteAddressed(a);
      }
      ok := true;
    }

    /** `restrict_list`: refused when a selector cannot be matched by comparison. */
    method RestrictList(selectors: Option<Selectors>, elements: Option<Elements>) returns (r: Option<seq<Value>>)
      ensures r == if selectors.Some? && selectors.value.UsesUnsupported() then None
                   else Some(Restricted(ids, Chosen(selectors), elements, entries.UnwrapOr([])))
    {
      if selectors.Some? && selectors.value.UsesUnsupported() {
        return None;
      }
      var list := entries.UnwrapOr([]);
      var a := Chosen(selectors);
      var kept: seq<Value> := [];
      for n := 0 to |list|
        invariant kept + Addressed(ids, a, list[n..]) == Addressed(ids, a, list)
      {
        Tail(list, n);
        Moves(kept, list[n], Addressed(ids, a, list[n + 1..]));
        if Addresses(ids, a, list[n]) {
          kept := kept + [list[n]];
        }
      }
      assert kept + [] == kept;
      if elements.Some? {
        kept := CutDown(kept, elements.value);
      }
      r := Some(kept);
    }

    method CutDown(chosen: seq<Value>, elements: Elements) returns (kept: seq<Value>)
      ensures kept == RetainedAll(ids, Some(elements), chosen)
    {
      kept := chosen;
      for n := 0 to |kept|
        invariant |kept| == |chosen|
        invariant forall i :: 0 <= i < n ==> kept[i] == Retained(ids, elements, chosen[i])
        invariant forall i :: n <= i < |kept| ==> kept[i] == chosen[i]
      {
        var identity := kept[n];
        kept := kept[n := RestoreIdentity(ids, RetainIn(elements, identity), identity)];
      }
    }
  }

  function Chosen(selectors: Option<Selectors>): Address {
    if selectors.None? then All else BySelectors(selectors.value)
  }
}
