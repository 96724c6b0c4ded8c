/**
 What a delete and a partial read make of a list, entry by entry: which entries stay and in what
 order, and which of their elements.
 */
module EntryDeletes {
  import opened Wrappers
  import opened Sequences
  import opened Model
  import opened Filters
  import opened FilterPaths
  import opened Entries
  import opened EntryLaws

  /** Deleting leaves exactly the entries not addressed, each where it was among the others. */
  lemma {:induction false} WithoutAreTheRest(ids: seq<nat>, a: Address, l: seq<Value>) returns (at: seq<nat>)
    ensures PickedAt(at, l, Without(ids, a, l))
    ensures forall i :: 0 <= i < |l| ==> (i in at <==> !Addresses(ids, a, l[i]))
  {
    hide Addresses;
    if l == [] {
      at := [];
    } else {
      var rest := WithoutAreTheRest(ids, a, l[1..]);
      at := PickedNext(rest, l, Without(ids, a, l[1..]), !Addresses(ids, a, l[0]));
    }
  }

  lemma {:induction false} AddressedAreThose(ids: seq<nat>, a: Address, l: seq<Value>) returns (at: seq<nat>)
    ensures PickedAt(at, l, Addressed(ids, a, l))
    ensures forall i :: 0 <= i < |l| ==> (i in at <==> Addresses(ids, a, l[i]))
  {
    hide Addresses;
    if l == [] {
      at := [];
    } else {
      var rest := AddressedAreThose(ids, a, l[1..]);
      at := PickedNext(rest, l, Addressed(ids, a, l[1..]), Addresses(ids, a, l[0]));
    }
  }

  // ---- whom a command addresses ----------------------------------------------------------

  /** The entry has every value the selectors ask for. */
  predicate Picks(selectors: Selectors, v: Value) {
    forall i :: 0 <= i < |selectors.wanted| && selectors.wanted[i].Some? ==>
      At(v, [Into(i)]) == selectors.wanted[i]
  }

  lemma MatchesIsPicks(selectors: Selectors, v: Value)
    ensures selectors.Matches(v) <==> Picks(selectors, v)
  {
    forall i | 0 <= i < |selectors.wanted|
      ensures At(v, [Into(i)]) == if v.Record? && i < |v.fields| then v.fields[i] else None
    {
      assert [Into(i)][1..] == [];
    }
  }

  /** Selectors that ask for the identifying elements of an entry. */
  function SelectorsFor(ids: seq<nat>, v: Value): Selectors
    requires HasIdentity(ids, v)
  {
    Selectors(seq(|v.fields|, i requires 0 <= i < |v.fields| => if i in ids then v.fields[i] else None), [])
  }

  /** They address the very entries that naming that entry addresses. */
  lemma SelectingIsNaming(ids: seq<nat>, v: Value, w: Value)
    requires ids != [] && HasIdentity(ids, v)
    ensures Addresses(ids, BySelectors(SelectorsFor(ids, v)), w) <==> Addresses(ids, ByName([v]), w)
  {
    var s := SelectorsFor(ids, v);
    assert [v][0] == v;
    if s.Matches(w) {
      assert s.wanted[ids[0]].Some?;
      forall k | 0 <= k < |ids| ensures ids[k] < |w.fields| && w.fields[ids[k]] == v.fields[ids[k]] {
        assert s.wanted[ids[k]].Some?;
      }
      assert HasIdentity(ids, w);
      assert IdentityOf(ids, v) == IdentityOf(ids, w);
    }
    if SameEntry(ids, v, w) {
      forall i | 0 <= i < |s.wanted| && s.wanted[i].Some? ensures i < |w.fields| && w.fields[i] == s.wanted[i] {
        SharedField(ids, v, w, i);
      }
    }
  }

  predicate NamedIn(ids: seq<nat>, named: seq<Value>, v: Value) {
    exists n :: 0 <= n < |named| && SameEntry(ids, named[n], v)
  }

  /**
   Whom a delete is about: the entries the selectors pick, or without selectors those the payload
   names; a payload that names nothing stands for all entries, where only some elements go.
   */
  predicate Concerns(ids: seq<nat>, update: Option<seq<Value>>, selectors: Option<Selectors>, elements: Option<Elements>, v: Value) {
    var named := update.UnwrapOr([]);
    if selectors.Some? then Picks(selectors.value, v)
    else (elements.Some? && named == []) || NamedIn(ids, named, v)
  }

  // ---- which elements stay ----------------------------------------------------------------

  /** The path leads into an identifying element. */
  predicate Identifying(ids: seq<nat>, path: seq<Turn>) {
    path != [] && path[0].Into? && path[0].i in ids
  }

  lemma RestoredAt(ids: seq<nat>, v: Value, cut: Value, path: seq<Turn>, kept: bool)
    requires LeftAt(v, cut, path, kept) && v.Record? && cut.Record? && |v.fields| == |cut.fields|
    requires path == [] ==> kept
    ensures LeftAt(v, RestoreIdentity(ids, cut, v), path, kept || Identifying(ids, path))
  {
    if path != [] && path[0].Into? && path[0].i < |v.fields| {
      var i := path[0].i;
      assert RestoreIdentity(ids, cut, v).fields[i] == if i in ids then v.fields[i] else cut.fields[i];
    }
  }

  /** An addressed entry keeps what identifies it and loses exactly the other elements named. */
  lemma ClearedEntryAt(ids: seq<nat>, e: Elements, v: Value, path: seq<Turn>)
    ensures LeftAt(v, Cleared(ids, e, v), path, !NamesAt(e, v, path) || Identifying(ids, path))
  {
    ClearedAt(e, v, path);
    if Fits(e, v) {
      RestoredAt(ids, v, ClearFrom(e, v), path, !NamesAt(e, v, path));
    } else {
      RestoredWhole(ids, v);
    }
  }

  lemma RestoredWhole(ids: seq<nat>, v: Value)
    ensures RestoreIdentity(ids, v, v) == v
  {
    if v.Record? {
      assert RestoreIdentity(ids, v, v).fields == v.fields;
    }
  }

  /** An entry read keeps what identifies it and exactly the other elements spared. */
  lemma RetainedEntryAt(ids: seq<nat>, e: Elements, v: Value, path: seq<Turn>)
    ensures LeftAt(v, Retained(ids, e, v), path, SparesAt(e, v, path) || Identifying(ids, path))
  {
    RetainedAt(e, v, path);
    if Fits(e, v) {
      RestoredAt(ids, v, RetainIn(e, v), path, SparesAt(e, v, path));
    } else {
      RestoredWhole(ids, v);
    }
  }

  // ---- the lists -------------------------------------------------------------------------------

  ghost predicate ClearedEverywhere(ids: seq<nat>, e: Elements, v: Value, w: Value) {
    forall path :: LeftAt(v, w, path, !NamesAt(e, v, path) || Identifying(ids, path))
  }

  ghost predicate RetainedEverywhere(ids: seq<nat>, e: Elements, v: Value, w: Value) {
    forall path :: LeftAt(v, w, path, SparesAt(e, v, path) || Identifying(ids, path))
  }

  /** Clearing by address touches no other entry, and moves none. */
  lemma ClearedListIs(ids: seq<nat>, a: Address, e: Elements, l: seq<Value>)
    ensures |ClearedAll(ids, a, e, l)| == |l|
    ensures forall i :: 0 <= i < |l| ==>
              if Addresses(ids, a, l[i]) then ClearedEverywhere(ids, e, l[i], ClearedAll(ids, a, e, l)[i])
              else ClearedAll(ids, a, e, l)[i] == l[i]
  {
    hide Addresses, LeftAt, NamesAt, Cleared;
    forall i | 0 <= i < |l| && Addresses(ids, a, l[i])
      ensures ClearedEverywhere(ids, e, l[i], ClearedAll(ids, a, e, l)[i])
    {
      forall path {
        ClearedEntryAt(ids, e, l[i], path);
      }
    }
  }

  /** A partial read answers with exactly the selected entries, in order, each cut down to what is asked for. */
  lemma RestrictedAre(ids: seq<nat>, a: Address, e: Option<Elements>, l: seq<Value>) returns (at: seq<nat>)
    ensures |Restricted(ids, a, e, l)| == |at|
    ensures forall k, m :: 0 <= k < m < |at| ==> at[k] < at[m]
    ensures forall k :: 0 <= k < |at| ==> at[k] < |l|
    ensures forall i :: 0 <= i < |l| ==> (i in at <==> Addresses(ids, a, l[i]))
    ensures forall k :: 0 <= k < |at| ==>
              if e.None? then Restricted(ids, a, e, l)[k] == l[at[k]]
              else RetainedEverywhere(ids, e.value, l[at[k]], Restricted(ids, a, e, l)[k])
  {
    at := AddressedAreThose(ids, a, l);
    hide Addresses, LeftAt, SparesAt, Retained, Addressed;
    if e.Some? {
      forall k | 0 <= k < |at| ensures RetainedEverywhere(ids, e.value, l[at[k]], Restricted(ids, a, e, l)[k]) {
        forall path {
          RetainedEntryAt(ids, e.value, l[at[k]], path);
        }
      }
    }
  }

  lemma ConcernsIs(ids: seq<nat>, update: Option<seq<Value>>, selectors: Option<Selectors>, elements: Option<Elements>, v: Value)
    ensures selectors.None? && elements.None? ==>
              (Concerns(ids, update, selectors, elements, v) <==> Addresses(ids, ByName(update.UnwrapOr([])), v))
    ensures selectors.Some? ==>
              (Concerns(ids, update, selectors, elements, v) <==> Addresses(ids, BySelectors(selectors.value), v))
    ensures selectors.None? && elements.Some? ==>
              (Concerns(ids, update, selectors, elements, v) <==> Addresses(ids, AddressOf(update.UnwrapOr([])), v))
  {
    if selectors.Some? {
      MatchesIsPicks(selectors.value, v);
    }
    hide Picks;
  }

  /** A delete without an elements filter removes the entries it concerns, and leaves the others in order. */
  lemma DeletedAreGone(ids: seq<nat>, l: seq<Value>, update: Option<seq<Value>>, selectors: Option<Selectors>) returns (at: seq<nat>)
    ensures var after := AfterDelete(ids, l, update, selectors, None); after.Some? && PickedAt(at, l, after.value)
    ensures forall i :: 0 <= i < |l| ==> (i in at <==> !Concerns(ids, update, selectors, None, l[i]))
  {
    forall i | 0 <= i < |l| {
      ConcernsIs(ids, update, selectors, None, l[i]);
    }
    hide Concerns, Addresses, Without;
    if selectors.Some? {
      at := WithoutAreTheRest(ids, BySelectors(selectors.value), l);
    } else {
      at := WithoutAreTheRest(ids, ByName(update.UnwrapOr([])), l);
      if update.None? {
        NobodyNamed(ids, l);
      }
    }
  }

  lemma {:induction false} NobodyNamed(ids: seq<nat>, l: seq<Value>)
    ensures Without(ids, ByName([]), l) == l
  {
    if l != [] {
      NobodyNamed(ids, l[1..]);
    }
  }

  /** A delete with one removes no entry, and from those it concerns exactly the elements named. */
  lemma DeletedPartsAreGone(ids: seq<nat>, l: seq<Value>, update: Option<seq<Value>>, selectors: Option<Selectors>, e: Elements)
    ensures var after := AfterDelete(ids, l, update, selectors, Some(e));
            && after.Some? && |after.value| == |l|
            && forall i :: 0 <= i < |l| ==>
                 if Concerns(ids, update, selectors, Some(e), l[i]) then ClearedEverywhere(ids, e, l[i], after.value[i])
                 else after.value[i] == l[i]
  {
    forall i | 0 <= i < |l| {
      ConcernsIs(ids, update, selectors, Some(e), l[i]);
    }
    hide Concerns, Addresses, ClearedEverywhere, ClearedAll;
    ClearedListIs(ids, if selectors.Some? then BySelectors(selectors.value) else AddressOf(update.UnwrapOr([])), e, l);
  }

  /** Deleting what an update names and then applying it leaves the entries not named, and the update after them. */
  lemma DeleteThenApplyIs(ids: seq<nat>, l: seq<Value>, u: seq<Value>) returns (at: seq<nat>, rest: seq<Value>)
    requires Distinct(ids, u)
    ensures PickedAt(at, l, rest)
    ensures forall i :: 0 <= i < |l| ==> (i in at <==> !NamedIn(ids, u, l[i]))
    ensures Apply(ids, Without(ids, ByName(u), l), u) == rest + u
  {
    at := WithoutAreTheRest(ids, ByName(u), l);
    rest := Without(ids, ByName(u), l);
    DeleteThenApplyReplaces(ids, l, u);
  }
}
