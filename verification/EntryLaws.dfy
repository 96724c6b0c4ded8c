/**
 What updates, deletes and partial reads of identified lists promise: an update acts on each
 identity alone, updates compose, and what a partial read returns can be written back.
 */
module EntryLaws {
  import opened Wrappers
  import opened Model
  import opened Merging
  import opened Filters
  import opened Entries

  predicate AllIdentified(ids: seq<nat>, l: seq<Value>) {
    forall i :: 0 <= i < |l| ==> HasIdentity(ids, l[i])
  }

  /** No two entries have the same identity; entries without one are never the same. */
  predicate Distinct(ids: seq<nat>, l: seq<Value>) {
    forall i, j :: 0 <= i < j < |l| ==> !SameEntry(ids, l[i], l[j])
  }

  lemma SameEntryIsSymmetric(ids: seq<nat>, a: Value, b: Value)
    ensures SameEntry(ids, a, b) <==> SameEntry(ids, b, a)
  {
  }

  /** Merging two records of the same entry leaves that entry's identity in place. */
  lemma MergeKeepsIdentity(ids: seq<nat>, a: Value, b: Value)
    requires SameEntry(ids, a, b)
    ensures HasIdentity(ids, Merge(a, b))
    ensures IdentityOf(ids, Merge(a, b)) == IdentityOf(ids, a)
  {
    if |a.fields| == |b.fields| {
      MergeIsFieldwise(a.fields, b.fields);
      forall k | 0 <= k < |ids|
        ensures Merge(a, b).fields[ids[k]] == a.fields[ids[k]]
      {
        assert IdentityOf(ids, a)[k] == IdentityOf(ids, b)[k];
        MergeIsIdempotent(a.fields[ids[k]].value);
      }
    }
  }

  lemma FindIs(ids: seq<nat>, l: seq<Value>, x: Value, i: nat)
    requires i < |l| && SameEntry(ids, l[i], x)
    requires forall j :: 0 <= j < i ==> !SameEntry(ids, l[j], x)
    ensures Find(ids, l, x) == i
  {
  }

  /** An update leaves the position and the identity of every stored entry alone. */
  lemma UpsertKeepsIdentities(ids: seq<nat>, l: seq<Value>, x: Value)
    ensures forall i :: 0 <= i < |l| ==> (HasIdentity(ids, Upsert(ids, l, x)[i]) <==> HasIdentity(ids, l[i]))
    ensures forall i :: 0 <= i < |l| && HasIdentity(ids, l[i]) ==>
              IdentityOf(ids, Upsert(ids, l, x)[i]) == IdentityOf(ids, l[i])
  {
    var i := Find(ids, l, x);
    if i < |l| {
      MergeKeepsIdentity(ids, l[i], x);
    }
  }

  lemma SameEntryFollowsIdentity(ids: seq<nat>, l: seq<Value>, x: Value, y: Value)
    ensures forall i :: 0 <= i < |l| ==>
              (SameEntry(ids, Upsert(ids, l, x)[i], y) <==> SameEntry(ids, l[i], y))
  {
    UpsertKeepsIdentities(ids, l, x);
  }

  lemma FindAfterUpsert(ids: seq<nat>, l: seq<Value>, x: Value, y: Value)
    ensures Find(ids, l, y) < |l| ==> Find(ids, Upsert(ids, l, x), y) == Find(ids, l, y)
    ensures SameEntry(ids, x, y) ==> Find(ids, Upsert(ids, l, x), y) == Find(ids, l, x)
    ensures !SameEntry(ids, x, y) && Find(ids, l, y) == |l| ==>
              Find(ids, Upsert(ids, l, x), y) == |Upsert(ids, l, x)|
  {
    var l' := Upsert(ids, l, x);
    SameEntryFollowsIdentity(ids, l, x, y);
    if Find(ids, l, y) < |l| {
      FindIs(ids, l', y, Find(ids, l, y));
    }
    if SameEntry(ids, x, y) {
      FindIs(ids, l', y, Find(ids, l, x));
    }
  }

  // ---- updates compose -----------------------------------------------------------

  /** Outside the identifying fields, which matched entries share, nothing merged can be forgotten. */
  predicate AssociatesOutside(ids: seq<nat>, t: Schema) {
    t.RecordType? ==> forall i :: 0 <= i < |t.slots| && i !in ids ==> SlotAssociates(t.slots[i])
  }

  lemma EntriesAssociate(t: Schema, ids: seq<nat>, a: Value, b: Value, c: Value)
    requires AssociatesOutside(ids, t) && HasType(t, a) && HasType(t, b) && HasType(t, c)
    requires SameEntry(ids, a, b) && SameEntry(ids, b, c)
    ensures Merge(Merge(a, b), c) == Merge(a, Merge(b, c))
  {
    var f, g, h := a.fields, b.fields, c.fields;
    var ab, bc := Merge(a, b).fields, Merge(b, c).fields;
    MergeIsFieldwise(f, g);
    MergeIsFieldwise(g, h);
    MergeIsFieldwise(ab, h);
    MergeIsFieldwise(f, bc);
    forall i | 0 <= i < |f| ensures MergeFields(ab[i], h[i]) == MergeFields(f[i], bc[i]) {
      if i in ids {
        SharedField(ids, a, b, i);
        SharedField(ids, b, c, i);
        MergeIsIdempotent(f[i].value);
      } else if f[i].Some? && g[i].Some? && h[i].Some? {
        SlotValuesAssociate(t.slots[i], f[i].value, g[i].value, h[i].value);
      }
    }
    hide MergeFields, HasType, AssociatesOutside, SameEntry;
    assert Merge(Merge(a, b), c).fields == Merge(a, Merge(b, c)).fields;
  }

  lemma SharedField(ids: seq<nat>, a: Value, b: Value, i: nat)
    requires SameEntry(ids, a, b) && i in ids
    ensures i < |a.fields| && i < |b.fields| && a.fields[i].Some? && a.fields[i] == b.fields[i]
  {
    var k :| 0 <= k < |ids| && ids[k] == i;
    assert IdentityOf(ids, a)[k] == IdentityOf(ids, b)[k];
  }

  lemma SlotValuesAssociate(slot: Slot, x: Value, y: Value, z: Value)
    requires SlotAssociates(slot)
    requires HasType(SlotType(slot), x) && HasType(SlotType(slot), y) && HasType(SlotType(slot), z)
    ensures Merge(Merge(x, y), z) == Merge(x, Merge(y, z))
  {
    MergeAssociates(SlotType(slot), x, y, z);
  }

  predicate AllOfType(t: Schema, l: seq<Value>) {
    forall i :: 0 <= i < |l| ==> HasType(t, l[i])
  }

  lemma UpsertKeepsType(t: Schema, ids: seq<nat>, l: seq<Value>, x: Value)
    requires AllOfType(t, l) && HasType(t, x)
    ensures AllOfType(t, Upsert(ids, l, x))
  {
    var i := Find(ids, l, x);
    if i < |l| {
      MergeKeepsType(t, l[i], x);
    }
  }

  /** Two updates of one entry are the single update that merges them. */
  lemma UpsertSameEntry(t: Schema, ids: seq<nat>, l: seq<Value>, e: Value, x: Value)
    requires AssociatesOutside(ids, t) && AllOfType(t, l) && HasType(t, e) && HasType(t, x)
    requires SameEntry(ids, e, x)
    ensures Upsert(ids, Upsert(ids, l, e), x) == Upsert(ids, l, Merge(e, x))
  {
    MergeKeepsIdentity(ids, e, x);
    FindAfterUpsert(ids, l, e, x);
    var i := Find(ids, l, e);
    if i < |l| {
      EntriesAssociate(t, ids, l[i], e, x);
      FindIs(ids, l, Merge(e, x), i);
    } else {
      assert Find(ids, l, Merge(e, x)) == |l|;
    }
  }

  /** Updates of two entries commute once one of them is stored. */
  lemma UpsertOtherEntry(ids: seq<nat>, l: seq<Value>, e: Value, x: Value)
    requires !SameEntry(ids, e, x) && Find(ids, l, x) < |l|
    ensures Upsert(ids, Upsert(ids, l, e), x) == Upsert(ids, Upsert(ids, l, x), e)
  {
    SameEntryIsSymmetric(ids, e, x);
    FindAfterUpsert(ids, l, e, x);
    FindAfterUpsert(ids, l, x, e);
    hide Merge, Find;
    var i, j := Find(ids, l, x), Find(ids, l, e);
    assert j < |l| ==> i != j;
    hide SameEntry;
    if j < |l| {
      assert l[j := Merge(l[j], e)][i := Merge(l[i], x)] == l[i := Merge(l[i], x)][j := Merge(l[j], e)];
    } else {
      assert (l + [e])[i := Merge(l[i], x)] == l[i := Merge(l[i], x)] + [e];
    }
  }

  lemma {:induction false} ApplyOneMore(ids: seq<nat>, l: seq<Value>, u: seq<Value>, x: Value)
    ensures Apply(ids, l, u + [x]) == Upsert(ids, Apply(ids, l, u), x)
    decreases |u|
  {
    if u == [] {
      assert [x][1..] == [];
    } else {
      assert (u + [x])[1..] == u[1..] + [x];
      ApplyOneMore(ids, Upsert(ids, l, u[0]), u[1..], x);
    }
  }

  lemma {:induction false} ApplyFinds(ids: seq<nat>, l: seq<Value>, u: seq<Value>, y: Value)
    requires Find(ids, u, y) < |u| || Find(ids, l, y) < |l|
    ensures Find(ids, Apply(ids, l, u), y) < |Apply(ids, l, u)|
    decreases |u|
  {
    if u != [] {
      FindAfterUpsert(ids, l, u[0], y);
      ApplyFinds(ids, Upsert(ids, l, u[0]), u[1..], y);
    }
  }

  lemma {:induction false} ApplyKeepsType(t: Schema, ids: seq<nat>, l: seq<Value>, u: seq<Value>)
    requires AllOfType(t, l) && AllOfType(t, u)
    ensures AllOfType(t, Apply(ids, l, u))
    decreases |u|
  {
    if u != [] {
      UpsertKeepsType(t, ids, l, u[0]);
      ApplyKeepsType(t, ids, Upsert(ids, l, u[0]), u[1..]);
    }
  }

  lemma UpsertAtEnd(ids: seq<nat>, front: seq<Value>, e: Value, x: Value)
    requires Find(ids, front + [e], x) == |front|
    ensures SameEntry(ids, e, x)
    ensures Upsert(ids, front + [e], x) == front + [Merge(e, x)]
  {
    assert (front + [e])[|front|] == e;
    hide Merge, SameEntry;
  }

  lemma UpsertBeforeEnd(ids: seq<nat>, front: seq<Value>, e: Value, x: Value)
    requires Distinct(ids, front + [e]) && Find(ids, front + [e], x) < |front|
    ensures Find(ids, front, x) < |front| && !SameEntry(ids, e, x)
    ensures Upsert(ids, front + [e], x) == Upsert(ids, front, x) + [e]
  {
    var i := Find(ids, front + [e], x);
    assert forall j :: 0 <= j < |front| ==> (front + [e])[j] == front[j];
    FindIs(ids, front, x, i);
    assert !SameEntry(ids, (front + [e])[i], (front + [e])[|front|]);
    assert !SameEntry(ids, e, x);
    hide Merge, SameEntry;
    assert (front + [e])[i := Merge(front[i], x)] == front[i := Merge(front[i], x)] + [e];
  }

  /** One entry merged into an update before it is applied, or after: the same list. */
  lemma {:induction false} ApplyUpserted(t: Schema, ids: seq<nat>, l: seq<Value>, u: seq<Value>, x: Value)
    requires AssociatesOutside(ids, t) && AllOfType(t, l) && AllOfType(t, u) && HasType(t, x)
    requires Distinct(ids, u)
    ensures Apply(ids, l, Upsert(ids, u, x)) == Upsert(ids, Apply(ids, l, u), x)
    decreases |u|
  {
    hide Merge, HasType, SameEntry, AssociatesOutside, Apply, Upsert, Find, Distinct;
    var i := Find(ids, u, x);
    if i == |u| {
      UpsertsNew(ids, u, x);
      ApplyOneMore(ids, l, u, x);
    } else {
      var front, e := u[..|u| - 1], u[|u| - 1];
      assert u == front + [e];
      forall k | 0 <= k < |front| ensures HasType(t, front[k]) {
        assert HasType(t, u[k]);
      }
      assert HasType(t, e);
      if i == |front| {
        ApplyUpsertedAtEnd(t, ids, l, front, e, x);
      } else {
        DistinctFront(ids, front, e);
        ApplyUpserted(t, ids, l, front, x);
        ApplyUpsertedBeforeEnd(ids, l, front, e, x);
      }
    }
  }

  lemma DistinctFront(ids: seq<nat>, front: seq<Value>, e: Value)
    requires Distinct(ids, front + [e])
    ensures Distinct(ids, front)
  {
    hide SameEntry;
    assert forall i :: 0 <= i < |front| ==> (front + [e])[i] == front[i];
  }

  lemma ApplyUpsertedAtEnd(t: Schema, ids: seq<nat>, l: seq<Value>, front: seq<Value>, e: Value, x: Value)
    requires AssociatesOutside(ids, t) && AllOfType(t, l) && AllOfType(t, front) && HasType(t, e) && HasType(t, x)
    requires Find(ids, front + [e], x) == |front|
    ensures Apply(ids, l, Upsert(ids, front + [e], x)) == Upsert(ids, Apply(ids, l, front + [e]), x)
  {
    hide Merge, HasType, SameEntry, AssociatesOutside, Apply, Upsert;
    UpsertAtEnd(ids, front, e, x);
    ApplyKeepsType(t, ids, l, front);
    ApplyOneMore(ids, l, front, e);
    ApplyOneMore(ids, l, front, Merge(e, x));
    UpsertSameEntry(t, ids, Apply(ids, l, front), e, x);
  }

  lemma ApplyUpsertedBeforeEnd(ids: seq<nat>, l: seq<Value>, front: seq<Value>, e: Value, x: Value)
    requires Distinct(ids, front + [e]) && Find(ids, front + [e], x) < |front|
    requires Apply(ids, l, Upsert(ids, front, x)) == Upsert(ids, Apply(ids, l, front), x)
    ensures Apply(ids, l, Upsert(ids, front + [e], x)) == Upsert(ids, Apply(ids, l, front + [e]), x)
  {
    hide Merge, HasType, SameEntry, Apply, Upsert;
    UpsertBeforeEnd(ids, front, e, x);
    ApplyOneMore(ids, l, front, e);
    ApplyOneMore(ids, l, Upsert(ids, front, x), e);
    ApplyFinds(ids, l, front, x);
    UpsertOtherEntry(ids, Apply(ids, l, front), e, x);
  }

  lemma UpsertsNew(ids: seq<nat>, l: seq<Value>, x: Value)
    requires Find(ids, l, x) == |l|
    ensures Upsert(ids, l, x) == l + [x]
  {
  }

  lemma UpsertKeepsDistinct(ids: seq<nat>, l: seq<Value>, x: Value)
    requires Distinct(ids, l)
    ensures Distinct(ids, Upsert(ids, l, x))
  {
    var l' := Upsert(ids, l, x);
    forall i, j | 0 <= i < j < |l'| ensures !SameEntry(ids, l'[i], l'[j]) {
      SameEntryFollowsIdentity(ids, l, x, l'[j]);
      if j < |l| {
        SameEntryFollowsIdentity(ids, l, x, l[i]);
        SameEntryIsSymmetric(ids, l[i], l[j]);
        SameEntryIsSymmetric(ids, l[i], l'[j]);
      }
    }
  }

  lemma {:induction false} ApplyKeepsDistinct(ids: seq<nat>, l: seq<Value>, u: seq<Value>)
    requires Distinct(ids, l)
    ensures Distinct(ids, Apply(ids, l, u))
    decreases |u|
  {
    if u != [] {
      UpsertKeepsDistinct(ids, l, u[0]);
      ApplyKeepsDistinct(ids, Upsert(ids, l, u[0]), u[1..]);
    }
  }

  /**
   Partial updates compose: applying `u` and then `v` is applying, once, what `v` makes of `u`.
   The stored list may be anything, order included; only the update merged into is distinct.
   */
  lemma {:induction false} PartialUpdatesCompose(t: Schema, ids: seq<nat>, l: seq<Value>, u: seq<Value>, v: seq<Value>)
    requires AssociatesOutside(ids, t) && AllOfType(t, l) && AllOfType(t, u) && AllOfType(t, v)
    requires Distinct(ids, u)
    ensures Apply(ids, Apply(ids, l, u), v) == Apply(ids, l, Apply(ids, u, v))
    decreases |v|
  {
    if v != [] {
      ApplyUpserted(t, ids, l, u, v[0]);
      UpsertKeepsType(t, ids, u, v[0]);
      UpsertKeepsDistinct(ids, u, v[0]);
      PartialUpdatesCompose(t, ids, l, Upsert(ids, u, v[0]), v[1..]);
    }
  }

  ghost predicate AlwaysCompose(t: Schema, ids: seq<nat>) {
    forall l, u, v :: AllOfType(t, l) && AllOfType(t, u) && AllOfType(t, v) && Distinct(ids, u) ==>
      Apply(ids, Apply(ids, l, u), v) == Apply(ids, l, Apply(ids, u, v))
  }

  /** An entry with something in each of its identifying fields, and nothing else. */
  lemma {:induction false} SomeEntry(slots: seq<Slot>, ids: seq<nat>) returns (v: Value)
    requires Inhabited(RecordType(slots)) && forall k :: 0 <= k < |ids| ==> ids[k] < |slots|
    ensures HasType(RecordType(slots), v) && HasIdentity(ids, v)
    decreases |ids|
  {
    if ids == [] {
      v := Record(seq(|slots|, _ => None));
    } else {
      var n := |ids| - 1;
      var front := SomeEntry(slots, ids[..n]);
      assert InhabitedSlot(slots[ids[n]]);
      var x := SomeValueOfSlot(slots[ids[n]]);
      v := Record(front.fields[ids[n] := Some(x)]);
      forall k | 0 <= k < |ids| ensures v.fields[ids[k]].Some? {
        assert k < n ==> ids[..n][k] == ids[k];
      }
    }
  }

  function WithField(v: Value, i: nat, x: Value): Value
    requires v.Record? && i < |v.fields|
  {
    Record(v.fields[i := Some(x)])
  }

  lemma WithFieldIsEntry(slots: seq<Slot>, ids: seq<nat>, v: Value, i: nat, x: Value, y: Value)
    requires HasType(RecordType(slots), v) && HasIdentity(ids, v)
    requires i < |slots| && i !in ids && HasType(SlotType(slots[i]), x) && HasType(SlotType(slots[i]), y)
    ensures HasType(RecordType(slots), WithField(v, i, x))
    ensures SameEntry(ids, WithField(v, i, x), WithField(v, i, y))
    ensures Merge(WithField(v, i, x), WithField(v, i, y)) == WithField(v, i, Merge(x, y))
  {
    var a, b := WithField(v, i, x), WithField(v, i, y);
    MergeIsFieldwise(a.fields, b.fields);
    forall j | 0 <= j < |v.fields| ensures Merge(a, b).fields[j] == WithField(v, i, Merge(x, y)).fields[j] {
      if j != i && v.fields[j].Some? {
        MergeIsIdempotent(v.fields[j].value);
      }
    }
    assert Merge(a, b).fields == WithField(v, i, Merge(x, y)).fields;
  }

  lemma ApplyOne(ids: seq<nat>, a: Value, b: Value)
    requires SameEntry(ids, a, b)
    ensures Apply(ids, [a], [b]) == [Merge(a, b)]
  {
    FindIs(ids, [a], b, 0);
    assert [b][1..] == [];
    hide Merge, SameEntry;
  }

  /** One entry of each of three lists, alike but for one field, is enough to tell the groupings apart. */
  lemma ListsDisagree(slots: seq<Slot>, ids: seq<nat>, v: Value, i: nat, x: Value, y: Value, z: Value)
    requires HasType(RecordType(slots), v) && HasIdentity(ids, v)
    requires i < |slots| && i !in ids && Disagree(SlotType(slots[i]), x, y, z)
    ensures !AlwaysCompose(RecordType(slots), ids)
  {
    var t, s := RecordType(slots), SlotType(slots[i]);
    MergeKeepsType(s, x, y);
    MergeKeepsType(s, y, z);
    hide HasType, HasIdentity, SameEntry, Merge, WithField, AlwaysCompose, Apply;
    WithFieldIsEntry(slots, ids, v, i, x, y);
    WithFieldIsEntry(slots, ids, v, i, y, z);
    WithFieldIsEntry(slots, ids, v, i, z, z);
    WithFieldIsEntry(slots, ids, v, i, Merge(x, y), z);
    WithFieldIsEntry(slots, ids, v, i, x, Merge(y, z));
    var a, b, c := WithField(v, i, x), WithField(v, i, y), WithField(v, i, z);
    ApplyOne(ids, a, b);
    ApplyOne(ids, b, c);
    ApplyOne(ids, WithField(v, i, Merge(x, y)), c);
    ApplyOne(ids, a, WithField(v, i, Merge(y, z)));
    FieldsDiffer(v, i, Merge(Merge(x, y), z), Merge(x, Merge(y, z)));
    NotAlways(t, ids, a, b, c);
  }

  lemma FieldsDiffer(v: Value, i: nat, x: Value, y: Value)
    requires v.Record? && i < |v.fields| && x != y
    ensures WithField(v, i, x) != WithField(v, i, y)
  {
    assert WithField(v, i, x).fields[i] == Some(x);
    assert WithField(v, i, y).fields[i] == Some(y);
  }

  lemma NotAlways(t: Schema, ids: seq<nat>, a: Value, b: Value, c: Value)
    requires HasType(t, a) && HasType(t, b) && HasType(t, c)
    requires Apply(ids, Apply(ids, [a], [b]), [c]) != Apply(ids, [a], Apply(ids, [b], [c]))
    ensures !AlwaysCompose(t, ids)
  {
    hide HasType, SameEntry, Apply;
    assert AllOfType(t, [a]) && AllOfType(t, [b]) && AllOfType(t, [c]) && Distinct(ids, [b]);
  }

  /**
   Partial updates of entries of a type compose for all lists exactly when no element outside the
   identifying ones has a choice that forgets merged parts.
   */
  lemma CompositionIsDecidedByTheType(slots: seq<Slot>, ids: seq<nat>)
    requires Inhabited(RecordType(slots)) && forall k :: 0 <= k < |ids| ==> ids[k] < |slots|
    ensures AlwaysCompose(RecordType(slots), ids) <==> AssociatesOutside(ids, RecordType(slots))
  {
    var t := RecordType(slots);
    if AssociatesOutside(ids, t) {
      forall l, u, v | AllOfType(t, l) && AllOfType(t, u) && AllOfType(t, v) && Distinct(ids, u)
        ensures Apply(ids, Apply(ids, l, u), v) == Apply(ids, l, Apply(ids, u, v))
      {
        PartialUpdatesCompose(t, ids, l, u, v);
      }
    } else {
      var i :| 0 <= i < |slots| && i !in ids && !SlotAssociates(slots[i]);
      assert InhabitedSlot(slots[i]);
      var x, y, z := SlotDisagreement(slots[i]);
      var v := SomeEntry(slots, ids);
      hide AlwaysCompose, HasType, Disagree, HasIdentity;
      ListsDisagree(slots, ids, v, i, x, y, z);
    }
  }

  // ---- updates are idempotent ------------------------------------------------------

  lemma UpsertAbsorbs(ids: seq<nat>, l: seq<Value>, x: Value)
    requires Find(ids, l, x) < |l|
    ensures Upsert(ids, Upsert(ids, l, x), x) == Upsert(ids, l, x)
  {
    FindAfterUpsert(ids, l, x, x);
    MergeAbsorbs(l[Find(ids, l, x)], x);
  }

  lemma FindSame(ids: seq<nat>, l: seq<Value>, x: Value, u: Value)
    requires Find(ids, l, x) < |l| && SameEntry(ids, u, x)
    ensures Find(ids, l, u) == Find(ids, l, x)
  {
    SameEntryIsSymmetric(ids, u, x);
    FindIs(ids, l, u, Find(ids, l, x));
  }

  lemma UpsertSameAgain(ids: seq<nat>, l: seq<Value>, x: Value, u: Value)
    requires Find(ids, l, x) < |l| && SameEntry(ids, u, x)
    ensures Upsert(ids, Upsert(ids, Upsert(ids, l, x), u), x) == Upsert(ids, Upsert(ids, l, u), x)
  {
    hide Merge, Find, SameEntry;
    var i := Find(ids, l, x);
    FindSame(ids, l, x, u);
    FindAfterUpsert(ids, l, x, u);
    FindAfterUpsert(ids, l, u, x);
    FindAfterUpsert(ids, l, x, x);
    FindAfterUpsert(ids, Upsert(ids, l, x), u, x);
    EarlierMergeIsRepeated(l[i], x, u);
  }

  /** Updating a stored entry earlier as well makes no difference once it is updated again. */
  lemma UpsertAgain(ids: seq<nat>, l: seq<Value>, x: Value, u: Value)
    requires Find(ids, l, x) < |l|
    ensures Upsert(ids, Upsert(ids, Upsert(ids, l, x), u), x) == Upsert(ids, Upsert(ids, l, u), x)
  {
    hide Upsert, Find, SameEntry;
    if SameEntry(ids, u, x) {
      UpsertSameAgain(ids, l, x, u);
    } else {
      FindAfterUpsert(ids, l, x, x);
      UpsertOtherEntry(ids, l, u, x);
      UpsertOtherEntry(ids, Upsert(ids, l, x), u, x);
      UpsertAbsorbs(ids, l, x);
    }
  }

  lemma {:induction false} ApplyAgain(ids: seq<nat>, l: seq<Value>, us: seq<Value>, x: Value)
    requires Find(ids, l, x) < |l|
    ensures Upsert(ids, Apply(ids, Upsert(ids, l, x), us), x) == Upsert(ids, Apply(ids, l, us), x)
    decreases |us|
  {
    hide Upsert, Find;
    if us == [] {
      UpsertAbsorbs(ids, l, x);
    } else {
      var u, rest := us[0], us[1..];
      FindAfterUpsert(ids, l, x, x);
      FindAfterUpsert(ids, l, u, x);
      FindAfterUpsert(ids, Upsert(ids, l, x), u, x);
      UpsertAgain(ids, l, x, u);
      ApplyAgain(ids, Upsert(ids, Upsert(ids, l, x), u), rest, x);
      ApplyAgain(ids, Upsert(ids, l, u), rest, x);
    }
  }

  /** Updates of stored entries leave an entry after them alone. */
  lemma {:induction false} ApplyBeforeEnd(ids: seq<nat>, l: seq<Value>, us: seq<Value>, x: Value)
    requires forall k :: 0 <= k < |us| ==> Find(ids, l, us[k]) < |l|
    ensures Apply(ids, l + [x], us) == Apply(ids, l, us) + [x]
    decreases |us|
  {
    if us != [] {
      var i := Find(ids, l, us[0]);
      assert forall j :: 0 <= j < |l| ==> (l + [x])[j] == l[j];
      FindIs(ids, l + [x], us[0], i);
      assert (l + [x])[i := Merge(l[i], us[0])] == l[i := Merge(l[i], us[0])] + [x];
      forall k | 0 <= k < |us[1..]| ensures Find(ids, Upsert(ids, l, us[0]), us[1..][k]) < |l| {
        FindAfterUpsert(ids, l, us[0], us[1 + k]);
      }
      ApplyBeforeEnd(ids, Upsert(ids, l, us[0]), us[1..], x);
    }
  }

  lemma AppliedIsFound(ids: seq<nat>, l: seq<Value>, u: seq<Value>)
    requires AllIdentified(ids, u)
    ensures forall k :: 0 <= k < |u| ==> Find(ids, Apply(ids, l, u), u[k]) < |Apply(ids, l, u)|
  {
    forall k | 0 <= k < |u| ensures Find(ids, Apply(ids, l, u), u[k]) < |Apply(ids, l, u)| {
      assert SameEntry(ids, u[k], u[k]);
      ApplyFinds(ids, l, u, u[k]);
    }
  }

  lemma {:induction false} IdentifiedIsIdempotent(ids: seq<nat>, l: seq<Value>, u: seq<Value>)
    requires AllIdentified(ids, u)
    ensures Apply(ids, Apply(ids, l, u), u) == Apply(ids, l, u)
    decreases |u|
  {
    if u != [] {
      var front, x := u[..|u| - 1], u[|u| - 1];
      assert u == front + [x];
      var r := Apply(ids, l, front);
      IdentifiedIsIdempotent(ids, l, front);
      ApplyOneMore(ids, l, front, x);
      ApplyOneMore(ids, Upsert(ids, r, x), front, x);
      if Find(ids, r, x) < |r| {
        ApplyAgain(ids, r, front, x);
      } else {
        AppliedIsFound(ids, l, front);
        ApplyBeforeEnd(ids, r, front, x);
        FindAfterUpsert(ids, r, x, x);
        MergeIsIdempotent(x);
      }
    }
  }

  lemma {:induction false} ApplyGrows(ids: seq<nat>, l: seq<Value>, u: seq<Value>)
    ensures |Apply(ids, l, u)| >= |l|
    ensures !AllIdentified(ids, u) ==> |Apply(ids, l, u)| > |l|
    decreases |u|
  {
    if u != [] {
      ApplyGrows(ids, Upsert(ids, l, u[0]), u[1..]);
      if HasIdentity(ids, u[0]) && AllIdentified(ids, u[1..]) {
        assert forall i :: 0 < i < |u| ==> u[i] == u[1..][i - 1];
      }
    }
  }

  /** Receiving the same partial update twice is receiving it once, exactly if it is fully identified. */
  lemma PartialUpdateIsIdempotent(ids: seq<nat>, l: seq<Value>, u: seq<Value>)
    ensures Apply(ids, Apply(ids, l, u), u) == Apply(ids, l, u) <==> AllIdentified(ids, u)
  {
    if AllIdentified(ids, u) {
      IdentifiedIsIdempotent(ids, l, u);
    } else {
      ApplyGrows(ids, Apply(ids, l, u), u);
    }
  }

  // ---- a list is a map from identities to records -----------------------------------

  function Identities(ids: seq<nat>, l: seq<Value>): seq<Identity>
    requires AllIdentified(ids, l)
  {
    seq(|l|, i requires 0 <= i < |l| => IdentityOf(ids, l[i]))
  }

  /** The list holds exactly the records of the map, each under its identity. */
  predicate Represents(ids: seq<nat>, m: map<Identity, Value>, l: seq<Value>) {
    && AllIdentified(ids, l) && Distinct(ids, l)
    && var keys := Identities(ids, l);
       && (forall i :: 0 <= i < |l| ==> keys[i] in m && m[keys[i]] == l[i])
       && (forall k :: k in m ==> k in keys)
  }

  function MapUpsert(ids: seq<nat>, m: map<Identity, Value>, x: Value): map<Identity, Value>
    requires HasIdentity(ids, x)
  {
    var k := IdentityOf(ids, x);
    m[k := if k in m then Merge(m[k], x) else x]
  }

  function MapApply(ids: seq<nat>, m: map<Identity, Value>, u: seq<Value>): map<Identity, Value>
    requires AllIdentified(ids, u)
    decreases |u|
  {
    if u == [] then m else MapApply(ids, MapUpsert(ids, m, u[0]), u[1..])
  }

  /** The identities stored, in order, when those of `u` arrive one after another. */
  function Arrivals(ids: seq<nat>, known: seq<Identity>, u: seq<Value>): seq<Identity>
    requires AllIdentified(ids, u)
    decreases |u|
  {
    if u == [] then known
    else
      var k := IdentityOf(ids, u[0]);
      Arrivals(ids, if k in known then known else known + [k], u[1..])
  }

  lemma FoundByIdentity(ids: seq<nat>, l: seq<Value>, x: Value)
    requires AllIdentified(ids, l) && HasIdentity(ids, x)
    ensures var i, keys := Find(ids, l, x), Identities(ids, l);
            if i < |l| then keys[i] == IdentityOf(ids, x) else IdentityOf(ids, x) !in keys
  {
    if Find(ids, l, x) == |l| {
      forall j | 0 <= j < |l| ensures Identities(ids, l)[j] != IdentityOf(ids, x) {
        assert !SameEntry(ids, l[j], x);
      }
    }
  }

  lemma UpsertIdentities(ids: seq<nat>, l: seq<Value>, x: Value)
    requires AllIdentified(ids, l) && HasIdentity(ids, x)
    ensures AllIdentified(ids, Upsert(ids, l, x))
    ensures Identities(ids, Upsert(ids, l, x)) == Arrivals(ids, Identities(ids, l), [x])
  {
    FoundByIdentity(ids, l, x);
    UpsertKeepsIdentities(ids, l, x);
    hide IdentityOf, HasIdentity, SameEntry, Merge;
    var keys, keys' := Identities(ids, l), Identities(ids, Upsert(ids, l, x));
    assert [x][1..] == [];
    assert keys' == if Find(ids, l, x) < |l| then keys else keys + [IdentityOf(ids, x)];
  }

  lemma KeysDiffer(ids: seq<nat>, l: seq<Value>, i: nat, j: nat)
    requires AllIdentified(ids, l) && Distinct(ids, l) && i < |l| && j < |l| && i != j
    ensures Identities(ids, l)[i] != Identities(ids, l)[j]
  {
    assert !SameEntry(ids, l[if i < j then i else j], l[if i < j then j else i]);
  }

  lemma UpsertRefinesMap(ids: seq<nat>, m: map<Identity, Value>, l: seq<Value>, x: Value)
    requires Represents(ids, m, l) && HasIdentity(ids, x)
    ensures Represents(ids, MapUpsert(ids, m, x), Upsert(ids, l, x))
  {
    var l', m', i := Upsert(ids, l, x), MapUpsert(ids, m, x), Find(ids, l, x);
    UpsertKeepsDistinct(ids, l, x);
    UpsertIdentities(ids, l, x);
    FoundByIdentity(ids, l, x);
    var keys, keys' := Identities(ids, l), Identities(ids, l');
    hide IdentityOf, HasIdentity, SameEntry, Distinct, Find, Merge;
    assert i < |l| ==> keys[i] in m && m[keys[i]] == l[i];
    forall j | 0 <= j < |l'| ensures keys'[j] in m' && m'[keys'[j]] == l'[j] {
      if i < |l| && j != i {
        KeysDiffer(ids, l, i, j);
      }
    }
    forall k | k in m' ensures k in keys' {
      if i < |l| {
        assert keys' == keys;
      }
    }
  }

  /** The scan over the list does to each identity what a keyed map would, and keeps the order. */
  lemma {:induction false} ApplyRefinesMap(ids: seq<nat>, m: map<Identity, Value>, l: seq<Value>, u: seq<Value>)
    requires Represents(ids, m, l) && AllIdentified(ids, u)
    ensures Represents(ids, MapApply(ids, m, u), Apply(ids, l, u))
    ensures Identities(ids, Apply(ids, l, u)) == Arrivals(ids, Identities(ids, l), u)
    decreases |u|
  {
    if u != [] {
      UpsertRefinesMap(ids, m, l, u[0]);
      UpsertIdentities(ids, l, u[0]);
      ApplyRefinesMap(ids, MapUpsert(ids, m, u[0]), Upsert(ids, l, u[0]), u[1..]);
      assert [u[0]][1..] == [];
    }
  }

  // ---- deleting, reading and writing back ---------------------------------------------

  lemma {:induction false} WithoutKeepsOthers(ids: seq<nat>, a: Address, l: seq<Value>)
    ensures forall i :: 0 <= i < |Without(ids, a, l)| ==> !Addresses(ids, a, Without(ids, a, l)[i])
  {
    if l != [] {
      WithoutKeepsOthers(ids, a, l[1..]);
    }
  }

  /** No entry of the update is one of the list's. */
  predicate Strangers(ids: seq<nat>, l: seq<Value>, u: seq<Value>) {
    forall i, j :: 0 <= i < |l| && 0 <= j < |u| ==> !SameEntry(ids, l[i], u[j])
  }

  lemma StrangersNext(ids: seq<nat>, l: seq<Value>, u: seq<Value>)
    requires u != [] && Distinct(ids, u) && Strangers(ids, l, u)
    ensures Upsert(ids, l, u[0]) == l + [u[0]]
    ensures Distinct(ids, u[1..]) && Strangers(ids, l + [u[0]], u[1..])
  {
    assert Find(ids, l, u[0]) == |l|;
    UpsertsNew(ids, l, u[0]);
    var l', rest := l + [u[0]], u[1..];
    hide SameEntry, Upsert, Find;
    forall i, j | 0 <= i < |l'| && 0 <= j < |rest| ensures !SameEntry(ids, l'[i], rest[j]) {
      assert rest[j] == u[j + 1];
    }
  }

  lemma {:induction false} ApplyAppends(ids: seq<nat>, l: seq<Value>, u: seq<Value>)
    requires Distinct(ids, u) && Strangers(ids, l, u)
    ensures Apply(ids, l, u) == l + u
    decreases |u|
  {
    hide Distinct, Strangers, Upsert;
    if u == [] {
      assert l + u == l;
    } else {
      StrangersNext(ids, l, u);
      ApplyAppends(ids, l + [u[0]], u[1..]);
      assert l + [u[0]] + u[1..] == l + u;
    }
  }

  /** Deleting what an update names and then applying it leaves exactly the update's records. */
  lemma DeleteThenApplyReplaces(ids: seq<nat>, l: seq<Value>, u: seq<Value>)
    requires Distinct(ids, u)
    ensures Apply(ids, Without(ids, ByName(u), l), u) == Without(ids, ByName(u), l) + u
  {
    var rest := Without(ids, ByName(u), l);
    WithoutKeepsOthers(ids, ByName(u), l);
    forall i, j | 0 <= i < |rest| && 0 <= j < |u| ensures !SameEntry(ids, rest[i], u[j]) {
      SameEntryIsSymmetric(ids, rest[i], u[j]);
    }
    ApplyAppends(ids, rest, u);
  }

  /** Outside the identifying fields, which are restored, no repeated element is cut down. */
  predicate KeptWhole(ids: seq<nat>, e: Elements, v: Value) {
    v.Record? && |v.fields| == |e.parts| ==>
      forall i :: 0 <= i < |v.fields| && i !in ids ==> PartKept(e.parts[i], v.fields[i])
  }

  lemma RestrictedMergesBack(ids: seq<nat>, e: Elements, v: Value)
    ensures Merge(Cleared(ids, e, v), Retained(ids, e, v)) == v <==> KeptWhole(ids, e, v)
    ensures Merge(v, Retained(ids, e, v)) == v <==> KeptWhole(ids, e, v)
  {
    MergeIsIdempotent(v);
    if v.Record? && |v.fields| == |e.parts| {
      var c, r := Cleared(ids, e, v), Retained(ids, e, v);
      MergeIsFieldwise(c.fields, r.fields);
      MergeIsFieldwise(v.fields, r.fields);
      forall i | 0 <= i < |v.fields|
        ensures Merge(c, r).fields[i] == v.fields[i] <==> i in ids || PartKept(e.parts[i], v.fields[i])
        ensures Merge(v, r).fields[i] == v.fields[i] <==> i in ids || PartKept(e.parts[i], v.fields[i])
      {
        if i in ids {
          if v.fields[i].Some? {
            MergeIsIdempotent(v.fields[i].value);
          }
        } else {
          PartsMergeBack(e.parts[i], v.fields[i]);
          RetainedPartMergesBack(e.parts[i], v.fields[i]);
        }
      }
      hide Merge, Cleared, Retained, PartKept;
      assert Merge(c, r).fields == v.fields <==> forall i :: 0 <= i < |v.fields| ==> Merge(c, r).fields[i] == v.fields[i];
      assert Merge(v, r).fields == v.fields <==> forall i :: 0 <= i < |v.fields| ==> Merge(v, r).fields[i] == v.fields[i];
    } else {
      assert RestoreIdentity(ids, v, v) == v;
    }
  }

  function Returned(ids: seq<nat>, e: Option<Elements>, v: Value): Value {
    if e.None? then v else Retained(ids, e.value, v)
  }

  lemma RestrictedStep(ids: seq<nat>, a: Address, e: Option<Elements>, l: seq<Value>)
    ensures Restricted(ids, a, e, l)
         == if l == [] then []
            else (if Addresses(ids, a, l[0]) then [Returned(ids, e, l[0])] else []) + Restricted(ids, a, e, l[1..])
  {
    hide Retained;
  }

  lemma FiltersKeepIdentity(ids: seq<nat>, e: Elements, v: Value)
    ensures HasIdentity(ids, Retained(ids, e, v)) <==> HasIdentity(ids, v)
    ensures HasIdentity(ids, v) ==> IdentityOf(ids, Retained(ids, e, v)) == IdentityOf(ids, v)
    ensures HasIdentity(ids, Cleared(ids, e, v)) <==> HasIdentity(ids, v)
    ensures HasIdentity(ids, v) ==> IdentityOf(ids, Cleared(ids, e, v)) == IdentityOf(ids, v)
  {
  }

  lemma {:induction false} RestrictedEntriesAreReturned(ids: seq<nat>, a: Address, e: Option<Elements>, l: seq<Value>)
    ensures forall k :: 0 <= k < |Restricted(ids, a, e, l)| ==>
              exists j :: 0 <= j < |l| && Restricted(ids, a, e, l)[k] == Returned(ids, e, l[j])
  {
    RestrictedStep(ids, a, e, l);
    hide Restricted, Returned, Addresses;
    if l != [] {
      RestrictedEntriesAreReturned(ids, a, e, l[1..]);
      var rest := Restricted(ids, a, e, l[1..]);
      forall k | 0 <= k < |Restricted(ids, a, e, l)|
        ensures exists j :: 0 <= j < |l| && Restricted(ids, a, e, l)[k] == Returned(ids, e, l[j])
      {
        var m := if Addresses(ids, a, l[0]) then k - 1 else k;
        if m >= 0 {
          var j :| 0 <= j < |l[1..]| && rest[m] == Returned(ids, e, l[1..][j]);
          assert Restricted(ids, a, e, l)[k] == Returned(ids, e, l[j + 1]);
        } else {
          assert Restricted(ids, a, e, l)[k] == Returned(ids, e, l[0]);
        }
      }
    }
  }

  lemma {:induction false} ApplyLeaves(ids: seq<nat>, b: seq<Value>, u: seq<Value>, i: nat)
    requires i < |b| && forall k :: 0 <= k < |u| ==> !SameEntry(ids, b[i], u[k])
    ensures |Apply(ids, b, u)| >= |b| && Apply(ids, b, u)[i] == b[i]
    decreases |u|
  {
    if u != [] {
      assert !SameEntry(ids, b[i], u[0]);
      ApplyLeaves(ids, Upsert(ids, b, u[0]), u[1..], i);
    }
  }

  lemma {:induction false} ApplyNeverShortens(ids: seq<nat>, b: seq<Value>, u: seq<Value>)
    ensures |Apply(ids, b, u)| >= |b|
    decreases |u|
  {
    if u != [] {
      ApplyNeverShortens(ids, Upsert(ids, b, u[0]), u[1..]);
    }
  }

  /** What a read of this entry must satisfy for the reply to give the entry back. */
  predicate Recoverable(ids: seq<nat>, a: Address, e: Option<Elements>, v: Value) {
    Addresses(ids, a, v) ==> HasIdentity(ids, v) && (e.Some? ==> KeptWhole(ids, e.value, v))
  }

  /** `b` is `v`, or what is left of it, and the reply about `v` would complete it if whole. */
  predicate Remainder(ids: seq<nat>, a: Address, e: Option<Elements>, v: Value, b: Value) {
    && (HasIdentity(ids, b) <==> HasIdentity(ids, v))
    && (HasIdentity(ids, v) ==> IdentityOf(ids, b) == IdentityOf(ids, v))
    && (if Addresses(ids, a, v)
        then Merge(b, Returned(ids, e, v)) == v <==> (e.Some? ==> KeptWhole(ids, e.value, v))
        else b == v)
  }

  lemma ReturnedKeepsIdentity(ids: seq<nat>, e: Option<Elements>, v: Value)
    ensures HasIdentity(ids, Returned(ids, e, v)) <==> HasIdentity(ids, v)
    ensures HasIdentity(ids, v) ==> IdentityOf(ids, Returned(ids, e, v)) == IdentityOf(ids, v)
  {
    if e.Some? {
      FiltersKeepIdentity(ids, e.value, v);
    }
  }

  lemma {:induction false} WritesBackFrom(ids: seq<nat>, a: Address, e: Option<Elements>,
                                          l: seq<Value>, base: seq<Value>, n: nat)
    requires Distinct(ids, l) && n <= |l| == |base|
    requires forall i :: 0 <= i < |l| ==> Remainder(ids, a, e, l[i], base[i])
    ensures WritesBack(ids, a, e, l, base, n) <==> forall i :: n <= i < |l| ==> Recoverable(ids, a, e, l[i])
    decreases |l| - n
  {
    if n == |l| {
      assert l[..n] + base[n..] == l;
      assert Restricted(ids, a, e, l[n..]) == [];
    } else {
      WritesBackFrom(ids, a, e, l, base, n + 1);
      WritesBackStep(ids, a, e, l, base, n);
      hide Recoverable, WritesBack, Remainder, Distinct;
    }
  }

  /** Writing the reply about the entries from `n` on into what is left of them restores the list. */
  predicate WritesBack(ids: seq<nat>, a: Address, e: Option<Elements>, l: seq<Value>, base: seq<Value>, n: nat)
    requires n <= |l| == |base|
  {
    Apply(ids, l[..n] + base[n..], Restricted(ids, a, e, l[n..])) == l
  }

  /** What comes next in the list once entry `n` has been written back. */
  lemma WritesBackNext(ids: seq<nat>, a: Address, e: Option<Elements>, l: seq<Value>, base: seq<Value>, n: nat)
    requires n < |l| == |base|
    ensures WritesBack(ids, a, e, l, base, n + 1)
       <==> Apply(ids, (l[..n] + base[n..])[n := l[n]], Restricted(ids, a, e, l[n + 1..])) == l
  {
    hide Apply, Restricted;
    assert (l[..n] + base[n..])[n := l[n]] == l[..n + 1] + base[n + 1..];
  }

  lemma WritesBackHere(ids: seq<nat>, a: Address, e: Option<Elements>, l: seq<Value>, base: seq<Value>, n: nat)
    requires n < |l| == |base|
    ensures WritesBack(ids, a, e, l, base, n)
       <==> var b, rest := l[..n] + base[n..], Restricted(ids, a, e, l[n + 1..]);
            (if Addresses(ids, a, l[n]) then Apply(ids, Upsert(ids, b, Returned(ids, e, l[n])), rest)
             else Apply(ids, b, rest)) == l
  {
    var b, rest := l[..n] + base[n..], Restricted(ids, a, e, l[n + 1..]);
    assert l[n..][1..] == l[n + 1..] && l[n..][0] == l[n] && l[n..] != [];
    hide Restricted, Returned, Upsert, Addresses, Apply;
    RestrictedStep(ids, a, e, l[n..]);
    assert [] + rest == rest;
    ApplyFirst(ids, b, Returned(ids, e, l[n]), rest);
  }

  lemma WritesBackStep(ids: seq<nat>, a: Address, e: Option<Elements>, l: seq<Value>, base: seq<Value>, n: nat)
    requires Distinct(ids, l) && n < |l| == |base|
    requires Remainder(ids, a, e, l[n], base[n])
    ensures WritesBack(ids, a, e, l, base, n)
       <==> Recoverable(ids, a, e, l[n]) && WritesBack(ids, a, e, l, base, n + 1)
  {
    var b, v, r := l[..n] + base[n..], l[n], Returned(ids, e, l[n]);
    var rest := Restricted(ids, a, e, l[n + 1..]);
    hide Restricted, Returned, Distinct, Upsert, Merge, KeptWhole, HasIdentity, IdentityOf, SameEntry, Addresses, Apply, WritesBack;
    WritesBackHere(ids, a, e, l, base, n);
    if !Addresses(ids, a, v) {
      WritesBackNext(ids, a, e, l, base, n);
      assert b[n := v] == b;
    } else {
      UpsertsReturned(ids, a, e, l, base, n);
      if !HasIdentity(ids, v) {
        ApplyNeverShortens(ids, b + [r], rest);
      } else {
        WritesOneBack(ids, a, e, l, base, n);
      }
    }
  }

  lemma ApplyFirst(ids: seq<nat>, l: seq<Value>, x: Value, rest: seq<Value>)
    ensures Apply(ids, l, [x] + rest) == Apply(ids, Upsert(ids, l, x), rest)
  {
    assert ([x] + rest)[1..] == rest;
    hide Upsert;
  }

  lemma WritesOneBack(ids: seq<nat>, a: Address, e: Option<Elements>, l: seq<Value>, base: seq<Value>, n: nat)
    requires Distinct(ids, l) && n < |l| == |base|
    requires Remainder(ids, a, e, l[n], base[n]) && Addresses(ids, a, l[n]) && HasIdentity(ids, l[n])
    ensures Apply(ids, (l[..n] + base[n..])[n := Merge(base[n], Returned(ids, e, l[n]))],
                  Restricted(ids, a, e, l[n + 1..])) == l
       <==> Recoverable(ids, a, e, l[n]) && WritesBack(ids, a, e, l, base, n + 1)
  {
    var v, r := l[n], Returned(ids, e, l[n]);
    var m := Merge(base[n], r);
    var b := (l[..n] + base[n..])[n := m];
    if Recoverable(ids, a, e, v) {
      assert b == l[..n + 1] + base[n + 1..];
    } else {
      ReturnedKeepsIdentity(ids, e, v);
      MergeKeepsIdentity(ids, base[n], r);
      hide Merge, Returned, Restricted, KeptWhole, Distinct, Addresses, Apply, WritesBack;
      WrongStaysWrong(ids, a, e, l, b, n);
    }
  }

  lemma UpsertsReturned(ids: seq<nat>, a: Address, e: Option<Elements>, l: seq<Value>, base: seq<Value>, n: nat)
    requires Distinct(ids, l) && n < |l| == |base|
    requires Remainder(ids, a, e, l[n], base[n])
    ensures var b, r := l[..n] + base[n..], Returned(ids, e, l[n]);
            Upsert(ids, b, r) == if HasIdentity(ids, l[n]) then b[n := Merge(base[n], r)] else b + [r]
  {
    var b, r := l[..n] + base[n..], Returned(ids, e, l[n]);
    ReturnedKeepsIdentity(ids, e, l[n]);
    hide Returned, Remainder, Merge, Addresses;
    if HasIdentity(ids, l[n]) {
      forall j | 0 <= j < n ensures !SameEntry(ids, b[j], r) {
        assert !SameEntry(ids, l[j], l[n]);
      }
      FindIs(ids, b, r, n);
    } else {
      assert Find(ids, b, r) == |b|;
    }
  }

  lemma WrongStaysWrong(ids: seq<nat>, a: Address, e: Option<Elements>, l: seq<Value>, b: seq<Value>, n: nat)
    requires Distinct(ids, l) && n < |l| == |b|
    requires HasIdentity(ids, l[n]) && b[n] != l[n]
    requires HasIdentity(ids, b[n]) && IdentityOf(ids, b[n]) == IdentityOf(ids, l[n])
    ensures Apply(ids, b, Restricted(ids, a, e, l[n + 1..])) != l
  {
    var rest := Restricted(ids, a, e, l[n + 1..]);
    RestrictedEntriesAreReturned(ids, a, e, l[n + 1..]);
    forall k | 0 <= k < |rest| ensures !SameEntry(ids, b[n], rest[k]) {
      var j :| 0 <= j < |l[n + 1..]| && rest[k] == Returned(ids, e, l[n + 1..][j]);
      ReturnedKeepsIdentity(ids, e, l[n + 1 + j]);
      assert !SameEntry(ids, l[n], l[n + 1 + j]);
    }
    ApplyLeaves(ids, b, rest, n);
  }

  lemma StoredRemains(ids: seq<nat>, a: Address, e: Option<Elements>, v: Value)
    ensures Remainder(ids, a, e, v, v)
  {
    MergeIsIdempotent(v);
    if e.Some? {
      RestrictedMergesBack(ids, e.value, v);
    }
    hide Merge, Retained, KeptWhole, HasIdentity;
  }

  lemma ClearedRemains(ids: seq<nat>, a: Address, e: Elements, v: Value)
    ensures Remainder(ids, a, Some(e), v, if Addresses(ids, a, v) then Cleared(ids, e, v) else v)
  {
    FiltersKeepIdentity(ids, e, v);
    RestrictedMergesBack(ids, e, v);
    hide Merge, Retained, Cleared, KeptWhole, HasIdentity, Addresses;
  }

  /**
   A partial read merged back into the list it was taken from changes nothing exactly when
   every entry it returned can be told apart and was returned with repeated elements whole.
   */
  lemma PartialReadMergesBack(ids: seq<nat>, a: Address, e: Option<Elements>, l: seq<Value>)
    requires Distinct(ids, l)
    ensures Apply(ids, l, Restricted(ids, a, e, l)) == l
       <==> forall i :: 0 <= i < |l| ==> Recoverable(ids, a, e, l[i])
  {
    hide Remainder, Recoverable, Restricted, Apply, Distinct;
    forall i | 0 <= i < |l| ensures Remainder(ids, a, e, l[i], l[i]) {
      StoredRemains(ids, a, e, l[i]);
    }
    WritesBackFrom(ids, a, e, l, l, 0);
    assert l[..0] + l[0..] == l && l[0..] == l;
  }

  /** With a filter that descends into no repeated element, having identities is all it takes. */
  lemma PlainReadMergesBack(ids: seq<nat>, a: Address, e: Elements, l: seq<Value>)
    requires Distinct(ids, l) && NoPopulatedEach(e)
    ensures Apply(ids, l, Restricted(ids, a, Some(e), l)) == l
       <==> forall i :: 0 <= i < |l| && Addresses(ids, a, l[i]) ==> HasIdentity(ids, l[i])
  {
    hide Restricted, Apply, Distinct, Addresses, HasIdentity;
    PartialReadMergesBack(ids, a, Some(e), l);
    forall i | 0 <= i < |l| ensures KeptWhole(ids, e, l[i]) {
      RepetitionsAreKept(e, l[i]);
    }
  }

  /** Reading parts of a list, deleting those parts and writing the reply back restores the list. */
  lemma DeletedPartsCanBeRestored(ids: seq<nat>, a: Address, e: Elements, l: seq<Value>)
    requires Distinct(ids, l)
    ensures Apply(ids, ClearedAll(ids, a, e, l), Restricted(ids, a, Some(e), l)) == l
       <==> forall i :: 0 <= i < |l| ==> Recoverable(ids, a, Some(e), l[i])
  {
    hide Remainder, Recoverable, Restricted, Apply, Distinct, Cleared, Addresses;
    var base := ClearedAll(ids, a, e, l);
    forall i | 0 <= i < |l| ensures Remainder(ids, a, Some(e), l[i], base[i]) {
      ClearedRemains(ids, a, e, l[i]);
    }
    WritesBackFrom(ids, a, Some(e), l, base, 0);
    assert l[..0] + base[0..] == base && l[0..] == l;
  }
}
