/**
 Merging a partial update into stored data, element by element: the `Merge` implementations
 of src/codec/mod.rs and src/codec/macros.rs.
 */
module Merging {
  import opened Wrappers
  import opened Model

  /** What is left out of `b` is kept from `a`; leaves and repeated elements are replaced. */
  function Merge(a: Value, b: Value): Value
    decreases a
  {
    match (a, b)
    case (Record(f), Record(g)) =>
      if |f| == |g| then
        Record(seq(|f|, i requires 0 <= i < |f| =>
          match (f[i], g[i])
          case (Some(x), Some(y)) => Some(Merge(x, y))
          case (None, y) => y
          case (x, None) => x))
      else b
    case (Choice(k, x), Choice(l, y)) =>
      if k == l then Choice(k, Merge(x, y)) else b
    case _ => b
  }

  function MergeFields(x: Option<Value>, y: Option<Value>): Option<Value> {
    if x.Some? && y.Some? then Some(Merge(x.value, y.value)) else if y.Some? then y else x
  }

  lemma MergeIsFieldwise(f: seq<Option<Value>>, g: seq<Option<Value>>)
    requires |f| == |g|
    ensures var m := Merge(Record(f), Record(g));
            && m.Record? && |m.fields| == |f|
            && forall i :: 0 <= i < |f| ==> m.fields[i] == MergeFields(f[i], g[i])
  {
  }

  /** Merging a value into itself changes nothing. */
  lemma {:induction false} MergeIsIdempotent(a: Value)
    ensures Merge(a, a) == a
  {
    match a
    case Record(f) =>
      MergeIsFieldwise(f, f);
      forall i | 0 <= i < |f| ensures MergeFields(f[i], f[i]) == f[i] {
        if f[i].Some? {
          MergeIsIdempotent(f[i].value);
        }
      }
    case Choice(_, x) => MergeIsIdempotent(x);
    case _ =>
  }

  /** Where `x` comes again, what it was merged with in between only adds what `x` leaves out. */
  lemma {:induction false} MergeAgainDecides(x: Value, u: Value)
    ensures Merge(Merge(x, u), x) == Merge(u, x)
  {
    match (x, u)
    case (Record(f), Record(g)) =>
      if |f| == |g| {
        var m := Merge(x, u).fields;
        MergeIsFieldwise(f, g);
        MergeIsFieldwise(m, f);
        MergeIsFieldwise(g, f);
        forall i | 0 <= i < |f| ensures MergeFields(m[i], f[i]) == MergeFields(g[i], f[i]) {
          if f[i].Some? && g[i].Some? {
            MergeAgainDecides(f[i].value, g[i].value);
          } else if f[i].Some? {
            MergeIsIdempotent(f[i].value);
          }
        }
        assert Merge(Merge(x, u), x).fields == Merge(u, x).fields;
      }
    case (Choice(k, a), Choice(l, b)) =>
      if k == l {
        MergeAgainDecides(a, b);
      }
    case _ => MergeIsIdempotent(x);
  }

  /** Applying an update a second time changes nothing more. */
  lemma {:induction false} MergeAbsorbs(a: Value, b: Value)
    ensures Merge(Merge(a, b), b) == Merge(a, b)
  {
    match (a, b)
    case (Record(f), Record(g)) =>
      if |f| == |g| {
        var m := Merge(a, b).fields;
        MergeIsFieldwise(f, g);
        MergeIsFieldwise(m, g);
        forall i | 0 <= i < |f| ensures MergeFields(m[i], g[i]) == m[i] {
          if f[i].Some? && g[i].Some? {
            MergeAbsorbs(f[i].value, g[i].value);
          } else if g[i].Some? {
            MergeIsIdempotent(g[i].value);
          }
        }
        assert Merge(Merge(a, b), b).fields == m;
      } else {
        MergeIsIdempotent(b);
      }
    case (Choice(k, x), Choice(l, y)) =>
      if k == l {
        MergeAbsorbs(x, y);
      } else {
        MergeIsIdempotent(b);
      }
    case _ => MergeIsIdempotent(b);
  }

  /** Values that merge part by part; others replace each other. */
  predicate Aligned(a: Value, b: Value) {
    || (a.Record? && b.Record? && |a.fields| == |b.fields|)
    || (a.Choice? && b.Choice? && a.alternative == b.alternative)
  }

  lemma MergeTakesShape(a: Value, b: Value, c: Value)
    ensures Aligned(Merge(a, b), c) <==> Aligned(b, c)
    ensures !Aligned(a, b) ==> Merge(a, b) == b
  {
  }

  /** Merging `x` earlier as well makes no difference to what a later merge of `x` leaves. */
  lemma {:induction false} EarlierMergeIsRepeated(r: Value, x: Value, u: Value)
    ensures Merge(Merge(Merge(r, x), u), x) == Merge(Merge(r, u), x)
    decreases r, 1
  {
    if !Aligned(r, x) || !Aligned(x, u) {
      MergeTakesShape(r, x, u);
      MergeTakesShape(r, u, x);
      MergeTakesShape(u, x, x);
      MergeTakesShape(Merge(r, x), u, x);
      MergeTakesShape(Merge(r, u), x, x);
      MergeAgainDecides(x, u);
      hide Merge;
    } else if r.Record? {
      MergeIsFieldwise(r.fields, x.fields);
      MergeIsFieldwise(r.fields, u.fields);
      MergeIsFieldwise(Merge(r, x).fields, u.fields);
      MergeIsFieldwise(Merge(r, u).fields, x.fields);
      MergeIsFieldwise(Merge(Merge(r, x), u).fields, x.fields);
      forall i | 0 <= i < |r.fields|
        ensures MergeFields(MergeFields(MergeFields(r.fields[i], x.fields[i]), u.fields[i]), x.fields[i])
             == MergeFields(MergeFields(r.fields[i], u.fields[i]), x.fields[i])
      {
        EarlierFieldIsRepeated(r, r.fields[i], x.fields[i], u.fields[i]);
      }
      assert Merge(Merge(Merge(r, x), u), x).fields == Merge(Merge(r, u), x).fields;
    } else {
      EarlierMergeIsRepeated(r.content, x.content, u.content);
    }
  }

  lemma {:induction false} EarlierFieldIsRepeated(whole: Value, r: Option<Value>, x: Option<Value>, u: Option<Value>)
    requires r.Some? ==> r.value < whole
    ensures MergeFields(MergeFields(MergeFields(r, x), u), x) == MergeFields(MergeFields(r, u), x)
    decreases whole, 0
  {
    hide Merge;
    if x.Some? {
      if u.Some? {
        MergeAgainDecides(x.value, u.value);
        if r.Some? {
          EarlierMergeIsRepeated(r.value, x.value, u.value);
        }
      } else {
        MergeIsIdempotent(x.value);
        if r.Some? {
          MergeAbsorbs(r.value, x.value);
        }
      }
    }
  }

  // ---- when merging is associative ---------------------------------------------

  /** Types whose values an update always replaces outright. */
  predicate Replaced(t: Schema) {
    match t
    case RecordType(slots) => slots == []
    case ChoiceType(alternatives) => AllReplaced(alternatives)
    case _ => true
  }

  predicate AllReplaced(alternatives: seq<Field>) {
    forall k :: 0 <= k < |alternatives| ==> Replaced(alternatives[k].content)
  }

  /**
   Types without a real choice among parts that merge: taking another alternative forgets the
   first one's parts, and coming back to it cannot bring them back.
   */
  predicate Associates(t: Schema) {
    match t
    case RecordType(slots) =>
      forall i :: 0 <= i < |slots| ==> SlotAssociates(slots[i])
    case ChoiceType(alternatives) => ChoiceAssociates(alternatives)
    case _ => true
  }

  predicate SlotAssociates(slot: Slot) {
    match slot
    case Named(field) => Associates(field.content)
    case Inline(alternatives) => ChoiceAssociates(alternatives)
    case InlineMany(_) => true
  }

  predicate ChoiceAssociates(alternatives: seq<Field>) {
    && (|alternatives| >= 2 ==> AllReplaced(alternatives))
    && forall k :: 0 <= k < |alternatives| ==> Associates(alternatives[k].content)
  }

  lemma {:induction false} ReplacedByUpdate(t: Schema, a: Value, b: Value)
    requires Replaced(t) && HasType(t, a) && HasType(t, b)
    ensures Merge(a, b) == b
    decreases a
  {
    match (a, b)
    case (Choice(k, x), Choice(l, y)) =>
      if k == l {
        ReplacedByUpdate(t.alternatives[k].content, x, y);
      }
    case _ =>
  }

  lemma {:induction false} MergeKeepsType(t: Schema, a: Value, b: Value)
    requires HasType(t, a) && HasType(t, b)
    ensures HasType(t, Merge(a, b))
    decreases a
  {
    match (a, b)
    case (Record(f), Record(g)) =>
      MergeIsFieldwise(f, g);
      forall i | 0 <= i < |f| && f[i].Some? && g[i].Some?
        ensures HasType(SlotType(t.slots[i]), Merge(f[i].value, g[i].value))
      {
        MergeKeepsType(SlotType(t.slots[i]), f[i].value, g[i].value);
      }
    case (Choice(k, x), Choice(l, y)) =>
      if k == l {
        MergeKeepsType(t.alternatives[k].content, x, y);
      }
    case _ =>
  }

  lemma {:induction false} MergeAssociates(t: Schema, a: Value, b: Value, c: Value)
    requires Associates(t)
    requires HasType(t, a) && HasType(t, b) && HasType(t, c)
    ensures Merge(Merge(a, b), c) == Merge(a, Merge(b, c))
    decreases a, 1, b
  {
    match (a, b, c)
    case (Record(f), Record(g), Record(h)) => RecordsAssociate(t.slots, a, b, c);
    case (Choice(k, x), Choice(l, y), Choice(m, z)) =>
      if k == l == m {
        MergeAssociates(t.alternatives[k].content, x, y, z);
      } else if k == m {
        assert |t.alternatives| >= 2;
        ReplacedByUpdate(t.alternatives[k].content, x, z);
      }
    case _ =>
  }

  lemma {:induction false} RecordsAssociate(slots: seq<Slot>, a: Value, b: Value, c: Value)
    requires Associates(RecordType(slots))
    requires HasType(RecordType(slots), a) && HasType(RecordType(slots), b) && HasType(RecordType(slots), c)
    ensures Merge(Merge(a, b), c) == Merge(a, Merge(b, c))
    decreases a, 0, b
  {
    var f, g, h := a.fields, b.fields, c.fields;
    var ab, bc := Merge(a, b).fields, Merge(b, c).fields;
    MergeIsFieldwise(f, g);
    MergeIsFieldwise(g, h);
    MergeIsFieldwise(ab, h);
    MergeIsFieldwise(f, bc);
    forall i | 0 <= i < |f|
      ensures MergeFields(ab[i], h[i]) == MergeFields(f[i], bc[i])
    {
      if f[i].Some? && g[i].Some? && h[i].Some? {
        assert SlotAssociates(slots[i]);
        MergeAssociates(SlotType(slots[i]), f[i].value, g[i].value, h[i].value);
      }
    }
    hide MergeFields, HasType, Associates;
    assert Merge(Merge(a, b), c).fields == Merge(a, Merge(b, c)).fields;
  }

  ghost predicate AlwaysAssociates(t: Schema) {
    forall a, b, c :: HasType(t, a) && HasType(t, b) && HasType(t, c) ==>
      Merge(Merge(a, b), c) == Merge(a, Merge(b, c))
  }

  /** A type that is not replaced outright has two values whose merge is not the second. */
  lemma KeepsSomething(t: Schema) returns (x: Value, y: Value)
    requires Inhabited(t) && !Replaced(t)
    ensures HasType(t, x) && HasType(t, y) && Merge(x, y) != y
  {
    match t
    case RecordType(slots) =>
      var content := SomeValueOfSlot(slots[0]);
      var nothing := seq(|slots|, _ => None);
      x, y := Record(nothing[0 := Some(content)]), Record(nothing);
      MergeIsFieldwise(x.fields, y.fields);
    case ChoiceType(alternatives) =>
      var k :| 0 <= k < |alternatives| && !Replaced(alternatives[k].content);
      var p, q := KeepsSomething(alternatives[k].content);
      x, y := Choice(k, p), Choice(k, q);
  }

  lemma SomeValueOfSlot(slot: Slot) returns (v: Value)
    requires InhabitedSlot(slot)
    ensures HasType(SlotType(slot), v)
  {
    match slot
    case InlineMany(_) => v := Repeated([]);
    case _ => v := SomeValue(SlotType(slot));
  }

  /** Three values of one type on which the two groupings differ. */
  predicate Disagree(t: Schema, a: Value, b: Value, c: Value) {
    && HasType(t, a) && HasType(t, b) && HasType(t, c)
    && Merge(Merge(a, b), c) != Merge(a, Merge(b, c))
  }

  function Only(n: nat, i: nat, v: Value): Value
    requires i < n
  {
    Record(seq(n, j => if j == i then Some(v) else None))
  }

  lemma MergeOnly(n: nat, i: nat, x: Value, y: Value)
    requires i < n
    ensures Merge(Only(n, i, x), Only(n, i, y)) == Only(n, i, Merge(x, y))
  {
    MergeIsFieldwise(Only(n, i, x).fields, Only(n, i, y).fields);
  }

  lemma OnlyHasType(slots: seq<Slot>, i: nat, v: Value)
    requires i < |slots| && HasType(SlotType(slots[i]), v)
    ensures HasType(RecordType(slots), Only(|slots|, i, v))
  {
  }

  lemma OnlyDecides(n: nat, i: nat, v: Value, w: Value)
    requires i < n && Only(n, i, v) == Only(n, i, w)
    ensures v == w
  {
    assert Only(n, i, v).fields[i] == Some(v);
    assert Only(n, i, w).fields[i] == Some(w);
  }

  lemma DisagreeInSlot(slots: seq<Slot>, i: nat, x: Value, y: Value, z: Value)
    requires i < |slots| && Disagree(SlotType(slots[i]), x, y, z)
    ensures var n := |slots|;
            Disagree(RecordType(slots), Only(n, i, x), Only(n, i, y), Only(n, i, z))
  {
    hide Only, Merge, HasType;
    var n := |slots|;
    OnlyHasType(slots, i, x);
    OnlyHasType(slots, i, y);
    OnlyHasType(slots, i, z);
    MergeOnly(n, i, x, y);
    MergeOnly(n, i, y, z);
    MergeOnly(n, i, Merge(x, y), z);
    MergeOnly(n, i, x, Merge(y, z));
    if Only(n, i, Merge(Merge(x, y), z)) == Only(n, i, Merge(x, Merge(y, z))) {
      OnlyDecides(n, i, Merge(Merge(x, y), z), Merge(x, Merge(y, z)));
    }
  }

  lemma Disagreement(t: Schema) returns (a: Value, b: Value, c: Value)
    requires Inhabited(t) && !Associates(t)
    ensures Disagree(t, a, b, c)
  {
    if t.RecordType? {
      var i :| 0 <= i < |t.slots| && !SlotAssociates(t.slots[i]);
      var x, y, z := SlotDisagreement(t.slots[i]);
      DisagreeInSlot(t.slots, i, x, y, z);
      a, b, c := Only(|t.slots|, i, x), Only(|t.slots|, i, y), Only(|t.slots|, i, z);
    } else {
      a, b, c := ChoiceDisagreement(t.alternatives);
    }
  }

  lemma SlotDisagreement(slot: Slot) returns (a: Value, b: Value, c: Value)
    requires InhabitedSlot(slot) && !SlotAssociates(slot)
    ensures Disagree(SlotType(slot), a, b, c)
  {
    if slot.Named? {
      a, b, c := Disagreement(slot.field.content);
    } else {
      a, b, c := ChoiceDisagreement(slot.alternatives);
    }
  }

  lemma ChoiceDisagreement(alternatives: seq<Field>) returns (a: Value, b: Value, c: Value)
    requires InhabitedChoice(alternatives) && !ChoiceAssociates(alternatives)
    ensures Disagree(ChoiceType(alternatives), a, b, c)
  {
    if |alternatives| >= 2 && !AllReplaced(alternatives) {
      a, b, c := ThereAndBack(alternatives);
    } else {
      var k :| 0 <= k < |alternatives| && !Associates(alternatives[k].content);
      var x, y, z := Disagreement(alternatives[k].content);
      DisagreeInAlternative(alternatives, k, x, y, z);
      a, b, c := Choice(k, x), Choice(k, y), Choice(k, z);
    }
  }

  lemma DisagreeInAlternative(alternatives: seq<Field>, k: nat, x: Value, y: Value, z: Value)
    requires k < |alternatives| && Disagree(alternatives[k].content, x, y, z)
    ensures Disagree(ChoiceType(alternatives), Choice(k, x), Choice(k, y), Choice(k, z))
  {
  }

  /** Leaving an alternative and coming back: the other grouping still remembers it. */
  lemma ThereAndBack(alternatives: seq<Field>) returns (a: Value, b: Value, c: Value)
    requires InhabitedChoice(alternatives) && |alternatives| >= 2 && !AllReplaced(alternatives)
    ensures Disagree(ChoiceType(alternatives), a, b, c)
  {
    var k :| 0 <= k < |alternatives| && !Replaced(alternatives[k].content);
    var x, y := KeepsSomething(alternatives[k].content);
    var other := if k == 0 then 1 else 0;
    var z := SomeValue(alternatives[other].content);
    a, b, c := Choice(k, x), Choice(other, z), Choice(k, y);
    DisagreeThereAndBack(alternatives, k, other, x, z, y);
  }

  lemma DisagreeThereAndBack(alternatives: seq<Field>, k: nat, l: nat, x: Value, z: Value, y: Value)
    requires k < |alternatives| && l < |alternatives| && k != l
    requires HasType(alternatives[k].content, x) && HasType(alternatives[k].content, y)
    requires HasType(alternatives[l].content, z) && Merge(x, y) != y
    ensures Disagree(ChoiceType(alternatives), Choice(k, x), Choice(l, z), Choice(k, y))
  {
  }

  /** Merging is associative over a type exactly when no choice in it forgets merged parts. */
  lemma AssociativityIsDecidedByTheType(t: Schema)
    requires Inhabited(t)
    ensures AlwaysAssociates(t) <==> Associates(t)
  {
    if Associates(t) {
      forall a, b, c | HasType(t, a) && HasType(t, b) && HasType(t, c)
        ensures Merge(Merge(a, b), c) == Merge(a, Merge(b, c))
      {
        MergeAssociates(t, a, b, c);
      }
    } else {
      var a, b, c := Disagreement(t);
    }
  }
}
