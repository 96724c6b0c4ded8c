/**
 What a node's own key material keeps to, over every run of changes: one certificate in use per
 curve, one update at a time, and a counter that tells every change.
 */
module OwnKeyLaws {
  import opened Wrappers
  import opened SkiText
  import opened Keys

  datatype Change =
    | BeginUpdate(successor: Ski, curve: U16)
    | CompleteUpdate
    | AddCurve(ski: Ski, curve: U16)
    | DropCurve(curve: U16)

  function Changed(o: Own, c: Change): Own {
    match c
    case BeginUpdate(successor, curve) =>
      (match Begun(o, successor, curve) case Ok(next) => next case Err(_) => o)
    case CompleteUpdate => Completed(o)
    case AddCurve(ski, curve) =>
      (match Added(o, ski, curve) case Ok(next) => next case Err(_) => o)
    case DropCurve(curve) => Dropped(o, curve)
  }

  predicate Succeeds(o: Own, c: Change) {
    match c
    case BeginUpdate(successor, curve) => Begun(o, successor, curve).Ok?
    case CompleteUpdate => Updating(o.entries)
    case AddCurve(ski, curve) => Added(o, ski, curve).Ok?
    case DropCurve(curve) => exists i :: 0 <= i < |o.entries| && o.entries[i].curve == curve
  }

  function Run(o: Own, changes: seq<Change>): Own {
    if changes == [] then o else Changed(Run(o, changes[..|changes| - 1]), changes[|changes| - 1])
  }

  /** A change that is refused changes nothing; one that is not raises the counter until it saturates. */
  lemma EveryChangeIsCounted(o: Own, c: Change)
    ensures Succeeds(o, c) ==> Changed(o, c).counter == Bump(o.counter)
    ensures !Succeeds(o, c) ==> Changed(o, c) == o
    ensures o.counter < 0xFFFF ==> (Changed(o, c) == o <==> Changed(o, c).counter == o.counter)
  {
    UpdatingHasSuccessor(o.entries);
    if c.DropCurve? {
      DroppedSome(o.entries, c.curve);
    }
  }

  // ---- how many certificates a curve holds --------------------------------------------

  function Count(entries: seq<KeyEntry>, state: KeyState, curve: U16): nat {
    if entries == [] then 0
    else (if entries[0].state == state && entries[0].curve == curve then 1 else 0) + Count(entries[1..], state, curve)
  }

  lemma {:induction false} FoundIfCounted(entries: seq<KeyEntry>, state: KeyState, curve: U16)
    ensures FindKey(entries, state, curve).Some? <==> Count(entries, state, curve) > 0
  {
    if entries != [] {
      FoundIfCounted(entries[1..], state, curve);
    }
  }

  lemma {:induction false} CountAppended(entries: seq<KeyEntry>, e: KeyEntry, state: KeyState, curve: U16)
    ensures Count(entries + [e], state, curve)
         == Count(entries, state, curve) + if e.state == state && e.curve == curve then 1 else 0
    ensures FindKey(entries + [e], state, curve)
         == if FindKey(entries, state, curve).Some? then FindKey(entries, state, curve)
            else if e.state == state && e.curve == curve then Some(e.ski) else None
    ensures Succeeded(entries + [e]) == Succeeded(entries) + if e.state == Successor then [e.curve] else []
  {
    if entries == [] {
      assert entries + [e] == [e] && [e][1..] == [];
    } else {
      assert (entries + [e])[1..] == entries[1..] + [e];
      CountAppended(entries[1..], e, state, curve);
    }
  }

  lemma CountFirst(e: KeyEntry, rest: seq<KeyEntry>, state: KeyState, curve: U16)
    ensures Count([e] + rest, state, curve) == Count(rest, state, curve) + if e.state == state && e.curve == curve then 1 else 0
    ensures FindKey([e] + rest, state, curve)
         == if e.state == state && e.curve == curve then Some(e.ski) else FindKey(rest, state, curve)
    ensures Succeeded([e] + rest) == (if e.state == Successor then [e.curve] else []) + Succeeded(rest)
  {
    assert ([e] + rest)[1..] == rest;
  }

  lemma {:induction false} CountRetired(entries: seq<KeyEntry>, curves: seq<U16>, state: KeyState, curve: U16)
    ensures var kept := WithoutPredecessors(entries, curves);
            var gone := state == Predecessor && curve in curves;
            && Count(kept, state, curve) == (if gone then 0 else Count(entries, state, curve))
            && FindKey(kept, state, curve) == (if gone then None else FindKey(entries, state, curve))
  {
    if entries != [] {
      CountRetired(entries[1..], curves, state, curve);
      var e, rest := entries[0], WithoutPredecessors(entries[1..], curves);
      assert entries == [e] + entries[1..];
      CountFirst(e, rest, state, curve);
      CountFirst(e, entries[1..], state, curve);
      assert [] + rest == rest;
      hide Count, FindKey;
    }
  }

  /** The state an entry of a renewed curve was in before. */
  function Before(state: KeyState): Option<KeyState> {
    match state
    case Predecessor => Some(Current)
    case Current => Some(Successor)
    case Successor => None
  }

  lemma {:induction false} CountAdvanced(entries: seq<KeyEntry>, curves: seq<U16>, state: KeyState, curve: U16)
    requires curve in curves ==> Count(entries, Predecessor, curve) == 0
    ensures var all := AllAdvanced(entries, curves);
            && Count(all, state, curve) ==
               (if curve !in curves then Count(entries, state, curve)
                else if state == Successor then 0 else Count(entries, Before(state).value, curve))
            && FindKey(all, state, curve) ==
               (if curve !in curves then FindKey(entries, state, curve)
                else if state == Successor then None else FindKey(entries, Before(state).value, curve))
  {
    if entries != [] {
      CountAdvanced(entries[1..], curves, state, curve);
      assert AllAdvanced(entries, curves)[1..] == AllAdvanced(entries[1..], curves);
    }
  }

  lemma {:induction false} NoneSucceed(entries: seq<KeyEntry>, curves: seq<U16>)
    requires forall i :: 0 <= i < |entries| && entries[i].state == Successor ==> entries[i].curve in curves
    ensures Succeeded(AllAdvanced(entries, curves)) == []
  {
    if entries != [] {
      NoneSucceed(entries[1..], curves);
      assert AllAdvanced(entries, curves)[1..] == AllAdvanced(entries[1..], curves);
    }
  }

  lemma {:induction false} SucceededRetired(entries: seq<KeyEntry>, curves: seq<U16>)
    ensures Succeeded(WithoutPredecessors(entries, curves)) == Succeeded(entries)
  {
    if entries != [] {
      SucceededRetired(entries[1..], curves);
      var rest := WithoutPredecessors(entries[1..], curves);
      assert ([entries[0]] + rest)[1..] == rest;
      assert [] + rest == rest && [] + Succeeded(entries[1..]) == Succeeded(entries[1..]);
    }
  }

  lemma {:induction false} CountDropped(entries: seq<KeyEntry>, dropped: U16, state: KeyState, curve: U16)
    ensures var kept := WithoutCurve(entries, dropped);
            && Count(kept, state, curve) == (if curve == dropped then 0 else Count(entries, state, curve))
            && FindKey(kept, state, curve) == (if curve == dropped then None else FindKey(entries, state, curve))
            && |Succeeded(kept)| <= |Succeeded(entries)|
  {
    if entries != [] {
      CountDropped(entries[1..], dropped, state, curve);
      var e, rest := entries[0], WithoutCurve(entries[1..], dropped);
      assert entries == [e] + entries[1..];
      CountFirst(e, rest, state, curve);
      CountFirst(e, entries[1..], state, curve);
      assert [] + rest == rest;
      hide Count, FindKey, Succeeded;
    }
  }

  // ---- each curve on its own -------------------------------------------------------------

  datatype CurveKeys = CurveKeys(predecessor: Option<Ski>, current: Option<Ski>, successor: Option<Ski>)

  const NO_KEYS := CurveKeys(None, None, None)

  function On(entries: seq<KeyEntry>, curve: U16): CurveKeys {
    CurveKeys(FindKey(entries, Predecessor, curve), FindKey(entries, Current, curve), FindKey(entries, Successor, curve))
  }

  /** The change as the certificates of one curve see it; `busy` is an update on any curve. */
  function CurveChanged(k: CurveKeys, busy: bool, c: Change, curve: U16): CurveKeys {
    match c
    case BeginUpdate(successor, on) =>
      if on == curve && !busy && k.current.Some? && k.current != Some(successor)
      then k.(successor := Some(successor)) else k
    case CompleteUpdate =>
      if k.successor.Some? then CurveKeys(k.current, k.successor, None) else k
    case AddCurve(ski, on) =>
      if on == curve && k.current.None? then k.(current := Some(ski)) else k
    case DropCurve(on) => if on == curve then NO_KEYS else k
  }

  lemma {:induction false} FoundSuccessor(entries: seq<KeyEntry>, curve: U16)
    ensures FindKey(entries, Successor, curve).Some? <==> curve in Succeeded(entries)
  {
    if entries != [] {
      FoundSuccessor(entries[1..], curve);
    }
  }

  lemma CompletedOn(o: Own, curve: U16)
    ensures On(Completed(o).entries, curve) == CurveChanged(On(o.entries, curve), Updating(o.entries), CompleteUpdate, curve)
  {
    var curves := Succeeded(o.entries);
    FoundSuccessor(o.entries, curve);
    var kept := WithoutPredecessors(o.entries, curves);
    CountRetired(o.entries, curves, Predecessor, curve);
    CountRetired(o.entries, curves, Current, curve);
    CountRetired(o.entries, curves, Successor, curve);
    CountAdvanced(kept, curves, Predecessor, curve);
    CountAdvanced(kept, curves, Current, curve);
    CountAdvanced(kept, curves, Successor, curve);
    hide FindKey, Count, Succeeded, WithoutPredecessors, AllAdvanced;
  }

  /** The list of certificates behaves as independent keys per curve would. */
  lemma ChangesRefineCurves(o: Own, c: Change, curve: U16)
    ensures On(Changed(o, c).entries, curve) == CurveChanged(On(o.entries, curve), Updating(o.entries), c, curve)
  {
    match c
    case BeginUpdate(successor, on) =>
      var e := KeyEntry(Successor, on, successor);
      AppendedOn(o.entries, e, curve);
      UpdatingHasSuccessor(o.entries);
      FoundSuccessor(o.entries, curve);
      hide FindKey, Updating;
    case CompleteUpdate => CompletedOn(o, curve);
    case AddCurve(ski, on) =>
      AppendedOn(o.entries, KeyEntry(Current, on, ski), curve);
      hide FindKey, Updating;
    case DropCurve(on) =>
      CountDropped(o.entries, on, Predecessor, curve);
      CountDropped(o.entries, on, Current, curve);
      CountDropped(o.entries, on, Successor, curve);
      DroppedNothing(o.entries, on);
      hide FindKey, Updating;
  }

  function WithEntry(k: CurveKeys, e: KeyEntry, curve: U16): CurveKeys {
    if e.curve != curve then k
    else match e.state
      case Predecessor => if k.predecessor.Some? then k else k.(predecessor := Some(e.ski))
      case Current => if k.current.Some? then k else k.(current := Some(e.ski))
      case Successor => if k.successor.Some? then k else k.(successor := Some(e.ski))
  }

  lemma AppendedOn(entries: seq<KeyEntry>, e: KeyEntry, curve: U16)
    ensures On(entries + [e], curve) == WithEntry(On(entries, curve), e, curve)
  {
    CountAppended(entries, e, Predecessor, curve);
    CountAppended(entries, e, Current, curve);
    CountAppended(entries, e, Successor, curve);
    hide FindKey;
  }

  lemma {:induction false} DroppedNothing(entries: seq<KeyEntry>, curve: U16)
    ensures |WithoutCurve(entries, curve)| <= |entries|
    ensures |WithoutCurve(entries, curve)| == |entries| ==> WithoutCurve(entries, curve) == entries
  {
    if entries != [] {
      DroppedNothing(entries[1..], curve);
    }
  }

  // ---- what every reachable state keeps ------------------------------------------------------

  /** One certificate at most in each state, and one in use wherever there is any. */
  predicate CurveSound(entries: seq<KeyEntry>, curve: U16) {
    var k := On(entries, curve);
    && Count(entries, Predecessor, curve) <= 1 && Count(entries, Current, curve) <= 1 && Count(entries, Successor, curve) <= 1
    && (k.predecessor.Some? || k.successor.Some? ==> k.current.Some?)
    && (k.current.Some? ==> k.current != k.predecessor && k.current != k.successor)
  }

  ghost predicate Sound(o: Own) {
    && 1 <= o.counter
    && |Succeeded(o.entries)| <= 1
    && forall curve :: CurveSound(o.entries, curve)
  }

  lemma CompletedKeepsCurve(o: Own, curve: U16)
    requires CurveSound(o.entries, curve)
    ensures CurveSound(Completed(o).entries, curve)
  {
    var curves := Succeeded(o.entries);
    var kept := WithoutPredecessors(o.entries, curves);
    FoundSuccessor(o.entries, curve);
    CompletedOn(o, curve);
    CountRetired(o.entries, curves, Predecessor, curve);
    CountRetired(o.entries, curves, Current, curve);
    CountRetired(o.entries, curves, Successor, curve);
    CountAdvanced(kept, curves, Predecessor, curve);
    CountAdvanced(kept, curves, Current, curve);
    CountAdvanced(kept, curves, Successor, curve);
    hide FindKey, Count, Succeeded, WithoutPredecessors, AllAdvanced;
  }

  lemma AppendedKeepsCurve(entries: seq<KeyEntry>, e: KeyEntry, curve: U16)
    requires CurveSound(entries, curve)
    requires e.curve == curve ==>
               var k := On(entries, curve);
               || (e.state == Successor && k.successor.None? && k.current.Some? && k.current != Some(e.ski))
               || (e.state == Current && k.current.None?)
    ensures CurveSound(entries + [e], curve)
  {
    AppendedOn(entries, e, curve);
    CountAppended(entries, e, Predecessor, curve);
    CountAppended(entries, e, Current, curve);
    CountAppended(entries, e, Successor, curve);
    FoundIfCounted(entries, Predecessor, curve);
    FoundIfCounted(entries, Current, curve);
    FoundIfCounted(entries, Successor, curve);
    hide FindKey, Count;
  }

  lemma DroppedKeepsCurve(entries: seq<KeyEntry>, dropped: U16, curve: U16)
    requires CurveSound(entries, curve)
    ensures CurveSound(WithoutCurve(entries, dropped), curve)
  {
    CountDropped(entries, dropped, Predecessor, curve);
    CountDropped(entries, dropped, Current, curve);
    CountDropped(entries, dropped, Successor, curve);
    hide FindKey, Count;
  }

  lemma ChangeKeepsCurve(o: Own, c: Change, curve: U16)
    requires CurveSound(o.entries, curve)
    ensures CurveSound(Changed(o, c).entries, curve)
  {
    match c
    case BeginUpdate(successor, on) =>
      UpdatingHasSuccessor(o.entries);
      FoundSuccessor(o.entries, curve);
      hide CurveSound, Updating, Succeeded;
      if Begun(o, successor, on).Ok? {
        AppendedKeepsCurve(o.entries, KeyEntry(Successor, on, successor), curve);
      }
    case CompleteUpdate => CompletedKeepsCurve(o, curve);
    case AddCurve(ski, on) =>
      hide CurveSound;
      if Added(o, ski, on).Ok? {
        AppendedKeepsCurve(o.entries, KeyEntry(Current, on, ski), curve);
      }
    case DropCurve(on) => DroppedKeepsCurve(o.entries, on, curve);
  }

  /** Completing an update leaves none running, on any curve. */
  lemma CompletedIsIdle(o: Own)
    ensures !Updating(Completed(o).entries)
  {
    var curves := Succeeded(o.entries);
    var kept := WithoutPredecessors(o.entries, curves);
    UpdatingHasSuccessor(o.entries);
    SucceededRetired(o.entries, curves);
    UpdatingHasSuccessor(kept);
    NoneSucceed(kept, curves);
    UpdatingHasSuccessor(AllAdvanced(kept, curves));
  }

  lemma ChangeKeepsOneUpdate(o: Own, c: Change)
    requires |Succeeded(o.entries)| <= 1
    ensures |Succeeded(Changed(o, c).entries)| <= 1
  {
    UpdatingHasSuccessor(o.entries);
    match c
    case BeginUpdate(successor, on) =>
      CountAppended(o.entries, KeyEntry(Successor, on, successor), Successor, on);
    case CompleteUpdate =>
      CompletedIsIdle(o);
      UpdatingHasSuccessor(Completed(o).entries);
    case AddCurve(ski, on) => CountAppended(o.entries, KeyEntry(Current, on, ski), Current, on);
    case DropCurve(on) => CountDropped(o.entries, on, Current, on);
  }

  lemma ChangeKeepsSound(o: Own, c: Change)
    requires Sound(o)
    ensures Sound(Changed(o, c))
  {
    EveryChangeIsCounted(o, c);
    ChangeKeepsOneUpdate(o, c);
    forall curve ensures CurveSound(Changed(o, c).entries, curve) {
      ChangeKeepsCurve(o, c, curve);
    }
  }

  lemma FactoryNewIsSound(current: Ski, curve: U16)
    ensures Sound(FactoryNew(current, curve))
  {
    var e := KeyEntry(Current, curve, current);
    assert [] + [e] == [e] && [e][1..] == [];
    forall k ensures CurveSound([e], k) {
      assert On([], k) == NO_KEYS;
      AppendedKeepsCurve([], e, k);
    }
  }

  /** Whatever is done to a factory-new node's keys, they stay sound. */
  lemma {:induction false} EveryRunIsSound(current: Ski, curve: U16, changes: seq<Change>)
    ensures Sound(Run(FactoryNew(current, curve), changes))
    decreases |changes|
  {
    if changes == [] {
      FactoryNewIsSound(current, curve);
    } else {
      EveryRunIsSound(current, curve, changes[..|changes| - 1]);
      ChangeKeepsSound(Run(FactoryNew(current, curve), changes[..|changes| - 1]), changes[|changes| - 1]);
    }
  }

  /** In those states a held curve has exactly one certificate in use. */
  lemma SoundMeansOneCurrent(o: Own, curve: U16)
    requires Sound(o)
    ensures (exists i :: 0 <= i < |o.entries| && o.entries[i].curve == curve) ==> Count(o.entries, Current, curve) == 1
  {
    assert CurveSound(o.entries, curve);
    FoundIfCounted(o.entries, Predecessor, curve);
    FoundIfCounted(o.entries, Current, curve);
    FoundIfCounted(o.entries, Successor, curve);
    if i :| 0 <= i < |o.entries| && o.entries[i].curve == curve {
      CountsEntry(o.entries, i);
    }
  }

  lemma {:induction false} CountsEntry(entries: seq<KeyEntry>, i: nat)
    requires i < |entries|
    ensures Count(entries, entries[i].state, entries[i].curve) > 0
  {
    if i > 0 {
      CountsEntry(entries[1..], i - 1);
    }
  }

  // ---- what is refused ------------------------------------------------------------------

  /**
   A renewal is refused while one runs, on a curve without a certificate in use, and to the certificate in
   use; a curve is refused that has one already.
   */
  lemma RefusalsAreNamed(o: Own, ski: Ski, curve: U16)
    ensures var updating := exists i :: 0 <= i < |o.entries| && o.entries[i].state == Successor;
            var k := On(o.entries, curve);
            && (Begun(o, ski, curve) == Err(UpdateInProgress) <==> updating)
            && (Begun(o, ski, curve) == Err(UnknownCurve) <==> !updating && k.current.None?)
            && (Begun(o, ski, curve) == Err(NotAChange) <==> !updating && k.current == Some(ski))
            && (Added(o, ski, curve).Err? <==> k.current.Some?)
            && (Added(o, ski, curve).Err? ==> Added(o, ski, curve) == Err(UpdateInProgress))
  {
    hide FindKey;
  }
}
