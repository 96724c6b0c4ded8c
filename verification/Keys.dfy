/**
 Certificate updates, src/ship/keys.rs: section 12.1.3 of SHIP 1.1.0. A node's own keys move
 from successor to current to predecessor; a peer follows them from the announcements it gets.
 */
module Keys {
  import opened Wrappers
  import opened Sequences
  import opened SkiText

  type U16 = n: nat | n <= 0xFFFF

  datatype KeyState = Predecessor | Current | Successor

  datatype KeyEntry = KeyEntry(state: KeyState, curve: U16, ski: Ski)

  datatype KeyError = UpdateInProgress | NotAChange | UnknownCurve

  // ---- a node's own keys, as values ------------------------------------------------

  datatype Own = Own(counter: U16, entries: seq<KeyEntry>)

  predicate Updating(entries: seq<KeyEntry>) {
    exists i :: 0 <= i < |entries| && entries[i].state == Successor
  }

  /** The first certificate in a state on a curve. */
  function FindKey(entries: seq<KeyEntry>, state: KeyState, curve: U16): Option<Ski> {
    if entries == [] then None
    else if entries[0].state == state && entries[0].curve == curve then Some(entries[0].ski)
    else FindKey(entries[1..], state, curve)
  }

  /** `bump`: the counter saturates rather than going down. */
  function Bump(counter: U16): U16 {
    if counter < 0xFFFF then counter + 1 else counter
  }

  function FactoryNew(current: Ski, curve: U16): Own {
    Own(1, [KeyEntry(Current, curve, current)])
  }

  function Begun(o: Own, successor: Ski, curve: U16): Result<Own, KeyError> {
    if Updating(o.entries) then Err(UpdateInProgress)
    else
      var current := FindKey(o.entries, Current, curve);
      if current.None? then Err(UnknownCurve)
      else if current.value == successor then Err(NotAChange)
      else Ok(Own(Bump(o.counter), o.entries + [KeyEntry(Successor, curve, successor)]))
  }

  function Succeeded(entries: seq<KeyEntry>): seq<U16> {
    if entries == [] then []
    else (if entries[0].state == Successor then [entries[0].curve] else []) + Succeeded(entries[1..])
  }

  function WithoutPredecessors(entries: seq<KeyEntry>, curves: seq<U16>): seq<KeyEntry> {
    if entries == [] then []
    else
      var e := entries[0];
      (if e.state == Predecessor && e.curve in curves then [] else [e]) + WithoutPredecessors(entries[1..], curves)
  }

  function Advanced(e: KeyEntry, curves: seq<U16>): KeyEntry {
    if e.curve !in curves then e
    else match e.state
      case Current => e.(state := Predecessor)
      case Successor => e.(state := Current)
      case Predecessor => e
  }

  function AllAdvanced(entries: seq<KeyEntry>, curves: seq<U16>): seq<KeyEntry> {
    seq(|entries|, i requires 0 <= i < |entries| => Advanced(entries[i], curves))
  }

  function Completed(o: Own): Own {
    var curves := Succeeded(o.entries);
    if curves == [] then o
    else Own(Bump(o.counter), AllAdvanced(WithoutPredecessors(o.entries, curves), curves))
  }

  function Added(o: Own, ski: Ski, curve: U16): Result<Own, KeyError> {
    if FindKey(o.entries, Current, curve).Some? then Err(UpdateInProgress)
    else Ok(Own(Bump(o.counter), o.entries + [KeyEntry(Current, curve, ski)]))
  }

  function WithoutCurve(entries: seq<KeyEntry>, curve: U16): seq<KeyEntry> {
    if entries == [] then []
    else (if entries[0].curve == curve then [] else [entries[0]]) + WithoutCurve(entries[1..], curve)
  }

  function Dropped(o: Own, curve: U16): Own {
    var kept := WithoutCurve(o.entries, curve);
    if |kept| == |o.entries| then o else Own(Bump(o.counter), kept)
  }

  // ---- announcements ------------------------------------------------------------------

  datatype MessageEntry = MessageEntry(currentState: Option<KeyState>, curve: Option<U16>, ski: Option<string>)

  datatype KeyMaterialState = KeyMaterialState(updateCounter: Option<U16>, entry: Option<seq<MessageEntry>>)

  function EntryMessage(e: KeyEntry): MessageEntry {
    MessageEntry(Some(e.state), Some(e.curve), Some(Hex(e.ski, true, 0)))
  }

  function Announcement(o: Own): KeyMaterialState {
    KeyMaterialState(Some(o.counter),
                     Some(seq(|o.entries|, i requires 0 <= i < |o.entries| => EntryMessage(o.entries[i]))))
  }

  // ---- a node's own keys, updated in place ----------------------------------------------

  class OwnKeys {
    var updateCounter: U16
    var entries: seq<KeyEntry>

    ghost function State(): Own
      reads this
    {
      Own(updateCounter, entries)
    }

    constructor ForCurve(current: Ski, curve: U16)
      ensures State() == FactoryNew(current, curve)
    {
      updateCounter := 1;
      entries := [KeyEntry(Current, curve, current)];
    }

    method Find(state: KeyState, curve: U16) returns (r: Option<Ski>)
      ensures r == FindKey(entries, state, curve)
    {
      for n := 0 to |entries|
        invariant FindKey(entries[n..], state, curve) == FindKey(entries, state, curve)
      {
        assert entries[n..][1..] == entries[n + 1..];
        if entries[n].state == state && entries[n].curve == curve {
          return Some(entries[n].ski);
        }
      }
      r := None;
    }

    method BeginUpdateFor(successor: Ski, curve: U16) returns (r: Result<(), KeyError>)
      modifies this
      ensures match Begun(old(State()), successor, curve)
              case Ok(o) => r == Ok(()) && State() == o
              case Err(e) => r == Err(e) && State() == old(State())
    {
      if Updating(entries) {
        return Err(UpdateInProgress);
      }
      var current := Find(Current, curve);
      if current.None? {
        return Err(UnknownCurve);
      }
      if current.value == successor {
        return Err(NotAChange);
      }
      entries := entries + [KeyEntry(Successor, curve, successor)];
      updateCounter := Bump(updateCounter);
      r := Ok(());
    }

    method CompleteUpdate() returns (changed: bool)
      modifies this
      ensures State() == Completed(old(State()))
      ensures changed == Updating(old(entries))
    {
      UpdatingHasSuccessor(entries);
      if !Updating(entries) {
        return false;
      }
      var succeeded := Successors(entries);
      entries := Retire(entries, succeeded);
      MoveUp(succeeded);
      updateCounter := Bump(updateCounter);
      changed := true;
    }

    static method Successors(entries: seq<KeyEntry>) returns (succeeded: seq<U16>)
      ensures succeeded == Succeeded(entries)
    {
      succeeded := [];
      for n := 0 to |entries|
        invariant succeeded + Succeeded(entries[n..]) == Succeeded(entries)
      {
        Tail(entries, n);
        Moves(succeeded, entries[n].curve, Succeeded(entries[n + 1..]));
        if entries[n].state == Successor {
          succeeded := succeeded + [entries[n].curve];
        }
      }
      assert succeeded + [] == succeeded;
    }

    static method Retire(entries: seq<KeyEntry>, succeeded: seq<U16>) returns (kept: seq<KeyEntry>)
      ensures kept == WithoutPredecessors(entries, succeeded)
    {
      kept := [];
      for n := 0 to |entries|
        invariant kept + WithoutPredecessors(entries[n..], succeeded) == WithoutPredecessors(entries, succeeded)
      {
        Tail(entries, n);
        Moves(kept, entries[n], WithoutPredecessors(entries[n + 1..], succeeded));
        var e := entries[n];
        if !(e.state == Predecessor && e.curve in succeeded) {
          kept := kept + [e];
        }
      }
      assert kept + [] == kept;
    }

    method MoveUp(succeeded: seq<U16>)
      modifies this`entries
      ensures entries == AllAdvanced(old(entries), succeeded)
    {
      for n := 0 to |entries|
        invariant |entries| == |old(entries)|
        invariant forall i :: 0 <= i < n ==> entries[i] == Advanced(old(entries)[i], succeeded)
        invariant forall i :: n <= i < |entries| ==> entries[i] == old(entries)[i]
      {
        var entry := entries[n];
        if entry.curve !in succeeded {
          continue;
        }
        match entry.state {
          case Current => entries := entries[n := entry.(state := Predecessor)];
          case Successor => entries := entries[n := entry.(state := Current)];
          case Predecessor =>
        }
      }
    }

    method AddCurve(ski: Ski, curve: U16) returns (r: Result<(), KeyError>)
      modifies this
      ensures match Added(old(State()), ski, curve)
              case Ok(o) => r == Ok(()) && State() == o
              case Err(e) => r == Err(e) && State() == old(State())
    {
      var current := Find(Current, curve);
      if current.Some? {
        return Err(UpdateInProgress);
      }
      entries := entries + [KeyEntry(Current, curve, ski)];
      updateCounter := Bump(updateCounter);
      r := Ok(());
    }

    method DropCurve(curve: U16) returns (changed: bool)
      modifies this
      ensures State() == Dropped(old(State()), curve)
      ensures changed == exists i :: 0 <= i < |old(entries)| && old(entries)[i].curve == curve
    {
      var kept := RetainOthers(entries, curve);
      changed := |kept| != |entries|;
      DroppedSome(entries, curve);
      if changed {
        entries := kept;
        updateCounter := Bump(updateCounter);
      }
    }

    static method RetainOthers(entries: seq<KeyEntry>, curve: U16) returns (kept: seq<KeyEntry>)
      ensures kept == WithoutCurve(entries, curve)
    {
      kept := [];
      for n := 0 to |entries|
        invariant kept + WithoutCurve(entries[n..], curve) == WithoutCurve(entries, curve)
      {
        Tail(entries, n);
        Moves(kept, entries[n], WithoutCurve(entries[n + 1..], curve));
        if entries[n].curve != curve {
          kept := kept + [entries[n]];
        }
      }
      assert kept + [] == kept;
    }

    method ToMessage() returns (m: KeyMaterialState)
      ensures m == Announcement(State())
    {
      var announced: seq<MessageEntry> := [];
      for n := 0 to |entries|
        invariant |announced| == n
        invariant forall i :: 0 <= i < n ==> announced[i] == EntryMessage(entries[i])
      {
        var text := WriteHex(entries[n].ski, true, 0);
        announced := announced + [MessageEntry(Some(entries[n].state), Some(entries[n].curve), Some(text))];
      }
      m := KeyMaterialState(Some(updateCounter), Some(announced));
      assert announced == Announcement(State()).entry.value;
    }
  }

  lemma {:induction false} UpdatingHasSuccessor(entries: seq<KeyEntry>)
    ensures Updating(entries) <==> Succeeded(entries) != []
    ensures forall c :: c in Succeeded(entries) <==>
              exists i :: 0 <= i < |entries| && entries[i].state == Successor && entries[i].curve == c
  {
    if entries != [] {
      UpdatingHasSuccessor(entries[1..]);
      assert forall i :: 1 <= i < |entries| ==> entries[i] == entries[1..][i - 1];
    }
  }

  lemma {:induction false} DroppedSome(entries: seq<KeyEntry>, curve: U16)
    ensures |WithoutCurve(entries, curve)| <= |entries|
    ensures |WithoutCurve(entries, curve)| != |entries|
       <==> exists i :: 0 <= i < |entries| && entries[i].curve == curve
  {
    if entries != [] {
      DroppedSome(entries[1..], curve);
      assert forall i :: 1 <= i < |entries| ==> entries[i] == entries[1..][i - 1];
    }
  }

  // ---- what a peer keeps ------------------------------------------------------------------

  datatype Peer = Peer(counter: U16, trusted: seq<(U16, Ski)>)

  datatype KeyUpdate = KeyUpdate(trust: seq<Ski>, untrust: seq<Ski>, advanced: bool)

  /** The key an announced entry asks to trust on `curve`, if it is whole and on that curve. */
  function Kept(e: MessageEntry, curve: U16): Option<Ski> {
    if e.currentState.None? || e.curve.None? || e.ski.None? then None
    else match Parse(e.ski.value)
      case Err(_) => None
      case Ok(ski) => if e.curve.value == curve && !e.currentState.value.Predecessor? then Some(ski) else None
  }

  function KeptAll(entries: seq<MessageEntry>, curve: U16): seq<(U16, Ski)> {
    if entries == [] then []
    else
      var k := Kept(entries[0], curve);
      (if k.Some? then [(curve, k.value)] else []) + KeptAll(entries[1..], curve)
  }

  function OtherCurves(trusted: seq<(U16, Ski)>, curve: U16): seq<(U16, Ski)> {
    if trusted == [] then []
    else (if trusted[0].0 != curve then [trusted[0]] else []) + OtherCurves(trusted[1..], curve)
  }

  /** The keys of `keep` that are not in `held`, in order. */
  function NewIn(keep: seq<(U16, Ski)>, held: seq<(U16, Ski)>): seq<Ski> {
    if keep == [] then []
    else (if keep[0] !in held then [keep[0].1] else []) + NewIn(keep[1..], held)
  }

  function GoneFrom(held: seq<(U16, Ski)>, keep: seq<(U16, Ski)>, curve: U16): seq<Ski> {
    if held == [] then []
    else
      (if held[0].0 == curve && held[0] !in keep then [held[0].1] else []) + GoneFrom(held[1..], keep, curve)
  }

  /** The peer after a message, and what it reports; nothing for a counter gone backwards. */
  function Applied(p: Peer, message: KeyMaterialState, curve: U16): (Peer, Option<KeyUpdate>) {
    if message.updateCounter.None? || message.updateCounter.value < p.counter then (p, None)
    else
      var announced := message.updateCounter.value;
      var keep := KeptAll(message.entry.UnwrapOr([]), curve);
      (Peer(announced, OtherCurves(p.trusted, curve) + keep),
       Some(KeyUpdate(NewIn(keep, p.trusted), GoneFrom(p.trusted, keep, curve), announced > p.counter)))
  }

  class PeerKeys {
    var updateCounter: U16
    var trusted: seq<(U16, Ski)>

    ghost function State(): Peer
      reads this
    {
      Peer(updateCounter, trusted)
    }

    constructor FromStored(updateCounter: U16, trusted: seq<(U16, Ski)>)
      ensures State() == Peer(updateCounter, trusted)
    {
      this.updateCounter := updateCounter;
      this.trusted := trusted;
    }

    method Apply(message: KeyMaterialState, negotiatedCurve: U16) returns (r: Option<KeyUpdate>)
      modifies this
      ensures (State(), r) == Applied(old(State()), message, negotiatedCurve)
    {
      if message.updateCounter.None? {
        return None;
      }
      var announced := message.updateCounter.value;
      if announced < updateCounter {
        return None;
      }
      var keep := Collect(message.entry.UnwrapOr([]), negotiatedCurve);
      var trust := Unknown(keep, trusted);
      var untrust := Missing(trusted, keep, negotiatedCurve);
      r := Some(KeyUpdate(trust, untrust, announced > updateCounter));
      var others := RetainOthers(trusted, negotiatedCurve);
      trusted := others + keep;
      updateCounter := announced;
    }

    static method Unknown(keep: seq<(U16, Ski)>, held: seq<(U16, Ski)>) returns (trust: seq<Ski>)
      ensures trust == NewIn(keep, held)
    {
      trust := [];
      for n := 0 to |keep|
        invariant trust + NewIn(keep[n..], held) == NewIn(keep, held)
      {
        Tail(keep, n);
        Moves(trust, keep[n].1, NewIn(keep[n + 1..], held));
        if keep[n] !in held {
          trust := trust + [keep[n].1];
        }
      }
      assert trust + [] == trust;
    }

    static method Missing(held: seq<(U16, Ski)>, keep: seq<(U16, Ski)>, curve: U16) returns (untrust: seq<Ski>)
      ensures untrust == GoneFrom(held, keep, curve)
    {
      untrust := [];
      for n := 0 to |held|
        invariant untrust + GoneFrom(held[n..], keep, curve) == GoneFrom(held, keep, curve)
      {
        Tail(held, n);
        Moves(untrust, held[n].1, GoneFrom(held[n + 1..], keep, curve));
        if held[n].0 == curve && held[n] !in keep {
          untrust := untrust + [held[n].1];
        }
      }
      assert untrust + [] == untrust;
    }

    static method RetainOthers(held: seq<(U16, Ski)>, curve: U16) returns (others: seq<(U16, Ski)>)
      ensures others == OtherCurves(held, curve)
    {
      others := [];
      for n := 0 to |held|
        invariant others + OtherCurves(held[n..], curve) == OtherCurves(held, curve)
      {
        Tail(held, n);
        Moves(others, held[n], OtherCurves(held[n + 1..], curve));
        if held[n].0 != curve {
          others := others + [held[n]];
        }
      }
      assert others + [] == others;
    }

    static method Collect(entries: seq<MessageEntry>, curve: U16) returns (keep: seq<(U16, Ski)>)
      ensures keep == KeptAll(entries, curve)
    {
      keep := [];
      for n := 0 to |entries|
        invariant keep + KeptAll(entries[n..], curve) == KeptAll(entries, curve)
      {
        var e := entries[n];
        assert entries[n..][1..] == entries[n + 1..];
        if e.currentState.None? || e.curve.None? || e.ski.None? {
          continue;
        }
        var ski := FromStr(e.ski.value);
        if ski.Err? || e.curve.value != curve {
          continue;
        }
        if e.currentState.value != Predecessor {
          keep := keep + [(curve, ski.value)];
        }
      }
      assert keep + [] == keep;
    }
  }
}
