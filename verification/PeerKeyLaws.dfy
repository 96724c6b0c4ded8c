/**
 What a peer ends up trusting: whatever is lost, repeated or reordered on the way, the newest
 announcement delivered decides, and a renewal announced in time never loses the peer.
 */
module PeerKeyLaws {
  import opened Wrappers
  import opened Sequences
  import opened SkiText
  import opened Keys
  import opened OwnKeyLaws

  // ---- what an announcement asks for -------------------------------------------------

  /** The keys an honest announcement asks a peer on `curve` to trust. */
  function TrustedOf(entries: seq<KeyEntry>, curve: U16): seq<(U16, Ski)> {
    if entries == [] then []
    else
      var e := entries[0];
      (if e.curve == curve && e.state != Predecessor then [(curve, e.ski)] else []) + TrustedOf(entries[1..], curve)
  }

  function Announced(entries: seq<KeyEntry>): seq<MessageEntry> {
    seq(|entries|, i requires 0 <= i < |entries| => EntryMessage(entries[i]))
  }

  /** The SKIs travel as text and are read back exactly. */
  lemma {:induction false} AnnouncementIsUnderstood(entries: seq<KeyEntry>, curve: U16)
    ensures KeptAll(Announced(entries), curve) == TrustedOf(entries, curve)
  {
    if entries != [] {
      AnnouncementIsUnderstood(entries[1..], curve);
      assert Announced(entries)[1..] == Announced(entries[1..]);
      WrittenReadsBack(entries[0].ski, true, 0);
      hide Hex, Parse;
    }
  }

  lemma {:induction false} TrustedAreInUse(entries: seq<KeyEntry>, curve: U16, ski: Ski)
    requires Count(entries, Current, curve) <= 1 && Count(entries, Successor, curve) <= 1
    ensures (curve, ski) in TrustedOf(entries, curve)
       <==> On(entries, curve).current == Some(ski) || On(entries, curve).successor == Some(ski)
  {
    if entries != [] {
      TrustedAreInUse(entries[1..], curve, ski);
      FoundIfCounted(entries[1..], Current, curve);
      FoundIfCounted(entries[1..], Successor, curve);
    }
  }

  // ---- delivery ----------------------------------------------------------------------

  /** The peer after messages arrive in this order, all over connections on one curve. */
  function Delivered(p: Peer, messages: seq<KeyMaterialState>, curve: U16): Peer {
    if messages == [] then p
    else Applied(Delivered(p, messages[..|messages| - 1], curve), messages[|messages| - 1], curve).0
  }

  lemma {:induction false} OthersStay(trusted: seq<(U16, Ski)>, keep: seq<(U16, Ski)>, curve: U16)
    requires forall i :: 0 <= i < |keep| ==> keep[i].0 == curve
    ensures OtherCurves(OtherCurves(trusted, curve) + keep, curve) == OtherCurves(trusted, curve)
  {
    if trusted == [] {
      NoOthers(keep, curve);
      assert [] + keep == keep;
    } else {
      OthersStay(trusted[1..], keep, curve);
      if trusted[0].0 != curve {
        var all := OtherCurves(trusted, curve) + keep;
        assert all[1..] == OtherCurves(trusted[1..], curve) + keep;
      } else {
        assert [] + OtherCurves(trusted[1..], curve) == OtherCurves(trusted[1..], curve);
      }
    }
  }

  lemma {:induction false} NoOthers(keep: seq<(U16, Ski)>, curve: U16)
    requires forall i :: 0 <= i < |keep| ==> keep[i].0 == curve
    ensures OtherCurves(keep, curve) == []
  {
    if keep != [] {
      NoOthers(keep[1..], curve);
    }
  }

  lemma {:induction false} KeptOnCurve(entries: seq<MessageEntry>, curve: U16)
    ensures forall i :: 0 <= i < |KeptAll(entries, curve)| ==> KeptAll(entries, curve)[i].0 == curve
  {
    if entries != [] {
      KeptOnCurve(entries[1..], curve);
    }
  }

  /** Keys trusted on other curves are never touched. */
  lemma AppliedLeavesOtherCurves(p: Peer, m: KeyMaterialState, curve: U16)
    ensures OtherCurves(Applied(p, m, curve).0.trusted, curve) == OtherCurves(p.trusted, curve)
  {
    var keep := KeptAll(m.entry.UnwrapOr([]), curve);
    KeptOnCurve(m.entry.UnwrapOr([]), curve);
    OthersStay(p.trusted, keep, curve);
  }

  /** The peer that has taken up message `m`, having started as `p`. */
  function Settled(p: Peer, m: KeyMaterialState, curve: U16): Peer
    requires m.updateCounter.Some?
  {
    Peer(m.updateCounter.value, OtherCurves(p.trusted, curve) + KeptAll(m.entry.UnwrapOr([]), curve))
  }

  predicate AtMost(m: KeyMaterialState, counter: U16) {
    m.updateCounter.None? || m.updateCounter.value <= counter
  }

  predicate Below(m: KeyMaterialState, counter: U16) {
    m.updateCounter.None? || m.updateCounter.value < counter
  }

  /** Message `k` has the greatest counter of all, and none after it has the same. */
  predicate Decides(p: Peer, messages: seq<KeyMaterialState>, k: nat) {
    && k < |messages|
    && messages[k].updateCounter.Some? && p.counter <= messages[k].updateCounter.value
    && (forall j :: 0 <= j < k ==> AtMost(messages[j], messages[k].updateCounter.value))
    && (forall j :: k < j < |messages| ==> Below(messages[j], messages[k].updateCounter.value))
  }

  lemma {:induction false} DeliveredStaysBelow(p: Peer, messages: seq<KeyMaterialState>, curve: U16, counter: U16)
    requires p.counter <= counter && forall j :: 0 <= j < |messages| ==> AtMost(messages[j], counter)
    ensures Delivered(p, messages, curve).counter <= counter
    ensures OtherCurves(Delivered(p, messages, curve).trusted, curve) == OtherCurves(p.trusted, curve)
    decreases |messages|
  {
    if messages != [] {
      var front, m := messages[..|messages| - 1], messages[|messages| - 1];
      DeliveredStaysBelow(p, front, curve, counter);
      AppliedLeavesOtherCurves(Delivered(p, front, curve), m, curve);
      assert AtMost(m, counter);
    }
  }

  /**
   Whatever was lost, repeated or reordered, the peer ends in the state of the last message
   among those with the greatest counter; messages with a lower one change nothing.
   */
  lemma {:induction false} NewestDecides(p: Peer, messages: seq<KeyMaterialState>, curve: U16, k: nat)
    requires Decides(p, messages, k)
    ensures Delivered(p, messages, curve) == Settled(p, messages[k], curve)
    decreases |messages|
  {
    var front, m := messages[..|messages| - 1], messages[|messages| - 1];
    if k == |messages| - 1 {
      DeliveredStaysBelow(p, front, curve, m.updateCounter.value);
    } else {
      NewestDecides(p, front, curve, k);
      assert Below(m, messages[k].updateCounter.value);
    }
  }

  /** Messages older than what the peer holds change nothing at all. */
  lemma {:induction false} OldMessagesAreIgnored(p: Peer, messages: seq<KeyMaterialState>, curve: U16)
    requires forall j :: 0 <= j < |messages| ==> Below(messages[j], p.counter)
    ensures Delivered(p, messages, curve) == p
    decreases |messages|
  {
    if messages != [] {
      OldMessagesAreIgnored(p, messages[..|messages| - 1], curve);
      assert Below(messages[|messages| - 1], p.counter);
    }
  }

  /** Some message decides, unless all are older than what the peer holds. */
  lemma {:induction false} SomeMessageDecides(p: Peer, messages: seq<KeyMaterialState>) returns (k: nat)
    ensures k <= |messages|
    ensures k < |messages| ==> Decides(p, messages, k)
    ensures k == |messages| ==> forall j :: 0 <= j < |messages| ==> Below(messages[j], p.counter)
    decreases |messages|
  {
    k := 0;
    if messages != [] {
      var n := |messages| - 1;
      k := SomeMessageDecides(p, messages[..n]);
      var high := if k < n then messages[k].updateCounter.value else p.counter;
      assert forall j :: 0 <= j < n ==> AtMost(messages[..n][j], high);
      if messages[n].updateCounter.Some? && high <= messages[n].updateCounter.value {
        k := n;
      } else if k == n {
        k := n + 1;
      }
    }
  }

  /** What a message reports is exactly the difference it made on its curve. */
  lemma ReportsAreTheDifference(p: Peer, m: KeyMaterialState, curve: U16, ski: Ski)
    requires Applied(p, m, curve).1.Some?
    ensures var (q, r) := Applied(p, m, curve);
            && (ski in r.value.trust <==> (curve, ski) in q.trusted && (curve, ski) !in p.trusted)
            && (ski in r.value.untrust <==> (curve, ski) in p.trusted && (curve, ski) !in q.trusted)
            && (r.value.advanced <==> p.counter < q.counter)
  {
    var keep := KeptAll(m.entry.UnwrapOr([]), curve);
    KeptOnCurve(m.entry.UnwrapOr([]), curve);
    NewInIs(keep, p.trusted, curve, ski);
    GoneFromIs(p.trusted, keep, curve, ski);
    OthersAreOther(p.trusted, curve);
  }

  lemma {:induction false} NewInIs(keep: seq<(U16, Ski)>, held: seq<(U16, Ski)>, curve: U16, ski: Ski)
    requires forall i :: 0 <= i < |keep| ==> keep[i].0 == curve
    ensures ski in NewIn(keep, held) <==> (curve, ski) in keep && (curve, ski) !in held
  {
    if keep != [] {
      NewInIs(keep[1..], held, curve, ski);
    }
  }

  lemma {:induction false} GoneFromIs(held: seq<(U16, Ski)>, keep: seq<(U16, Ski)>, curve: U16, ski: Ski)
    ensures ski in GoneFrom(held, keep, curve) <==> (curve, ski) in held && (curve, ski) !in keep
  {
    if held != [] {
      GoneFromIs(held[1..], keep, curve, ski);
    }
  }

  lemma {:induction false} OthersAreOther(trusted: seq<(U16, Ski)>, curve: U16)
    ensures forall i :: 0 <= i < |OtherCurves(trusted, curve)| ==> OtherCurves(trusted, curve)[i].0 != curve
  {
    if trusted != [] {
      OthersAreOther(trusted[1..], curve);
    }
  }

  // ---- one node's history, delivered anyhow ---------------------------------------------

  function StateAt(o: Own, changes: seq<Change>, i: nat): Own
    requires i <= |changes|
  {
    Run(o, changes[..i])
  }

  /** No change is made once the counter has nowhere left to go. */
  predicate Unsaturated(o: Own, changes: seq<Change>) {
    forall i :: 0 <= i < |changes| && Succeeds(StateAt(o, changes, i), changes[i]) ==>
      StateAt(o, changes, i).counter < 0xFFFF
  }

  /** The announcements of some of a history's states: lost, repeated and reordered at will. */
  function Announcements(o: Own, changes: seq<Change>, order: seq<nat>): seq<KeyMaterialState>
    requires forall n :: 0 <= n < |order| ==> order[n] <= |changes|
  {
    seq(|order|, n requires 0 <= n < |order| => Announcement(StateAt(o, changes, order[n])))
  }

  lemma {:induction false} CountersRise(o: Own, changes: seq<Change>, i: nat, j: nat)
    requires i <= j <= |changes|
    ensures StateAt(o, changes, i).counter <= StateAt(o, changes, j).counter
    decreases j - i
  {
    if i < j {
      CountersRise(o, changes, i, j - 1);
      assert changes[..j][..j - 1] == changes[..j - 1];
      EveryChangeIsCounted(StateAt(o, changes, j - 1), changes[j - 1]);
    }
  }

  lemma {:induction false} CountersTell(o: Own, changes: seq<Change>, i: nat, j: nat)
    requires Unsaturated(o, changes) && i <= j <= |changes|
    ensures StateAt(o, changes, i).counter == StateAt(o, changes, j).counter ==>
              StateAt(o, changes, i) == StateAt(o, changes, j)
    decreases j - i
  {
    if i < j {
      CountersTell(o, changes, i, j - 1);
      CountersRise(o, changes, i, j - 1);
      CountersRise(o, changes, j - 1, j);
      assert changes[..j][..j - 1] == changes[..j - 1];
      EveryChangeIsCounted(StateAt(o, changes, j - 1), changes[j - 1]);
    }
  }

  /** A delivery that contains the state `newest` and none after it. */
  predicate UpTo(order: seq<nat>, newest: nat) {
    newest in order && forall n :: 0 <= n < |order| ==> order[n] <= newest
  }

  /** The peer `p` once it follows the state `s` on a curve. */
  function Following(p: Peer, s: Own, curve: U16): Peer {
    Peer(s.counter, OtherCurves(p.trusted, curve) + TrustedOf(s.entries, curve))
  }

  /** Earlier states the counter does not tell from the newest ask for the same keys. */
  predicate TiesAgree(o: Own, changes: seq<Change>, curve: U16, newest: nat)
    requires newest <= |changes|
  {
    var s := StateAt(o, changes, newest);
    forall i :: 0 <= i <= newest && StateAt(o, changes, i).counter == s.counter ==>
      TrustedOf(StateAt(o, changes, i).entries, curve) == TrustedOf(s.entries, curve)
  }

  ghost predicate AlwaysFollowed(o: Own, changes: seq<Change>, p: Peer, curve: U16, newest: nat)
    requires newest <= |changes|
  {
    forall order :: UpTo(order, newest) ==>
      Delivered(p, Announcements(o, changes, order), curve) == Following(p, StateAt(o, changes, newest), curve)
  }

  /** What decides any delivery is a state with the newest one's counter. */
  lemma NewestCounterDecides(o: Own, changes: seq<Change>, order: seq<nat>, p: Peer, curve: U16, newest: nat) returns (i: nat)
    requires newest <= |changes| && UpTo(order, newest)
    requires p.counter <= StateAt(o, changes, newest).counter
    ensures i <= newest && StateAt(o, changes, i).counter == StateAt(o, changes, newest).counter
    ensures Delivered(p, Announcements(o, changes, order), curve) == Following(p, StateAt(o, changes, i), curve)
  {
    var messages := Announcements(o, changes, order);
    var m :| 0 <= m < |order| && order[m] == newest;
    hide Run, Announcements, Announcement, Delivered, Settled, Following;
    AnnouncedAt(o, changes, order, m);
    var k := SomeMessageDecides(p, messages);
    assert k < |messages| by {
      assert !Below(messages[m], p.counter);
    }
    AnnouncedAt(o, changes, order, k);
    i := order[k];
    assert AtMost(messages[m], StateAt(o, changes, i).counter);
    CountersRise(o, changes, i, newest);
    NewestDecides(p, messages, curve, k);
    SettledBy(p, StateAt(o, changes, i), curve);
  }

  /** Delivering `i` after the newest state leaves the peer with `i`, if the counter does not tell them apart. */
  lemma TieIsTaken(o: Own, changes: seq<Change>, p: Peer, curve: U16, newest: nat, i: nat)
    requires i <= newest <= |changes| && StateAt(o, changes, i).counter == StateAt(o, changes, newest).counter
    requires p.counter <= StateAt(o, changes, newest).counter
    ensures UpTo([newest, i], newest)
    ensures Delivered(p, Announcements(o, changes, [newest, i]), curve) == Following(p, StateAt(o, changes, i), curve)
  {
    var order := [newest, i];
    var messages := Announcements(o, changes, order);
    assert order[0] == newest && order[1] == i;
    hide Run, Announcements, Announcement, Delivered, Settled, Following;
    AnnouncedAt(o, changes, order, 0);
    AnnouncedAt(o, changes, order, 1);
    assert AtMost(messages[0], StateAt(o, changes, i).counter);
    NewestDecides(p, messages, curve, 1);
    SettledBy(p, StateAt(o, changes, i), curve);
  }

  lemma SameFollowing(p: Peer, s: Own, t: Own, curve: U16)
    requires Following(p, s, curve) == Following(p, t, curve)
    ensures TrustedOf(s.entries, curve) == TrustedOf(t.entries, curve)
  {
    var others, a, b := OtherCurves(p.trusted, curve), TrustedOf(s.entries, curve), TrustedOf(t.entries, curve);
    assert (others + a)[|others|..] == a && (others + b)[|others|..] == b;
  }

  /**
   Whatever is delivered of a node's history, in whatever order, the peer ends up trusting the keys
   of the newest state it heard of, exactly when no earlier state with the same counter, which only
   a saturated one leaves, asks for other keys.
   */
  lemma HistoryIsFollowedExactly(o: Own, changes: seq<Change>, p: Peer, curve: U16, newest: nat)
    requires newest <= |changes| && p.counter <= StateAt(o, changes, newest).counter
    ensures AlwaysFollowed(o, changes, p, curve, newest) <==> TiesAgree(o, changes, curve, newest)
  {
    hide Delivered, Announcements, TrustedOf, OtherCurves, StateAt;
    var s := StateAt(o, changes, newest);
    if TiesAgree(o, changes, curve, newest) {
      forall order | UpTo(order, newest)
        ensures Delivered(p, Announcements(o, changes, order), curve) == Following(p, s, curve)
      {
        var i := NewestCounterDecides(o, changes, order, p, curve, newest);
      }
    }
    if AlwaysFollowed(o, changes, p, curve, newest) {
      hide Following;
      forall i | 0 <= i <= newest && StateAt(o, changes, i).counter == s.counter
        ensures TrustedOf(StateAt(o, changes, i).entries, curve) == TrustedOf(s.entries, curve)
      {
        TieIsTaken(o, changes, p, curve, newest, i);
        SameFollowing(p, StateAt(o, changes, i), s, curve);
      }
    }
  }

  /**
   Before its counter saturates, a peer fed any delivery of a node's announcements trusts on
   that curve exactly the current and successor keys of the newest state it heard of.
   */
  lemma HistoryIsFollowed(o: Own, changes: seq<Change>, order: seq<nat>, p: Peer, curve: U16, newest: nat)
    requires Unsaturated(o, changes)
    requires newest <= |changes| && UpTo(order, newest)
    requires p.counter <= StateAt(o, changes, newest).counter
    ensures Delivered(p, Announcements(o, changes, order), curve) == Following(p, StateAt(o, changes, newest), curve)
  {
    hide Delivered, Announcements, TrustedOf, OtherCurves, StateAt, Unsaturated, Following;
    forall i | 0 <= i <= newest {
      CountersTell(o, changes, i, newest);
    }
    HistoryIsFollowedExactly(o, changes, p, curve, newest);
  }

  /** A peer that has taken up an honest announcement trusts its current and successor keys. */
  lemma SettledBy(p: Peer, s: Own, curve: U16)
    ensures Announcement(s).updateCounter.Some?
    ensures Settled(p, Announcement(s), curve)
         == Peer(s.counter, OtherCurves(p.trusted, curve) + TrustedOf(s.entries, curve))
  {
    AnnouncementIsUnderstood(s.entries, curve);
    assert Announced(s.entries) == Announcement(s).entry.value;
  }

  lemma AnnouncedAt(o: Own, changes: seq<Change>, order: seq<nat>, k: nat)
    requires k < |order| && forall n :: 0 <= n < |order| ==> order[n] <= |changes|
    ensures |Announcements(o, changes, order)| == |order|
    ensures Announcements(o, changes, order)[k] == Announcement(StateAt(o, changes, order[k]))
    ensures Announcement(StateAt(o, changes, order[k])).updateCounter == Some(StateAt(o, changes, order[k]).counter)
  {
  }

  lemma DeliveredTwo(p: Peer, a: KeyMaterialState, b: KeyMaterialState, curve: U16)
    ensures Delivered(p, [a, b], curve) == Applied(Applied(p, a, curve).0, b, curve).0
  {
    assert [a, b][..1] == [a] && [a][..0] == [];
    hide Applied;
    assert Delivered(p, [a], curve) == Applied(Delivered(p, [], curve), a, curve).0;
  }

  /**
   Order stops being irrelevant exactly at saturation: when the announcement of a successor
   arrives before the one it replaces, the peer keeps the successor only while counters rise.
   */
  lemma ReorderingIsHarmlessUntilSaturation(o: Own, successor: Ski, curve: U16, p: Peer)
    requires Sound(o) && Begun(o, successor, curve).Ok? && p.counter <= o.counter
    ensures (curve, successor)
              in Delivered(p, [Announcement(Begun(o, successor, curve).value), Announcement(o)], curve).trusted
       <==> o.counter < 0xFFFF
  {
    var o' := Begun(o, successor, curve).value;
    DeliveredTwo(p, Announcement(o'), Announcement(o), curve);
    AnnouncementIsUnderstood(o.entries, curve);
    AnnouncementIsUnderstood(o'.entries, curve);
    assert Announced(o.entries) == Announcement(o).entry.value;
    assert Announced(o'.entries) == Announcement(o').entry.value;
    assert CurveSound(o.entries, curve);
    TrustedAreInUse(o.entries, curve, successor);
    UpdatingHasSuccessor(o.entries);
    FoundSuccessor(o.entries, curve);
    ChangeKeepsSound(o, BeginUpdate(successor, curve));
    assert CurveSound(o'.entries, curve);
    ChangesRefineCurves(o, BeginUpdate(successor, curve), curve);
    TrustedAreInUse(o'.entries, curve, successor);
    OthersAreOther(p.trusted, curve);
    OthersAreOther(Applied(p, Announcement(o'), curve).0.trusted, curve);
    hide FindKey, TrustedOf, OtherCurves, Announcement, KeptAll, CurveSound, Count, Updating;
  }

  // ---- renewals -------------------------------------------------------------------------------

  /** How many updates of this curve have been completed along the way. */
  function Completions(o: Own, changes: seq<Change>, curve: U16): nat {
    if changes == [] then 0
    else
      var front := changes[..|changes| - 1];
      Completions(o, front, curve)
        + if changes[|changes| - 1].CompleteUpdate? && On(Run(o, front).entries, curve).successor.Some? then 1 else 0
  }

  /** Where a curve that had keys `k` stands after `n` completed updates. */
  predicate Stage(k: CurveKeys, after: CurveKeys, n: nat) {
    && after.current.Some?
    && (n == 0 ==> after.current == k.current && (k.successor.Some? ==> after.successor == k.successor))
    && (n == 1 && k.successor.Some? ==> after.current == k.successor)
  }

  lemma StageMoves(k: CurveKeys, before: CurveKeys, busy: bool, c: Change, curve: U16, n: nat)
    requires Stage(k, before, n) && c != DropCurve(curve) && (before.successor.Some? ==> busy)
    ensures Stage(k, CurveChanged(before, busy, c, curve),
                  n + if c.CompleteUpdate? && before.successor.Some? then 1 else 0)
  {
  }

  lemma {:induction false} KeysAfter(o: Own, changes: seq<Change>, curve: U16)
    requires On(o.entries, curve).current.Some? && DropCurve(curve) !in changes
    ensures Stage(On(o.entries, curve), On(Run(o, changes).entries, curve), Completions(o, changes, curve))
    decreases |changes|
  {
    hide FindKey, Updating, Succeeded, CurveChanged, Changed, Stage;
    if changes == [] {
      StageStarts(On(o.entries, curve));
    } else {
      var front, c := changes[..|changes| - 1], changes[|changes| - 1];
      KeysAfter(o, front, curve);
      var s := Run(o, front);
      ChangesRefineCurves(s, c, curve);
      UpdatingHasSuccessor(s.entries);
      FoundSuccessor(s.entries, curve);
      assert c in changes;
      StageMoves(On(o.entries, curve), On(s.entries, curve), Updating(s.entries), c, curve, Completions(o, front, curve));
    }
  }

  lemma StageStarts(k: CurveKeys)
    requires k.current.Some?
    ensures Stage(k, k, 0)
  {
  }

  /**
   A renewal never loses trust: a peer whose latest announcement was made during a transition
   trusts the key TLS uses up to the second completion on that curve, and one that was not up
   to the first, as long as the curve is not dropped.
   */
  lemma RenewalKeepsTrust(o: Own, changes: seq<Change>, curve: U16, p: Peer)
    requires Sound(o) && On(o.entries, curve).current.Some? && DropCurve(curve) !in changes
    requires p.counter <= o.counter
    requires Completions(o, changes, curve) <= if On(o.entries, curve).successor.Some? then 1 else 0
    ensures var inUse := On(Run(o, changes).entries, curve).current;
            inUse.Some? && (curve, inUse.value) in Applied(p, Announcement(o), curve).0.trusted
  {
    KeysAfter(o, changes, curve);
    var inUse := On(Run(o, changes).entries, curve).current;
    AnnouncementIsUnderstood(o.entries, curve);
    assert Announced(o.entries) == Announcement(o).entry.value;
    assert CurveSound(o.entries, curve);
    TrustedAreInUse(o.entries, curve, inUse.value);
  }

  /** And no longer: a peer that hears nothing of a second renewal does not know its key. */
  lemma SecondRenewalIsNotTrusted(o: Own, curve: U16, p: Peer, next: Ski)
    requires Sound(o) && On(o.entries, curve).successor.Some? && p.counter <= o.counter
    requires On(o.entries, curve).current != Some(next) && On(o.entries, curve).successor != Some(next)
    ensures On(Run(o, [CompleteUpdate, BeginUpdate(next, curve), CompleteUpdate]).entries, curve).current == Some(next)
    ensures (curve, next) !in Applied(p, Announcement(o), curve).0.trusted
  {
    var o1 := Completed(o);
    var o2 := Changed(o1, BeginUpdate(next, curve));
    RunThree(o, CompleteUpdate, BeginUpdate(next, curve), CompleteUpdate);
    ChangesRefineCurves(o, CompleteUpdate, curve);
    CompletedIsIdle(o);
    ChangesRefineCurves(o1, BeginUpdate(next, curve), curve);
    ChangesRefineCurves(o2, CompleteUpdate, curve);
    AnnouncementIsUnderstood(o.entries, curve);
    assert Announced(o.entries) == Announcement(o).entry.value;
    assert CurveSound(o.entries, curve);
    TrustedAreInUse(o.entries, curve, next);
    OthersAreOther(p.trusted, curve);
    hide FindKey, Updating, TrustedOf, OtherCurves, KeptAll, Announcement;
  }

  lemma RunThree(o: Own, a: Change, b: Change, c: Change)
    ensures Run(o, [a, b, c]) == Changed(Changed(Changed(o, a), b), c)
  {
    assert [a, b, c][..2] == [a, b] && [a, b][..1] == [a] && [a][..0] == [];
    hide Changed;
    assert Run(o, [a]) == Changed(Run(o, []), a);
    assert Run(o, [a, b]) == Changed(Run(o, [a]), b);
  }

  // ---- what a message leaves and what it asks for -----------------------------------------

  lemma {:induction false} OthersArePicked(trusted: seq<(U16, Ski)>, curve: U16) returns (at: seq<nat>)
    ensures PickedAt(at, trusted, OtherCurves(trusted, curve))
    ensures forall i :: 0 <= i < |trusted| ==> (i in at <==> trusted[i].0 != curve)
  {
    if trusted == [] {
      at := [];
    } else {
      var rest := OthersArePicked(trusted[1..], curve);
      at := PickedNext(rest, trusted, OtherCurves(trusted[1..], curve), trusted[0].0 != curve);
    }
  }

  /** An announced entry asks for a key if it is whole, on the curve and in use or coming, and its text spells one. */
  predicate AsksFor(e: MessageEntry, curve: U16, ski: Ski) {
    && (e.currentState == Some(Current) || e.currentState == Some(Successor)) && e.curve == Some(curve)
    && e.ski.Some? && LowerAll(Digits(e.ski.value)) == Hex(ski, false, 0)
  }

  lemma KeptIsAskedFor(e: MessageEntry, curve: U16, ski: Ski)
    ensures Kept(e, curve) == Some(ski) <==> AsksFor(e, curve, ski)
  {
    if e.ski.Some? {
      ReadsExactlyItsSpellings(e.ski.value, ski);
    }
    hide Parse, LowerAll, Digits, Hex;
  }

  lemma {:induction false} KeptAllIs(entries: seq<MessageEntry>, curve: U16, ski: Ski)
    ensures (curve, ski) in KeptAll(entries, curve) <==> exists i :: 0 <= i < |entries| && AsksFor(entries[i], curve, ski)
  {
    hide AsksFor, Kept;
    if entries != [] {
      KeptAllIs(entries[1..], curve, ski);
      KeptIsAskedFor(entries[0], curve, ski);
      assert forall i :: 1 <= i < |entries| ==> entries[i] == entries[1..][i - 1];
    }
  }

  /**
   A message taken up, from anybody and however malformed, leaves the keys of other curves in place and in
   order, and trusts on its curve exactly the keys some entry of it asks for.
   */
  lemma AppliedTrustsWhatIsAsked(p: Peer, m: KeyMaterialState, curve: U16, ski: Ski) returns (at: seq<nat>)
    requires m.updateCounter.Some? && m.updateCounter.value >= p.counter
    ensures var trusted, n := Applied(p, m, curve).0.trusted, |at|;
            n <= |trusted| && PickedAt(at, p.trusted, trusted[..n]) && forall i :: n <= i < |trusted| ==> trusted[i].0 == curve
    ensures forall i :: 0 <= i < |p.trusted| ==> (i in at <==> p.trusted[i].0 != curve)
    ensures var entries := m.entry.UnwrapOr([]);
            (curve, ski) in Applied(p, m, curve).0.trusted <==> exists i :: 0 <= i < |entries| && AsksFor(entries[i], curve, ski)
  {
    var entries := m.entry.UnwrapOr([]);
    at := OthersArePicked(p.trusted, curve);
    KeptAllIs(entries, curve, ski);
    KeptOnCurve(entries, curve);
    OthersAreOther(p.trusted, curve);
    var others := OtherCurves(p.trusted, curve);
    assert (others + KeptAll(entries, curve))[..|others|] == others;
    hide OtherCurves, KeptAll, AsksFor;
  }
}
