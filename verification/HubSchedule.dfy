/**
 Handshakes and remembered peers, outcome by outcome: when a handshake is begun and what its end
 does to the table, to the schedule and to what is reported; and what wakes the hub up.
 */
module HubSchedule {
  import opened Wrappers
  import opened Sequences
  import opened SkiText
  import opened Policy
  import opened HubState
  import opened HubRuns
  import opened HubSlots
  import opened HubPending
  import HubWaiting

  // ---- slots ----------------------------------------------------------------------------

  /** One more handshake under way. */
  function Begun(w: World, h: Handshake): World {
    var hub := if h.origin.Dialed? then w.hub.(inFlightDialed := w.hub.inFlightDialed + 1)
               else w.hub.(inFlightAccepted := w.hub.inFlightAccepted + 1);
    w.(hub := hub, running := w.running + [h])
  }

  /** There is room for a handshake exactly if the cap and the reservation hold with it as well. */
  lemma RoomIsExact(c: Config, w: World, h: Handshake)
    requires SlotsAccounted(c, w)
    ensures HasRoomFor(c, w.hub, h.origin) <==> SlotsAccounted(c, Begun(w, h))
  {
    RunningSplits(w.running);
    RunningAppend(w.running, [h], true);
    RunningAppend(w.running, [h], false);
    assert [h][1..] == [];
  }

  /** The connections of one direction, and of both, stay within what one more may take. */
  lemma SlotIsExact(c: Config, s: State, l: Link)
    ensures HasSlotFor(c, s, l.origin)
       <==> |s.links + [l]| <= c.maxConnections
            && (c.maxConnections > 1 ==> LinksOpened(s.links + [l], l.origin.Dialed?) < c.maxConnections)
  {
    LinksAppend(s.links, [l], l.ski, l.origin.Dialed?);
    OneLink(l, l.ski, l.origin.Dialed?);
  }

  /** An incoming connection is taken up exactly if it fits, and refused with a reason otherwise. */
  lemma AcceptedIfItFits(c: Config, w: World, from: nat)
    requires SlotsAccounted(c, w)
    ensures var begun := Begun(w, Handshake(Accepted(from), None, None));
            Next(c, w, Accept(from))
              == if SlotsAccounted(c, begun) then begun
                 else w.(hub := w.hub.(pending := w.hub.pending + [HandshakeFailed(Accepted(from), None, TooManyConnections)]))
  {
    RoomIsExact(c, w, Handshake(Accepted(from), None, None));
    assert w.running + [] == w.running;
    hide SlotsAccounted, HasRoomFor;
  }

  // ---- the schedule ---------------------------------------------------------------------

  /** A failed attempt counts, and puts the next one off by a delay that grows with their number. */
  function PutOff(k: Known, now: nat): Known {
    var attempts := if k.attempts < 0xFFFF_FFFF then k.attempts + 1 else k.attempts;
    k.(attempts := attempts, nextAttempt := now + ReconnectDelayFor(k.ski, attempts))
  }

  /** Each operation on a remembered peer changes the entry of that peer alone. */
  lemma EntryIs(s: State, ski: Ski, now: nat, dialing: bool, i: nat)
    requires DistinctKnown(s.known) && i < |s.known|
    ensures var k, mine := s.known[i], s.known[i].ski == ski;
            && Deferred(s, ski, now) == s.(known := Deferred(s, ski, now).known)
            && |Deferred(s, ski, now).known| == |s.known|
            && Deferred(s, ski, now).known[i] == (if mine then PutOff(k, now) else k)
            && Succeeded(s, ski, now) == s.(known := Succeeded(s, ski, now).known)
            && |Succeeded(s, ski, now).known| == |s.known|
            && Succeeded(s, ski, now).known[i] == (if mine then k.(attempts := 0, nextAttempt := now) else k)
            && MarkDialing(s, ski, dialing) == s.(known := MarkDialing(s, ski, dialing).known)
            && |MarkDialing(s, ski, dialing).known| == |s.known|
            && MarkDialing(s, ski, dialing).known[i] == (if mine then k.(dialing := dialing) else k)
  {
    KnownIsAt(s.known, i);
  }

  lemma {:induction false} PeersLeft(known: seq<Known>, ski: Ski) returns (at: seq<nat>)
    ensures PickedAt(at, known, WithoutKnown(known, ski))
    ensures forall i :: 0 <= i < |known| ==> (i in at <==> known[i].ski != ski)
  {
    if known == [] {
      at := [];
    } else {
      var rest := PeersLeft(known[1..], ski);
      at := PickedNext(rest, known, WithoutKnown(known[1..], ski), known[0].ski != ski);
    }
  }

  /** A redial dials exactly the peers that are due, in order, each at its own address. */
  lemma {:induction false} DueAreDialed(s: State, known: seq<Known>, now: nat) returns (due: seq<Known>, at: seq<nat>)
    ensures PickedAt(at, known, due) && |DueDials(s, known, now)| == |due|
    ensures forall k :: 0 <= k < |due| ==> DueDials(s, known, now)[k] == (due[k].ski, due[k].address)
    ensures forall i :: 0 <= i < |known| ==>
              (i in at <==> !known[i].dialing && known[i].nextAttempt <= now && LinksTo(s.links, known[i].ski) == 0)
  {
    if known == [] {
      due, at := [], [];
    } else {
      var rest, there := DueAreDialed(s, known[1..], now);
      var first := Due(s, known[0], now);
      at := PickedNext(there, known, rest, first);
      due := (if first then [known[0]] else []) + rest;
    }
  }

  /** A peer remembered is due at once; its entry is renewed if there is one, and no other changes. */
  lemma RememberedIs(c: Config, s: State, ski: Ski, address: nat, now: nat, i: nat)
    requires DistinctKnown(s.known)
    ensures var after := Remembered(c, s, ski, address, now);
            var added := ski != c.ski && forall j :: 0 <= j < |s.known| ==> s.known[j].ski != ski;
            && after == s.(known := after.known)
            && |after.known| == |s.known| + (if added then 1 else 0)
            && (added ==> after.known[|s.known|] == Known(ski, address, 0, now, false))
            && (i < |s.known| ==>
                  after.known[i] == if s.known[i].ski == ski && ski != c.ski
                                    then s.known[i].(address := address, attempts := 0, nextAttempt := now) else s.known[i])
  {
    if i < |s.known| {
      KnownIsAt(s.known, i);
    }
  }

  /**
   A dial is begun exactly if it fits, and marks its peer's entry; otherwise it is refused with a
   reason and put off. No other entry changes.
   */
  lemma DialedIfItFits(c: Config, w: World, address: nat, expected: Option<Ski>, now: nat, i: nat)
    requires SlotsAccounted(c, w) && DistinctKnown(w.hub.known)
    ensures var v, begun := Dialing(c, w, address, expected, now), Begun(w, Handshake(Dialed(address), expected, None));
            var refused := w.(hub := w.hub.(pending := w.hub.pending + [HandshakeFailed(Dialed(address), expected, TooManyConnections)]));
            var fits := SlotsAccounted(c, begun);
            && v == (if fits then begun else refused).(hub := (if fits then begun else refused).hub.(known := v.hub.known))
            && |v.hub.known| == |w.hub.known|
            && (i < |w.hub.known| ==>
                  v.hub.known[i] == if expected != Some(w.hub.known[i].ski) then w.hub.known[i]
                                    else if fits then w.hub.known[i].(dialing := true)
                                    else PutOff(w.hub.known[i], now))
  {
    RoomIsExact(c, w, Handshake(Dialed(address), expected, None));
    assert w.running + [] == w.running;
    if expected.Some? {
      var started := w.hub.(inFlightDialed := w.hub.inFlightDialed + 1);
      var failed := Queue(w.hub, HandshakeFailed(Dialed(address), expected, TooManyConnections));
      KnownIsApart(started, expected.value, now, true);
      KnownIsApart(failed, expected.value, now, true);
      KnownKeepsLength(started, expected.value, now, true);
      KnownKeepsLength(failed, expected.value, now, true);
      if i < |w.hub.known| {
        EntryIs(started, expected.value, now, true, i);
        EntryIs(failed, expected.value, now, true, i);
      }
    }
    hide SlotsAccounted, HasRoomFor, Deferred, MarkDialing, Succeeded, PutOff, DistinctKnown;
  }

  lemma KnownKeepsLength(s: State, ski: Ski, now: nat, dialing: bool)
    ensures Deferred(s, ski, now) == s.(known := Deferred(s, ski, now).known)
    ensures Succeeded(s, ski, now) == s.(known := Succeeded(s, ski, now).known)
    ensures MarkDialing(s, ski, dialing) == s.(known := MarkDialing(s, ski, dialing).known)
    ensures |Deferred(s, ski, now).known| == |Succeeded(s, ski, now).known| == |MarkDialing(s, ski, dialing).known| == |s.known|
  {
    hide KnownAt;
  }

  // ---- handshakes that end --------------------------------------------------------------

  /** What the end of a dial does to an entry: it is dialled no longer, and put off if it was the peer looked for. */
  function Ended(k: Known, expected: Option<Ski>, now: nat): Known {
    if expected == Some(k.ski) then PutOff(k.(dialing := false), now) else k
  }

  /** A handshake that fails puts off the peer it was looking for, and leaves everything else of the table. */
  lemma FailurePutsOff(c: Config, s: State, h: Handshake, peer: Option<Ski>, now: nat, i: nat)
    requires DistinctKnown(s.known)
    ensures var after := AfterFailed(c, s, h.origin, h.expected, peer, now);
            && after.links == s.links && after.duplicates == s.duplicates && |after.known| == |s.known|
            && (i < |s.known| ==> after.known[i] == Ended(s.known[i], h.expected, now))
  {
    hide DistinctKnown, Deferred, MarkDialing, Succeeded, PutOff, WaitingAt;
    var at := WaitingAt(s.awaitingTrust, h.origin);
    var released := Released(s, h.origin);
    var s1 := if at < |s.awaitingTrust|
              then released.(awaitingTrust := s.awaitingTrust[..at] + s.awaitingTrust[at + 1..]) else released;
    assert s1.known == s.known;
    hide Released;
    if h.expected.Some? {
      MarkedAndPutOff(s1, h.expected.value, now, i);
    }
  }

  lemma MarkedAndPutOff(s: State, ski: Ski, now: nat, i: nat)
    requires DistinctKnown(s.known)
    ensures var after := Deferred(MarkDialing(s, ski, false), ski, now);
            && after == s.(known := after.known) && |after.known| == |s.known|
            && (i < |s.known| ==> after.known[i] == Ended(s.known[i], Some(ski), now))
  {
    hide DistinctKnown, Deferred, MarkDialing, Succeeded;
    KnownKeepsLength(s, ski, now, false);
    KnownKeepsLength(MarkDialing(s, ski, false), ski, now, false);
    MarkedStaysDistinct(s, ski);
    if i < |s.known| {
      EntryIs(s, ski, now, false, i);
      EntryIs(MarkDialing(s, ski, false), ski, now, false, i);
    }
  }

  lemma MarkedStaysDistinct(s: State, ski: Ski)
    requires DistinctKnown(s.known)
    ensures DistinctKnown(MarkDialing(s, ski, false).known)
  {
  }

  /** It is reported once: by the peer it waited for trust in if it did, or as it is said to be. */
  lemma FailureIsReported(c: Config, s: State, h: Handshake, peer: Option<Ski>, now: nat) returns (reported: Option<Ski>)
    requires EachOnce(s.awaitingTrust)
    ensures AfterFailed(c, s, h.origin, h.expected, peer, now).pending
         == s.pending + [HandshakeFailed(h.origin, reported, HandshakeError)]
    ensures forall j :: 0 <= j < |s.awaitingTrust| && s.awaitingTrust[j].0 == h.origin ==> reported == Some(s.awaitingTrust[j].1)
    ensures (forall j :: 0 <= j < |s.awaitingTrust| ==> s.awaitingTrust[j].0 != h.origin) ==> reported == peer
  {
    var at := WaitingAt(s.awaitingTrust, h.origin);
    reported := if at < |s.awaitingTrust| then Some(s.awaitingTrust[at].1) else peer;
    hide KnownAt;
  }

  lemma AdoptedIs(c: Config, s: State, n: nat, ski: Ski, origin: Origin, now: nat, b: seq<nat>)
    ensures match Adopted(c, s, n, ski, origin, now, b)
            case Taken(after) =>
              && ski != c.ski
              && after.links == s.links + [Link(n, ski, origin, None, now, now, None, false, false, b, false)]
              && after.duplicates == s.duplicates + (if LinksTo(s.links, ski) > 0 && !HasDuplicate(s.duplicates, ski)
                                                     then [Duplicate(ski, now, false)] else [])
              && after.pending == s.pending + [Connected(ski)] && after.known == s.known
            case Refused(error) => error == if ski == c.ski then SelfConnection else TooManyConnections
  {
    assert s.duplicates + [] == s.duplicates;
    hide LinksTo, HasDuplicate, HasSlotFor;
  }

  /** The end of a handshake that established is reported once: the peer is connected, or refused. */
  lemma EstablishedIsReported(c: Config, s: State, n: nat, ski: Ski, origin: Origin, expected: Option<Ski>, now: nat, b: seq<nat>)
    ensures AfterEstablished(c, s, n, ski, origin, expected, now, b).pending
         == s.pending + [match Adopted(c, Released(s, origin), n, ski, origin, now, b)
                         case Taken(_) => Connected(ski)
                         case Refused(error) => HandshakeFailed(origin, Some(ski), error)]
  {
    var s1 := Released(s, origin).(awaitingTrust := WithoutOrigin(s.awaitingTrust, origin));
    assert s1.pending == s.pending;
    hide Deferred, MarkDialing, Succeeded, Released, WithoutOrigin, WithoutKnown;
    var s2 := if expected.Some? then MarkDialing(s1, expected.value, false) else s1;
    if expected.Some? {
      KnownIsApart(s1, expected.value, now, false);
      KnownKeepsLength(s1, expected.value, now, false);
    }
    AdoptedTable(c, Released(s, origin), s2, n, ski, origin, now, b);
    AdoptedIs(c, s2, n, ski, origin, now, b);
    AdoptedIs(c, Released(s, origin), n, ski, origin, now, b);
    var adopted := Adopted(c, s2, n, ski, origin, now, b);
    hide Adopted;
    KnownKeepsLength(if adopted.Taken? then adopted.state else s2, ski, now, false);
    if expected.Some? {
      KnownKeepsLength(if adopted.Taken? then adopted.state else s2, expected.value, now, false);
    }
  }

  /** An established connection is kept unless it leads to this node, or two to its peer are held. */
  predicate Kept(c: Config, s: State, ski: Ski) {
    ski != c.ski && LinksTo(s.links, ski) < 2
  }

  /** Kept, it is a link that knows nothing yet, and the second to a peer opens a record; refused, it is reported with its reason. */
  lemma EstablishmentIs(c: Config, w: World, task: nat, ski: Ski, now: nat)
    requires SlotsAccounted(c, w) && task < |w.running|
    ensures var h, s, v := w.running[task], w.hub, Next(c, w, Establish(task, ski, now)).hub;
            if Kept(c, s, ski) then
              && v.links == s.links + [Link(w.nextConnection, ski, h.origin, None, now, now, None, false, false,
                                            [w.nextCounter, w.nextCounter + 1], false)]
              && v.duplicates == s.duplicates + (if LinksTo(s.links, ski) == 1 && !HasDuplicate(s.duplicates, ski)
                                                 then [Duplicate(ski, now, false)] else [])
              && v.pending == s.pending + [Connected(ski)]
            else
              && v.links == s.links && v.duplicates == s.duplicates
              && v.pending == s.pending + [HandshakeFailed(h.origin, Some(ski), if ski == c.ski then SelfConnection else TooManyConnections)]
  {
    var h, b := w.running[task], [w.nextCounter, w.nextCounter + 1];
    RefusedOnlyForThePeer(c, w, task, w.nextConnection, ski, now, b);
    EstablishedTable(c, w.hub, w.nextConnection, ski, h.origin, h.expected, now, b);
    EstablishedIsReported(c, w.hub, w.nextConnection, ski, h.origin, h.expected, now, b);
    var released := Released(w.hub, h.origin);
    assert released.links == w.hub.links && released.duplicates == w.hub.duplicates && released.pending == w.hub.pending;
    AdoptedIs(c, released, w.nextConnection, ski, h.origin, now, b);
    HubWaiting.EstablishedNext(c, w, task, ski, now);
    hide Next, AfterEstablished, Adopted, Released, LinksTo, HasDuplicate, SlotsAccounted;
  }

  lemma {:induction false} NobodyLeaves(known: seq<Known>, ski: Ski)
    requires forall i :: 0 <= i < |known| ==> known[i].ski != ski
    ensures WithoutKnown(known, ski) == known
  {
    if known != [] {
      NobodyLeaves(known[1..], ski);
    }
  }

  /** The entry of a peer whose dial ended with an established connection. */
  function EndedBy(c: Config, s: State, k: Known, expected: Option<Ski>, ski: Ski, now: nat): Known {
    if expected != Some(k.ski) then k
    else if ski == c.ski then k.(dialing := false)
    else if ski == k.ski && Kept(c, s, ski) then k.(dialing := false, attempts := 0, nextAttempt := now)
    else PutOff(k.(dialing := false), now)
  }

  lemma KnownDependsOnKnown(a: State, b: State, ski: Ski, now: nat, dialing: bool)
    requires a.known == b.known
    ensures Deferred(a, ski, now).known == Deferred(b, ski, now).known
    ensures Succeeded(a, ski, now).known == Succeeded(b, ski, now).known
    ensures MarkDialing(a, ski, dialing).known == MarkDialing(b, ski, dialing).known
  {
    hide KnownAt;
  }

  /** The remembered peers after a handshake established, from those before. */
  lemma EstablishedKnown(c: Config, s: State, n: nat, ski: Ski, origin: Origin, expected: Option<Ski>, now: nat, b: seq<nat>)
    ensures var marked := if expected.Some? then MarkDialing(s, expected.value, false) else s;
            AfterEstablished(c, s, n, ski, origin, expected, now, b).known
              == if Adopted(c, Released(s, origin), n, ski, origin, now, b).Refused? && ski == c.ski then WithoutKnown(marked.known, ski)
                 else if expected.None? then marked.known
                 else if Adopted(c, Released(s, origin), n, ski, origin, now, b).Taken? && expected.value == ski
                 then Succeeded(marked, ski, now).known
                 else Deferred(marked, expected.value, now).known
  {
    var s1 := Released(s, origin).(awaitingTrust := WithoutOrigin(s.awaitingTrust, origin));
    assert s1.known == s.known;
    hide Deferred, MarkDialing, Succeeded, Released, WithoutOrigin, WithoutKnown;
    var s2 := if expected.Some? then MarkDialing(s1, expected.value, false) else s1;
    if expected.Some? {
      KnownIsApart(s1, expected.value, now, false);
      KnownDependsOnKnown(s1, s, expected.value, now, false);
    }
    AdoptedTable(c, Released(s, origin), s2, n, ski, origin, now, b);
    AdoptedIs(c, s2, n, ski, origin, now, b);
    var adopted := Adopted(c, s2, n, ski, origin, now, b);
    hide Adopted;
    var last := if adopted.Taken? then adopted.state else s2;
    if expected.Some? {
      KnownDependsOnKnown(last, MarkDialing(s, expected.value, false), expected.value, now, false);
      KnownDependsOnKnown(last, MarkDialing(s, expected.value, false), ski, now, false);
    }
  }

  /**
   A dial that reached the peer it was for clears its failed attempts; one that reached another peer, or one
   connection too many, counts as failed; one that reached this node itself leaves the schedule as it was.
   */
  lemma EstablishmentSchedules(c: Config, w: World, task: nat, ski: Ski, now: nat, i: nat)
    requires SlotsAccounted(c, w) && task < |w.running|
    requires KnownSound(c, w.running, w.hub.known)
    ensures var known := Next(c, w, Establish(task, ski, now)).hub.known;
            && |known| == |w.hub.known|
            && (i < |known| ==> known[i] == EndedBy(c, w.hub, w.hub.known[i], w.running[task].expected, ski, now))
  {
    var h, b, s := w.running[task], [w.nextCounter, w.nextCounter + 1], w.hub;
    SelfIsUnknown(c, w.running, s, h.expected);
    RefusedOnlyForThePeer(c, w, task, w.nextConnection, ski, now, b);
    HubWaiting.EstablishedNext(c, w, task, ski, now);
    EstablishedKnown(c, s, w.nextConnection, ski, h.origin, h.expected, now, b);
    hide Next, AfterEstablished, Adopted, Released, DistinctKnown, DialRuns, PutOff, SlotsAccounted, LinksTo,
         Deferred, Succeeded, MarkDialing, WithoutKnown;
    if ski == c.ski {
      NobodyLeaves((if h.expected.Some? then MarkDialing(s, h.expected.value, false) else s).known, ski);
    }
    if h.expected.Some? {
      var marked := MarkDialing(s, h.expected.value, false);
      KnownKeepsLength(s, h.expected.value, now, false);
      KnownKeepsLength(marked, h.expected.value, now, false);
      MarkedStaysDistinct(s, h.expected.value);
      if i < |s.known| {
        EntryIs(s, h.expected.value, now, false, i);
        EntryIs(marked, h.expected.value, now, false, i);
      }
    }
  }

  lemma SelfIsUnknown(c: Config, running: seq<Handshake>, s: State, expected: Option<Ski>)
    requires KnownSound(c, running, s.known)
    ensures var left := if expected.Some? then MarkDialing(s, expected.value, false) else s;
            forall j :: 0 <= j < |left.known| ==> left.known[j].ski != c.ski
  {
  }

  /** The dial of a remembered peer is over. */
  predicate EndsDial(w: World, step: Step, k: Known) {
    && (step.Establish? || step.Fail?) && step.task < |w.running|
    && w.running[step.task].expected == Some(k.ski)
  }

  /**
   A peer whose dial has just ended is due again at once exactly if the dial reached this node itself: the
   entry that is forgotten then is this node's own, which there never is, and not that of the peer looked for.
   */
  lemma DueAgainAfterReachingSelf(c: Config, w: World, step: Step, i: nat)
    requires SlotsAccounted(c, w) && KnownSound(c, w.running, w.hub.known)
    requires i < |w.hub.known| && EndsDial(w, step, w.hub.known[i])
    ensures var k, v := w.hub.known[i], Next(c, w, step).hub;
            && |v.known| == |w.hub.known| && v.known[i].ski == k.ski
            && (Due(v, v.known[i], step.now)
                <==> step.Establish? && step.ski == c.ski && k.nextAttempt <= step.now && LinksTo(w.hub.links, k.ski) == 0)
  {
    if step.Establish? {
      DueAfterEstablishing(c, w, step.task, step.ski, step.now, i);
    } else {
      NotDueAfterFailing(c, w, step.task, step.peer, step.now, i);
    }
    hide Next, LinksTo, SlotsAccounted, KnownSound;
  }

  lemma PutOffLiesAhead(k: Known, now: nat)
    ensures PutOff(k, now).nextAttempt > now && PutOff(k, now).ski == k.ski
  {
    DelayIsSpreadByAQuarter(k.ski, PutOff(k, now).attempts);
    hide ReconnectDelayFor;
  }

  lemma NotDueAfterFailing(c: Config, w: World, task: nat, peer: Option<Ski>, now: nat, i: nat)
    requires KnownSound(c, w.running, w.hub.known) && task < |w.running|
    requires i < |w.hub.known| && w.running[task].expected == Some(w.hub.known[i].ski)
    ensures var k, v := w.hub.known[i], Next(c, w, Fail(task, peer, now)).hub;
            |v.known| == |w.hub.known| && v.known[i].ski == k.ski && !Due(v, v.known[i], now)
  {
    FailurePutsOff(c, w.hub, w.running[task], peer, now, i);
    FailedNext(c, w, task, peer, now);
    PutOffLiesAhead(w.hub.known[i].(dialing := false), now);
    hide Next, AfterFailed, LinksTo, PutOff;
  }

  lemma DueAfterEstablishing(c: Config, w: World, task: nat, ski: Ski, now: nat, i: nat)
    requires SlotsAccounted(c, w) && KnownSound(c, w.running, w.hub.known) && task < |w.running|
    requires i < |w.hub.known| && w.running[task].expected == Some(w.hub.known[i].ski)
    ensures var k, v := w.hub.known[i], Next(c, w, Establish(task, ski, now)).hub;
            && |v.known| == |w.hub.known| && v.known[i].ski == k.ski
            && (Due(v, v.known[i], now) <==> ski == c.ski && k.nextAttempt <= now && LinksTo(w.hub.links, k.ski) == 0)
  {
    var k := w.hub.known[i];
    EstablishmentIs(c, w, task, ski, now);
    EstablishmentSchedules(c, w, task, ski, now, i);
    PutOffLiesAhead(k.(dialing := false), now);
    hide Next, PutOff, HasDuplicate, SlotsAccounted, KnownSound;
    var l := NewLink(w.nextConnection, ski, w.running[task].origin, now, [w.nextCounter, w.nextCounter + 1]);
    LinksAppend(w.hub.links, [l], k.ski, true);
    OneLink(l, k.ski, true);
    hide LinksTo;
  }

  // ---- asking for trust -------------------------------------------------------------------

  /** A peer is asked about once, when it takes a slot; it is refused only when all four are taken by others. */
  lemma AskingIsReported(s: State, origin: Origin, ski: Ski)
    ensures var after := AfterTrustRequested(s, origin, ski);
            var onRecord := exists i :: 0 <= i < |s.awaitingTrust| && (s.awaitingTrust[i].0 == origin || s.awaitingTrust[i].1 == ski);
            && after == s.(awaitingTrust := after.awaitingTrust, pending := after.pending)
            && after.awaitingTrust == s.awaitingTrust + (if onRecord || |s.awaitingTrust| >= 4 then [] else [(origin, ski)])
            && after.pending == s.pending + (if onRecord then []
                                             else if |s.awaitingTrust| >= 4 then [HandshakeFailed(origin, Some(ski), TooManyPendingPairings)]
                                             else [TrustRequested(origin, ski)])
  {
    var at := WaitingAt(s.awaitingTrust, origin);
    assert s.awaitingTrust + [] == s.awaitingTrust && s.pending + [] == s.pending;
    hide WaitingAt;
  }

  // ---- what wakes the hub up ---------------------------------------------------------------

  /** Something is to be done at this time: asked for, a link to be pinged or given up, or a peer to be dialled. */
  predicate Scheduled(s: State, at: nat) {
    || s.wakeAt == Some(at)
    || (exists i :: 0 <= i < |s.links| && Expected(s.links[i], at))
    || exists i :: 0 <= i < |s.known| && Awaited(s, s.known[i], at)
  }

  predicate Expected(l: Link, at: nat) {
    if l.pingedAt.Some? then at == l.pingedAt.value + 10_000 else at == l.lastSeen + 50_000
  }

  predicate Awaited(s: State, k: Known, at: nat) {
    !k.dialing && LinksTo(s.links, k.ski) == 0 && at == k.nextAttempt
  }

  lemma {:induction false} EarliestOfLinks(links: seq<Link>, next: Option<nat>)
    ensures var r := LinkDeadlines(links, next);
            && (r.None? <==> next.None? && links == [])
            && (r.Some? ==> r == next || exists i :: 0 <= i < |links| && Expected(links[i], r.value))
            && (next.Some? ==> r.value <= next.value)
            && forall i, at :: 0 <= i < |links| && Expected(links[i], at) ==> r.value <= at
    decreases |links|
  {
    if links != [] {
      EarliestOfLinks(links[1..], Earliest(next, LinkDeadline(links[0])));
      assert forall i :: 1 <= i < |links| ==> links[i] == links[1..][i - 1];
    }
  }

  lemma {:induction false} EarliestOfKnown(s: State, known: seq<Known>, next: Option<nat>)
    ensures var r := KnownDeadlines(s, known, next);
            && (r.None? ==> next.None?)
            && (r.Some? ==> r == next || exists i :: 0 <= i < |known| && Awaited(s, known[i], r.value))
            && (next.Some? ==> r.value <= next.value)
            && forall i, at :: 0 <= i < |known| && Awaited(s, known[i], at) ==> r.Some? && r.value <= at
    decreases |known|
  {
    if known != [] {
      var k := known[0];
      EarliestOfKnown(s, known[1..], if !k.dialing && LinksTo(s.links, k.ski) == 0 then Earliest(next, k.nextAttempt) else next);
      assert forall i :: 1 <= i < |known| ==> known[i] == known[1..][i - 1];
    }
  }

  /** The next deadline is the earliest of everything scheduled, and none exactly if nothing is. */
  lemma DeadlineIsTheEarliest(s: State)
    ensures match NextDeadline(s)
            case None => forall at :: !Scheduled(s, at)
            case Some(first) => Scheduled(s, first) && forall at :: Scheduled(s, at) ==> first <= at
  {
    EarliestOfKnown(s, s.known, s.wakeAt);
    EarliestOfLinks(s.links, KnownDeadlines(s, s.known, s.wakeAt));
    hide Expected, Awaited, LinkDeadlines, KnownDeadlines;
  }
}
