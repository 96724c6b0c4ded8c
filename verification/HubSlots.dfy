/**
 Connection slots, section 8.1 of SHIP 1.1.0: in every run whose connections come from `accept`
 and `spawn_dial` the cap and the reservation hold, and an admitted handshake finds its slot.
 */
module HubSlots {
  import opened Wrappers
  import opened SkiText
  import opened HubState
  import opened HubRuns

  lemma StartedKeepsSlots(c: Config, w: World, h: Handshake, started: State)
    requires SlotsAccounted(c, w) && HasRoomFor(c, w.hub, h.origin)
    requires started.links == w.hub.links
    requires InFlight(started, h.origin.Dialed?) == InFlight(w.hub, h.origin.Dialed?) + 1
    requires InFlight(started, !h.origin.Dialed?) == InFlight(w.hub, !h.origin.Dialed?)
    ensures SlotsAccounted(c, w.(hub := started, running := w.running + [h]))
  {
    RunningSplits(w.running);
    RunningAppend(w.running, [h], true);
    RunningAppend(w.running, [h], false);
    assert [h][1..] == [];
  }

  lemma DialKeepsSlots(c: Config, w: World, address: nat, expected: Option<Ski>, now: nat)
    requires SlotsAccounted(c, w)
    ensures SlotsAccounted(c, Dialing(c, w, address, expected, now))
  {
    if HasRoomFor(c, w.hub, Dialed(address)) {
      StartedKeepsSlots(c, w, Handshake(Dialed(address), expected, None), AfterDial(c, w.hub, address, expected, now));
    } else {
      assert w.running + [] == w.running;
    }
  }

  lemma {:induction false} DialAllKeepsSlots(c: Config, w: World, due: seq<(Ski, nat)>, clock: seq<nat>)
    requires |due| <= |clock|
    requires SlotsAccounted(c, w)
    ensures SlotsAccounted(c, DialingAll(c, w, due, clock))
    decreases |due|
  {
    if due != [] {
      DialKeepsSlots(c, w, due[0].1, Some(due[0].0), clock[0]);
      hide SlotsAccounted, Dialing;
      DialAllKeepsSlots(c, Dialing(c, w, due[0].1, Some(due[0].0), clock[0]), due[1..], clock[1..]);
    }
  }

  /** While its handshake runs, the counter it is counted in is not zero: nothing saturates. */
  lemma ReleaseNeverSaturates(c: Config, w: World, task: nat)
    requires SlotsAccounted(c, w) && task < |w.running|
    ensures var origin := w.running[task].origin;
            && InFlight(w.hub, origin.Dialed?) > 0
            && InFlight(Released(w.hub, origin), origin.Dialed?) == InFlight(w.hub, origin.Dialed?) - 1
            && InFlight(Released(w.hub, origin), !origin.Dialed?) == InFlight(w.hub, !origin.Dialed?)
            && Released(w.hub, origin).links == w.hub.links
  {
    RunningRemoved(w.running, task, w.running[task].origin.Dialed?);
  }

  /** An admitted handshake that establishes finds a slot. */
  lemma AdmittedFindsASlot(c: Config, w: World, task: nat)
    requires SlotsAccounted(c, w) && task < |w.running|
    ensures HasSlotFor(c, Released(w.hub, w.running[task].origin), w.running[task].origin)
  {
    ReleaseNeverSaturates(c, w, task);
    RunningSplits(w.running);
  }

  /**
   So an established connection is turned away for two reasons only: it is to this node itself,
   or two connections to that peer are already held.
   */
  lemma RefusedOnlyForThePeer(c: Config, w: World, task: nat, connection: nat, ski: Ski, now: nat, bootstrap: seq<nat>)
    requires SlotsAccounted(c, w) && task < |w.running|
    ensures Adopted(c, Released(w.hub, w.running[task].origin), connection, ski, w.running[task].origin, now, bootstrap).Refused?
       <==> ski == c.ski || LinksTo(w.hub.links, ski) >= MAX_CONNECTIONS_PER_PEER
  {
    AdmittedFindsASlot(c, w, task);
  }

  lemma EstablishKeepsSlots(c: Config, w: World, task: nat, ski: Ski, now: nat)
    requires SlotsAccounted(c, w) && task < |w.running|
    ensures SlotsAccounted(c, Next(c, w, Establish(task, ski, now)))
  {
    var h := w.running[task];
    ReleaseNeverSaturates(c, w, task);
    RunningRemoved(w.running, task, true);
    RunningRemoved(w.running, task, false);
    var l := NewLink(w.nextConnection, ski, h.origin, now, [w.nextCounter, w.nextCounter + 1]);
    LinksAppend(w.hub.links, [l], ski, true);
    LinksAppend(w.hub.links, [l], ski, false);
    OneLink(l, ski, true);
    OneLink(l, ski, false);
    EstablishedSlots(c, w, task, ski, now, l);
    hide LinksOpened, RunningOf, AfterEstablished, Released;
  }

  /** Everything but the remembered peers and who waits for trust. */
  predicate SameTable(a: State, b: State) {
    && a.links == b.links && a.duplicates == b.duplicates
    && a.inFlightDialed == b.inFlightDialed && a.inFlightAccepted == b.inFlightAccepted
  }

  lemma KnownIsApart(s: State, ski: Ski, now: nat, dialing: bool)
    ensures SameTable(s, Deferred(s, ski, now)) && SameTable(s, MarkDialing(s, ski, dialing)) && SameTable(s, Succeeded(s, ski, now))
    ensures Deferred(s, ski, now).awaitingTrust == s.awaitingTrust
    ensures MarkDialing(s, ski, dialing).awaitingTrust == s.awaitingTrust
    ensures Succeeded(s, ski, now).awaitingTrust == s.awaitingTrust
  {
    hide KnownAt;
  }

  /** What the table is after a handshake established: released, and adopted if it was taken. */
  lemma EstablishedTable(c: Config, s: State, connection: nat, ski: Ski, origin: Origin, expected: Option<Ski>,
                         now: nat, bootstrap: seq<nat>)
    ensures var after := AfterEstablished(c, s, connection, ski, origin, expected, now, bootstrap);
            match Adopted(c, Released(s, origin), connection, ski, origin, now, bootstrap)
            case Taken(taken) => SameTable(taken, after)
            case Refused(_) => SameTable(Released(s, origin), after)
  {
    hide Adopted, Deferred, MarkDialing, Succeeded, Released, WithoutOrigin, WithoutKnown;
    var s1 := Released(s, origin).(awaitingTrust := WithoutOrigin(s.awaitingTrust, origin));
    var s2 := if expected.Some? then MarkDialing(s1, expected.value, false) else s1;
    if expected.Some? {
      KnownIsApart(s1, expected.value, now, false);
    }
    AdoptedTable(c, Released(s, origin), s2, connection, ski, origin, now, bootstrap);
    var adopted := Adopted(c, s2, connection, ski, origin, now, bootstrap);
    if expected.Some? {
      KnownIsApart(s2, expected.value, now, false);
      if adopted.Taken? {
        KnownIsApart(adopted.state, expected.value, now, false);
        KnownIsApart(adopted.state, ski, now, false);
      }
    }
  }

  lemma AdoptedTable(c: Config, a: State, b: State, connection: nat, ski: Ski, origin: Origin, now: nat, bootstrap: seq<nat>)
    requires SameTable(a, b)
    ensures var (x, y) := (Adopted(c, a, connection, ski, origin, now, bootstrap),
                           Adopted(c, b, connection, ski, origin, now, bootstrap));
            && x.Taken? == y.Taken?
            && (x.Taken? ==> SameTable(x.state, y.state))
  {
    hide LinksTo, LinksOpened;
  }

  lemma AdoptedLinks(c: Config, s: State, connection: nat, ski: Ski, origin: Origin, now: nat, bootstrap: seq<nat>)
    ensures var a := Adopted(c, s, connection, ski, origin, now, bootstrap);
            a.Taken? ==>
              && a.state.links == s.links + [NewLink(connection, ski, origin, now, bootstrap)]
              && a.state.inFlightDialed == s.inFlightDialed && a.state.inFlightAccepted == s.inFlightAccepted
  {
    hide LinksTo, HasSlotFor, HasDuplicate;
  }

  /** A finished handshake leaves its slot, and takes up at most one link. */
  lemma EstablishedSlots(c: Config, w: World, task: nat, ski: Ski, now: nat, l: Link)
    requires task < |w.running|
    requires l == NewLink(w.nextConnection, ski, w.running[task].origin, now, [w.nextCounter, w.nextCounter + 1])
    ensures var after := Next(c, w, Establish(task, ski, now)).hub;
            var released := Released(w.hub, w.running[task].origin);
            && (after.links == w.hub.links || after.links == w.hub.links + [l])
            && after.inFlightDialed == released.inFlightDialed && after.inFlightAccepted == released.inFlightAccepted
  {
    hide AfterEstablished, Adopted, NewLink;
    var h, b := w.running[task], [w.nextCounter, w.nextCounter + 1];
    EstablishedTable(c, w.hub, w.nextConnection, ski, h.origin, h.expected, now, b);
    AdoptedLinks(c, Released(w.hub, h.origin), w.nextConnection, ski, h.origin, now, b);
  }

  /** What the table is after a handshake failed: released, and otherwise as it was. */
  lemma FailedTable(c: Config, s: State, origin: Origin, expected: Option<Ski>, peer: Option<Ski>, now: nat)
    ensures SameTable(Released(s, origin), AfterFailed(c, s, origin, expected, peer, now))
  {
    hide KnownAt, WaitingAt;
  }

  lemma FailKeepsSlots(c: Config, w: World, task: nat, peer: Option<Ski>, now: nat)
    requires SlotsAccounted(c, w) && task < |w.running|
    ensures SlotsAccounted(c, Next(c, w, Fail(task, peer, now)))
  {
    ReleaseNeverSaturates(c, w, task);
    RunningRemoved(w.running, task, true);
    RunningRemoved(w.running, task, false);
    FailedTable(c, w.hub, w.running[task].origin, w.running[task].expected, peer, now);
    hide LinksOpened, RunningOf, AfterFailed, Released;
  }

  lemma GainingNothingKeepsSlots(c: Config, w: World, hub: State)
    requires SlotsAccounted(c, w) && NoLinksGained(w.hub, hub)
    ensures SlotsAccounted(c, w.(hub := hub))
  {
  }

  lemma ReceivingGainsNothing(c: Config, s: State, index: nat, heard: Heard)
    requires index < |s.links|
    ensures NoLinksGained(s, Receiving(c, s, index, heard))
  {
    var (after, conflict) := AfterReceive(c, s, index, heard);
    if conflict.Some? {
      DropGainsNothing(after, index, conflict.value);
    } else {
      SameCounts(after.links, s.links, c.ski, true);
      SameCounts(after.links, s.links, c.ski, false);
    }
  }

  lemma TimersGainNothing(s: State, now: nat)
    ensures NoLinksGained(s, AfterTimers(s, now))
  {
    var kept := s.(links := AllKeptAlive(s.links, now));
    SameLinksGainNothing(s, kept.links);
    DropMarkedGainsNothing(kept, MarkDead(s.links, now), |s.links|, Unresponsive);
  }

  lemma PingsGainNothing(s: State, now: nat, sent: seq<bool>)
    requires |sent| == |s.links|
    ensures NoLinksGained(s, AfterKeepAlive(s, now, sent))
  {
    var pinged := s.(links := AllPinged(s.links, now, sent));
    SameLinksGainNothing(s, pinged.links);
    DropMarkedGainsNothing(pinged, MarkUnsent(s.links, now, sent), |sent|, Remote);
  }

  lemma ProbeGainsNothing(s: State, ski: Ski, now: nat, sent: seq<bool>)
    requires |sent| == |s.links|
    ensures NoLinksGained(s, AfterProbe(s, ski, now, sent))
  {
    var probed := s.(links := AllProbed(s.links, ski, now, sent), duplicates := MarkProbed(s.duplicates, ski));
    SameLinksGainNothing(s, probed.links);
    DropMarkedGainsNothing(probed, MarkUnprobed(s.links, ski, sent), |sent|, Remote);
    hide LinksOpened, DropMarked, AllProbed, MarkProbed;
  }

  lemma CloseUnansweredGainsNothing(s: State, ski: Ski)
    ensures NoLinksGained(s, AfterCloseUnanswered(s, ski))
  {
    var marks := MarkUnanswered(s.links, ski);
    DropMarkedGainsNothing(s, marks, |marks|, Unresponsive);
    CloseDuplicatesGainsNothing(DropMarked(s, marks, |marks|, Unresponsive), ski);
    hide LinksOpened, DropMarked, AfterCloseDuplicates;
  }

  lemma ArbitrateGainsNothing(c: Config, s: State, now: nat, sent: seq<bool>)
    requires |sent| == |s.links|
    ensures NoLinksGained(s, AfterArbitrate(c, s, now, sent))
  {
    if s.duplicates != [] {
      var ski := s.duplicates[0].ski;
      CloseDuplicatesGainsNothing(s, ski);
      ProbeGainsNothing(s, ski, now, sent);
      CloseUnansweredGainsNothing(s, ski);
    }
    hide LinksOpened, ResolutionFor, AfterCloseDuplicates, AfterProbe, AfterCloseUnanswered;
  }

  lemma AskKeepsSlots(c: Config, w: World, task: nat, ski: Ski)
    requires SlotsAccounted(c, w) && Enabled(w, AskTrust(task, ski))
    ensures SlotsAccounted(c, Next(c, w, AskTrust(task, ski)))
  {
    var asked := w.running[task := Asking(w.hub, w.running[task], ski)];
    SameRunning(w.running, asked, true);
    SameRunning(w.running, asked, false);
    hide RunningOf, LinksOpened, TurnedAway, IsWaiting, WaitingAt;
  }

  lemma StepKeepsSlots(c: Config, w: World, step: Step)
    requires SlotsAccounted(c, w)
    ensures SlotsAccounted(c, Next(c, w, step))
  {
    hide SlotsAccounted, LinksOpened, RunningOf, AfterTimers, AfterKeepAlive, AfterArbitrate, Receiving, AfterDrop, DropMarked;
    if Enabled(w, step) {
      match step
      case Accept(from) =>
        if HasRoomFor(c, w.hub, Accepted(from)) {
          StartedKeepsSlots(c, w, Handshake(Accepted(from), None, None), AfterAccept(c, w.hub, from));
        } else {
          assert w.running + [] == w.running;
          GainingNothingKeepsSlots(c, w, AfterAccept(c, w.hub, from));
        }
      case Dial(address, expected, now) => DialKeepsSlots(c, w, address, expected, now);
      case Redial(now, clock) => DialAllKeepsSlots(c, w, DueDials(w.hub, w.hub.known, now), clock);
      case Establish(task, ski, now) => EstablishKeepsSlots(c, w, task, ski, now);
      case Fail(task, peer, now) => FailKeepsSlots(c, w, task, peer, now);
      case Frame(index, now) =>
        SameLinksGainNothing(w.hub, w.hub.links[index := Seen(w.hub.links[index], now)]);
        GainingNothingKeepsSlots(c, w, Next(c, w, step).hub);
      case Pong(index) =>
        SameLinksGainNothing(w.hub, w.hub.links[index := Ponged(w.hub.links[index])]);
        GainingNothingKeepsSlots(c, w, Next(c, w, step).hub);
      case Receive(index, heard) =>
        ReceivingGainsNothing(c, w.hub, index, heard);
        GainingNothingKeepsSlots(c, w, Next(c, w, step).hub);
      case Drop(index, reason) =>
        DropGainsNothing(w.hub, index, reason);
        GainingNothingKeepsSlots(c, w, Next(c, w, step).hub);
      case CloseLinks(ski) =>
        DropMarkedGainsNothing(w.hub, MarkPeer(w.hub.links, ski), |w.hub.links|, Local);
        GainingNothingKeepsSlots(c, w, Next(c, w, step).hub);
      case Timers(now) =>
        TimersGainNothing(w.hub, now);
        GainingNothingKeepsSlots(c, w, Next(c, w, step).hub);
      case KeepAlivePings(now, sent) =>
        PingsGainNothing(w.hub, now, sent);
        GainingNothingKeepsSlots(c, w, Next(c, w, step).hub);
      case Arbitrate(now, sent) =>
        ArbitrateGainsNothing(c, w.hub, now, sent);
        GainingNothingKeepsSlots(c, w, Next(c, w, step).hub);
      case AskTrust(task, ski) => AskKeepsSlots(c, w, task, ski);
      case EngineSends(_) => CountersDoNotMatter(c, w, Next(c, w, step));
      case _ => GainingNothingKeepsSlots(c, w, Next(c, w, step).hub);
    }
  }

  lemma CountersDoNotMatter(c: Config, w: World, v: World)
    requires SlotsAccounted(c, w) && v.hub == w.hub && v.running == w.running
    ensures SlotsAccounted(c, v)
  {
  }

  /** Every run accounts for every slot. */
  lemma {:induction false} EveryRunAccountsForSlots(c: Config, steps: seq<Step>)
    requires c.maxConnections >= 1
    ensures SlotsAccounted(c, Run(c, steps))
    decreases |steps|
  {
    if steps != [] {
      EveryRunAccountsForSlots(c, steps[..|steps| - 1]);
      StepKeepsSlots(c, Run(c, steps[..|steps| - 1]), steps[|steps| - 1]);
    }
  }

  /** A hub that has only dialled can always accept one, and one that has only accepted can dial. */
  lemma OneSlotIsReserved(c: Config, w: World, origin: Origin)
    requires SlotsAccounted(c, w) && c.maxConnections > 1
    requires forall i :: 0 <= i < |w.hub.links| ==> w.hub.links[i].origin.Dialed? != origin.Dialed?
    requires forall i :: 0 <= i < |w.running| ==> w.running[i].origin.Dialed? != origin.Dialed?
    ensures HasRoomFor(c, w.hub, origin)
  {
    AllOpenedAlike(w.hub.links, !origin.Dialed?);
    AllRunningAlike(w.running, !origin.Dialed?);
    RunningSplits(w.running);
  }

  lemma {:induction false} AllOpenedAlike(links: seq<Link>, dialed: bool)
    requires forall i :: 0 <= i < |links| ==> links[i].origin.Dialed? == dialed
    ensures LinksOpened(links, dialed) == |links| && LinksOpened(links, !dialed) == 0
  {
    if links != [] {
      AllOpenedAlike(links[1..], dialed);
    }
  }

  lemma {:induction false} AllRunningAlike(running: seq<Handshake>, dialed: bool)
    requires forall i :: 0 <= i < |running| ==> running[i].origin.Dialed? == dialed
    ensures RunningOf(running, dialed) == |running| && RunningOf(running, !dialed) == 0
  {
    if running != [] {
      AllRunningAlike(running[1..], dialed);
    }
  }
}
