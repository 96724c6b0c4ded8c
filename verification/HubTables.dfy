/**
 Every reachable connection table is sound: each kind of step keeps at most two links to a peer,
 a record of every double connection, and SPINE device addresses that name one link each.
 */
module HubTables {
  import opened Wrappers
  import opened SkiText
  import opened HubState
  import opened HubRuns
  import opened HubSlots
  import opened HubPeers

  ghost predicate TableSound(c: Config, n: nat, k: nat, s: State) {
    LinksSound(c, n, k, s.links) && DoublesOnRecord(s)
  }

  lemma SameTableIsSound(c: Config, n: nat, k: nat, s: State, t: State)
    requires TableSound(c, n, k, s) && s.links == t.links && s.duplicates == t.duplicates
    ensures TableSound(c, n, k, t)
  {
    hide LinksSound;
    forall ski ensures PeerOnRecord(t, ski) {
      assert PeerOnRecord(s, ski);
    }
  }

  lemma DropIsSound(c: Config, n: nat, k: nat, s: State, index: nat, reason: Disconnect)
    requires TableSound(c, n, k, s) && index < |s.links|
    ensures TableSound(c, n, k, AfterDrop(s, index, reason))
  {
    RemovedStaySound(c, n, k, s.links, index);
    DropKeepsRecords(s, index, reason);
    hide LinksSound, DoublesOnRecord;
  }

  lemma {:induction false} DropMarkedIsSound(c: Config, n: nat, k: nat, s: State, marks: seq<bool>, m: nat, reason: Disconnect)
    requires TableSound(c, n, k, s) && m <= |marks| <= |s.links|
    ensures TableSound(c, n, k, DropMarked(s, marks, m, reason))
    decreases m
  {
    hide TableSound;
    if m > 0 {
      if marks[m - 1] {
        DropIsSound(c, n, k, s, m - 1, reason);
        DropMarkedIsSound(c, n, k, AfterDrop(s, m - 1, reason), marks[..m - 1], m - 1, reason);
      } else {
        DropMarkedIsSound(c, n, k, s, marks[..m - 1], m - 1, reason);
      }
    }
  }

  lemma SameLinksAreSound(c: Config, n: nat, k: nat, s: State, links: seq<Link>)
    requires TableSound(c, n, k, s) && SameConnections(links, s.links)
    ensures TableSound(c, n, k, s.(links := links))
  {
    SameConnectionsStaySound(c, n, k, s.links, links);
    SameLinksKeepRecords(s, links);
    hide LinksSound, DoublesOnRecord, SameConnections;
  }

  lemma CloseDuplicatesIsSound(c: Config, n: nat, k: nat, s: State, ski: Ski)
    requires TableSound(c, n, k, s)
    ensures TableSound(c, n, k, AfterCloseDuplicates(s, ski))
  {
    UnmarkedStaySound(c, n, k, s.links, MarkOthers(s.links, ski, NewestTo(s.links, ski)));
    CloseDuplicatesKeepsRecords(s, ski);
    hide LinksSound, DoublesOnRecord;
  }

  lemma ReceivingIsSound(c: Config, n: nat, k: nat, s: State, index: nat, h: Heard)
    requires TableSound(c, n, k, s) && index < |s.links|
    ensures TableSound(c, n, k, Receiving(c, s, index, h))
  {
    if Conflicts(c, s.links, index, h) {
      DropIsSound(c, n, k, s, index, AddressConflict);
    } else {
      HeededStaysSound(c, n, k, s.links, index, h);
      var heeded := s.links[index := Heeded(s.links[index], h)];
      if Announces(heeded[index]) {
        AnnouncedStaysSound(c, n, k, heeded, index);
        assert heeded[index := heeded[index].(announced := true)] == s.links[index := heeded[index].(announced := true)];
      }
      var after := Receiving(c, s, index, h);
      ReceivedLinks(s.links, after.links, index);
      hide LinksSound, Heeded, Announces;
      forall ski ensures PeerOnRecord(after, ski) {
        assert PeerOnRecord(s, ski);
        SameCounts(after.links, s.links, ski, true);
      }
    }
  }

  lemma ReceivedLinks(before: seq<Link>, after: seq<Link>, index: nat)
    requires index < |before| && |after| == |before| && after == before[index := after[index]]
    requires after[index].ski == before[index].ski && after[index].origin == before[index].origin
    ensures forall i :: 0 <= i < |after| ==> after[i].ski == before[i].ski && after[i].origin == before[i].origin
  {
  }

  lemma AdoptedIsSound(c: Config, n: nat, k: nat, s: State, ski: Ski, origin: Origin, now: nat)
    requires TableSound(c, n, k, s)
    ensures var a := Adopted(c, s, n, ski, origin, now, [k, k + 1]);
            a.Taken? ==> TableSound(c, n + 1, k + 2, a.state)
  {
    var a := Adopted(c, s, n, ski, origin, now, [k, k + 1]);
    AdoptedKeepsRecords(c, s, n, ski, origin, now, [k, k + 1]);
    if a.Taken? {
      AppendedStaySound(c, n, k, s.links, NewLink(n, ski, origin, now, [k, k + 1]));
    }
    hide LinksSound, DoublesOnRecord, LinksTo, HasSlotFor, HasDuplicate;
  }

  lemma GrowIsSound(c: Config, n: nat, k: nat, m: nat, j: nat, s: State)
    requires TableSound(c, n, k, s) && n <= m && k <= j
    ensures TableSound(c, m, j, s)
  {
    CountersGrow(c, n, k, m, j, s.links);
    hide LinksSound, DoublesOnRecord;
  }

  lemma EstablishedIsSound(c: Config, n: nat, k: nat, s: State, ski: Ski, origin: Origin, expected: Option<Ski>, now: nat)
    requires TableSound(c, n, k, s)
    ensures TableSound(c, n + 1, k + 2, AfterEstablished(c, s, n, ski, origin, expected, now, [k, k + 1]))
  {
    hide TableSound;
    var released := Released(s, origin);
    SameTableIsSound(c, n, k, s, released);
    EstablishedTable(c, s, n, ski, origin, expected, now, [k, k + 1]);
    AdoptedIsSound(c, n, k, released, ski, origin, now);
    var after := AfterEstablished(c, s, n, ski, origin, expected, now, [k, k + 1]);
    hide AfterEstablished, Adopted;
    match Adopted(c, released, n, ski, origin, now, [k, k + 1])
    case Taken(taken) => SameTableIsSound(c, n + 1, k + 2, taken, after);
    case Refused(_) =>
      SameTableIsSound(c, n, k, released, after);
      GrowIsSound(c, n, k, n + 1, k + 2, after);
  }

  lemma {:induction false} OpenedToCounts(links: seq<Link>, ski: Ski)
    ensures |OpenedTo(links, ski)| == LinksTo(links, ski)
  {
    if links != [] {
      OpenedToCounts(links[1..], ski);
    }
  }

  lemma SettledIsSound(c: Config, n: nat, k: nat, s: State, ski: Ski)
    requires TableSound(c, n, k, s) && LinksTo(s.links, ski) < 2
    ensures TableSound(c, n, k, s.(duplicates := WithoutDuplicate(s.duplicates, ski)))
  {
    WithoutStaysDistinct(s.duplicates, ski);
    forall other ensures PeerOnRecord(s.(duplicates := WithoutDuplicate(s.duplicates, ski)), other) {
      assert PeerOnRecord(s, other);
      WithoutRecord(s.duplicates, ski, other);
    }
  }

  lemma ProbeIsSound(c: Config, n: nat, k: nat, s: State, ski: Ski, now: nat, sent: seq<bool>)
    requires TableSound(c, n, k, s) && |sent| == |s.links|
    ensures TableSound(c, n, k, AfterProbe(s, ski, now, sent))
  {
    var links := AllProbed(s.links, ski, now, sent);
    SameLinksAreSound(c, n, k, s, links);
    var pinged := s.(links := links, duplicates := MarkProbed(s.duplicates, ski));
    MarkProbedKeepsRecords(s.duplicates, ski);
    hide AllProbed, LinksSound, DropMarked, MarkProbed;
    forall other ensures PeerOnRecord(pinged, other) {
      assert PeerOnRecord(s.(links := links), other);
      if HasDuplicate(s.duplicates, other) {
        var i :| 0 <= i < |s.duplicates| && s.duplicates[i].ski == other;
        assert pinged.duplicates[i].ski == other;
      }
    }
    DropMarkedIsSound(c, n, k, pinged, MarkUnprobed(s.links, ski, sent), |sent|, Remote);
    SameTableIsSound(c, n, k, DropMarked(pinged, MarkUnprobed(s.links, ski, sent), |sent|, Remote), AfterProbe(s, ski, now, sent));
  }

  lemma ArbitrateIsSound(c: Config, n: nat, k: nat, s: State, now: nat, sent: seq<bool>)
    requires TableSound(c, n, k, s) && |sent| == |s.links|
    ensures TableSound(c, n, k, AfterArbitrate(c, s, now, sent))
  {
    hide TableSound, DropMarked, AfterCloseDuplicates, AfterProbe;
    if s.duplicates != [] {
      var ski := s.duplicates[0].ski;
      match ResolutionFor(c, s, s.duplicates[0], now)
      case Settled =>
        OpenedToCounts(s.links, ski);
        SettledIsSound(c, n, k, s, ski);
      case KeepNewest => CloseDuplicatesIsSound(c, n, k, s, ski);
      case Wait(until) => SameTableIsSound(c, n, k, s, AfterWakeAt(s, until));
      case Probe => ProbeIsSound(c, n, k, s, ski, now, sent);
      case CloseAfterProbe =>
        var marks := MarkUnanswered(s.links, ski);
        DropMarkedIsSound(c, n, k, s, marks, |marks|, Unresponsive);
        CloseDuplicatesIsSound(c, n, k, DropMarked(s, marks, |marks|, Unresponsive), ski);
    }
  }

  lemma TimersAreSound(c: Config, n: nat, k: nat, s: State, now: nat)
    requires TableSound(c, n, k, s)
    ensures TableSound(c, n, k, AfterTimers(s, now))
  {
    var kept, marks := s.(links := AllKeptAlive(s.links, now)), MarkDead(s.links, now);
    SameLinksAreSound(c, n, k, s, kept.links);
    DropMarkedIsSound(c, n, k, kept, marks, |marks|, Unresponsive);
    hide TableSound, DropMarked, AllKeptAlive, MarkDead;
    SameTableIsSound(c, n, k, DropMarked(kept, marks, |marks|, Unresponsive), AfterTimers(s, now));
  }

  lemma PingsAreSound(c: Config, n: nat, k: nat, s: State, now: nat, sent: seq<bool>)
    requires TableSound(c, n, k, s) && |sent| == |s.links|
    ensures TableSound(c, n, k, AfterKeepAlive(s, now, sent))
  {
    var pinged := s.(links := AllPinged(s.links, now, sent));
    SameLinksAreSound(c, n, k, s, pinged.links);
    DropMarkedIsSound(c, n, k, pinged, MarkUnsent(s.links, now, sent), |sent|, Remote);
  }

  lemma {:induction false} DialAllSameTable(c: Config, s: State, due: seq<(Ski, nat)>, clock: seq<nat>)
    requires |due| <= |clock|
    ensures DialAll(c, s, due, clock).links == s.links && DialAll(c, s, due, clock).duplicates == s.duplicates
    decreases |due|
  {
    if due != [] {
      var dialed := AfterDial(c, s, due[0].1, Some(due[0].0), clock[0]);
      assert dialed.links == s.links && dialed.duplicates == s.duplicates by {
        hide KnownAt, HasRoomFor;
      }
      hide AfterDial;
      DialAllSameTable(c, dialed, due[1..], clock[1..]);
    }
  }

  ghost predicate WorldSound(c: Config, w: World) {
    TableSound(c, w.nextConnection, w.nextCounter, w.hub)
  }

  lemma StepIsSound(c: Config, w: World, step: Step)
    requires WorldSound(c, w)
    ensures WorldSound(c, Next(c, w, step))
  {
    hide TableSound, AfterTimers, AfterKeepAlive, AfterArbitrate, Receiving, AfterDrop, DropMarked, AfterEstablished;
    var n, k, s := w.nextConnection, w.nextCounter, w.hub;
    if Enabled(w, step) {
      match step
      case Redial(now, clock) =>
        var due := DueDials(s, s.known, now);
        DialingAllIsDialAll(c, w, due, clock);
        DialAllSameTable(c, s, due, clock);
        SameTableIsSound(c, n, k, s, DialAll(c, s, due, clock));
      case Establish(task, ski, now) =>
        EstablishedIsSound(c, n, k, s, ski, w.running[task].origin, w.running[task].expected, now);
      case Fail(task, peer, now) =>
        FailedTable(c, s, w.running[task].origin, w.running[task].expected, peer, now);
        SameTableIsSound(c, n, k, s, Next(c, w, step).hub);
      case Frame(index, now) => SameLinksAreSound(c, n, k, s, s.links[index := Seen(s.links[index], now)]);
      case Pong(index) => SameLinksAreSound(c, n, k, s, s.links[index := Ponged(s.links[index])]);
      case Receive(index, heard) => ReceivingIsSound(c, n, k, s, index, heard);
      case Drop(index, reason) => DropIsSound(c, n, k, s, index, reason);
      case CloseLinks(ski) => DropMarkedIsSound(c, n, k, s, MarkPeer(s.links, ski), |s.links|, Local);
      case Timers(now) => TimersAreSound(c, n, k, s, now);
      case KeepAlivePings(now, sent) => PingsAreSound(c, n, k, s, now, sent);
      case Arbitrate(now, sent) => ArbitrateIsSound(c, n, k, s, now, sent);
      case EngineSends(count) => GrowIsSound(c, n, k, n, k + count, s);
      case _ => SameTableIsSound(c, n, k, s, Next(c, w, step).hub);
    }
  }

  /** Every reachable table is sound. */
  lemma {:induction false} EveryRunIsSound(c: Config, steps: seq<Step>)
    ensures WorldSound(c, Run(c, steps))
    decreases |steps|
  {
    if steps != [] {
      EveryRunIsSound(c, steps[..|steps| - 1]);
      StepIsSound(c, Run(c, steps[..|steps| - 1]), steps[|steps| - 1]);
    }
  }
}
