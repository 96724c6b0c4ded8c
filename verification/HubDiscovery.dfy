/**
 The events that report a peer as discovered: what queues them, what they say, and that a
 connection is reported once.
 */
module HubDiscovery {
  import opened Wrappers
  import opened SkiText
  import opened HubState
  import opened HubRuns
  import opened HubPeers
  import opened HubTables
  import opened HubClaims

  /** The events among those queued that report a discovery, in order. */
  function Discoveries(pending: seq<Event>): seq<Event> {
    if pending == [] then []
    else (if pending[0].PeerDiscovered? then [pending[0]] else []) + Discoveries(pending[1..])
  }

  // ---- nothing but a datagram queues one ----------------------------------------------------

  lemma {:induction false} DiscoveriesAppend(a: seq<Event>, e: Event)
    ensures Discoveries(a + [e]) == Discoveries(a) + if e.PeerDiscovered? then [e] else []
  {
    if a == [] {
      assert a + [e] == [e] && [e][1..] == [];
    } else {
      assert (a + [e])[1..] == a[1..] + [e] && (a + [e])[0] == a[0];
      DiscoveriesAppend(a[1..], e);
      var first, last := if a[0].PeerDiscovered? then [a[0]] else [], if e.PeerDiscovered? then [e] else [];
      assert first + (Discoveries(a[1..]) + last) == first + Discoveries(a[1..]) + last;
    }
  }

  lemma QueueDiscovers(s: State, e: Event)
    ensures Discoveries(Queue(s, e).pending) == Discoveries(s.pending) + if e.PeerDiscovered? then [e] else []
  {
    DiscoveriesAppend(s.pending, e);
  }

  predicate Quiet(before: State, after: State) {
    Discoveries(after.pending) == Discoveries(before.pending)
  }

  lemma QueueIsQuiet(before: State, s: State, e: Event)
    requires Quiet(before, s) && !e.PeerDiscovered?
    ensures Quiet(before, Queue(s, e))
  {
    QueueDiscovers(s, e);
    assert Discoveries(s.pending) + [] == Discoveries(s.pending);
  }

  lemma DropIsQuiet(before: State, s: State, index: nat, reason: Disconnect)
    requires index < |s.links| && Quiet(before, s)
    ensures Quiet(before, AfterDrop(s, index, reason))
  {
    var links, ski := RemoveAt(s.links, index), s.links[index].ski;
    var left := if LinksTo(links, ski) == 0 then WithoutDuplicate(s.duplicates, ski) else s.duplicates;
    QueueIsQuiet(before, s.(links := links, duplicates := left), Disconnected(ski, reason));
  }

  lemma {:induction false} DropMarkedIsQuiet(before: State, s: State, marks: seq<bool>, n: nat, reason: Disconnect)
    requires n <= |marks| <= |s.links| && Quiet(before, s)
    ensures Quiet(before, DropMarked(s, marks, n, reason))
    decreases n
  {
    hide Quiet;
    if n > 0 {
      if marks[n - 1] {
        DropIsQuiet(before, s, n - 1, reason);
        DropMarkedIsQuiet(before, AfterDrop(s, n - 1, reason), marks[..n - 1], n - 1, reason);
      } else {
        DropMarkedIsQuiet(before, s, marks[..n - 1], n - 1, reason);
      }
    }
  }

  lemma {:induction false} WithdrawalIsQuiet(pending: seq<Event>, ski: Ski)
    ensures Discoveries(WithoutDisconnected(pending, ski)) == Discoveries(pending)
  {
    if pending != [] {
      var rest := WithoutDisconnected(pending[1..], ski);
      WithdrawalIsQuiet(pending[1..], ski);
      assert [] + rest == rest;
      assert ([pending[0]] + rest)[1..] == rest;
      assert [] + Discoveries(rest) == Discoveries(rest);
    }
  }

  lemma CloseDuplicatesIsQuiet(before: State, s: State, ski: Ski)
    requires Quiet(before, s)
    ensures Quiet(before, AfterCloseDuplicates(s, ski))
  {
    WithdrawalIsQuiet(s.pending, ski);
  }

  lemma ArbitrateIsQuiet(c: Config, s: State, now: nat, sent: seq<bool>)
    requires |sent| == |s.links|
    ensures Quiet(s, AfterArbitrate(c, s, now, sent))
  {
    if s.duplicates != [] {
      var ski := s.duplicates[0].ski;
      CloseDuplicatesIsQuiet(s, s, ski);
      var pinged := s.(links := AllProbed(s.links, ski, now, sent), duplicates := MarkProbed(s.duplicates, ski));
      DropMarkedIsQuiet(s, pinged, MarkUnprobed(s.links, ski, sent), |sent|, Remote);
      var marks := MarkUnanswered(s.links, ski);
      DropMarkedIsQuiet(s, s, marks, |marks|, Unresponsive);
      CloseDuplicatesIsQuiet(s, DropMarked(s, marks, |marks|, Unresponsive), ski);
    }
    hide Discoveries, ResolutionFor, AfterCloseDuplicates, DropMarked, WithoutDuplicate;
  }

  lemma TimersAreQuiet(s: State, now: nat)
    ensures Quiet(s, AfterTimers(s, now))
  {
    hide Quiet, DropMarked, MarkDead, AllKeptAlive;
    var kept, marks := s.(links := AllKeptAlive(s.links, now)), MarkDead(s.links, now);
    KeptIsQuiet(s, kept);
    KeptMarks(s.links, now);
    DropMarkedIsQuiet(s, kept, marks, |marks|, Unresponsive);
    var dropped := DropMarked(kept, marks, |marks|, Unresponsive);
    WokenIsQuiet(s, dropped);
  }

  lemma KeptIsQuiet(before: State, after: State)
    requires after.pending == before.pending
    ensures Quiet(before, after)
  {
  }

  lemma KeptMarks(links: seq<Link>, now: nat)
    ensures |AllKeptAlive(links, now)| == |MarkDead(links, now)| == |links|
  {
  }

  lemma WokenIsQuiet(before: State, s: State)
    requires Quiet(before, s)
    ensures Quiet(before, Queue(s.(wakeAt := None), Tick))
  {
    QueueIsQuiet(before, s.(wakeAt := None), Tick);
  }

  lemma PingsAreQuiet(s: State, now: nat, sent: seq<bool>)
    requires |sent| == |s.links|
    ensures Quiet(s, AfterKeepAlive(s, now, sent))
  {
    DropMarkedIsQuiet(s, s.(links := AllPinged(s.links, now, sent)), MarkUnsent(s.links, now, sent), |sent|, Remote);
  }

  lemma DialIsQuiet(c: Config, before: State, s: State, address: nat, expected: Option<Ski>, now: nat)
    requires Quiet(before, s)
    ensures Quiet(before, AfterDial(c, s, address, expected, now))
  {
    QueueIsQuiet(before, s, HandshakeFailed(Dialed(address), expected, TooManyConnections));
    hide Discoveries, HasRoomFor, KnownAt;
  }

  lemma {:induction false} DialAllIsQuiet(c: Config, before: State, s: State, due: seq<(Ski, nat)>, clock: seq<nat>)
    requires |due| <= |clock|
    requires Quiet(before, s)
    ensures Quiet(before, DialAll(c, s, due, clock))
    decreases |due|
  {
    hide Quiet, AfterDial;
    if due != [] {
      DialIsQuiet(c, before, s, due[0].1, Some(due[0].0), clock[0]);
      DialAllIsQuiet(c, before, AfterDial(c, s, due[0].1, Some(due[0].0), clock[0]), due[1..], clock[1..]);
    }
  }

  /** One more event is queued, and it reports no discovery. */
  predicate QueuesOther(before: State, after: State) {
    var n := |before.pending|;
    |after.pending| == n + 1 && after.pending[..n] == before.pending && !after.pending[n].PeerDiscovered?
  }

  lemma OtherIsQuiet(before: State, after: State)
    requires QueuesOther(before, after)
    ensures Quiet(before, after)
  {
    var n := |before.pending|;
    assert after.pending == before.pending + [after.pending[n]];
    DiscoveriesAppend(before.pending, after.pending[n]);
    assert Discoveries(before.pending) + [] == Discoveries(before.pending);
  }

  lemma EstablishIsQuiet(c: Config, s: State, n: nat, ski: Ski, origin: Origin, expected: Option<Ski>, now: nat, bootstrap: seq<nat>)
    ensures Quiet(s, AfterEstablished(c, s, n, ski, origin, expected, now, bootstrap))
  {
    assert QueuesOther(s, AfterEstablished(c, s, n, ski, origin, expected, now, bootstrap)) by {
      hide KnownAt, HasSlotFor, HasDuplicate, LinksTo, WithoutOrigin, WithoutKnown;
    }
    hide *;
    OtherIsQuiet(s, AfterEstablished(c, s, n, ski, origin, expected, now, bootstrap));
  }

  lemma FailIsQuiet(c: Config, s: State, origin: Origin, expected: Option<Ski>, peer: Option<Ski>, now: nat)
    ensures Quiet(s, AfterFailed(c, s, origin, expected, peer, now))
  {
    assert QueuesOther(s, AfterFailed(c, s, origin, expected, peer, now)) by {
      hide KnownAt, WaitingAt;
    }
    hide *;
    OtherIsQuiet(s, AfterFailed(c, s, origin, expected, peer, now));
  }

  lemma AskIsQuiet(s: State, origin: Origin, ski: Ski)
    ensures Quiet(s, AfterTrustRequested(s, origin, ski))
  {
    QueueIsQuiet(s, s, HandshakeFailed(origin, Some(ski), TooManyPendingPairings));
    QueueIsQuiet(s, s.(awaitingTrust := s.awaitingTrust + [(origin, ski)]), TrustRequested(origin, ski));
    hide Discoveries, IsWaiting, WaitingAt;
  }

  lemma AcceptIsQuiet(c: Config, s: State, from: nat)
    ensures Quiet(s, AfterAccept(c, s, from))
  {
    QueueIsQuiet(s, s, HandshakeFailed(Accepted(from), None, TooManyConnections));
    hide Discoveries, HasRoomFor;
  }

  // ---- what a discovery says ----------------------------------------------------------------

  function Report(c: Config, w: World, step: Step): Event
    requires Reports(c, w, step)
  {
    var l := Heeded(w.hub.links[step.index], step.heard);
    PeerDiscovered(l.ski, l.device.value)
  }

  lemma ReceivingDiscovers(c: Config, w: World, step: Step)
    requires step.Receive? && step.index < |w.hub.links|
    ensures Discoveries(Receiving(c, w.hub, step.index, step.heard).pending)
         == Discoveries(w.hub.pending) + if Reports(c, w, step) then [Report(c, w, step)] else []
  {
    var s := w.hub;
    assert Discoveries(s.pending) + [] == Discoveries(s.pending);
    if Conflicts(c, s.links, step.index, step.heard) {
      DropIsQuiet(s, s, step.index, AddressConflict);
    } else {
      var l := Heeded(s.links[step.index], step.heard);
      if Announces(l) {
        QueueDiscovers(s.(links := s.links[step.index := l.(announced := true)]), Report(c, w, step));
      }
    }
    hide Discoveries, Conflicts, Announces, Heeded, AfterDrop;
  }

  /**
   In every step the discoveries queued stay as they are, except that the application takes events
   from the front and that a datagram completing a discovery puts one behind them.
   */
  lemma DiscoveriesAreReports(c: Config, w: World, step: Step)
    ensures Discoveries(Next(c, w, step).hub.pending)
         == if step.TakeEvent? && w.hub.pending != [] then Discoveries(w.hub.pending[1..])
            else Discoveries(w.hub.pending) + if Reports(c, w, step) then [Report(c, w, step)] else []
  {
    hide Discoveries, AfterAccept, AfterDial, Remembered, AfterTrustRequested, AfterEstablished, AfterFailed, Receiving,
         AfterDrop, AfterCloseLinks, AfterTimers, AfterKeepAlive, AfterArbitrate, DialingAll, DialAll, DueDials,
         Conflicts, Announces, Heeded, WithoutKnown;
    var s := w.hub;
    assert Discoveries(s.pending) + [] == Discoveries(s.pending);
    if Enabled(w, step) {
      match step
      case Accept(from) => AcceptIsQuiet(c, s, from);
      case Dial(address, expected, now) => DialIsQuiet(c, s, s, address, expected, now);
      case Redial(now, clock) =>
        DialingAllIsDialAll(c, w, DueDials(s, s.known, now), clock);
        DialAllIsQuiet(c, s, s, DueDials(s, s.known, now), clock);
      case Remember(ski, address, now) => RememberIsQuiet(c, s, ski, address, now);
      case AskTrust(task, ski) => AskIsQuiet(s, w.running[task].origin, ski);
      case Establish(task, ski, now) =>
        EstablishIsQuiet(c, s, w.nextConnection, ski, w.running[task].origin, w.running[task].expected, now,
                         [w.nextCounter, w.nextCounter + 1]);
      case Fail(task, peer, now) => FailIsQuiet(c, s, w.running[task].origin, w.running[task].expected, peer, now);
      case Receive(index, heard) => ReceivingDiscovers(c, w, step);
      case Drop(index, reason) => DropIsQuiet(s, s, index, reason);
      case CloseLinks(ski) => CloseLinksIsQuiet(s, ski);
      case Timers(now) => TimersAreQuiet(s, now);
      case KeepAlivePings(now, sent) => PingsAreQuiet(s, now, sent);
      case Arbitrate(now, sent) => ArbitrateIsQuiet(c, s, now, sent);
      case _ =>
    }
  }

  lemma RememberIsQuiet(c: Config, s: State, ski: Ski, address: nat, now: nat)
    ensures Quiet(s, Remembered(c, s, ski, address, now))
  {
  }

  lemma CloseLinksIsQuiet(s: State, ski: Ski)
    ensures Quiet(s, AfterCloseLinks(s, ski))
  {
    DropMarkedIsQuiet(s, s, MarkPeer(s.links, ski), |s.links|, Local);
  }

  /** More discoveries are queued after the step than before it. */
  predicate Discovers(c: Config, w: World, step: Step) {
    |Discoveries(Next(c, w, step).hub.pending)| > |Discoveries(w.hub.pending)|
  }

  lemma FewerTaken(pending: seq<Event>)
    requires pending != []
    ensures |Discoveries(pending[1..])| <= |Discoveries(pending)|
  {
  }

  lemma OnlyReportsDiscover(c: Config, w: World, step: Step)
    ensures Discovers(c, w, step) <==> Reports(c, w, step)
  {
    DiscoveriesAreReports(c, w, step);
    if w.hub.pending != [] {
      FewerTaken(w.hub.pending);
    }
    hide Discoveries, Next, Conflicts, Announces, Heeded;
  }

  /**
   A discovery is queued only by a datagram, and only for a link that had not been announced, is
   bound, and has no opening read outstanding; it names that link's peer and address.
   */
  lemma ReportedWhenDiscovered(c: Config, w: World, step: Step)
    requires Discovers(c, w, step)
    ensures step.Receive? && step.index < |w.hub.links| == |Next(c, w, step).hub.links|
    ensures var before, l := w.hub.links[step.index], Next(c, w, step).hub.links[step.index];
            && l.connection == before.connection && l.ski == before.ski
            && !before.announced && l.announced && l.device.Some? && l.bootstrap == []
            && Discoveries(Next(c, w, step).hub.pending)
               == Discoveries(w.hub.pending) + [PeerDiscovered(l.ski, l.device.value)]
  {
    OnlyReportsDiscover(c, w, step);
    DiscoveriesAreReports(c, w, step);
    hide Discoveries, Conflicts, AfterDrop;
  }

  // ---- once a connection --------------------------------------------------------------------

  predicate AlreadyReported(w: World, connection: nat) {
    && connection < w.nextConnection
    && forall i :: 0 <= i < |w.hub.links| && w.hub.links[i].connection == connection ==> w.hub.links[i].announced
  }

  lemma ReportIsRemembered(c: Config, w: World, step: Step)
    requires WorldSound(c, w) && Discovers(c, w, step)
    ensures step.Receive? && step.index < |w.hub.links|
    ensures AlreadyReported(Next(c, w, step), w.hub.links[step.index].connection)
  {
    ReportedWhenDiscovered(c, w, step);
    var links, after := w.hub.links, Next(c, w, step).hub.links;
    ReceiveKeepsPlaces(c, w, step);
    hide Next, Discovers, Discoveries;
    assert LinkSound(c, w.nextConnection, w.nextCounter, links[step.index]);
    forall i | 0 <= i < |after| && after[i].connection == links[step.index].connection ensures after[i].announced {
      assert after[i].connection == links[i].connection;
      SocketNamesOneLink(c, w.nextConnection, w.nextCounter, links, i, step.index);
    }
  }

  lemma ReceiveKeepsPlaces(c: Config, w: World, step: Step)
    requires step.Receive? && |Next(c, w, step).hub.links| == |w.hub.links|
    ensures Next(c, w, step).nextConnection == w.nextConnection
    ensures forall i :: 0 <= i < |w.hub.links| ==> Next(c, w, step).hub.links[i].connection == w.hub.links[i].connection
  {
    hide Conflicts, Announces, WithoutDuplicate, LinksTo;
  }

  lemma ReportStaysRemembered(c: Config, w: World, step: Step, connection: nat)
    requires WorldSound(c, w) && AlreadyReported(w, connection)
    ensures AlreadyReported(Next(c, w, step), connection)
  {
    StepInherits(c, w, step);
    var v := Next(c, w, step);
    hide Next;
    forall i | 0 <= i < |v.hub.links| && v.hub.links[i].connection == connection ensures v.hub.links[i].announced {
      assert IsContinued(w.hub.links, v.hub.links[i], NewsOf(c, w, step));
      var h :| 0 <= h < |w.hub.links| && Follows(w.hub.links[h], v.hub.links[i], NewsOf(c, w, step));
    }
  }

  lemma {:induction false} ReportedUntil(c: Config, steps: seq<Step>, i: nat, j: nat)
    requires i < j <= |steps| && Discovers(c, WorldAt(c, steps, i), steps[i])
    ensures steps[i].Receive? && steps[i].index < |WorldAt(c, steps, i).hub.links|
    ensures AlreadyReported(WorldAt(c, steps, j), WorldAt(c, steps, i).hub.links[steps[i].index].connection)
    decreases j
  {
    hide Discovers, AlreadyReported, Next, WorldSound;
    assert steps[..j][..j - 1] == steps[..j - 1];
    if j == i + 1 {
      EveryRunIsSound(c, steps[..i]);
      ReportIsRemembered(c, WorldAt(c, steps, i), steps[i]);
    } else {
      ReportedUntil(c, steps, i, j - 1);
      EveryRunIsSound(c, steps[..j - 1]);
      ReportStaysRemembered(c, WorldAt(c, steps, j - 1), steps[j - 1],
                            WorldAt(c, steps, i).hub.links[steps[i].index].connection);
    }
  }

  /** Over a whole run, no two of the discoveries queued are of the same connection. */
  lemma DiscoveredAtMostOnce(c: Config, steps: seq<Step>, i: nat, j: nat)
    requires i < j < |steps|
    requires Discovers(c, WorldAt(c, steps, i), steps[i]) && Discovers(c, WorldAt(c, steps, j), steps[j])
    ensures steps[i].Receive? && steps[i].index < |WorldAt(c, steps, i).hub.links|
    ensures steps[j].Receive? && steps[j].index < |WorldAt(c, steps, j).hub.links|
    ensures WorldAt(c, steps, i).hub.links[steps[i].index].connection
         != WorldAt(c, steps, j).hub.links[steps[j].index].connection
  {
    ReportedUntil(c, steps, i, j);
    ReportedWhenDiscovered(c, WorldAt(c, steps, j), steps[j]);
    hide WorldAt, Next, Discovers, Discoveries;
  }
}
