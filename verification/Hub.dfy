/**
 The hub of src/runtime/hub.rs, updating its connection table in place. Sockets, tasks and the
 SPINE engine are the parameters: who connected, what was heard, whether a ping went out.
 */
module Hubs {
  import opened Wrappers
  import opened Sequences
  import opened SkiText
  import opened Policy
  import opened HubState

  class Hub {
    const config: Config
    var links: seq<Link>
    var duplicates: seq<Duplicate>
    var known: seq<Known>
    var awaitingTrust: seq<(Origin, Ski)>
    var inFlightDialed: nat
    var inFlightAccepted: nat
    var wakeAt: Option<nat>
    var pending: seq<Event>

    ghost function View(): State
      reads this
    {
      State(links, duplicates, known, awaitingTrust, inFlightDialed, inFlightAccepted, wakeAt, pending)
    }

    constructor (config: Config)
      ensures this.config == config
      ensures View() == State([], [], [], [], 0, 0, None, [])
    {
      this.config := config;
      links := [];
      duplicates := [];
      known := [];
      awaitingTrust := [];
      inFlightDialed := 0;
      inFlightAccepted := 0;
      wakeAt := None;
      pending := [];
    }

    // ---- slots -------------------------------------------------------------------

    method CountOpened(dialed: bool) returns (n: nat)
      ensures n == LinksOpened(links, dialed)
    {
      n := 0;
      for i := 0 to |links|
        invariant n + LinksOpened(links[i..], dialed) == LinksOpened(links, dialed)
      {
        assert links[i..][1..] == links[i + 1..];
        if links[i].origin.Dialed? == dialed {
          n := n + 1;
        }
      }
    }

    method CountTo(ski: Ski) returns (n: nat)
      ensures n == LinksTo(links, ski)
    {
      n := 0;
      for i := 0 to |links|
        invariant n + LinksTo(links[i..], ski) == LinksTo(links, ski)
      {
        assert links[i..][1..] == links[i + 1..];
        if links[i].ski == ski {
          n := n + 1;
        }
      }
    }

    method RoomFor(origin: Origin) returns (room: bool)
      ensures room == HasRoomFor(config, View(), origin)
    {
      var held := |links| + inFlightDialed + inFlightAccepted;
      if held >= config.maxConnections {
        return false;
      }
      if config.maxConnections <= 1 {
        return true;
      }
      var reserved := config.maxConnections - 1;
      var used := CountOpened(origin.Dialed?);
      room := used + (if origin.Dialed? then inFlightDialed else inFlightAccepted) < reserved;
    }

    method SlotFor(origin: Origin) returns (slot: bool)
      ensures slot == HasSlotFor(config, View(), origin)
    {
      if |links| >= config.maxConnections {
        return false;
      }
      if config.maxConnections <= 1 {
        return true;
      }
      var reserved := config.maxConnections - 1;
      var used := CountOpened(origin.Dialed?);
      slot := used < reserved;
    }

    method ReleaseInFlight(origin: Origin)
      modifies this`inFlightDialed, this`inFlightAccepted
      ensures View() == Released(old(View()), origin)
    {
      match origin
      case Dialed(_) => inFlightDialed := if inFlightDialed > 0 then inFlightDialed - 1 else 0;
      case Accepted(_) => inFlightAccepted := if inFlightAccepted > 0 then inFlightAccepted - 1 else 0;
    }

    /** `accept`: `started` says whether the handshake runs or the socket was dropped. */
    method Accept(from: nat) returns (started: bool)
      modifies this
      ensures started == HasRoomFor(config, old(View()), Accepted(from))
      ensures View() == AfterAccept(config, old(View()), from)
    {
      started := RoomFor(Accepted(from));
      if !started {
        pending := pending + [HandshakeFailed(Accepted(from), None, TooManyConnections)];
        return;
      }
      inFlightAccepted := inFlightAccepted + 1;
    }

    // ---- remembered peers ----------------------------------------------------------

    method FindKnown(ski: Ski) returns (i: nat)
      ensures i == KnownAt(known, ski)
    {
      i := 0;
      while i < |known| && known[i].ski != ski
        invariant i <= |known|
        invariant forall j :: 0 <= j < i ==> known[j].ski != ski
      {
        i := i + 1;
      }
    }

    method Remember(ski: Ski, address: nat, now: nat) returns (taken: bool)
      modifies this`known
      ensures taken == (ski != config.ski)
      ensures View() == Remembered(config, old(View()), ski, address, now)
    {
      if ski == config.ski {
        return false;
      }
      var i := FindKnown(ski);
      if i < |known| {
        known := known[i := known[i].(address := address, attempts := 0, nextAttempt := now)];
      } else {
        known := known + [Known(ski, address, 0, now, false)];
      }
      taken := true;
    }

    method ForgetPeer(ski: Ski)
      modifies this`known
      ensures known == WithoutKnown(old(known), ski)
    {
      var kept: seq<Known> := [];
      for n := 0 to |known|
        invariant known == old(known)
        invariant kept + WithoutKnown(known[n..], ski) == WithoutKnown(known, ski)
      {
        Tail(known, n);
        Moves(kept, known[n], WithoutKnown(known[n + 1..], ski));
        if known[n].ski != ski {
          kept := kept + [known[n]];
        }
      }
      assert kept + [] == kept;
      known := kept;
    }

    method DeferRedial(ski: Ski, now: nat)
      modifies this`known
      ensures View() == Deferred(old(View()), ski, now)
    {
      var i := FindKnown(ski);
      if i < |known| {
        var attempts := if known[i].attempts < U32_MAX then known[i].attempts + 1 else known[i].attempts;
        var next := now + ReconnectDelayFor(known[i].ski, attempts);
        known := known[i := known[i].(attempts := attempts, nextAttempt := next)];
      }
    }

    method SetDialing(ski: Ski, dialing: bool)
      modifies this`known
      ensures View() == MarkDialing(old(View()), ski, dialing)
    {
      var i := FindKnown(ski);
      if i < |known| {
        known := known[i := known[i].(dialing := dialing)];
      }
    }

    /** `spawn_dial`: `started` says whether a dial now runs in the background. */
    method SpawnDial(address: nat, expected: Option<Ski>, now: nat) returns (started: bool)
      modifies this
      ensures started == HasRoomFor(config, old(View()), Dialed(address))
      ensures View() == AfterDial(config, old(View()), address, expected, now)
    {
      started := RoomFor(Dialed(address));
      if !started {
        pending := pending + [HandshakeFailed(Dialed(address), expected, TooManyConnections)];
        if expected.Some? {
          DeferRedial(expected.value, now);
        }
        return;
      }
      inFlightDialed := inFlightDialed + 1;
      if expected.Some? {
        SetDialing(expected.value, true);
      }
    }

    method CollectDue(now: nat) returns (due: seq<(Ski, nat)>)
      ensures due == DueDials(View(), known, now)
    {
      due := [];
      for n := 0 to |known|
        invariant due + DueDials(View(), known[n..], now) == DueDials(View(), known, now)
      {
        Tail(known, n);
        Moves(due, (known[n].ski, known[n].address), DueDials(View(), known[n + 1..], now));
        var k := known[n];
        var held := CountTo(k.ski);
        if !k.dialing && now >= k.nextAttempt && held == 0 {
          due := due + [(k.ski, k.address)];
        }
      }
      assert due + [] == due;
    }

    /** `redial`: `clock[n]` is what the clock says at the dial of number `n`. */
    method Redial(now: nat, clock: seq<nat>)
      requires |known| <= |clock|
      modifies this
      ensures View() == AfterRedial(config, old(View()), now, clock)
    {
      var due := CollectDue(now);
      for n := 0 to |due|
        invariant DialAll(config, View(), due[n..], clock[n..]) == DialAll(config, old(View()), due, clock)
      {
        assert due[n..][1..] == due[n + 1..] && clock[n..][1..] == clock[n + 1..];
        var _ := SpawnDial(due[n].1, Some(due[n].0), clock[n]);
      }
    }

    // ---- handshakes ------------------------------------------------------------------

    /** `adopt_from`: refused, with the reason, or held from now on. */
    method Adopt(connection: nat, ski: Ski, origin: Origin, now: nat, bootstrap: seq<nat>) returns (r: Option<Error>)
      modifies this
      ensures match Adopted(config, old(View()), connection, ski, origin, now, bootstrap)
              case Taken(s) => r == None && View() == s
              case Refused(error) => r == Some(error) && View() == old(View())
    {
      if ski == config.ski {
        return Some(SelfConnection);
      }
      var toThisPeer := CountTo(ski);
      var slot := SlotFor(origin);
      if toThisPeer >= MAX_CONNECTIONS_PER_PEER || !slot {
        return Some(TooManyConnections);
      }
      if toThisPeer > 0 && !HasDuplicate(duplicates, ski) {
        duplicates := duplicates + [Duplicate(ski, now, false)];
      }
      links := links + [NewLink(connection, ski, origin, now, bootstrap)];
      pending := pending + [Connected(ski)];
      r := None;
    }

    method ReleaseTrust(origin: Origin)
      modifies this`awaitingTrust
      ensures awaitingTrust == WithoutOrigin(old(awaitingTrust), origin)
    {
      var kept: seq<(Origin, Ski)> := [];
      for n := 0 to |awaitingTrust|
        invariant awaitingTrust == old(awaitingTrust)
        invariant kept + WithoutOrigin(awaitingTrust[n..], origin) == WithoutOrigin(awaitingTrust, origin)
      {
        Tail(awaitingTrust, n);
        Moves(kept, awaitingTrust[n], WithoutOrigin(awaitingTrust[n + 1..], origin));
        if awaitingTrust[n].0 != origin {
          kept := kept + [awaitingTrust[n]];
        }
      }
      assert kept + [] == kept;
      awaitingTrust := kept;
    }

    method HandleEstablished(connection: nat, ski: Ski, origin: Origin, expected: Option<Ski>, now: nat, bootstrap: seq<nat>)
      modifies this
      ensures View() == AfterEstablished(config, old(View()), connection, ski, origin, expected, now, bootstrap)
    {
      ReleaseInFlight(origin);
      ReleaseTrust(origin);
      if expected.Some? {
        SetDialing(expected.value, false);
      }
      var refused := Adopt(connection, ski, origin, now, bootstrap);
      if refused.None? {
        if expected.Some? {
          if expected.value == ski {
            var i := FindKnown(ski);
            if i < |known| {
              known := known[i := known[i].(attempts := 0, nextAttempt := now)];
            }
          } else {
            DeferRedial(expected.value, now);
          }
        }
      } else {
        if refused.value == SelfConnection {
          ForgetPeer(ski);
        } else if expected.Some? {
          DeferRedial(expected.value, now);
        }
        pending := pending + [HandshakeFailed(origin, Some(ski), refused.value)];
      }
    }

    method FindWaiting(origin: Origin) returns (i: nat)
      ensures i == WaitingAt(awaitingTrust, origin)
    {
      i := 0;
      while i < |awaitingTrust| && awaitingTrust[i].0 != origin
        invariant i <= |awaitingTrust|
        invariant forall j :: 0 <= j < i ==> awaitingTrust[j].0 != origin
      {
        i := i + 1;
      }
    }

    method HandleFailed(origin: Origin, expected: Option<Ski>, ski: Option<Ski>, now: nat)
      modifies this
      ensures View() == AfterFailed(config, old(View()), origin, expected, ski, now)
    {
      ReleaseInFlight(origin);
      var i := FindWaiting(origin);
      var peer := ski;
      if i < |awaitingTrust| {
        peer := Some(awaitingTrust[i].1);
        awaitingTrust := awaitingTrust[..i] + awaitingTrust[i + 1..];
      }
      if expected.Some? {
        SetDialing(expected.value, false);
        DeferRedial(expected.value, now);
      }
      pending := pending + [HandshakeFailed(origin, peer, HandshakeError)];
    }

    method HandleTrustRequested(origin: Origin, ski: Ski)
      modifies this
      ensures View() == AfterTrustRequested(old(View()), origin, ski)
    {
      var held := FindWaiting(origin);
      if held < |awaitingTrust| {
        return;
      }
      var alreadyWaiting := IsWaiting(awaitingTrust, ski);
      if !alreadyWaiting && |awaitingTrust| >= MAX_PENDING_TRUST {
        pending := pending + [HandshakeFailed(origin, Some(ski), TooManyPendingPairings)];
        return;
      }
      if alreadyWaiting {
        return;
      }
      awaitingTrust := awaitingTrust + [(origin, ski)];
      pending := pending + [TrustRequested(origin, ski)];
    }

    // ---- links coming and going -----------------------------------------------------------

    method ForgetDuplicate(ski: Ski)
      modifies this`duplicates
      ensures duplicates == WithoutDuplicate(old(duplicates), ski)
    {
      var kept: seq<Duplicate> := [];
      for n := 0 to |duplicates|
        invariant duplicates == old(duplicates)
        invariant kept + WithoutDuplicate(duplicates[n..], ski) == WithoutDuplicate(duplicates, ski)
      {
        Tail(duplicates, n);
        Moves(kept, duplicates[n], WithoutDuplicate(duplicates[n + 1..], ski));
        if duplicates[n].ski != ski {
          kept := kept + [duplicates[n]];
        }
      }
      assert kept + [] == kept;
      duplicates := kept;
    }

    method DropLink(index: nat, reason: Disconnect)
      requires index < |links|
      modifies this
      ensures View() == AfterDrop(old(View()), index, reason)
    {
      var ski := links[index].ski;
      links := links[..index] + links[index + 1..];
      var left := CountTo(ski);
      if left == 0 {
        ForgetDuplicate(ski);
      }
      pending := pending + [Disconnected(ski, reason)];
    }

    method DropIndices(marks: seq<bool>, reason: Disconnect)
      requires |marks| == |links|
      modifies this
      ensures View() == DropMarked(old(View()), marks, |marks|, reason)
    {
      var n := |marks|;
      assert marks[..n] == marks;
      while n > 0
        invariant 0 <= n <= |marks| && n <= |links|
        invariant DropMarked(View(), marks[..n], n, reason) == DropMarked(old(View()), marks, |marks|, reason)
      {
        assert marks[..n][..n - 1] == marks[..n - 1];
        n := n - 1;
        if marks[n] {
          DropLink(n, reason);
        }
      }
    }

    method CloseLinksTo(ski: Ski)
      modifies this
      ensures View() == AfterCloseLinks(old(View()), ski)
    {
      var doomed := MarkPeer(links, ski);
      DropIndices(doomed, Local);
    }

    // ---- what arrives ------------------------------------------------------------------------

    method FrameArrived(index: nat, now: nat)
      requires index < |links|
      modifies this`links
      ensures View() == old(View()).(links := old(links)[index := Seen(old(links)[index], now)])
    {
      links := links[index := links[index].(lastSeen := now)];
      links := links[index := links[index].(pingedAt := None)];
    }

    /** `receive`: the reason to close the connection when the peer contradicts its binding. */
    method Receive(index: nat, h: Heard) returns (conflict: Option<Disconnect>)
      requires index < |links|
      modifies this
      ensures (View(), conflict) == AfterReceive(config, old(View()), index, h)
    {
      var conflicts := Bind(index, h);
      if conflicts {
        return Some(AddressConflict);
      }
      if h.reference.Some? {
        var left := RetainCounters(links[index].bootstrap, h.reference.value);
        links := links[index := links[index].(bootstrap := left)];
      }
      var link := links[index];
      ghost var heeded := Heeded(old(links)[index], h);
      assert link == heeded;
      assert links == old(links)[index := heeded];
      if !link.announced && link.bootstrap == [] && link.device.Some? {
        links := links[index := link.(announced := true)];
        assert links == old(links)[index := heeded.(announced := true)];
        pending := pending + [PeerDiscovered(link.ski, link.device.value)];
      }
      conflict := None;
    }

    /** Binds the connection to the address it is heard from, once, if nobody else holds it. */
    method Bind(index: nat, h: Heard) returns (conflicts: bool)
      requires index < |links|
      modifies this`links
      ensures conflicts == Conflicts(config, old(links), index, h)
      ensures conflicts ==> links == old(links)
      ensures !conflicts ==>
                var l := old(links)[index];
                links == old(links)[index := l.(device := if l.device.None? then h.device else l.device)]
    {
      if h.device.None? {
        return false;
      }
      var bound := links[index].device;
      if bound.Some? {
        return bound != h.device;
      }
      conflicts := TakenElsewhere(config, links, index, h.device.value);
      if !conflicts {
        links := links[index := links[index].(device := h.device)];
      }
    }

    static method RetainCounters(counters: seq<nat>, reference: nat) returns (left: seq<nat>)
      ensures left == WithoutCounter(counters, reference)
    {
      left := [];
      for n := 0 to |counters|
        invariant left + WithoutCounter(counters[n..], reference) == WithoutCounter(counters, reference)
      {
        Tail(counters, n);
        Moves(left, counters[n], WithoutCounter(counters[n + 1..], reference));
        if counters[n] != reference {
          left := left + [counters[n]];
        }
      }
      assert left + [] == left;
    }

    // ---- timers -----------------------------------------------------------------------------------

    method FireTimers(now: nat)
      modifies this
      ensures View() == AfterTimers(old(View()), now)
    {
      var dead: seq<bool> := [];
      for n := 0 to |links|
        invariant |links| == |old(links)| && |dead| == n
        invariant View() == old(View()).(links := links)
        invariant forall i :: 0 <= i < n ==> links[i] == KeptAlive(old(links)[i], now)
        invariant forall i :: 0 <= i < n ==> dead[i] == (CheckLink(old(links)[i], now) == Dead)
        invariant forall i :: n <= i < |links| ==> links[i] == old(links)[i]
      {
        var state := CheckLink(links[n], now);
        if state == Answered {
          links := links[n := links[n].(pingedAt := None, lastSeen := now)];
        }
        dead := dead + [state == Dead];
      }
      assert links == AllKeptAlive(old(links), now) && dead == MarkDead(old(links), now);
      DropIndices(dead, Unresponsive);
      if wakeAt.Some? && now >= wakeAt.value {
        wakeAt := None;
        pending := pending + [Tick];
      }
    }

    /** `keepalive`: `sent[i]` is whether a ping to link `i` would go out. */
    method KeepAlivePass(now: nat, sent: seq<bool>)
      requires |sent| == |links|
      modifies this
      ensures View() == AfterKeepAlive(old(View()), now, sent)
    {
      var failed: seq<bool> := [];
      for n := 0 to |links|
        invariant |links| == |old(links)| && |failed| == n
        invariant View() == old(View()).(links := links)
        invariant forall i :: 0 <= i < n ==>
          links[i] == if PingDue(old(links)[i], now) && sent[i] then Pinged(old(links)[i], now) else old(links)[i]
        invariant forall i :: 0 <= i < n ==> failed[i] == (PingDue(old(links)[i], now) && !sent[i])
        invariant forall i :: n <= i < |links| ==> links[i] == old(links)[i]
      {
        var due := PingDue(links[n], now);
        if due && sent[n] {
          links := links[n := Pinged(links[n], now)];
        }
        failed := failed + [due && !sent[n]];
      }
      assert links == AllPinged(old(links), now, sent) && failed == MarkUnsent(old(links), now, sent);
      DropIndices(failed, Remote);
    }

    method WakeAt(at: nat)
      modifies this`wakeAt
      ensures View() == AfterWakeAt(old(View()), at)
    {
      match wakeAt
      case Some(existing) => wakeAt := Some(if existing <= at then existing else at);
      case None => wakeAt := Some(at);
    }

    method Deadline() returns (next: Option<nat>)
      ensures next == NextDeadline(View())
    {
      next := wakeAt;
      for n := 0 to |known|
        invariant KnownDeadlines(View(), known[n..], next) == KnownDeadlines(View(), known, wakeAt)
      {
        assert known[n..][1..] == known[n + 1..];
        var held := CountTo(known[n].ski);
        if !known[n].dialing && held == 0 {
          next := Earliest(next, known[n].nextAttempt);
        }
      }
      ghost var afterKnown := next;
      for n := 0 to |links|
        invariant LinkDeadlines(links[n..], next) == LinkDeadlines(links, afterKnown)
      {
        assert links[n..][1..] == links[n + 1..];
        match links[n].pingedAt
        case Some(at) => next := Earliest(next, at + PONG_TIMEOUT);
        case None => next := Earliest(next, links[n].lastSeen + KEEPALIVE_INTERVAL);
      }
    }

    // ---- double connections ------------------------------------------------------------------------

    method FindNewest(ski: Ski) returns (keep: nat)
      ensures keep == NewestTo(links, ski)
    {
      var found: Option<nat> := None;
      for n := 0 to |links|
        invariant found == if NewestTo(links[..n], ski) < n then Some(NewestTo(links[..n], ski)) else None
      {
        assert links[..n + 1][..n] == links[..n];
        if links[n].ski == ski && (found.None? || links[found.value].openedAt <= links[n].openedAt) {
          found := Some(n);
        }
      }
      assert links[..|links|] == links;
      keep := found.UnwrapOr(|links|);
    }

    method CloseDuplicates(ski: Ski)
      modifies this
      ensures View() == AfterCloseDuplicates(old(View()), ski)
    {
      var keep := FindNewest(ski);
      if keep == |links| {
        ForgetDuplicate(ski);
        return;
      }
      var doomed := MarkOthers(links, ski, keep);
      RemoveIndices(doomed);
      ForgetDuplicate(ski);
      RetainEvents(ski);
    }

    method RemoveIndices(doomed: seq<bool>)
      requires |doomed| == |links|
      modifies this`links
      ensures links == Unmarked(old(links), doomed)
    {
      var n := |doomed|;
      ghost var all := links;
      ghost var kept: seq<Link> := [];
      assert all[..n] == all && doomed[..n] == doomed && Unmarked(all, doomed) + kept == Unmarked(all, doomed);
      hide Unmarked;
      while n > 0
        invariant 0 <= n <= |doomed| == |all|
        invariant links == all[..n] + kept
        invariant Unmarked(all[..n], doomed[..n]) + kept == Unmarked(all, doomed)
      {
        n := n - 1;
        UnmarkedStep(all, doomed, n, kept);
        if doomed[n] {
          links := links[..n] + links[n + 1..];
        } else {
          kept := [all[n]] + kept;
        }
      }
      NothingUnmarked();
    }

    method RetainEvents(ski: Ski)
      modifies this`pending
      ensures pending == WithoutDisconnected(old(pending), ski)
    {
      var kept: seq<Event> := [];
      for n := 0 to |pending|
        invariant pending == old(pending)
        invariant kept + WithoutDisconnected(pending[n..], ski) == WithoutDisconnected(pending, ski)
      {
        Tail(pending, n);
        Moves(kept, pending[n], WithoutDisconnected(pending[n + 1..], ski));
        if !(pending[n].Disconnected? && pending[n].ski == ski) {
          kept := kept + [pending[n]];
        }
      }
      assert kept + [] == kept;
      pending := kept;
    }

    method CollectOpened(ski: Ski) returns (openings: seq<nat>)
      ensures openings == OpenedTo(links, ski)
    {
      openings := [];
      for n := 0 to |links|
        invariant openings + OpenedTo(links[n..], ski) == OpenedTo(links, ski)
      {
        Tail(links, n);
        Moves(openings, links[n].openedAt, OpenedTo(links[n + 1..], ski));
        if links[n].ski == ski {
          openings := openings + [links[n].openedAt];
        }
      }
      assert openings + [] == openings;
    }

    method SetProbed(ski: Ski)
      modifies this`duplicates
      ensures duplicates == MarkProbed(old(duplicates), ski)
    {
      var i := 0;
      while i < |duplicates| && duplicates[i].ski != ski
        invariant i <= |duplicates| && duplicates == old(duplicates)
        invariant duplicates[..i] + MarkProbed(duplicates[i..], ski) == MarkProbed(duplicates, ski)
      {
        assert duplicates[i..][1..] == duplicates[i + 1..];
        i := i + 1;
      }
      if i < |duplicates| {
        assert duplicates[i..][1..] == duplicates[i + 1..];
        duplicates := duplicates[i := duplicates[i].(probed := true)];
      } else {
        assert duplicates[..i] + [] == duplicates;
      }
    }

    method ProbeLinks(ski: Ski, now: nat, sent: seq<bool>)
      requires |sent| == |links|
      modifies this
      ensures View() == AfterProbe(old(View()), ski, now, sent)
    {
      var failed: seq<bool> := [];
      for n := 0 to |links|
        invariant |links| == |old(links)| && |failed| == n
        invariant View() == old(View()).(links := links)
        invariant forall i :: 0 <= i < n ==> links[i] == ProbedLink(old(links)[i], ski, now, sent[i])
        invariant forall i :: 0 <= i < n ==> failed[i] == (old(links)[i].ski == ski && !sent[i])
        invariant forall i :: n <= i < |links| ==> links[i] == old(links)[i]
      {
        if links[n].ski == ski {
          if CheckLink(links[n], now) == Answered {
            links := links[n := links[n].(pingedAt := None, lastSeen := now)];
          }
          if sent[n] {
            links := links[n := links[n].(awaitingPong := true)];
          }
          failed := failed + [!sent[n]];
        } else {
          failed := failed + [false];
        }
      }
      assert links == AllProbed(old(links), ski, now, sent) && failed == MarkUnprobed(old(links), ski, sent);
      SetProbed(ski);
      DropIndices(failed, Remote);
      WakeAt(now + PONG_TIMEOUT);
    }

    /** `arbitrate`: only the first double connection on record is looked at. */
    method Arbitrate(now: nat, sent: seq<bool>)
      requires |sent| == |links|
      modifies this
      ensures View() == AfterArbitrate(config, old(View()), now, sent)
    {
      if duplicates == [] {
        return;
      }
      var duplicate := duplicates[0];
      var ski := duplicate.ski;
      var openings := CollectOpened(ski);
      var resolution := Resolve(config.ski, ski, openings, duplicate.since, duplicate.probed, now);
      match resolution {
        case Settled => ForgetDuplicate(ski);
        case KeepNewest => CloseDuplicates(ski);
        case Wait(until) => WakeAt(until);
        case Probe => ProbeLinks(ski, now, sent);
        case CloseAfterProbe =>
          var unanswered := MarkUnanswered(links, ski);
          DropIndices(unanswered, Unresponsive);
          CloseDuplicates(ski);
      }
    }
  }

  lemma UnmarkedStep(all: seq<Link>, marks: seq<bool>, n: nat, kept: seq<Link>)
    requires n < |marks| == |all|
    ensures Unmarked(all[..n + 1], marks[..n + 1]) + kept
         == Unmarked(all[..n], marks[..n]) + ((if marks[n] then [] else [all[n]]) + kept)
  {
    assert all[..n + 1][..n] == all[..n] && marks[..n + 1][..n] == marks[..n];
  }

  lemma NothingUnmarked()
    ensures Unmarked<Link>([], []) == []
  {
  }
}
