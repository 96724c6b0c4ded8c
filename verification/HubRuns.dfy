/**
 Runs of the hub: the table together with the handshakes running in the background, whatever
 arrives in whatever order, and what every reachable state keeps.
 */
module HubRuns {
  import opened Wrappers
  import opened SkiText
  import opened HubState

  /**
   A background task: one handshake, which reports established or failed exactly once. `asking` is
   the peer it waits for trust in, from its report until it ends or is turned away; a handshake
   has one peer.
   */
  datatype Handshake = Handshake(origin: Origin, expected: Option<Ski>, asking: Option<Ski>)

  /** Connections and the engine's message counters are numbered as they are made. */
  datatype World = World(hub: State, running: seq<Handshake>, nextConnection: nat, nextCounter: nat)

  datatype Step =
    | Accept(from: nat)
    | Dial(address: nat, expected: Option<Ski>, now: nat)
    | Redial(now: nat, clock: seq<nat>)
    | Remember(ski: Ski, address: nat, now: nat)
    | Forget(ski: Ski)
    | AskTrust(task: nat, ski: Ski)
    | Establish(task: nat, ski: Ski, now: nat)
    | Fail(task: nat, peer: Option<Ski>, now: nat)
    | Frame(index: nat, now: nat)
    | Receive(index: nat, heard: Heard)
    | Pong(index: nat)
    | Drop(index: nat, reason: Disconnect)
    | CloseLinks(ski: Ski)
    | Timers(now: nat)
    | KeepAlivePings(now: nat, sent: seq<bool>)
    | Arbitrate(now: nat, sent: seq<bool>)
    | WakeAt(at: nat)
    | TakeEvent
    | EngineSends(count: nat)

  const IDLE := State([], [], [], [], 0, 0, None, [])
  const START := World(IDLE, [], 0, 0)

  predicate Enabled(w: World, step: Step) {
    match step
    case Redial(_, clock) => |clock| == |w.hub.known|
    case AskTrust(task, ski) => task < |w.running| && (w.running[task].asking.Some? ==> w.running[task].asking == Some(ski))
    case Establish(task, _, _) => task < |w.running|
    case Fail(task, _, _) => task < |w.running|
    case Frame(index, _) => index < |w.hub.links|
    case Receive(index, _) => index < |w.hub.links|
    case Pong(index) => index < |w.hub.links|
    case Drop(index, _) => index < |w.hub.links|
    case KeepAlivePings(_, sent) => |sent| == |w.hub.links|
    case Arbitrate(_, sent) => |sent| == |w.hub.links|
    case TakeEvent => w.hub.pending != []
    case _ => true
  }

  function Dialing(c: Config, w: World, address: nat, expected: Option<Ski>, now: nat): World {
    w.(hub := AfterDial(c, w.hub, address, expected, now),
       running := w.running + if HasRoomFor(c, w.hub, Dialed(address)) then [Handshake(Dialed(address), expected, None)] else [])
  }

  function DialingAll(c: Config, w: World, due: seq<(Ski, nat)>, clock: seq<nat>): World
    requires |due| <= |clock|
    decreases |due|
  {
    if due == [] then w else DialingAll(c, Dialing(c, w, due[0].1, Some(due[0].0), clock[0]), due[1..], clock[1..])
  }

  function Receiving(c: Config, s: State, index: nat, heard: Heard): State
    requires index < |s.links|
  {
    var (after, conflict) := AfterReceive(c, s, index, heard);
    if conflict.Some? then AfterDrop(after, index, conflict.value) else after
  }

  /** Whether a request for trust is refused, which the handshake is told at once. */
  predicate TurnedAway(s: State, origin: Origin, ski: Ski) {
    && WaitingAt(s.awaitingTrust, origin) == |s.awaitingTrust|
    && !IsWaiting(s.awaitingTrust, ski) && |s.awaitingTrust| >= MAX_PENDING_TRUST
  }

  /** A handshake that asked for trust waits, with a slot of its own or without. */
  function Asking(s: State, h: Handshake, ski: Ski): Handshake {
    h.(asking := if TurnedAway(s, h.origin, ski) then None else Some(ski))
  }

  function Ponged(l: Link): Link {
    l.(awaitingPong := false, ponged := true)
  }

  function Next(c: Config, w: World, step: Step): World {
    if !Enabled(w, step) then w
    else match step
      case Accept(from) =>
        w.(hub := AfterAccept(c, w.hub, from),
           running := w.running + if HasRoomFor(c, w.hub, Accepted(from)) then [Handshake(Accepted(from), None, None)] else [])
      case Dial(address, expected, now) => Dialing(c, w, address, expected, now)
      case Redial(now, clock) => DialingAll(c, w, DueDials(w.hub, w.hub.known, now), clock)
      case Remember(ski, address, now) => w.(hub := Remembered(c, w.hub, ski, address, now))
      case Forget(ski) => w.(hub := w.hub.(known := WithoutKnown(w.hub.known, ski)))
      case AskTrust(task, ski) =>
        w.(hub := AfterTrustRequested(w.hub, w.running[task].origin, ski),
           running := w.running[task := Asking(w.hub, w.running[task], ski)])
      case Establish(task, ski, now) =>
        var h := w.running[task];
        World(AfterEstablished(c, w.hub, w.nextConnection, ski, h.origin, h.expected, now, [w.nextCounter, w.nextCounter + 1]),
              RemoveAt(w.running, task), w.nextConnection + 1, w.nextCounter + 2)
      case Fail(task, peer, now) =>
        var h := w.running[task];
        w.(hub := AfterFailed(c, w.hub, h.origin, h.expected, peer, now), running := RemoveAt(w.running, task))
      case Frame(index, now) =>
        w.(hub := w.hub.(links := w.hub.links[index := Seen(w.hub.links[index], now)]))
      case Receive(index, heard) => w.(hub := Receiving(c, w.hub, index, heard))
      case Pong(index) => w.(hub := w.hub.(links := w.hub.links[index := Ponged(w.hub.links[index])]))
      case Drop(index, reason) => w.(hub := AfterDrop(w.hub, index, reason))
      case CloseLinks(ski) => w.(hub := AfterCloseLinks(w.hub, ski))
      case Timers(now) => w.(hub := AfterTimers(w.hub, now))
      case KeepAlivePings(now, sent) => w.(hub := AfterKeepAlive(w.hub, now, sent))
      case Arbitrate(now, sent) => w.(hub := AfterArbitrate(c, w.hub, now, sent))
      case WakeAt(at) => w.(hub := AfterWakeAt(w.hub, at))
      case TakeEvent => w.(hub := w.hub.(pending := w.hub.pending[1..]))
      case EngineSends(count) => w.(nextCounter := w.nextCounter + count)
  }

  function Run(c: Config, steps: seq<Step>): World {
    if steps == [] then START
    else Next(c, Run(c, steps[..|steps| - 1]), steps[|steps| - 1])
  }

  /** The world before step `i` of a run. */
  function WorldAt(c: Config, steps: seq<Step>, i: nat): World
    requires i <= |steps|
  {
    Run(c, steps[..i])
  }

  /** The dials a redial starts are the ones the hub counts. */
  lemma {:induction false} DialingAllIsDialAll(c: Config, w: World, due: seq<(Ski, nat)>, clock: seq<nat>)
    requires |due| <= |clock|
    ensures DialingAll(c, w, due, clock).hub == DialAll(c, w.hub, due, clock)
    ensures DialingAll(c, w, due, clock).nextConnection == w.nextConnection
    ensures DialingAll(c, w, due, clock).nextCounter == w.nextCounter
    decreases |due|
  {
    if due != [] {
      DialingAllIsDialAll(c, Dialing(c, w, due[0].1, Some(due[0].0), clock[0]), due[1..], clock[1..]);
    }
  }

  // ---- counting ---------------------------------------------------------------------------

  function RunningOf(running: seq<Handshake>, dialed: bool): nat {
    if running == [] then 0
    else (if running[0].origin.Dialed? == dialed then 1 else 0) + RunningOf(running[1..], dialed)
  }

  lemma {:induction false} RunningAppend(a: seq<Handshake>, b: seq<Handshake>, dialed: bool)
    ensures RunningOf(a + b, dialed) == RunningOf(a, dialed) + RunningOf(b, dialed)
  {
    if a == [] {
      assert a + b == b;
    } else {
      assert (a + b)[1..] == a[1..] + b;
      RunningAppend(a[1..], b, dialed);
    }
  }

  /** The same handshakes, whoever they ask for. */
  predicate SameTasks(a: seq<Handshake>, b: seq<Handshake>) {
    |a| == |b| && forall i :: 0 <= i < |a| ==> a[i].origin == b[i].origin && a[i].expected == b[i].expected
  }

  lemma {:induction false} SameRunning(a: seq<Handshake>, b: seq<Handshake>, dialed: bool)
    requires SameTasks(a, b)
    ensures RunningOf(a, dialed) == RunningOf(b, dialed)
  {
    if a != [] {
      SameRunning(a[1..], b[1..], dialed);
    }
  }

  lemma RunningRemoved(running: seq<Handshake>, i: nat, dialed: bool)
    requires i < |running|
    ensures RunningOf(running, dialed)
         == RunningOf(RemoveAt(running, i), dialed) + if running[i].origin.Dialed? == dialed then 1 else 0
  {
    assert running == running[..i] + [running[i]] + running[i + 1..];
    RunningAppend(running[..i] + [running[i]], running[i + 1..], dialed);
    RunningAppend(running[..i], [running[i]], dialed);
    RunningAppend(running[..i], running[i + 1..], dialed);
    assert [running[i]][1..] == [];
  }

  lemma {:induction false} LinksAppend(a: seq<Link>, b: seq<Link>, ski: Ski, dialed: bool)
    ensures LinksTo(a + b, ski) == LinksTo(a, ski) + LinksTo(b, ski)
    ensures LinksOpened(a + b, dialed) == LinksOpened(a, dialed) + LinksOpened(b, dialed)
  {
    if a == [] {
      assert a + b == b;
    } else {
      assert (a + b)[1..] == a[1..] + b;
      LinksAppend(a[1..], b, ski, dialed);
    }
  }

  lemma OneLink(l: Link, ski: Ski, dialed: bool)
    ensures LinksTo([l], ski) == if l.ski == ski then 1 else 0
    ensures LinksOpened([l], dialed) == if l.origin.Dialed? == dialed then 1 else 0
  {
    assert [l][1..] == [];
  }

  lemma LinksRemoved(links: seq<Link>, i: nat, ski: Ski, dialed: bool)
    requires i < |links|
    ensures LinksTo(links, ski) == LinksTo(RemoveAt(links, i), ski) + if links[i].ski == ski then 1 else 0
    ensures LinksOpened(links, dialed)
         == LinksOpened(RemoveAt(links, i), dialed) + if links[i].origin.Dialed? == dialed then 1 else 0
  {
    assert links == links[..i] + [links[i]] + links[i + 1..];
    LinksAppend(links[..i] + [links[i]], links[i + 1..], ski, dialed);
    LinksAppend(links[..i], [links[i]], ski, dialed);
    LinksAppend(links[..i], links[i + 1..], ski, dialed);
    OneLink(links[i], ski, dialed);
  }

  /** Two records of the same connection that differ at most in when it was last heard from. */
  predicate SameConnection(a: Link, b: Link) {
    && a.connection == b.connection && a.ski == b.ski && a.origin == b.origin
    && a.device == b.device && a.bootstrap == b.bootstrap && a.announced == b.announced
  }

  predicate SameConnections(a: seq<Link>, b: seq<Link>) {
    |a| == |b| && forall i :: 0 <= i < |a| ==> SameConnection(a[i], b[i])
  }

  lemma {:induction false} SameCounts(a: seq<Link>, b: seq<Link>, ski: Ski, dialed: bool)
    requires |a| == |b| && forall i :: 0 <= i < |a| ==> a[i].ski == b[i].ski && a[i].origin == b[i].origin
    ensures LinksTo(a, ski) == LinksTo(b, ski) && LinksOpened(a, dialed) == LinksOpened(b, dialed)
  {
    if a != [] {
      SameCounts(a[1..], b[1..], ski, dialed);
    }
  }

  lemma {:induction false} UnmarkedCounts(links: seq<Link>, marks: seq<bool>, ski: Ski, dialed: bool)
    requires |marks| == |links|
    ensures LinksTo(Unmarked(links, marks), ski) <= LinksTo(links, ski)
    ensures LinksOpened(Unmarked(links, marks), dialed) <= LinksOpened(links, dialed)
    ensures |Unmarked(links, marks)| <= |links|
    decreases |links|
  {
    if links != [] {
      var n := |links| - 1;
      UnmarkedCounts(links[..n], marks[..n], ski, dialed);
      assert links == links[..n] + [links[n]];
      LinksAppend(links[..n], [links[n]], ski, dialed);
      LinksAppend(Unmarked(links[..n], marks[..n]), [links[n]], ski, dialed);
      assert Unmarked(links[..n], marks[..n]) + [] == Unmarked(links[..n], marks[..n]);
    }
  }

  // ---- connection slots -----------------------------------------------------------------------

  /** The in-flight counters are the handshakes outstanding, and all of it stays under the cap. */
  predicate SlotsAccounted(c: Config, w: World) {
    && w.hub.inFlightDialed == RunningOf(w.running, true)
    && w.hub.inFlightAccepted == RunningOf(w.running, false)
    && |w.hub.links| + |w.running| <= c.maxConnections
    && (c.maxConnections > 1 ==>
          && LinksOpened(w.hub.links, true) + w.hub.inFlightDialed < c.maxConnections
          && LinksOpened(w.hub.links, false) + w.hub.inFlightAccepted < c.maxConnections)
  }

  lemma {:induction false} RunningSplits(running: seq<Handshake>)
    ensures RunningOf(running, true) + RunningOf(running, false) == |running|
  {
    if running != [] {
      RunningSplits(running[1..]);
    }
  }

  /** What a step may do to the table without touching its slots: links go, but none come. */
  predicate NoLinksGained(before: State, after: State) {
    && |after.links| <= |before.links|
    && LinksOpened(after.links, true) <= LinksOpened(before.links, true)
    && LinksOpened(after.links, false) <= LinksOpened(before.links, false)
    && after.inFlightDialed == before.inFlightDialed && after.inFlightAccepted == before.inFlightAccepted
  }

  lemma DropGainsNothing(s: State, index: nat, reason: Disconnect)
    requires index < |s.links|
    ensures NoLinksGained(s, AfterDrop(s, index, reason))
  {
    LinksRemoved(s.links, index, s.links[index].ski, true);
    LinksRemoved(s.links, index, s.links[index].ski, false);
  }

  lemma {:induction false} DropMarkedGainsNothing(s: State, marks: seq<bool>, n: nat, reason: Disconnect)
    requires n <= |marks| <= |s.links|
    ensures NoLinksGained(s, DropMarked(s, marks, n, reason))
    decreases n
  {
    if n > 0 {
      if marks[n - 1] {
        DropGainsNothing(s, n - 1, reason);
        DropMarkedGainsNothing(AfterDrop(s, n - 1, reason), marks[..n - 1], n - 1, reason);
      } else {
        DropMarkedGainsNothing(s, marks[..n - 1], n - 1, reason);
      }
    }
  }

  lemma SameLinksGainNothing(s: State, links: seq<Link>)
    requires SameConnections(links, s.links)
    ensures NoLinksGained(s, s.(links := links))
  {
    SameCounts(links, s.links, seq(LEN, _ => 0), true);
    SameCounts(links, s.links, seq(LEN, _ => 0), false);
  }

  lemma CloseDuplicatesGainsNothing(s: State, ski: Ski)
    ensures NoLinksGained(s, AfterCloseDuplicates(s, ski))
  {
    var marks := MarkOthers(s.links, ski, NewestTo(s.links, ski));
    UnmarkedCounts(s.links, marks, ski, true);
    UnmarkedCounts(s.links, marks, ski, false);
  }
}
