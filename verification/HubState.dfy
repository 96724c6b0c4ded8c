/**
 The connection table of src/runtime/hub.rs as values: what it holds, and what each of its
 operations makes of it. The class `Hub` does the same in place.
 */
module HubState {
  import opened Wrappers
  import opened SkiText
  import opened Policy

  const KEEPALIVE_INTERVAL := 50_000
  const PONG_TIMEOUT := 10_000
  const MAX_CONNECTIONS_PER_PEER := 2
  const MAX_PENDING_TRUST := 4
  const U32_MAX := 0xFFFF_FFFF

  /** Which end opened a connection; socket addresses are numbered. */
  datatype Origin = Accepted(from: nat) | Dialed(address: nat)

  datatype Disconnect = Remote | Unresponsive | AddressConflict | Local

  datatype Error = SelfConnection | TooManyConnections | TooManyPendingPairings | HandshakeError

  datatype Event =
    | Connected(ski: Ski)
    | HandshakeFailed(origin: Origin, peer: Option<Ski>, error: Error)
    | TrustRequested(origin: Origin, ski: Ski)
    | PeerDiscovered(ski: Ski, device: string)
    | Disconnected(ski: Ski, reason: Disconnect)
    | Tick

  /**
   A connection and what was learned over it. `connection` numbers the socket; `ponged` says
   whether a pong has come in since the keep-alive ping at `pingedAt`, which the source does
   not record and the claims about it need.
   */
  datatype Link = Link(
    connection: nat,
    ski: Ski,
    origin: Origin,
    device: Option<string>,
    openedAt: nat,
    lastSeen: nat,
    pingedAt: Option<nat>,
    awaitingPong: bool,
    ponged: bool,
    bootstrap: seq<nat>,
    announced: bool)

  datatype Duplicate = Duplicate(ski: Ski, since: nat, probed: bool)

  datatype Known = Known(ski: Ski, address: nat, attempts: nat, nextAttempt: nat, dialing: bool)

  datatype State = State(
    links: seq<Link>,
    duplicates: seq<Duplicate>,
    known: seq<Known>,
    awaitingTrust: seq<(Origin, Ski)>,
    inFlightDialed: nat,
    inFlightAccepted: nat,
    wakeAt: Option<nat>,
    pending: seq<Event>)

  /** This node: its identity, its SPINE device address and its connection limit, at least one. */
  datatype Config = Config(ski: Ski, device: string, maxConnections: nat)

  function Queue(s: State, e: Event): State {
    s.(pending := s.pending + [e])
  }

  // ---- slots ------------------------------------------------------------------------

  function LinksTo(links: seq<Link>, ski: Ski): nat {
    if links == [] then 0 else (if links[0].ski == ski then 1 else 0) + LinksTo(links[1..], ski)
  }

  function LinksOpened(links: seq<Link>, dialed: bool): nat {
    if links == [] then 0
    else (if links[0].origin.Dialed? == dialed then 1 else 0) + LinksOpened(links[1..], dialed)
  }

  function InFlight(s: State, dialed: bool): nat {
    if dialed then s.inFlightDialed else s.inFlightAccepted
  }

  /** Whether another handshake fits: section 8.1 of SHIP keeps one slot for the other direction. */
  predicate HasRoomFor(c: Config, s: State, origin: Origin) {
    && |s.links| + s.inFlightDialed + s.inFlightAccepted < c.maxConnections
    && (c.maxConnections <= 1
        || LinksOpened(s.links, origin.Dialed?) + InFlight(s, origin.Dialed?) < c.maxConnections - 1)
  }

  predicate HasSlotFor(c: Config, s: State, origin: Origin) {
    && |s.links| < c.maxConnections
    && (c.maxConnections <= 1 || LinksOpened(s.links, origin.Dialed?) < c.maxConnections - 1)
  }

  function Released(s: State, origin: Origin): State {
    if origin.Dialed?
    then s.(inFlightDialed := if s.inFlightDialed > 0 then s.inFlightDialed - 1 else 0)
    else s.(inFlightAccepted := if s.inFlightAccepted > 0 then s.inFlightAccepted - 1 else 0)
  }

  function AfterAccept(c: Config, s: State, from: nat): State {
    if HasRoomFor(c, s, Accepted(from)) then s.(inFlightAccepted := s.inFlightAccepted + 1)
    else Queue(s, HandshakeFailed(Accepted(from), None, TooManyConnections))
  }

  // ---- remembered peers ------------------------------------------------------------------

  function KnownAt(known: seq<Known>, ski: Ski): (i: nat)
    ensures i <= |known|
    ensures i < |known| ==> known[i].ski == ski
    ensures forall j :: 0 <= j < i ==> known[j].ski != ski
  {
    if known == [] then 0 else if known[0].ski == ski then 0 else 1 + KnownAt(known[1..], ski)
  }

  function Deferred(s: State, ski: Ski, now: nat): State {
    var i := KnownAt(s.known, ski);
    if i == |s.known| then s
    else
      var k := s.known[i];
      var attempts := if k.attempts < U32_MAX then k.attempts + 1 else k.attempts;
      s.(known := s.known[i := k.(attempts := attempts, nextAttempt := now + ReconnectDelayFor(ski, attempts))])
  }

  function MarkDialing(s: State, ski: Ski, dialing: bool): State {
    var i := KnownAt(s.known, ski);
    if i == |s.known| then s else s.(known := s.known[i := s.known[i].(dialing := dialing)])
  }

  function Succeeded(s: State, ski: Ski, now: nat): State {
    var i := KnownAt(s.known, ski);
    if i == |s.known| then s else s.(known := s.known[i := s.known[i].(attempts := 0, nextAttempt := now)])
  }

  function Remembered(c: Config, s: State, ski: Ski, address: nat, now: nat): State {
    var i := KnownAt(s.known, ski);
    if ski == c.ski then s
    else if i < |s.known|
    then s.(known := s.known[i := s.known[i].(address := address, attempts := 0, nextAttempt := now)])
    else s.(known := s.known + [Known(ski, address, 0, now, false)])
  }

  function WithoutKnown(known: seq<Known>, ski: Ski): seq<Known> {
    if known == [] then []
    else (if known[0].ski == ski then [] else [known[0]]) + WithoutKnown(known[1..], ski)
  }

  function AfterDial(c: Config, s: State, address: nat, expected: Option<Ski>, now: nat): State {
    if !HasRoomFor(c, s, Dialed(address)) then
      var failed := Queue(s, HandshakeFailed(Dialed(address), expected, TooManyConnections));
      if expected.Some? then Deferred(failed, expected.value, now) else failed
    else
      var started := s.(inFlightDialed := s.inFlightDialed + 1);
      if expected.Some? then MarkDialing(started, expected.value, true) else started
  }

  predicate Due(s: State, k: Known, now: nat) {
    !k.dialing && now >= k.nextAttempt && LinksTo(s.links, k.ski) == 0
  }

  function DueDials(s: State, known: seq<Known>, now: nat): (due: seq<(Ski, nat)>)
    ensures |due| <= |known|
  {
    if known == [] then []
    else (if Due(s, known[0], now) then [(known[0].ski, known[0].address)] else []) + DueDials(s, known[1..], now)
  }

  function DialAll(c: Config, s: State, due: seq<(Ski, nat)>, clock: seq<nat>): State
    requires |due| <= |clock|
    decreases |due|
  {
    if due == [] then s else DialAll(c, AfterDial(c, s, due[0].1, Some(due[0].0), clock[0]), due[1..], clock[1..])
  }

  /** `redial` at `now`; each dial reads the clock itself. */
  function AfterRedial(c: Config, s: State, now: nat, clock: seq<nat>): State
    requires |s.known| <= |clock|
  {
    DialAll(c, s, DueDials(s, s.known, now), clock)
  }

  // ---- handshakes ------------------------------------------------------------------------

  predicate HasDuplicate(duplicates: seq<Duplicate>, ski: Ski) {
    exists i :: 0 <= i < |duplicates| && duplicates[i].ski == ski
  }

  function WithoutDuplicate(duplicates: seq<Duplicate>, ski: Ski): seq<Duplicate> {
    if duplicates == [] then []
    else (if duplicates[0].ski == ski then [] else [duplicates[0]]) + WithoutDuplicate(duplicates[1..], ski)
  }

  datatype Adoption = Taken(state: State) | Refused(error: Error)

  function NewLink(connection: nat, ski: Ski, origin: Origin, now: nat, bootstrap: seq<nat>): Link {
    Link(connection, ski, origin, None, now, now, None, false, false, bootstrap, false)
  }

  /** `adopt_from`: every connection the hub holds comes through here. */
  function Adopted(c: Config, s: State, connection: nat, ski: Ski, origin: Origin, now: nat, bootstrap: seq<nat>): Adoption {
    if ski == c.ski then Refused(SelfConnection)
    else
      var held := LinksTo(s.links, ski);
      if held >= MAX_CONNECTIONS_PER_PEER || !HasSlotFor(c, s, origin) then Refused(TooManyConnections)
      else
        var duplicates :=
          if held > 0 && !HasDuplicate(s.duplicates, ski) then s.duplicates + [Duplicate(ski, now, false)] else s.duplicates;
        Taken(Queue(s.(duplicates := duplicates, links := s.links + [NewLink(connection, ski, origin, now, bootstrap)]),
                    Connected(ski)))
  }

  function WithoutOrigin(waiting: seq<(Origin, Ski)>, origin: Origin): seq<(Origin, Ski)> {
    if waiting == [] then []
    else (if waiting[0].0 == origin then [] else [waiting[0]]) + WithoutOrigin(waiting[1..], origin)
  }

  function AfterEstablished(c: Config, s: State, connection: nat, ski: Ski, origin: Origin, expected: Option<Ski>,
                            now: nat, bootstrap: seq<nat>): State
  {
    var released := Released(s, origin);
    var s1 := released.(awaitingTrust := WithoutOrigin(s.awaitingTrust, origin));
    var s2 := if expected.Some? then MarkDialing(s1, expected.value, false) else s1;
    match Adopted(c, s2, connection, ski, origin, now, bootstrap)
    case Taken(s3) =>
      if expected.None? then s3
      else if expected.value == ski then Succeeded(s3, ski, now)
      else Deferred(s3, expected.value, now)
    case Refused(error) =>
      var s3 :=
        if error == SelfConnection then s2.(known := WithoutKnown(s2.known, ski))
        else if expected.Some? then Deferred(s2, expected.value, now)
        else s2;
      Queue(s3, HandshakeFailed(origin, Some(ski), error))
  }

  function WaitingAt(waiting: seq<(Origin, Ski)>, origin: Origin): (i: nat)
    ensures i <= |waiting|
    ensures i < |waiting| ==> waiting[i].0 == origin
    ensures forall j :: 0 <= j < i ==> waiting[j].0 != origin
  {
    if waiting == [] then 0 else if waiting[0].0 == origin then 0 else 1 + WaitingAt(waiting[1..], origin)
  }

  function AfterFailed(c: Config, s: State, origin: Origin, expected: Option<Ski>, ski: Option<Ski>, now: nat): State {
    var released := Released(s, origin);
    var i := WaitingAt(s.awaitingTrust, origin);
    var (s1, peer) :=
      if i < |s.awaitingTrust|
      then (released.(awaitingTrust := s.awaitingTrust[..i] + s.awaitingTrust[i + 1..]), Some(s.awaitingTrust[i].1))
      else (released, ski);
    var s2 := if expected.Some? then Deferred(MarkDialing(s1, expected.value, false), expected.value, now) else s1;
    Queue(s2, HandshakeFailed(origin, peer, HandshakeError))
  }

  predicate IsWaiting(waiting: seq<(Origin, Ski)>, ski: Ski) {
    exists i :: 0 <= i < |waiting| && waiting[i].1 == ski
  }

  /** A handshake asks for trust: one slot per SKI, and no more than four altogether. */
  function AfterTrustRequested(s: State, origin: Origin, ski: Ski): State {
    if WaitingAt(s.awaitingTrust, origin) < |s.awaitingTrust| then s
    else if !IsWaiting(s.awaitingTrust, ski) && |s.awaitingTrust| >= MAX_PENDING_TRUST then
      Queue(s, HandshakeFailed(origin, Some(ski), TooManyPendingPairings))
    else if IsWaiting(s.awaitingTrust, ski) then s
    else Queue(s.(awaitingTrust := s.awaitingTrust + [(origin, ski)]), TrustRequested(origin, ski))
  }

  // ---- links coming and going -----------------------------------------------------------------

  function RemoveAt<T>(s: seq<T>, i: nat): seq<T>
    requires i < |s|
  {
    s[..i] + s[i + 1..]
  }

  /** `drop_link`: the record of a double connection goes with the last link to the peer. */
  function AfterDrop(s: State, index: nat, reason: Disconnect): State
    requires index < |s.links|
  {
    var ski := s.links[index].ski;
    var links := RemoveAt(s.links, index);
    Queue(s.(links := links,
             duplicates := if LinksTo(links, ski) == 0 then WithoutDuplicate(s.duplicates, ski) else s.duplicates),
          Disconnected(ski, reason))
  }

  /** Drops the links marked among the first `n`, the last one first. */
  function DropMarked(s: State, marks: seq<bool>, n: nat, reason: Disconnect): State
    requires n <= |marks| <= |s.links|
    decreases n
  {
    if n == 0 then s
    else if marks[n - 1] then DropMarked(AfterDrop(s, n - 1, reason), marks[..n - 1], n - 1, reason)
    else DropMarked(s, marks[..n - 1], n - 1, reason)
  }

  function MarkPeer(links: seq<Link>, ski: Ski): seq<bool> {
    seq(|links|, i requires 0 <= i < |links| => links[i].ski == ski)
  }

  /** `close_links_with`: closes every connection to a peer. */
  function AfterCloseLinks(s: State, ski: Ski): State {
    DropMarked(s, MarkPeer(s.links, ski), |s.links|, Local)
  }

  function AfterWakeAt(s: State, at: nat): State {
    s.(wakeAt := if s.wakeAt.Some? && s.wakeAt.value <= at then s.wakeAt else Some(at))
  }

  // ---- what arrives -----------------------------------------------------------------------------

  function Seen(l: Link, now: nat): Link {
    l.(lastSeen := now, pingedAt := None)
  }

  /** The source device address of a datagram, where it is one that can be keyed on, and its reference. */
  datatype Heard = Heard(device: Option<string>, reference: Option<nat>)

  function WithoutCounter(counters: seq<nat>, reference: nat): seq<nat> {
    if counters == [] then []
    else (if counters[0] == reference then [] else [counters[0]]) + WithoutCounter(counters[1..], reference)
  }

  predicate TakenElsewhere(c: Config, links: seq<Link>, index: nat, device: string) {
    device == c.device || exists i :: 0 <= i < |links| && i != index && links[i].device == Some(device)
  }

  /** Whether a datagram contradicts the address its connection is bound to, or may not bind it. */
  predicate Conflicts(c: Config, links: seq<Link>, index: nat, h: Heard)
    requires index < |links|
  {
    h.device.Some? &&
    if links[index].device.Some? then links[index].device != h.device
    else TakenElsewhere(c, links, index, h.device.value)
  }

  /** The link after a datagram that does not conflict, before it is announced. */
  function Heeded(l: Link, h: Heard): Link {
    l.(device := if l.device.None? then h.device else l.device,
       bootstrap := if h.reference.Some? then WithoutCounter(l.bootstrap, h.reference.value) else l.bootstrap)
  }

  predicate Announces(l: Link) {
    !l.announced && l.bootstrap == [] && l.device.Some?
  }

  function AfterReceive(c: Config, s: State, index: nat, h: Heard): (State, Option<Disconnect>)
    requires index < |s.links|
  {
    if Conflicts(c, s.links, index, h) then (s, Some(AddressConflict))
    else
      var l := Heeded(s.links[index], h);
      if Announces(l)
      then (Queue(s.(links := s.links[index := l.(announced := true)]), PeerDiscovered(l.ski, l.device.value)), None)
      else (s.(links := s.links[index := l]), None)
  }

  /** The link a datagram belongs on: by device address, or by counter where it names none. */
  function Route(links: seq<Link>, device: Option<string>, counter: Option<nat>): (r: Option<nat>)
    ensures r.Some? ==> r.value < |links|
  {
    if links == [] then None
    else if (if device.Some? then links[0].device == device
             else counter.Some? && counter.value in links[0].bootstrap) then Some(0)
    else
      var rest := Route(links[1..], device, counter);
      if rest.Some? then Some(1 + rest.value) else None
  }

  // ---- timers ---------------------------------------------------------------------------------

  function CheckLink(l: Link, now: nat): KeepAlive {
    Check(l.pingedAt, l.awaitingPong, now, PONG_TIMEOUT)
  }

  /** `Link::keepalive`: an answered ping counts as a sign of life. */
  function KeptAlive(l: Link, now: nat): Link {
    if CheckLink(l, now) == Answered then Seen(l, now) else l
  }

  function MarkDead(links: seq<Link>, now: nat): seq<bool> {
    seq(|links|, i requires 0 <= i < |links| => CheckLink(links[i], now) == Dead)
  }

  function AllKeptAlive(links: seq<Link>, now: nat): seq<Link> {
    seq(|links|, i requires 0 <= i < |links| => KeptAlive(links[i], now))
  }

  function AfterTimers(s: State, now: nat): State {
    var marks := MarkDead(s.links, now);
    var dropped := DropMarked(s.(links := AllKeptAlive(s.links, now)), marks, |marks|, Unresponsive);
    if dropped.wakeAt.Some? && now >= dropped.wakeAt.value then Queue(dropped.(wakeAt := None), Tick) else dropped
  }

  predicate PingDue(l: Link, now: nat) {
    l.pingedAt.None? && now >= l.lastSeen + KEEPALIVE_INTERVAL
  }

  function Pinged(l: Link, now: nat): Link {
    l.(pingedAt := Some(now), awaitingPong := true, ponged := false)
  }

  /** The links after a keep-alive pass in which the ping to link `i` goes out if `sent[i]`. */
  function AllPinged(links: seq<Link>, now: nat, sent: seq<bool>): seq<Link>
    requires |sent| == |links|
  {
    seq(|links|, i requires 0 <= i < |links| => if PingDue(links[i], now) && sent[i] then Pinged(links[i], now) else links[i])
  }

  function MarkUnsent(links: seq<Link>, now: nat, sent: seq<bool>): seq<bool>
    requires |sent| == |links|
  {
    seq(|links|, i requires 0 <= i < |links| => PingDue(links[i], now) && !sent[i])
  }

  function AfterKeepAlive(s: State, now: nat, sent: seq<bool>): State
    requires |sent| == |s.links|
  {
    DropMarked(s.(links := AllPinged(s.links, now, sent)), MarkUnsent(s.links, now, sent), |sent|, Remote)
  }

  function LinkDeadline(l: Link): nat {
    if l.pingedAt.Some? then l.pingedAt.value + PONG_TIMEOUT else l.lastSeen + KEEPALIVE_INTERVAL
  }

  function Earliest(a: Option<nat>, b: nat): Option<nat> {
    if a.Some? && a.value <= b then a else Some(b)
  }

  function LinkDeadlines(links: seq<Link>, next: Option<nat>): Option<nat> {
    if links == [] then next
    else LinkDeadlines(links[1..], Earliest(next, LinkDeadline(links[0])))
  }

  function KnownDeadlines(s: State, known: seq<Known>, next: Option<nat>): Option<nat> {
    if known == [] then next
    else
      var k := known[0];
      KnownDeadlines(s, known[1..],
                     if !k.dialing && LinksTo(s.links, k.ski) == 0 then Earliest(next, k.nextAttempt) else next)
  }

  /** The hub's own next deadline; the engine's and the SHIP timers' are not part of the table. */
  function NextDeadline(s: State): Option<nat> {
    LinkDeadlines(s.links, KnownDeadlines(s, s.known, s.wakeAt))
  }

  // ---- double connections -------------------------------------------------------------------

  function OpenedTo(links: seq<Link>, ski: Ski): seq<nat> {
    if links == [] then []
    else (if links[0].ski == ski then [links[0].openedAt] else []) + OpenedTo(links[1..], ski)
  }

  /** The most recent link to a peer, the later of two opened at once; none is the list's length. */
  function NewestTo(links: seq<Link>, ski: Ski): (r: nat)
    ensures r <= |links|
    ensures r < |links| ==> links[r].ski == ski
  {
    if links == [] then 0
    else
      var n := |links| - 1;
      var front := NewestTo(links[..n], ski);
      if links[n].ski != ski then (if front == n then n + 1 else front)
      else if front == n || links[front].openedAt <= links[n].openedAt then n
      else front
  }

  lemma {:induction false} NewestToIs(links: seq<Link>, ski: Ski)
    ensures var r := NewestTo(links, ski);
            && (r == |links| ==> forall i :: 0 <= i < |links| ==> links[i].ski != ski)
            && (r < |links| ==> forall i :: 0 <= i < |links| && links[i].ski == ski ==>
                 links[i].openedAt <= links[r].openedAt && (i > r ==> links[i].openedAt < links[r].openedAt))
  {
    if links != [] {
      NewestToIs(links[..|links| - 1], ski);
    }
  }

  /** The unmarked elements, in order. */
  function Unmarked<T>(s: seq<T>, marks: seq<bool>): seq<T>
    requires |marks| == |s|
  {
    if s == [] then []
    else
      var n := |s| - 1;
      Unmarked(s[..n], marks[..n]) + if marks[n] then [] else [s[n]]
  }

  function MarkOthers(links: seq<Link>, ski: Ski, keep: nat): seq<bool> {
    seq(|links|, i requires 0 <= i < |links| => links[i].ski == ski && i != keep)
  }

  function WithoutDisconnected(pending: seq<Event>, ski: Ski): seq<Event> {
    if pending == [] then []
    else
      (if pending[0].Disconnected? && pending[0].ski == ski then [] else [pending[0]])
        + WithoutDisconnected(pending[1..], ski)
  }

  /** `close_duplicates`: keeps the most recent connection to a peer. */
  function AfterCloseDuplicates(s: State, ski: Ski): State {
    var keep := NewestTo(s.links, ski);
    var duplicates := WithoutDuplicate(s.duplicates, ski);
    if keep == |s.links| then s.(duplicates := duplicates)
    else s.(links := Unmarked(s.links, MarkOthers(s.links, ski, keep)), duplicates := duplicates,
            pending := WithoutDisconnected(s.pending, ski))
  }

  function ProbedLink(l: Link, ski: Ski, now: nat, sent: bool): Link {
    if l.ski != ski then l
    else
      var counted := KeptAlive(l, now);
      if sent then counted.(awaitingPong := true) else counted
  }

  function AllProbed(links: seq<Link>, ski: Ski, now: nat, sent: seq<bool>): seq<Link>
    requires |sent| == |links|
  {
    seq(|links|, i requires 0 <= i < |links| => ProbedLink(links[i], ski, now, sent[i]))
  }

  function MarkUnprobed(links: seq<Link>, ski: Ski, sent: seq<bool>): seq<bool>
    requires |sent| == |links|
  {
    seq(|links|, i requires 0 <= i < |links| => links[i].ski == ski && !sent[i])
  }

  function MarkProbed(duplicates: seq<Duplicate>, ski: Ski): seq<Duplicate> {
    if duplicates == [] then []
    else if duplicates[0].ski == ski then [duplicates[0].(probed := true)] + duplicates[1..]
    else [duplicates[0]] + MarkProbed(duplicates[1..], ski)
  }

  /** One ping down every connection to the peer; those it does not go out on are dropped. */
  function AfterProbe(s: State, ski: Ski, now: nat, sent: seq<bool>): State
    requires |sent| == |s.links|
  {
    var pinged := s.(links := AllProbed(s.links, ski, now, sent), duplicates := MarkProbed(s.duplicates, ski));
    AfterWakeAt(DropMarked(pinged, MarkUnprobed(s.links, ski, sent), |sent|, Remote), now + PONG_TIMEOUT)
  }

  function MarkUnanswered(links: seq<Link>, ski: Ski): seq<bool> {
    seq(|links|, i requires 0 <= i < |links| => links[i].ski == ski && links[i].awaitingPong)
  }

  function AfterCloseUnanswered(s: State, ski: Ski): State {
    var marks := MarkUnanswered(s.links, ski);
    AfterCloseDuplicates(DropMarked(s, marks, |marks|, Unresponsive), ski)
  }

  function ResolutionFor(c: Config, s: State, d: Duplicate, now: nat): Resolution {
    Resolve(c.ski, d.ski, OpenedTo(s.links, d.ski), d.since, d.probed, now)
  }

  /** `arbitrate`: what it makes of the first double connection on record. */
  function AfterArbitrate(c: Config, s: State, now: nat, sent: seq<bool>): State
    requires |sent| == |s.links|
  {
    if s.duplicates == [] then s
    else
      var ski := s.duplicates[0].ski;
      match ResolutionFor(c, s, s.duplicates[0], now)
      case Settled => s.(duplicates := WithoutDuplicate(s.duplicates, ski))
      case KeepNewest => AfterCloseDuplicates(s, ski)
      case Wait(until) => AfterWakeAt(s, until)
      case Probe => AfterProbe(s, ski, now, sent)
      case CloseAfterProbe => AfterCloseUnanswered(s, ski)
  }
}
