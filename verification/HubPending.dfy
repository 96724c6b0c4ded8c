/**
 Peers to keep and trust slots: every remembered peer is connected, really being dialled, or
 scheduled, and an unapproved peer never takes more than its one slot.
 */
module HubPending {
  import opened Wrappers
  import opened Sequences
  import opened SkiText
  import opened Policy
  import opened HubState
  import opened HubRuns
  import opened HubSlots
  import opened HubTimers

  predicate DialRuns(running: seq<Handshake>, ski: Ski) {
    exists t :: 0 <= t < |running| && running[t].expected == Some(ski)
  }

  predicate DistinctKnown(known: seq<Known>) {
    forall i, j :: 0 <= i < |known| && 0 <= j < |known| && known[i].ski == known[j].ski ==> i == j
  }

  /** One entry a peer, none for this node, and one that says it is being dialled is. */
  predicate KnownSound(c: Config, running: seq<Handshake>, known: seq<Known>) {
    && DistinctKnown(known)
    && forall i :: 0 <= i < |known| ==> known[i].ski != c.ski && (known[i].dialing ==> DialRuns(running, known[i].ski))
  }

  lemma {:induction false} KnownIsAt(known: seq<Known>, i: nat)
    requires DistinctKnown(known) && i < |known|
    ensures KnownAt(known, known[i].ski) == i
  {
  }

  lemma DeferredStaysSound(c: Config, running: seq<Handshake>, s: State, ski: Ski, now: nat)
    requires KnownSound(c, running, s.known)
    ensures KnownSound(c, running, Deferred(s, ski, now).known)
    ensures KnownSound(c, running, Succeeded(s, ski, now).known)
    ensures KnownSound(c, running, MarkDialing(s, ski, false).known)
    ensures DialRuns(running, ski) ==> KnownSound(c, running, MarkDialing(s, ski, true).known)
  {
  }

  lemma MoreRunning(c: Config, running: seq<Handshake>, h: Handshake, known: seq<Known>)
    requires KnownSound(c, running, known)
    ensures KnownSound(c, running + [h], known)
    ensures h.expected.Some? ==> DialRuns(running + [h], h.expected.value)
  {
    assert (running + [h])[|running|] == h;
    forall i | 0 <= i < |known| && known[i].dialing ensures DialRuns(running + [h], known[i].ski) {
      var t :| 0 <= t < |running| && running[t].expected == Some(known[i].ski);
      assert (running + [h])[t].expected == Some(known[i].ski);
    }
  }

  /** A finished dial's entry stops dialling; the others' dials still run. */
  lemma FinishedStaysSound(c: Config, running: seq<Handshake>, task: nat, s: State)
    requires KnownSound(c, running, s.known) && task < |running|
    ensures var e := running[task].expected;
            KnownSound(c, RemoveAt(running, task), (if e.Some? then MarkDialing(s, e.value, false) else s).known)
  {
    var e := running[task].expected;
    var left := RemoveAt(running, task);
    var after := (if e.Some? then MarkDialing(s, e.value, false) else s).known;
    forall i | 0 <= i < |after| && after[i].dialing ensures DialRuns(left, after[i].ski) {
      var t :| 0 <= t < |running| && running[t].expected == Some(s.known[i].ski);
      if e == Some(s.known[i].ski) {
        KnownIsAt(s.known, i);
      }
      assert t != task;
      assert left[if t < task then t else t - 1] == running[t];
    }
  }

  lemma {:induction false} ForgottenAreKnown(known: seq<Known>, ski: Ski)
    ensures forall k :: k in WithoutKnown(known, ski) ==> k in known
  {
    if known != [] {
      ForgottenAreKnown(known[1..], ski);
    }
  }

  lemma {:induction false} ForgottenStayDistinct(known: seq<Known>, ski: Ski)
    requires DistinctKnown(known)
    ensures DistinctKnown(WithoutKnown(known, ski))
    decreases |known|
  {
    if known != [] {
      var first, rest := known[0], WithoutKnown(known[1..], ski);
      ForgottenStayDistinct(known[1..], ski);
      ForgottenAreKnown(known[1..], ski);
      forall i | 0 <= i < |rest| ensures rest[i].ski != first.ski {
        assert rest[i] in known[1..];
        var j :| 0 <= j < |known[1..]| && known[1..][j] == rest[i];
        assert known[j + 1].ski == rest[i].ski;
      }
    }
  }

  lemma ForgottenStaysSound(c: Config, running: seq<Handshake>, known: seq<Known>, ski: Ski)
    requires KnownSound(c, running, known)
    ensures KnownSound(c, running, WithoutKnown(known, ski))
  {
    hide WithoutKnown, DistinctKnown, DialRuns;
    ForgottenStayDistinct(known, ski);
    ForgottenAreKnown(known, ski);
    var left := WithoutKnown(known, ski);
    forall i | 0 <= i < |left| ensures left[i].ski != c.ski && (left[i].dialing ==> DialRuns(running, left[i].ski)) {
      assert left[i] in known;
    }
  }

  lemma DialStaysSound(c: Config, w: World, address: nat, expected: Option<Ski>, now: nat)
    requires KnownSound(c, w.running, w.hub.known)
    ensures KnownSound(c, Dialing(c, w, address, expected, now).running, Dialing(c, w, address, expected, now).hub.known)
  {
    if HasRoomFor(c, w.hub, Dialed(address)) {
      MoreRunning(c, w.running, Handshake(Dialed(address), expected, None), w.hub.known);
      if expected.Some? {
        DeferredStaysSound(c, w.running + [Handshake(Dialed(address), expected, None)], w.hub.(inFlightDialed := w.hub.inFlightDialed + 1), expected.value, now);
      }
    } else {
      assert w.running + [] == w.running;
      if expected.Some? {
        DeferredStaysSound(c, w.running, Queue(w.hub, HandshakeFailed(Dialed(address), expected, TooManyConnections)), expected.value, now);
      }
    }
    hide KnownSound, Deferred, MarkDialing, HasRoomFor;
  }

  lemma {:induction false} DialAllStaysSound(c: Config, w: World, due: seq<(Ski, nat)>, clock: seq<nat>)
    requires |due| <= |clock|
    requires KnownSound(c, w.running, w.hub.known)
    ensures KnownSound(c, DialingAll(c, w, due, clock).running, DialingAll(c, w, due, clock).hub.known)
    decreases |due|
  {
    hide KnownSound, Dialing;
    if due != [] {
      DialStaysSound(c, w, due[0].1, Some(due[0].0), clock[0]);
      DialAllStaysSound(c, Dialing(c, w, due[0].1, Some(due[0].0), clock[0]), due[1..], clock[1..]);
    }
  }

  lemma EstablishedStaysSound(c: Config, running: seq<Handshake>, task: nat, s: State, n: nat, ski: Ski, now: nat, bootstrap: seq<nat>)
    requires KnownSound(c, running, s.known) && task < |running|
    ensures var h := running[task];
            KnownSound(c, RemoveAt(running, task),
                       AfterEstablished(c, s, n, ski, h.origin, h.expected, now, bootstrap).known)
  {
    var h := running[task];
    var left := RemoveAt(running, task);
    var s1 := Released(s, h.origin).(awaitingTrust := WithoutOrigin(s.awaitingTrust, h.origin));
    assert s1.known == s.known;
    hide KnownSound, Deferred, Succeeded, MarkDialing, Released, WithoutOrigin, RemoveAt, Adopted;
    FinishedStaysSound(c, running, task, s1);
    var s2 := if h.expected.Some? then MarkDialing(s1, h.expected.value, false) else s1;
    AdoptedKnown(c, s2, n, ski, h.origin, now, bootstrap);
    var adopted := Adopted(c, s2, n, ski, h.origin, now, bootstrap);
    ForgottenStaysSound(c, left, s2.known, ski);
    if h.expected.Some? {
      DeferredStaysSound(c, left, s2, h.expected.value, now);
      if adopted.Taken? {
        DeferredStaysSound(c, left, adopted.state, h.expected.value, now);
        DeferredStaysSound(c, left, adopted.state, ski, now);
      }
    }
  }

  lemma AdoptedKnown(c: Config, s: State, n: nat, ski: Ski, origin: Origin, now: nat, bootstrap: seq<nat>)
    ensures var a := Adopted(c, s, n, ski, origin, now, bootstrap);
            a.Taken? ==> a.state.known == s.known && a.state.awaitingTrust == s.awaitingTrust
  {
  }

  lemma FailedStaysSound(c: Config, running: seq<Handshake>, task: nat, s: State, peer: Option<Ski>, now: nat)
    requires KnownSound(c, running, s.known) && task < |running|
    ensures KnownSound(c, RemoveAt(running, task),
                       AfterFailed(c, s, running[task].origin, running[task].expected, peer, now).known)
  {
    var h := running[task];
    var i := WaitingAt(s.awaitingTrust, h.origin);
    var released := Released(s, h.origin);
    assert released.known == s.known;
    hide KnownSound, Deferred, MarkDialing, WaitingAt, Released, RemoveAt;
    var s1 := if i < |s.awaitingTrust| then released.(awaitingTrust := s.awaitingTrust[..i] + s.awaitingTrust[i + 1..]) else released;
    FinishedStaysSound(c, running, task, s1);
    if h.expected.Some? {
      DeferredStaysSound(c, RemoveAt(running, task), MarkDialing(s1, h.expected.value, false), h.expected.value, now);
    }
  }

  lemma RememberedStaysSound(c: Config, running: seq<Handshake>, s: State, ski: Ski, address: nat, now: nat)
    requires KnownSound(c, running, s.known)
    ensures KnownSound(c, running, Remembered(c, s, ski, address, now).known)
  {
  }

  lemma {:induction false} DropMarkedElsewhere(s: State, marks: seq<bool>, n: nat, reason: Disconnect)
    requires n <= |marks| <= |s.links|
    ensures DropMarked(s, marks, n, reason).known == s.known
    ensures DropMarked(s, marks, n, reason).awaitingTrust == s.awaitingTrust
    ensures DropMarked(s, marks, n, reason).wakeAt == s.wakeAt
    decreases n
  {
    if n > 0 {
      if marks[n - 1] {
        DropMarkedElsewhere(AfterDrop(s, n - 1, reason), marks[..n - 1], n - 1, reason);
      } else {
        DropMarkedElsewhere(s, marks[..n - 1], n - 1, reason);
      }
    }
  }

  /** Links coming and going concern neither the remembered peers nor the waiting ones. */
  lemma LinksAreElsewhere(c: Config, w: World, step: Step)
    requires step.Frame? || step.Receive? || step.Pong? || step.Drop? || step.CloseLinks? || step.Timers?
          || step.KeepAlivePings? || step.Arbitrate? || step.WakeAt? || step.TakeEvent? || step.EngineSends?
    ensures var v := Next(c, w, step);
            v.running == w.running && v.hub.known == w.hub.known && v.hub.awaitingTrust == w.hub.awaitingTrust
  {
    hide DropMarked, AfterArbitrate, Receiving, AfterEstablished, AfterFailed, AfterTrustRequested, Dialing, DialingAll;
    var s := w.hub;
    if Enabled(w, step) {
      match step
      case CloseLinks(ski) => DropMarkedElsewhere(s, MarkPeer(s.links, ski), |s.links|, Local);
      case Timers(now) =>
        DropMarkedElsewhere(s.(links := AllKeptAlive(s.links, now)), MarkDead(s.links, now), |s.links|, Unresponsive);
      case KeepAlivePings(now, sent) =>
        DropMarkedElsewhere(s.(links := AllPinged(s.links, now, sent)), MarkUnsent(s.links, now, sent), |sent|, Remote);
      case Arbitrate(now, sent) => ArbitrateElsewhere(c, s, now, sent);
      case Receive(index, heard) => ReceiveElsewhere(c, s, index, heard);
      case _ =>
    }
  }

  lemma ReceiveElsewhere(c: Config, s: State, index: nat, heard: Heard)
    requires index < |s.links|
    ensures Receiving(c, s, index, heard).known == s.known && Receiving(c, s, index, heard).awaitingTrust == s.awaitingTrust
  {
  }

  lemma ArbitrateElsewhere(c: Config, s: State, now: nat, sent: seq<bool>)
    requires |sent| == |s.links|
    ensures AfterArbitrate(c, s, now, sent).known == s.known && AfterArbitrate(c, s, now, sent).awaitingTrust == s.awaitingTrust
  {
    if s.duplicates != [] {
      var ski := s.duplicates[0].ski;
      DropMarkedElsewhere(s.(links := AllProbed(s.links, ski, now, sent), duplicates := MarkProbed(s.duplicates, ski)),
                          MarkUnprobed(s.links, ski, sent), |sent|, Remote);
      DropMarkedElsewhere(s, MarkUnanswered(s.links, ski), |s.links|, Unresponsive);
    }
    hide DropMarked, ResolutionFor, Unmarked, WithoutDisconnected, WithoutDuplicate, NewestTo;
  }

  lemma SameTasksKeepKnown(c: Config, running: seq<Handshake>, asked: seq<Handshake>, known: seq<Known>)
    requires SameTasks(running, asked) && KnownSound(c, running, known)
    ensures KnownSound(c, asked, known)
  {
    forall i | 0 <= i < |known| && known[i].dialing ensures DialRuns(asked, known[i].ski) {
      var t :| 0 <= t < |running| && running[t].expected == Some(known[i].ski);
      assert asked[t].expected == Some(known[i].ski);
    }
  }

  lemma StepKeepsKnown(c: Config, w: World, step: Step)
    requires KnownSound(c, w.running, w.hub.known)
    ensures KnownSound(c, Next(c, w, step).running, Next(c, w, step).hub.known)
  {
    hide KnownSound, Dialing, AfterEstablished, AfterFailed, AfterTimers, AfterKeepAlive, AfterArbitrate, Receiving;
    if Enabled(w, step) {
      match step
      case Accept(from) =>
        MoreRunning(c, w.running, Handshake(Accepted(from), None, None), w.hub.known);
        assert w.running + [] == w.running;
      case Dial(address, expected, now) => DialStaysSound(c, w, address, expected, now);
      case Redial(now, clock) => DialAllStaysSound(c, w, DueDials(w.hub, w.hub.known, now), clock);
      case Remember(ski, address, now) => RememberedStaysSound(c, w.running, w.hub, ski, address, now);
      case Forget(ski) => ForgottenStaysSound(c, w.running, w.hub.known, ski);
      case AskTrust(task, ski) =>
        SameTasksKeepKnown(c, w.running, w.running[task := Asking(w.hub, w.running[task], ski)], w.hub.known);
      case Establish(task, ski, now) =>
        EstablishedStaysSound(c, w.running, task, w.hub, w.nextConnection, ski, now, [w.nextCounter, w.nextCounter + 1]);
      case Fail(task, peer, now) => FailedStaysSound(c, w.running, task, w.hub, peer, now);
      case _ => LinksAreElsewhere(c, w, step);
    }
  }

  /** No remembered peer is ever stuck: what says it is being dialled is. */
  lemma {:induction false} EveryRunKeepsKnown(c: Config, steps: seq<Step>)
    ensures KnownSound(c, Run(c, steps).running, Run(c, steps).hub.known)
    decreases |steps|
  {
    if steps != [] {
      EveryRunKeepsKnown(c, steps[..|steps| - 1]);
      StepKeepsKnown(c, Run(c, steps[..|steps| - 1]), steps[|steps| - 1]);
    }
  }

  // ---- redialling ----------------------------------------------------------------------------

  lemma {:induction false} DueDialsAreDue(s: State, known: seq<Known>, now: nat, i: nat)
    requires i < |known| && Due(s, known[i], now)
    ensures exists d :: 0 <= d < |DueDials(s, known, now)| && DueDials(s, known, now)[d].0 == known[i].ski
    decreases i
  {
    var all := DueDials(s, known, now);
    if i == 0 {
      assert all[0].0 == known[0].ski;
    } else {
      DueDialsAreDue(s, known[1..], now, i - 1);
      var rest := DueDials(s, known[1..], now);
      var d :| 0 <= d < |rest| && rest[d].0 == known[i].ski;
      assert all[d + |all| - |rest|] == rest[d];
    }
  }

  predicate NoneDueBut(s: State, due: seq<(Ski, nat)>, now: nat) {
    forall i :: 0 <= i < |s.known| && Due(s, s.known[i], now) ==> exists d :: 0 <= d < |due| && due[d].0 == s.known[i].ski
  }

  /** Dialling a due peer starts the dial or puts the next attempt off; the others stay as they are. */
  lemma DialOutcome(c: Config, s: State, address: nat, ski: Ski, now: nat, later: nat)
    requires DistinctKnown(s.known) && now <= later
    ensures var after := AfterDial(c, s, address, Some(ski), later);
            && after.links == s.links && |after.known| == |s.known|
            && forall i :: 0 <= i < |s.known| ==>
                 && after.known[i].ski == s.known[i].ski
                 && (if s.known[i].ski == ski then after.known[i].dialing || now < after.known[i].nextAttempt
                     else after.known[i] == s.known[i])
  {
    var at := KnownAt(s.known, ski);
    if at < |s.known| {
      var k := s.known[at];
      DelayIsSpreadByAQuarter(ski, if k.attempts < U32_MAX then k.attempts + 1 else k.attempts);
    }
    hide HasRoomFor, ReconnectDelayFor;
    forall i | 0 <= i < |s.known| && s.known[i].ski == ski ensures i == at {
      KnownIsAt(s.known, i);
    }
  }

  lemma DialDischarges(c: Config, s: State, due: seq<(Ski, nat)>, now: nat, later: nat)
    requires DistinctKnown(s.known) && due != [] && NoneDueBut(s, due, now) && now <= later
    ensures var after := AfterDial(c, s, due[0].1, Some(due[0].0), later);
            DistinctKnown(after.known) && NoneDueBut(after, due[1..], now)
  {
    var after := AfterDial(c, s, due[0].1, Some(due[0].0), later);
    DialOutcome(c, s, due[0].1, due[0].0, now, later);
    hide AfterDial, LinksTo;
    forall i | 0 <= i < |after.known| && Due(after, after.known[i], now)
      ensures exists d :: 0 <= d < |due[1..]| && due[1..][d].0 == after.known[i].ski
    {
      assert Due(s, s.known[i], now);
      var d :| 0 <= d < |due| && due[d].0 == s.known[i].ski;
      assert d != 0;
      assert due[1..][d - 1] == due[d];
    }
  }

  /** The clock has not gone back since `now`. */
  predicate NotBefore(now: nat, clock: seq<nat>) {
    forall n :: 0 <= n < |clock| ==> now <= clock[n]
  }

  lemma {:induction false} DialAllDischarges(c: Config, s: State, due: seq<(Ski, nat)>, now: nat, clock: seq<nat>)
    requires DistinctKnown(s.known) && NoneDueBut(s, due, now) && |due| <= |clock| && NotBefore(now, clock)
    ensures NoneDueBut(DialAll(c, s, due, clock), [], now)
    decreases |due|
  {
    hide AfterDial, NoneDueBut, DistinctKnown;
    if due != [] {
      DialDischarges(c, s, due, now, clock[0]);
      DialAllDischarges(c, AfterDial(c, s, due[0].1, Some(due[0].0), clock[0]), due[1..], now, clock[1..]);
    }
  }

  /** After a redial nobody is due: whoever is not connected or being dialled is tried later. */
  lemma RedialDischarges(c: Config, s: State, now: nat, clock: seq<nat>)
    requires DistinctKnown(s.known) && |s.known| <= |clock| && NotBefore(now, clock)
    ensures var after := AfterRedial(c, s, now, clock);
            forall i :: 0 <= i < |after.known| && !after.known[i].dialing && LinksTo(after.links, after.known[i].ski) == 0
              ==> now < after.known[i].nextAttempt
  {
    forall i | 0 <= i < |s.known| && Due(s, s.known[i], now)
      ensures exists d :: 0 <= d < |DueDials(s, s.known, now)| && DueDials(s, s.known, now)[d].0 == s.known[i].ski
    {
      DueDialsAreDue(s, s.known, now, i);
    }
    DialAllDischarges(c, s, DueDials(s, s.known, now), now, clock);
    hide DueDials, DialAll;
    var after := AfterRedial(c, s, now, clock);
    forall i | 0 <= i < |after.known| && !after.known[i].dialing && LinksTo(after.links, after.known[i].ski) == 0
      ensures now < after.known[i].nextAttempt
    {
      assert !Due(after, after.known[i], now);
    }
  }

  predicate Ahead(next: Option<nat>, now: nat) {
    next.Some? ==> now < next.value
  }

  lemma {:induction false} LinksAhead(links: seq<Link>, next: Option<nat>, now: nat)
    requires Ahead(next, now) && forall i :: 0 <= i < |links| ==> now < LinkDeadline(links[i])
    ensures Ahead(LinkDeadlines(links, next), now)
    decreases |links|
  {
    if links != [] {
      LinksAhead(links[1..], Earliest(next, LinkDeadline(links[0])), now);
    }
  }

  lemma {:induction false} KnownAhead(s: State, known: seq<Known>, next: Option<nat>, now: nat)
    requires Ahead(next, now)
    requires forall i :: 0 <= i < |known| && !known[i].dialing && LinksTo(s.links, known[i].ski) == 0 ==> now < known[i].nextAttempt
    ensures Ahead(KnownDeadlines(s, known, next), now)
    decreases |known|
  {
    if known != [] {
      var k := known[0];
      KnownAhead(s, known[1..], if !k.dialing && LinksTo(s.links, k.ski) == 0 then Earliest(next, k.nextAttempt) else next, now);
    }
  }

  lemma {:induction false} DialAllElsewhere(c: Config, s: State, due: seq<(Ski, nat)>, clock: seq<nat>)
    requires |due| <= |clock|
    ensures DialAll(c, s, due, clock).wakeAt == s.wakeAt && DialAll(c, s, due, clock).links == s.links
    decreases |due|
  {
    if due != [] {
      DialAllElsewhere(c, AfterDial(c, s, due[0].1, Some(due[0].0), clock[0]), due[1..], clock[1..]);
    }
  }

  /**
   A timer pass, the keep-alive after it and the redial of the next turn leave nothing due: the
   hub's own next deadline lies ahead, so the loop goes to sleep instead of spinning.
   */
  lemma NothingIsLeftDue(c: Config, s: State, now: nat, later: nat, sent: seq<bool>, clock: seq<nat>)
    requires DistinctKnown(s.known) && now <= later && |sent| == |AfterTimers(s, now).links|
    requires |clock| == |s.known| && NotBefore(now, clock)
    ensures AfterKeepAlive(AfterTimers(s, now), later, sent).known == s.known
    ensures Ahead(NextDeadline(AfterRedial(c, AfterKeepAlive(AfterTimers(s, now), later, sent), now, clock)), now)
  {
    var fired := AfterTimers(s, now);
    var kept, dead := s.(links := AllKeptAlive(s.links, now)), MarkDead(s.links, now);
    DropMarkedElsewhere(kept, dead, |dead|, Unresponsive);
    var pinged := AfterKeepAlive(fired, later, sent);
    DropMarkedElsewhere(fired.(links := AllPinged(fired.links, later, sent)), MarkUnsent(fired.links, later, sent), |sent|, Remote);
    assert pinged.known == s.known && Ahead(pinged.wakeAt, now);
    PassDischargesLinks(s, now, later, sent);
    hide AfterTimers, AfterKeepAlive, LinkDeadline;
    RedialDischarges(c, pinged, now, clock);
    DialAllElsewhere(c, pinged, DueDials(pinged, pinged.known, now), clock);
    var after := AfterRedial(c, pinged, now, clock);
    hide DialAll, DueDials;
    KnownAhead(after, after.known, after.wakeAt, now);
    LinksAhead(after.links, KnownDeadlines(after, after.known, after.wakeAt), now);
  }

  // ---- waiting for trust ------------------------------------------------------------------------

  predicate RunsFrom(running: seq<Handshake>, origin: Origin) {
    exists t :: 0 <= t < |running| && running[t].origin == origin
  }

  predicate EachOnce(waiting: seq<(Origin, Ski)>) {
    forall i, j :: 0 <= i < j < |waiting| ==> waiting[i].0 != waiting[j].0 && waiting[i].1 != waiting[j].1
  }

  /** At most four slots are taken, each for one peer and one origin, and only where a handshake runs. */
  predicate TrustSound(running: seq<Handshake>, waiting: seq<(Origin, Ski)>) {
    && |waiting| <= MAX_PENDING_TRUST && EachOnce(waiting)
    && forall i :: 0 <= i < |waiting| ==> RunsFrom(running, waiting[i].0)
  }

  lemma MoreRunFrom(running: seq<Handshake>, more: seq<Handshake>, waiting: seq<(Origin, Ski)>)
    requires TrustSound(running, waiting)
    ensures TrustSound(running + more, waiting)
  {
    forall i | 0 <= i < |waiting| ensures RunsFrom(running + more, waiting[i].0) {
      var t :| 0 <= t < |running| && running[t].origin == waiting[i].0;
      assert (running + more)[t].origin == waiting[i].0;
    }
  }

  lemma {:induction false} WithoutOriginIs(waiting: seq<(Origin, Ski)>, origin: Origin)
    ensures forall x :: x in WithoutOrigin(waiting, origin) <==> x in waiting && x.0 != origin
    ensures |WithoutOrigin(waiting, origin)| <= |waiting|
    decreases |waiting|
  {
    if waiting != [] {
      WithoutOriginIs(waiting[1..], origin);
    }
  }

  lemma {:induction false} WithoutOriginKeepsOnce(waiting: seq<(Origin, Ski)>, origin: Origin)
    requires EachOnce(waiting)
    ensures EachOnce(WithoutOrigin(waiting, origin))
    decreases |waiting|
  {
    if waiting != [] {
      var first, rest := waiting[0], WithoutOrigin(waiting[1..], origin);
      WithoutOriginKeepsOnce(waiting[1..], origin);
      WithoutOriginIs(waiting[1..], origin);
      forall i | 0 <= i < |rest| ensures rest[i].0 != first.0 && rest[i].1 != first.1 {
        assert rest[i] in waiting[1..];
      }
    }
  }

  /** Handshakes that end give their trust slot back. */
  lemma FinishedGivesSlotBack(running: seq<Handshake>, task: nat, waiting: seq<(Origin, Ski)>)
    requires TrustSound(running, waiting) && task < |running|
    ensures TrustSound(RemoveAt(running, task), WithoutOrigin(waiting, running[task].origin))
  {
    var origin, left := running[task].origin, RemoveAt(running, task);
    var after := WithoutOrigin(waiting, origin);
    WithoutOriginIs(waiting, origin);
    WithoutOriginKeepsOnce(waiting, origin);
    forall i | 0 <= i < |after| ensures RunsFrom(left, after[i].0) {
      assert after[i] in waiting;
      var j :| 0 <= j < |waiting| && waiting[j] == after[i];
      assert RunsFrom(running, waiting[j].0);
      var t :| 0 <= t < |running| && running[t].origin == after[i].0;
      assert left[if t < task then t else t - 1] == running[t];
    }
  }

  /** Removing the first slot of an origin removes its only one. */
  lemma FirstIsOnly(waiting: seq<(Origin, Ski)>, origin: Origin)
    requires EachOnce(waiting)
    ensures var i := WaitingAt(waiting, origin);
            WithoutOrigin(waiting, origin) == if i < |waiting| then waiting[..i] + waiting[i + 1..] else waiting
  {
    hide WithoutOrigin;
    var i := WaitingAt(waiting, origin);
    if i < |waiting| {
      var before, at, after := waiting[..i], [waiting[i]], waiting[i + 1..];
      assert waiting == before + (at + after);
      WithoutOriginAppend(before, at + after, origin);
      WithoutOriginAppend(at, after, origin);
      NoneWaiting(before, origin);
      NoneWaiting(after, origin);
      OneWaiting(waiting[i], origin);
      assert [] + after == after;
    } else {
      NoneWaiting(waiting, origin);
    }
  }

  lemma OneWaiting(w: (Origin, Ski), origin: Origin)
    requires w.0 == origin
    ensures WithoutOrigin([w], origin) == []
  {
    var none: seq<(Origin, Ski)> := [w][1..];
    assert none == [];
  }

  lemma {:induction false} WithoutOriginAppend(a: seq<(Origin, Ski)>, b: seq<(Origin, Ski)>, origin: Origin)
    ensures WithoutOrigin(a + b, origin) == WithoutOrigin(a, origin) + WithoutOrigin(b, origin)
    decreases |a|
  {
    if a == [] {
      assert a + b == b;
    } else {
      assert (a + b)[1..] == a[1..] + b && (a + b)[0] == a[0];
      WithoutOriginAppend(a[1..], b, origin);
      Regroup(if a[0].0 == origin then [] else [a[0]], WithoutOrigin(a[1..], origin), WithoutOrigin(b, origin));
    }
  }

  lemma {:induction false} NoneWaiting(waiting: seq<(Origin, Ski)>, origin: Origin)
    requires forall i :: 0 <= i < |waiting| ==> waiting[i].0 != origin
    ensures WithoutOrigin(waiting, origin) == waiting
    decreases |waiting|
  {
    if waiting != [] {
      NoneWaiting(waiting[1..], origin);
    }
  }

  lemma {:induction false} DialAllWaiting(c: Config, w: World, due: seq<(Ski, nat)>, clock: seq<nat>)
    requires |due| <= |clock|
    requires TrustSound(w.running, w.hub.awaitingTrust)
    ensures DialingAll(c, w, due, clock).hub.awaitingTrust == w.hub.awaitingTrust
    ensures TrustSound(DialingAll(c, w, due, clock).running, w.hub.awaitingTrust)
    decreases |due|
  {
    hide TrustSound;
    if due != [] {
      DialWaiting(c, w, due[0].1, Some(due[0].0), clock[0]);
      hide Dialing;
      DialAllWaiting(c, Dialing(c, w, due[0].1, Some(due[0].0), clock[0]), due[1..], clock[1..]);
    }
  }

  lemma DialWaiting(c: Config, w: World, address: nat, expected: Option<Ski>, now: nat)
    requires TrustSound(w.running, w.hub.awaitingTrust)
    ensures Dialing(c, w, address, expected, now).hub.awaitingTrust == w.hub.awaitingTrust
    ensures TrustSound(Dialing(c, w, address, expected, now).running, w.hub.awaitingTrust)
  {
    MoreRunFrom(w.running, [Handshake(Dialed(address), expected, None)], w.hub.awaitingTrust);
    assert w.running + [] == w.running;
    hide TrustSound, HasRoomFor, KnownAt;
  }

  lemma AcceptWaiting(c: Config, s: State, from: nat)
    ensures AfterAccept(c, s, from).awaitingTrust == s.awaitingTrust
  {
  }

  lemma AskedStaysSound(running: seq<Handshake>, s: State, task: nat, ski: Ski)
    requires TrustSound(running, s.awaitingTrust) && task < |running|
    ensures TrustSound(running, AfterTrustRequested(s, running[task].origin, ski).awaitingTrust)
  {
    assert RunsFrom(running, running[task].origin);
  }

  lemma SameTasksKeepTrust(running: seq<Handshake>, asked: seq<Handshake>, waiting: seq<(Origin, Ski)>)
    requires SameTasks(running, asked) && TrustSound(running, waiting)
    ensures TrustSound(asked, waiting)
  {
    forall i | 0 <= i < |waiting| ensures RunsFrom(asked, waiting[i].0) {
      assert RunsFrom(running, waiting[i].0);
      var t :| 0 <= t < |running| && running[t].origin == waiting[i].0;
      assert asked[t].origin == waiting[i].0;
    }
  }

  lemma EstablishedWaiting(c: Config, s: State, n: nat, ski: Ski, origin: Origin, expected: Option<Ski>, now: nat, bootstrap: seq<nat>)
    ensures AfterEstablished(c, s, n, ski, origin, expected, now, bootstrap).awaitingTrust == WithoutOrigin(s.awaitingTrust, origin)
  {
    var s1 := Released(s, origin).(awaitingTrust := WithoutOrigin(s.awaitingTrust, origin));
    var s2 := if expected.Some? then MarkDialing(s1, expected.value, false) else s1;
    if expected.Some? {
      KnownIsApart(s1, expected.value, now, false);
      KnownIsApart(s2, expected.value, now, false);
    }
    AdoptedKnown(c, s2, n, ski, origin, now, bootstrap);
    var adopted := Adopted(c, s2, n, ski, origin, now, bootstrap);
    if adopted.Taken? {
      KnownIsApart(adopted.state, ski, now, false);
      if expected.Some? {
        KnownIsApart(adopted.state, expected.value, now, false);
      }
    }
    hide Adopted, Deferred, Succeeded, MarkDialing, Released, WithoutOrigin, WithoutKnown;
  }

  lemma FailedWaiting(c: Config, s: State, origin: Origin, expected: Option<Ski>, peer: Option<Ski>, now: nat)
    ensures var i := WaitingAt(s.awaitingTrust, origin);
            AfterFailed(c, s, origin, expected, peer, now).awaitingTrust
              == if i < |s.awaitingTrust| then s.awaitingTrust[..i] + s.awaitingTrust[i + 1..] else s.awaitingTrust
  {
    hide KnownAt, WaitingAt;
  }

  lemma EstablishKeepsTrustSlots(c: Config, w: World, task: nat, ski: Ski, now: nat)
    requires TrustSound(w.running, w.hub.awaitingTrust) && task < |w.running|
    ensures var v := Next(c, w, Establish(task, ski, now)); TrustSound(v.running, v.hub.awaitingTrust)
  {
    hide TrustSound, AfterEstablished, WithoutOrigin;
    FinishedGivesSlotBack(w.running, task, w.hub.awaitingTrust);
    EstablishedWaiting(c, w.hub, w.nextConnection, ski, w.running[task].origin, w.running[task].expected, now,
                       [w.nextCounter, w.nextCounter + 1]);
  }

  lemma WaitOnce(running: seq<Handshake>, waiting: seq<(Origin, Ski)>)
    requires TrustSound(running, waiting)
    ensures EachOnce(waiting)
  {
  }

  lemma FailedNext(c: Config, w: World, task: nat, peer: Option<Ski>, now: nat)
    requires task < |w.running|
    ensures var v := Next(c, w, Fail(task, peer, now));
            && v.running == RemoveAt(w.running, task)
            && v.hub == AfterFailed(c, w.hub, w.running[task].origin, w.running[task].expected, peer, now)
  {
    hide AfterFailed, RemoveAt;
  }

  lemma FailKeepsTrustSlots(c: Config, w: World, task: nat, peer: Option<Ski>, now: nat)
    requires TrustSound(w.running, w.hub.awaitingTrust) && task < |w.running|
    ensures var v := Next(c, w, Fail(task, peer, now)); TrustSound(v.running, v.hub.awaitingTrust)
  {
    hide *;
    FailedNext(c, w, task, peer, now);
    WaitOnce(w.running, w.hub.awaitingTrust);
    FirstIsOnly(w.hub.awaitingTrust, w.running[task].origin);
    FinishedGivesSlotBack(w.running, task, w.hub.awaitingTrust);
    FailedWaiting(c, w.hub, w.running[task].origin, w.running[task].expected, peer, now);
  }

  lemma StepKeepsTrustSlots(c: Config, w: World, step: Step)
    requires TrustSound(w.running, w.hub.awaitingTrust)
    ensures TrustSound(Next(c, w, step).running, Next(c, w, step).hub.awaitingTrust)
  {
    hide TrustSound, Dialing, DialingAll, DueDials, AfterAccept, AfterEstablished, AfterFailed, AfterTrustRequested,
         AfterTimers, AfterKeepAlive, AfterArbitrate, Receiving, AfterDrop, AfterCloseLinks, WithoutOrigin, WaitingAt,
         Remembered, WithoutKnown;
    var s := w.hub;
    if Enabled(w, step) {
      match step
      case Accept(from) =>
        MoreRunFrom(w.running, [Handshake(Accepted(from), None, None)], s.awaitingTrust);
        AcceptWaiting(c, s, from);
        assert w.running + [] == w.running;
      case Dial(address, expected, now) => DialWaiting(c, w, address, expected, now);
      case Redial(now, clock) => DialAllWaiting(c, w, DueDials(s, s.known, now), clock);
      case Remember(ski, address, now) => RememberWaiting(c, s, ski, address, now);
      case Forget(ski) =>
      case AskTrust(task, ski) =>
        AskedStaysSound(w.running, s, task, ski);
        SameTasksKeepTrust(w.running, w.running[task := Asking(s, w.running[task], ski)],
                           AfterTrustRequested(s, w.running[task].origin, ski).awaitingTrust);
      case Establish(task, ski, now) => EstablishKeepsTrustSlots(c, w, task, ski, now);
      case Fail(task, peer, now) => FailKeepsTrustSlots(c, w, task, peer, now);
      case _ => LinksAreElsewhere(c, w, step);
    }
  }

  lemma RememberWaiting(c: Config, s: State, ski: Ski, address: nat, now: nat)
    ensures Remembered(c, s, ski, address, now).awaitingTrust == s.awaitingTrust
  {
  }

  /** In every run at most four trust slots are taken, by different peers, for running handshakes. */
  lemma {:induction false} EveryRunBoundsTrust(c: Config, steps: seq<Step>)
    ensures TrustSound(Run(c, steps).running, Run(c, steps).hub.awaitingTrust)
    decreases |steps|
  {
    if steps != [] {
      EveryRunBoundsTrust(c, steps[..|steps| - 1]);
      StepKeepsTrustSlots(c, Run(c, steps[..|steps| - 1]), steps[|steps| - 1]);
    }
  }
}
