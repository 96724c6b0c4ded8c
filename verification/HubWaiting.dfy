/**
 The peers that really wait for trust, as against the slots on record: when the two are the same,
 and so when the limit on slots limits the peers.
 */
module HubWaiting {
  import opened Wrappers
  import opened SkiText
  import opened HubState
  import opened HubRuns
  import opened HubPending

  /** The peers some running handshake waits for trust in. */
  function WaitingPeers(running: seq<Handshake>): set<Ski> {
    set t | 0 <= t < |running| && running[t].asking.Some? :: running[t].asking.value
  }

  /** The peers that hold a slot. */
  function RecordedPeers(waiting: seq<(Origin, Ski)>): set<Ski> {
    set i | 0 <= i < |waiting| :: waiting[i].1
  }

  /** Whoever waits holds a slot. */
  predicate OnRecord(w: World) {
    forall t :: 0 <= t < |w.running| && w.running[t].asking.Some? ==> IsWaiting(w.hub.awaitingTrust, w.running[t].asking.value)
  }

  predicate Asks(running: seq<Handshake>, origin: Origin, ski: Ski) {
    exists t :: 0 <= t < |running| && running[t].origin == origin && running[t].asking == Some(ski)
  }

  /** Every slot is held for a handshake that waits. */
  predicate SlotsAreUsed(running: seq<Handshake>, waiting: seq<(Origin, Ski)>) {
    forall i :: 0 <= i < |waiting| ==> Asks(running, waiting[i].0, waiting[i].1)
  }

  // ---- when a peer is left waiting without a slot ---------------------------------------------

  /** A handshake other than `task` waits for a peer whose slot is held for the origin of `task`. */
  predicate LeavesBehind(w: World, task: nat)
    requires task < |w.running|
  {
    exists t :: 0 <= t < |w.running| && t != task && w.running[t].asking.Some?
                && (w.running[task].origin, w.running[t].asking.value) in w.hub.awaitingTrust
  }

  /**
   A step leaves a peer waiting without a slot: a handshake ends whose origin holds the slot that
   another handshake of the same peer relies on, or one asks under an origin that holds another's.
   */
  predicate Strands(w: World, step: Step) {
    && Enabled(w, step)
    && match step
       case AskTrust(task, ski) =>
         WaitingAt(w.hub.awaitingTrust, w.running[task].origin) < |w.hub.awaitingTrust| && !IsWaiting(w.hub.awaitingTrust, ski)
       case Establish(task, _, _) => LeavesBehind(w, task)
       case Fail(task, _, _) => LeavesBehind(w, task)
       case _ => false
  }

  lemma WaitsIn(waiting: seq<(Origin, Ski)>, ski: Ski)
    ensures IsWaiting(waiting, ski) <==> exists x :: x in waiting && x.1 == ski
  {
    if IsWaiting(waiting, ski) {
      var i :| 0 <= i < |waiting| && waiting[i].1 == ski;
      assert waiting[i] in waiting;
    }
  }

  /** Giving an origin's slots back, a peer keeps its slot exactly if it is held for another origin. */
  lemma StillWaits(waiting: seq<(Origin, Ski)>, origin: Origin, ski: Ski)
    requires EachOnce(waiting) && IsWaiting(waiting, ski)
    ensures IsWaiting(WithoutOrigin(waiting, origin), ski) <==> (origin, ski) !in waiting
  {
    WithoutOriginIs(waiting, origin);
    WaitsIn(waiting, ski);
    WaitsIn(WithoutOrigin(waiting, origin), ski);
    hide WithoutOrigin, IsWaiting;
  }

  /** What a handshake that ends does to those that wait, and to the slots. */
  predicate Ends(w: World, v: World, task: nat)
    requires task < |w.running|
  {
    && v.running == RemoveAt(w.running, task)
    && v.hub.awaitingTrust == WithoutOrigin(w.hub.awaitingTrust, w.running[task].origin)
  }

  lemma EndStrands(w: World, v: World, task: nat)
    requires task < |w.running| && Ends(w, v, task) && OnRecord(w) && EachOnce(w.hub.awaitingTrust)
    ensures OnRecord(v) <==> !LeavesBehind(w, task)
  {
    var waiting, origin := w.hub.awaitingTrust, w.running[task].origin;
    hide WithoutOrigin, IsWaiting, EachOnce;
    forall t | 0 <= t < |w.running| && w.running[t].asking.Some?
      ensures IsWaiting(v.hub.awaitingTrust, w.running[t].asking.value)
         <==> (origin, w.running[t].asking.value) !in waiting
    {
      StillWaits(waiting, origin, w.running[t].asking.value);
    }
    if OnRecord(v) {
      forall t | 0 <= t < |w.running| && t != task && w.running[t].asking.Some?
        ensures (origin, w.running[t].asking.value) !in waiting
      {
        assert v.running[if t < task then t else t - 1] == w.running[t];
      }
    }
    if !LeavesBehind(w, task) {
      forall u | 0 <= u < |v.running| && v.running[u].asking.Some?
        ensures IsWaiting(v.hub.awaitingTrust, v.running[u].asking.value)
      {
        var t := if u < task then u else u + 1;
        assert v.running[u] == w.running[t];
      }
    }
  }

  lemma EstablishedNext(c: Config, w: World, task: nat, ski: Ski, now: nat)
    requires task < |w.running|
    ensures var v, h := Next(c, w, Establish(task, ski, now)), w.running[task];
            && v.running == RemoveAt(w.running, task)
            && v.hub == AfterEstablished(c, w.hub, w.nextConnection, ski, h.origin, h.expected, now,
                                         [w.nextCounter, w.nextCounter + 1])
  {
    hide AfterEstablished, RemoveAt;
  }

  lemma EndsAre(c: Config, w: World, step: Step, task: nat)
    requires TrustSound(w.running, w.hub.awaitingTrust) && task < |w.running|
    requires (step.Establish? && step.task == task) || (step.Fail? && step.task == task)
    ensures Ends(w, Next(c, w, step), task)
  {
    var h := w.running[task];
    hide *;
    if step.Establish? {
      EstablishedNext(c, w, task, step.ski, step.now);
      EstablishedWaiting(c, w.hub, w.nextConnection, step.ski, h.origin, h.expected, step.now, [w.nextCounter, w.nextCounter + 1]);
    } else {
      FailedNext(c, w, task, step.peer, step.now);
      WaitOnce(w.running, w.hub.awaitingTrust);
      FirstIsOnly(w.hub.awaitingTrust, h.origin);
      FailedWaiting(c, w.hub, h.origin, h.expected, step.peer, step.now);
    }
    EndsBecause(w, Next(c, w, step), task);
  }

  lemma EndsBecause(w: World, v: World, task: nat)
    requires task < |w.running|
    requires v.running == RemoveAt(w.running, task)
    requires v.hub.awaitingTrust == WithoutOrigin(w.hub.awaitingTrust, w.running[task].origin)
    ensures Ends(w, v, task)
  {
  }

  lemma AskStrands(c: Config, w: World, task: nat, ski: Ski)
    requires Enabled(w, AskTrust(task, ski)) && OnRecord(w)
    ensures OnRecord(Next(c, w, AskTrust(task, ski))) <==> !Strands(w, AskTrust(task, ski))
  {
    var waiting, origin := w.hub.awaitingTrust, w.running[task].origin;
    var v := Next(c, w, AskTrust(task, ski));
    hide WaitingAt;
    assert v.running == w.running[task := Asking(w.hub, w.running[task], ski)];
    if v.hub.awaitingTrust == waiting + [(origin, ski)] {
      assert (waiting + [(origin, ski)])[|waiting|] == (origin, ski);
      forall s | IsWaiting(waiting, s) ensures IsWaiting(waiting + [(origin, ski)], s) {
        var i :| 0 <= i < |waiting| && waiting[i].1 == s;
        assert (waiting + [(origin, ski)])[i].1 == s;
      }
    } else {
      assert v.hub.awaitingTrust == waiting;
    }
    hide Next, IsWaiting;
    if !Strands(w, AskTrust(task, ski)) {
      forall t | 0 <= t < |v.running| && v.running[t].asking.Some?
        ensures IsWaiting(v.hub.awaitingTrust, v.running[t].asking.value)
      {
        assert t != task ==> v.running[t] == w.running[t];
      }
    } else {
      assert v.running[task].asking == Some(ski);
    }
  }

  /** Nobody is asked for by handshakes that have only just started. */
  predicate OnlyStarts(a: seq<Handshake>, b: seq<Handshake>) {
    |a| <= |b| && b[..|a|] == a && forall t :: |a| <= t < |b| ==> b[t].asking.None?
  }

  lemma StartsKeepRecord(w: World, v: World)
    requires OnlyStarts(w.running, v.running) && v.hub.awaitingTrust == w.hub.awaitingTrust && OnRecord(w)
    ensures OnRecord(v)
  {
    hide IsWaiting;
    forall t | 0 <= t < |v.running| && v.running[t].asking.Some?
      ensures IsWaiting(v.hub.awaitingTrust, v.running[t].asking.value)
    {
      assert v.running[t] == w.running[t];
    }
  }

  lemma {:induction false} DialingAllStarts(c: Config, w: World, due: seq<(Ski, nat)>, clock: seq<nat>)
    requires |due| <= |clock|
    ensures OnlyStarts(w.running, DialingAll(c, w, due, clock).running)
    ensures DialingAll(c, w, due, clock).hub.awaitingTrust == w.hub.awaitingTrust
    decreases |due|
  {
    if due != [] {
      var started := Dialing(c, w, due[0].1, Some(due[0].0), clock[0]);
      DialingStarts(c, w, due[0].1, Some(due[0].0), clock[0]);
      DialingAllStarts(c, started, due[1..], clock[1..]);
      var all := DialingAll(c, started, due[1..], clock[1..]).running;
      hide Dialing, DialingAll;
      StartsTwice(w.running, started.running, all);
    }
  }

  lemma StartsTwice(a: seq<Handshake>, b: seq<Handshake>, d: seq<Handshake>)
    requires OnlyStarts(a, b) && OnlyStarts(b, d)
    ensures OnlyStarts(a, d)
  {
    assert d[..|a|] == d[..|b|][..|a|];
    forall t | |a| <= t < |d| ensures d[t].asking.None? {
      assert t < |b| ==> d[t] == d[..|b|][t];
    }
  }

  lemma DialingStarts(c: Config, w: World, address: nat, expected: Option<Ski>, now: nat)
    ensures OnlyStarts(w.running, Dialing(c, w, address, expected, now).running)
    ensures Dialing(c, w, address, expected, now).hub.awaitingTrust == w.hub.awaitingTrust
  {
    hide HasRoomFor, KnownAt;
  }

  /** Steps that neither ask for trust nor end a handshake leave those that wait and the slots alone. */
  lemma OthersOnlyStart(c: Config, w: World, step: Step)
    requires !step.AskTrust? && !step.Establish? && !step.Fail?
    ensures OnlyStarts(w.running, Next(c, w, step).running)
    ensures Next(c, w, step).hub.awaitingTrust == w.hub.awaitingTrust
  {
    hide Dialing, DialingAll, DueDials, AfterAccept, AfterTimers, AfterKeepAlive, AfterArbitrate, Receiving,
         AfterDrop, AfterCloseLinks, Remembered, WithoutKnown;
    if Enabled(w, step) {
      match step
      case Accept(from) => AcceptWaiting(c, w.hub, from);
      case Dial(address, expected, now) => DialingStarts(c, w, address, expected, now);
      case Redial(now, clock) => DialingAllStarts(c, w, DueDials(w.hub, w.hub.known, now), clock);
      case Remember(ski, address, now) => RememberWaiting(c, w.hub, ski, address, now);
      case Forget(ski) =>
      case _ => LinksAreElsewhere(c, w, step);
    }
  }

  /** A step leaves everybody who waits on record exactly if it strands nobody. */
  lemma StrandsExactly(c: Config, w: World, step: Step)
    requires TrustSound(w.running, w.hub.awaitingTrust) && OnRecord(w)
    ensures OnRecord(Next(c, w, step)) <==> !Strands(w, step)
  {
    hide TrustSound, OnRecord, LeavesBehind, WaitingAt, IsWaiting, Ends;
    var v := Next(c, w, step);
    if !Enabled(w, step) {
    } else if step.AskTrust? {
      AskStrands(c, w, step.task, step.ski);
    } else if step.Establish? || step.Fail? {
      WaitOnce(w.running, w.hub.awaitingTrust);
      EndsAre(c, w, step, step.task);
      EndStrands(w, v, step.task);
    } else {
      hide Next;
      OthersOnlyStart(c, w, step);
      StartsKeepRecord(w, v);
    }
  }

  // ---- over runs ----------------------------------------------------------------------------------

  predicate NobodyStranded(c: Config, steps: seq<Step>) {
    forall i :: 0 <= i < |steps| ==> !Strands(WorldAt(c, steps, i), steps[i])
  }

  predicate AlwaysOnRecord(c: Config, steps: seq<Step>) {
    forall i :: 0 <= i <= |steps| ==> OnRecord(WorldAt(c, steps, i))
  }

  lemma WorldsOfFront(c: Config, front: seq<Step>, step: Step)
    ensures forall i :: 0 <= i <= |front| ==> WorldAt(c, front + [step], i) == WorldAt(c, front, i)
    ensures WorldAt(c, front + [step], |front| + 1) == Next(c, Run(c, front), step)
    ensures WorldAt(c, front, |front|) == Run(c, front)
  {
    hide Next;
    var steps := front + [step];
    assert steps[..|front| + 1] == steps && steps[..|front|] == front && front[..|front|] == front;
    forall i | 0 <= i <= |front| ensures WorldAt(c, steps, i) == WorldAt(c, front, i) {
      assert steps[..i] == front[..i];
    }
  }

  lemma RecordOneMore(c: Config, front: seq<Step>, step: Step)
    ensures NobodyStranded(c, front + [step]) <==> NobodyStranded(c, front) && !Strands(Run(c, front), step)
    ensures AlwaysOnRecord(c, front + [step]) <==> AlwaysOnRecord(c, front) && OnRecord(Next(c, Run(c, front), step))
  {
    WorldsOfFront(c, front, step);
    hide Strands, OnRecord, Next, Run, WorldAt;
    var steps := front + [step];
    assert forall i :: 0 <= i < |front| ==> steps[i] == front[i];
    assert steps[|front|] == step;
    if NobodyStranded(c, steps) {
      forall i | 0 <= i < |front| ensures !Strands(WorldAt(c, front, i), front[i]) {
        assert !Strands(WorldAt(c, steps, i), steps[i]);
      }
      assert !Strands(WorldAt(c, steps, |front|), steps[|front|]);
    }
    if AlwaysOnRecord(c, steps) {
      forall i | 0 <= i <= |front| ensures OnRecord(WorldAt(c, front, i)) {
        assert OnRecord(WorldAt(c, steps, i));
      }
      assert OnRecord(WorldAt(c, steps, |front| + 1));
    }
  }

  /** Throughout a run everybody who waits holds a slot, exactly if no step of it strands anybody. */
  lemma {:induction false} OnRecordUnlessStranded(c: Config, steps: seq<Step>)
    ensures AlwaysOnRecord(c, steps) <==> NobodyStranded(c, steps)
    ensures AlwaysOnRecord(c, steps) ==> OnRecord(Run(c, steps))
    decreases |steps|
  {
    hide Strands, Next;
    if steps == [] {
      assert steps[..0] == [];
    } else {
      var front, step := steps[..|steps| - 1], steps[|steps| - 1];
      assert steps == front + [step];
      hide Run, OnRecord, AlwaysOnRecord, NobodyStranded;
      OnRecordUnlessStranded(c, front);
      RecordOneMore(c, front, step);
      RunIsNext(c, front, step);
      EveryRunBoundsTrust(c, front);
      if AlwaysOnRecord(c, front) {
        StrandsExactly(c, Run(c, front), step);
      }
    }
  }

  lemma RunIsNext(c: Config, front: seq<Step>, step: Step)
    ensures Run(c, front + [step]) == Next(c, Run(c, front), step)
  {
    hide Next;
    assert (front + [step])[..|front|] == front;
  }

  // ---- slots are never held for nobody ----------------------------------------------------------

  lemma StillAsks(running: seq<Handshake>, task: nat, origin: Origin, ski: Ski)
    requires task < |running| && Asks(running, origin, ski) && running[task].origin != origin
    ensures Asks(RemoveAt(running, task), origin, ski)
  {
    var t :| 0 <= t < |running| && running[t].origin == origin && running[t].asking == Some(ski);
    assert RemoveAt(running, task)[if t < task then t else t - 1] == running[t];
  }

  lemma EndKeepsUsed(w: World, v: World, task: nat)
    requires task < |w.running| && Ends(w, v, task) && SlotsAreUsed(w.running, w.hub.awaitingTrust)
    ensures SlotsAreUsed(v.running, v.hub.awaitingTrust)
  {
    var waiting, left := w.hub.awaitingTrust, v.hub.awaitingTrust;
    WithoutOriginIs(waiting, w.running[task].origin);
    hide WithoutOrigin, Asks, RemoveAt;
    forall i | 0 <= i < |left| ensures Asks(v.running, left[i].0, left[i].1) {
      assert left[i] in waiting;
      var j :| 0 <= j < |waiting| && waiting[j] == left[i];
      StillAsks(w.running, task, left[i].0, left[i].1);
    }
  }

  lemma AskKeepsUsed(c: Config, w: World, task: nat, ski: Ski)
    requires Enabled(w, AskTrust(task, ski)) && SlotsAreUsed(w.running, w.hub.awaitingTrust)
    ensures var v := Next(c, w, AskTrust(task, ski)); SlotsAreUsed(v.running, v.hub.awaitingTrust)
  {
    var waiting, origin := w.hub.awaitingTrust, w.running[task].origin;
    var v := Next(c, w, AskTrust(task, ski));
    var after := v.hub.awaitingTrust;
    assert after == waiting || after == waiting + [(origin, ski)];
    assert after == waiting + [(origin, ski)] ==> v.running[task].asking == Some(ski) && v.running[task].origin == origin;
    assert forall t :: 0 <= t < |w.running| && t != task ==> v.running[t] == w.running[t];
    assert |v.running| == |w.running| && v.running[task].origin == origin;
    var away := TurnedAway(w.hub, origin, ski);
    assert v.running[task].asking == if away then None else Some(ski);
    hide Next, IsWaiting;
    forall i | 0 <= i < |after| ensures Asks(v.running, after[i].0, after[i].1) {
      if i < |waiting| {
        assert Asks(w.running, waiting[i].0, waiting[i].1);
        var t :| 0 <= t < |w.running| && w.running[t].origin == waiting[i].0 && w.running[t].asking == Some(waiting[i].1);
        assert v.running[t].origin == after[i].0 && v.running[t].asking == Some(after[i].1);
      } else {
        assert v.running[task].asking == Some(after[i].1);
      }
    }
  }

  lemma StartsKeepUsed(w: World, v: World)
    requires OnlyStarts(w.running, v.running) && v.hub.awaitingTrust == w.hub.awaitingTrust
    requires SlotsAreUsed(w.running, w.hub.awaitingTrust)
    ensures SlotsAreUsed(v.running, v.hub.awaitingTrust)
  {
    var waiting := w.hub.awaitingTrust;
    forall i | 0 <= i < |waiting| ensures Asks(v.running, waiting[i].0, waiting[i].1) {
      assert Asks(w.running, waiting[i].0, waiting[i].1);
      var t :| 0 <= t < |w.running| && w.running[t].origin == waiting[i].0 && w.running[t].asking == Some(waiting[i].1);
      assert v.running[t] == w.running[t];
    }
  }

  lemma StepKeepsUsed(c: Config, w: World, step: Step)
    requires TrustSound(w.running, w.hub.awaitingTrust) && SlotsAreUsed(w.running, w.hub.awaitingTrust)
    ensures var v := Next(c, w, step); SlotsAreUsed(v.running, v.hub.awaitingTrust)
  {
    hide TrustSound, SlotsAreUsed, Ends;
    var v := Next(c, w, step);
    if !Enabled(w, step) {
    } else if step.AskTrust? {
      AskKeepsUsed(c, w, step.task, step.ski);
    } else if step.Establish? || step.Fail? {
      EndsAre(c, w, step, step.task);
      EndKeepsUsed(w, v, step.task);
    } else {
      hide Next;
      OthersOnlyStart(c, w, step);
      StartsKeepUsed(w, v);
    }
  }

  /** In every run each slot taken is one that a running handshake's peer waits in. */
  lemma {:induction false} EveryRunUsesSlots(c: Config, steps: seq<Step>)
    ensures SlotsAreUsed(Run(c, steps).running, Run(c, steps).hub.awaitingTrust)
    decreases |steps|
  {
    hide Next, SlotsAreUsed, TrustSound;
    if steps == [] {
      NothingToUse();
    } else {
      var front, step := steps[..|steps| - 1], steps[|steps| - 1];
      EveryRunUsesSlots(c, front);
      EveryRunBoundsTrust(c, front);
      StepKeepsUsed(c, Run(c, front), step);
    }
  }

  lemma NothingToUse()
    ensures SlotsAreUsed([], [])
  {
  }

  lemma {:induction false} AsManyPeersAsSlots(waiting: seq<(Origin, Ski)>)
    requires EachOnce(waiting)
    ensures |RecordedPeers(waiting)| == |waiting|
    decreases |waiting|
  {
    if waiting != [] {
      var n := |waiting| - 1;
      var front := waiting[..n];
      AsManyPeersAsSlots(front);
      assert RecordedPeers(waiting) == RecordedPeers(front) + {waiting[n].1};
      assert waiting[n].1 !in RecordedPeers(front);
    }
  }

  lemma WaitingAreRecorded(w: World)
    requires OnRecord(w) && SlotsAreUsed(w.running, w.hub.awaitingTrust)
    ensures WaitingPeers(w.running) == RecordedPeers(w.hub.awaitingTrust)
  {
    var waiting := w.hub.awaitingTrust;
    forall ski | ski in WaitingPeers(w.running) ensures ski in RecordedPeers(waiting) {
      assert IsWaiting(waiting, ski);
    }
    forall ski | ski in RecordedPeers(waiting) ensures ski in WaitingPeers(w.running) {
      var i :| 0 <= i < |waiting| && waiting[i].1 == ski;
      assert Asks(w.running, waiting[i].0, ski);
    }
  }

  /** So in a run that strands nobody, the peers that wait are those with a slot, four at most. */
  lemma AtMostFourWait(c: Config, steps: seq<Step>)
    requires NobodyStranded(c, steps)
    ensures var w := Run(c, steps);
            && WaitingPeers(w.running) == RecordedPeers(w.hub.awaitingTrust)
            && |WaitingPeers(w.running)| == |w.hub.awaitingTrust| <= MAX_PENDING_TRUST
  {
    hide NobodyStranded, OnRecord, SlotsAreUsed, WaitingPeers, RecordedPeers, Run, AlwaysOnRecord;
    OnRecordUnlessStranded(c, steps);
    EveryRunUsesSlots(c, steps);
    EveryRunBoundsTrust(c, steps);
    WaitingAreRecorded(Run(c, steps));
    AsManyPeersAsSlots(Run(c, steps).hub.awaitingTrust);
  }

  // ---- five peers can wait -------------------------------------------------------------------------

  /** `n` handshakes accepted, from one address each. */
  function AcceptedFrom(n: nat): seq<Handshake> {
    seq(n, i requires 0 <= i < n => Handshake(Accepted(i), None, None))
  }

  function Accepts(n: nat): seq<Step> {
    seq(n, i requires 0 <= i < n => Accept(i))
  }

  lemma {:induction false} AllAccepted(c: Config, n: nat)
    requires n + 2 <= c.maxConnections
    ensures var w := Run(c, Accepts(n));
            && w.running == AcceptedFrom(n) && w.hub.awaitingTrust == [] && w.hub.links == []
            && w.hub.inFlightDialed == 0 && w.hub.inFlightAccepted == n
  {
    if n > 0 {
      AllAccepted(c, n - 1);
      assert Accepts(n) == Accepts(n - 1) + [Accept(n - 1)];
      hide Next, Run, Accepts;
      RunIsNext(c, Accepts(n - 1), Accept(n - 1));
      AcceptsOneMore(c, Run(c, Accepts(n - 1)), n - 1);
      assert AcceptedFrom(n) == AcceptedFrom(n - 1) + [Handshake(Accepted(n - 1), None, None)];
    }
  }

  lemma AcceptsOneMore(c: Config, w: World, from: nat)
    requires w.hub.links == [] && w.hub.inFlightDialed == 0 && w.hub.inFlightAccepted + 2 < c.maxConnections
    ensures var v := Next(c, w, Accept(from));
            && v.running == w.running + [Handshake(Accepted(from), None, None)]
            && v.hub.awaitingTrust == w.hub.awaitingTrust && v.hub.links == [] && v.hub.inFlightDialed == 0
            && v.hub.inFlightAccepted == w.hub.inFlightAccepted + 1
  {
  }

  /** Somebody new asks while there is a slot left, or somebody who has one asks again. */
  lemma AskedNext(c: Config, w: World, task: nat, ski: Ski)
    requires task < |w.running| && w.running[task].asking.None?
    requires forall i :: 0 <= i < |w.hub.awaitingTrust| ==> w.hub.awaitingTrust[i].0 != w.running[task].origin
    requires IsWaiting(w.hub.awaitingTrust, ski) || |w.hub.awaitingTrust| < MAX_PENDING_TRUST
    ensures var v := Next(c, w, AskTrust(task, ski));
            && v.running == w.running[task := w.running[task].(asking := Some(ski))]
            && v.hub.awaitingTrust
               == w.hub.awaitingTrust + if IsWaiting(w.hub.awaitingTrust, ski) then [] else [(w.running[task].origin, ski)]
  {
    hide IsWaiting;
    assert w.hub.awaitingTrust + [] == w.hub.awaitingTrust;
  }

  /** The run `steps` ends with these handshakes and these slots. */
  predicate Reaches(c: Config, steps: seq<Step>, running: seq<Handshake>, waiting: seq<(Origin, Ski)>) {
    Run(c, steps).running == running && Run(c, steps).hub.awaitingTrust == waiting
  }

  lemma SomebodyAsks(c: Config, steps: seq<Step>, running: seq<Handshake>, waiting: seq<(Origin, Ski)>, task: nat, ski: Ski)
    requires Reaches(c, steps, running, waiting) && task < |running| && running[task].asking.None?
    requires forall i :: 0 <= i < |waiting| ==> waiting[i].0 != running[task].origin && waiting[i].1 != ski
    requires |waiting| < MAX_PENDING_TRUST
    ensures Reaches(c, steps + [AskTrust(task, ski)], running[task := running[task].(asking := Some(ski))],
                    waiting + [(running[task].origin, ski)])
  {
    hide Run, Next, IsWaiting;
    NotAmong(waiting, ski);
    RunIsNext(c, steps, AskTrust(task, ski));
    AskedNext(c, Run(c, steps), task, ski);
  }

  lemma SameAsksAgain(c: Config, steps: seq<Step>, running: seq<Handshake>, waiting: seq<(Origin, Ski)>, task: nat, ski: Ski)
    requires Reaches(c, steps, running, waiting) && task < |running| && running[task].asking.None?
    requires forall i :: 0 <= i < |waiting| ==> waiting[i].0 != running[task].origin
    requires waiting != [] && waiting[0].1 == ski
    ensures Reaches(c, steps + [AskTrust(task, ski)], running[task := running[task].(asking := Some(ski))], waiting)
  {
    hide Run, Next, IsWaiting;
    IsAmong(waiting, 0);
    RunIsNext(c, steps, AskTrust(task, ski));
    AskedNext(c, Run(c, steps), task, ski);
  }

  /** The first two handshakes ask for the same peer, all others for different ones. */
  predicate OneTwice(skis: seq<Ski>) {
    && |skis| == 5 && skis[0] == skis[1]
    && forall i, j :: 0 <= i < j < 5 && j != 1 ==> skis[i] != skis[j]
  }

  function AskAll(skis: seq<Ski>, n: nat): seq<Step>
    requires n <= |skis|
  {
    seq(n, i requires 0 <= i < n => AskTrust(i, skis[i]))
  }

  function RunningAfter(skis: seq<Ski>, n: nat): seq<Handshake>
    requires n <= |skis|
  {
    seq(6, i requires 0 <= i < 6 => Handshake(Accepted(i), None, if i < n then Some(skis[i]) else None))
  }

  /** The slots after `n` have asked: the second handshake has none. */
  function SlotsAfter(skis: seq<Ski>, n: nat): seq<(Origin, Ski)>
    requires n <= |skis|
  {
    if n == 0 then [] else SlotsAfter(skis, n - 1) + if n == 2 then [] else [(Accepted(n - 1), skis[n - 1])]
  }

  lemma {:induction false} SlotsAfterAre(skis: seq<Ski>, n: nat)
    requires n <= |skis|
    ensures |SlotsAfter(skis, n)| == if n < 2 then n else n - 1
    ensures forall i :: 0 <= i < |SlotsAfter(skis, n)| ==>
              var k := if i == 0 then 0 else i + 1; k < n && SlotsAfter(skis, n)[i] == (Accepted(k), skis[k])
  {
    if n > 0 {
      SlotsAfterAre(skis, n - 1);
    }
  }

  lemma NoneAsked(c: Config, skis: seq<Ski>)
    requires c.maxConnections >= 8
    ensures Reaches(c, Accepts(6) + AskAll(skis, 0), RunningAfter(skis, 0), SlotsAfter(skis, 0))
  {
    AllAccepted(c, 6);
    hide Run, Accepts;
    assert Accepts(6) + AskAll(skis, 0) == Accepts(6);
    assert RunningAfter(skis, 0) == AcceptedFrom(6);
  }

  lemma RunningOneMore(skis: seq<Ski>, n: nat)
    requires 0 < n <= |skis| && n <= 5
    ensures |RunningAfter(skis, n - 1)| == 6
    ensures RunningAfter(skis, n - 1)[n - 1] == Handshake(Accepted(n - 1), None, None)
    ensures RunningAfter(skis, n - 1)[n - 1 := Handshake(Accepted(n - 1), None, Some(skis[n - 1]))] == RunningAfter(skis, n)
  {
  }

  lemma StepsOneMore(skis: seq<Ski>, n: nat)
    requires 0 < n <= |skis|
    ensures Accepts(6) + AskAll(skis, n - 1) + [AskTrust(n - 1, skis[n - 1])] == Accepts(6) + AskAll(skis, n)
  {
    hide Accepts;
    assert AskAll(skis, n) == AskAll(skis, n - 1) + [AskTrust(n - 1, skis[n - 1])];
  }

  lemma {:induction false} AllAsked(c: Config, skis: seq<Ski>, n: nat)
    requires c.maxConnections >= 8 && OneTwice(skis) && n <= 5
    ensures Reaches(c, Accepts(6) + AskAll(skis, n), RunningAfter(skis, n), SlotsAfter(skis, n))
  {
    if n == 0 {
      NoneAsked(c, skis);
    } else {
      hide Reaches, Accepts, AskAll, RunningAfter, SlotsAfter;
      AllAsked(c, skis, n - 1);
      SlotsAfterAre(skis, n - 1);
      SlotsOneMore(skis, n);
      RunningOneMore(skis, n);
      StepsOneMore(skis, n);
      var front, running, waiting := Accepts(6) + AskAll(skis, n - 1), RunningAfter(skis, n - 1), SlotsAfter(skis, n - 1);
      if n == 2 {
        SameAsksAgain(c, front, running, waiting, 1, skis[1]);
      } else {
        SomebodyAsks(c, front, running, waiting, n - 1, skis[n - 1]);
      }
    }
  }

  lemma SlotsOneMore(skis: seq<Ski>, n: nat)
    requires 0 < n <= |skis|
    ensures SlotsAfter(skis, n) == if n == 2 then SlotsAfter(skis, n - 1) else SlotsAfter(skis, n - 1) + [(Accepted(n - 1), skis[n - 1])]
  {
  }

  lemma IsAmong(waiting: seq<(Origin, Ski)>, i: nat)
    requires i < |waiting|
    ensures IsWaiting(waiting, waiting[i].1)
  {
  }

  lemma NotAmong(waiting: seq<(Origin, Ski)>, ski: Ski)
    requires forall i :: 0 <= i < |waiting| ==> waiting[i].1 != ski
    ensures !IsWaiting(waiting, ski)
  {
  }

  lemma FirstFails(c: Config, w: World, now: nat)
    requires w.running != [] && w.hub.awaitingTrust != [] && w.running[0].origin == w.hub.awaitingTrust[0].0
    ensures var v := Next(c, w, Fail(0, None, now));
            v.running == w.running[1..] && v.hub.awaitingTrust == w.hub.awaitingTrust[1..]
  {
    assert WaitingAt(w.hub.awaitingTrust, w.running[0].origin) == 0;
    hide AfterFailed, Next, WaitingAt;
    FailedNext(c, w, 0, None, now);
    FailedWaiting(c, w.hub, w.running[0].origin, w.running[0].expected, None, now);
    assert w.hub.awaitingTrust[..0] + w.hub.awaitingTrust[1..] == w.hub.awaitingTrust[1..];
    assert w.running[..0] + w.running[1..] == w.running[1..];
  }

  /** A handshake waits without a slot, its peer's first one fails, and the slot goes to a fifth peer. */
  function FiveWaitSteps(skis: seq<Ski>, fifth: Ski): seq<Step>
    requires |skis| == 5
  {
    Accepts(6) + AskAll(skis, 5) + [Fail(0, None, 0)] + [AskTrust(4, fifth)]
  }

  lemma FifthTakesSlot(c: Config, skis: seq<Ski>, fifth: Ski)
    requires c.maxConnections >= 8 && OneTwice(skis) && fifth !in skis
    ensures Run(c, FiveWaitSteps(skis, fifth)).running
         == RunningAfter(skis, 5)[1..][4 := Handshake(Accepted(5), None, Some(fifth))]
  {
    AllAsked(c, skis, 5);
    SlotsAfterAre(skis, 5);
    var steps := Accepts(6) + AskAll(skis, 5);
    hide Run, Next, Accepts, SlotsAfter;
    RunIsNext(c, steps, Fail(0, None, 0));
    FirstFails(c, Run(c, steps), 0);
    SomebodyAsks(c, steps + [Fail(0, None, 0)], RunningAfter(skis, 5)[1..], SlotsAfter(skis, 5)[1..], 4, fifth);
  }

  /**
   Nothing in the hub keeps a fifth peer from waiting: one need only have asked over two handshakes.
   The peers that wait are all five.
   */
  lemma FiveCanWait(c: Config, skis: seq<Ski>, fifth: Ski)
    requires c.maxConnections >= 8 && OneTwice(skis) && fifth !in skis
    ensures WaitingPeers(Run(c, FiveWaitSteps(skis, fifth)).running) == {skis[1], skis[2], skis[3], skis[4], fifth}
    ensures |WaitingPeers(Run(c, FiveWaitSteps(skis, fifth)).running)| == 5
    ensures !NobodyStranded(c, FiveWaitSteps(skis, fifth))
  {
    hide Run, NobodyStranded, WaitingPeers, FiveWaitSteps;
    FifthTakesSlot(c, skis, fifth);
    FiveDifferent(skis, fifth);
    if NobodyStranded(c, FiveWaitSteps(skis, fifth)) {
      AtMostFourWait(c, FiveWaitSteps(skis, fifth));
    }
  }

  lemma FiveDifferent(skis: seq<Ski>, fifth: Ski)
    requires OneTwice(skis) && fifth !in skis
    ensures WaitingPeers(RunningAfter(skis, 5)[1..][4 := Handshake(Accepted(5), None, Some(fifth))])
         == {skis[1], skis[2], skis[3], skis[4], fifth}
    ensures |{skis[1], skis[2], skis[3], skis[4], fifth}| == 5
  {
    var running := RunningAfter(skis, 5)[1..][4 := Handshake(Accepted(5), None, Some(fifth))];
    assert forall i :: 0 <= i < 4 ==> running[i].asking == Some(skis[i + 1]);
    forall ski | ski in {skis[1], skis[2], skis[3], skis[4], fifth} ensures ski in WaitingPeers(running) {
      assert running[4].asking == Some(fifth);
      assert running[0].asking == Some(skis[1]) && running[1].asking == Some(skis[2])
          && running[2].asking == Some(skis[3]) && running[3].asking == Some(skis[4]);
    }
    assert {skis[1], skis[2], skis[3], skis[4], fifth} == {skis[1]} + {skis[2]} + {skis[3]} + {skis[4]} + {fifth};
  }
}
