/**
 The pairing policy of src/runtime/hub.rs (sections 4.3 and 10.3 of the SHIP Pairing Service):
 requests are taken up only while there is no unit, or none has been heard of for a quarter of
 an hour. Times are in milliseconds since the hub started.
 */
module Pairing {
  import opened Wrappers
  import opened SkiText
  import opened HubState
  import HubRuns
  import HubPending
  import opened HubArbitration
  import Hubs
  import Trust

  const REPLACEABLE_AFTER := 15 * 60 * 1000

  /** A hub with pairing turned on: when the unit was last in exchange, and the table. */
  datatype Device = Device(own: nat, store: Trust.Trusted, lastExchange: Option<nat>, hub: State)

  /** An announced request that authenticated and is addressed to this node. */
  datatype Request = Request(shipId: string, fingerprint: nat, curve: string)

  datatype Step =
    | Announce(request: Option<Request>, now: nat)
    | Exchange(fingerprint: nat, now: nat)
    | Observe(fingerprint: nat, ski: Ski)
    | Approve(peer: Trust.TrustedPeer)

  predicate Accepting(d: Device, now: nat) {
    d.store.unit.None? || now >= d.lastExchange.UnwrapOr(0) + REPLACEABLE_AFTER
  }

  /** `evaluate_pairing` takes up a request that is not for this node's own certificate. */
  predicate TakesUp(d: Device, step: Step) {
    && step.Announce? && step.request.Some? && Accepting(d, step.now)
    && step.request.value.fingerprint != d.own
  }

  function UnitOf(r: Request): Trust.PairedUnit {
    Trust.PairedUnit(r.shipId, r.fingerprint, r.curve, None)
  }

  /** The unit a request displaces, when it is another one. */
  function Displaced(d: Device, r: Request): Option<Trust.PairedUnit> {
    if d.store.unit.Some? && d.store.unit.value.fingerprint != r.fingerprint then d.store.unit else None
  }

  function Next(d: Device, step: Step): Device {
    match step
    case Announce(request, now) =>
      if !TakesUp(d, step) then d
      else
        var gone := Trust.UnitSki(Displaced(d, request.value));
        d.(store := Trust.Changed(d.store, Trust.TrustUnit(UnitOf(request.value))), lastExchange := Some(now),
           hub := if gone.Some? then AfterCloseLinks(d.hub, gone.value) else d.hub)
    case Exchange(fingerprint, now) => if Trust.IsUnit(d.store, fingerprint) then d.(lastExchange := Some(now)) else d
    case Observe(fingerprint, ski) => d.(store := Trust.Changed(d.store, Trust.ObserveUnitSki(fingerprint, ski)))
    case Approve(peer) => d.(store := Trust.Changed(d.store, Trust.Remember(peer)))
  }

  // ---- the hub's side of it, in place ---------------------------------------------------

  class PairingHub {
    const own: nat
    const store: Trust.TrustStore
    const hub: Hubs.Hub
    var lastExchange: Option<nat>

    ghost function View(): Device
      reads this, store, hub
    {
      Device(own, store.State(), lastExchange, hub.View())
    }

    constructor (own: nat, store: Trust.TrustStore, hub: Hubs.Hub)
      ensures this.own == own && this.store == store && this.hub == hub && lastExchange == None
    {
      this.own := own;
      this.store := store;
      this.hub := hub;
      lastExchange := None;
    }

    /** `evaluate_pairing`: the new unit is trusted, and the one it displaces cut off. */
    method EvaluatePairing(request: Option<Request>, now: nat) returns (taken: bool, displaced: Option<Trust.PairedUnit>)
      modifies this, store, hub
      ensures taken == TakesUp(old(View()), Announce(request, now))
      ensures View() == Next(old(View()), Announce(request, now))
      ensures displaced == if taken then Displaced(old(View()), request.value) else None
    {
      if store.unit.Some? && now < lastExchange.UnwrapOr(0) + REPLACEABLE_AFTER {
        return false, None;
      }
      if request.None? || request.value.fingerprint == own {
        return false, None;
      }
      var unit := UnitOf(request.value);
      displaced := store.TrustPairedUnit(unit);
      if displaced.Some? && displaced.value.fingerprint == unit.fingerprint {
        displaced := None;
      }
      lastExchange := Some(now);
      if displaced.Some? && displaced.value.ski.Some? {
        hub.CloseLinksTo(displaced.value.ski.value);
      }
      taken := true;
    }

    method NoteUnitExchange(fingerprint: nat, now: nat)
      modifies this`lastExchange
      ensures View() == Next(old(View()), Exchange(fingerprint, now))
    {
      if store.unit.Some? && store.unit.value.fingerprint == fingerprint {
        lastExchange := Some(now);
      }
    }
  }

  // ---- runs ---------------------------------------------------------------------------------

  function Run(d: Device, steps: seq<Step>): Device {
    if steps == [] then d else Next(Run(d, steps[..|steps| - 1]), steps[|steps| - 1])
  }

  function DeviceAt(d: Device, steps: seq<Step>, i: nat): Device
    requires i <= |steps|
  {
    Run(d, steps[..i])
  }

  function TimeOf(step: Step): Option<nat> {
    match step
    case Announce(_, now) => Some(now)
    case Exchange(_, now) => Some(now)
    case _ => None
  }

  /** The clock does not run backwards. */
  predicate InOrder(steps: seq<Step>) {
    forall i, j :: 0 <= i < j < |steps| && TimeOf(steps[i]).Some? && TimeOf(steps[j]).Some? ==>
      TimeOf(steps[i]).value <= TimeOf(steps[j]).value
  }

  /** A moment that restarts the quarter of an hour: a request taken up, or the unit heard from. */
  predicate Counts(d: Device, step: Step) {
    TakesUp(d, step) || (step.Exchange? && Trust.IsUnit(d.store, step.fingerprint))
  }

  predicate HeardSince(d: Device, since: nat) {
    d.store.unit.Some? && d.lastExchange.Some? && since <= d.lastExchange.value
  }

  lemma CountingIsRemembered(d: Device, step: Step)
    requires Counts(d, step)
    ensures HeardSince(Next(d, step), TimeOf(step).value)
  {
  }

  lemma RememberedOn(d: Device, step: Step, since: nat)
    requires HeardSince(d, since) && (TimeOf(step).Some? ==> since <= TimeOf(step).value)
    ensures HeardSince(Next(d, step), since)
  {
  }

  lemma {:induction false} HeardUntil(d: Device, steps: seq<Step>, i: nat, j: nat)
    requires InOrder(steps) && i < j <= |steps| && Counts(DeviceAt(d, steps, i), steps[i])
    ensures HeardSince(DeviceAt(d, steps, j), TimeOf(steps[i]).value)
    decreases j
  {
    hide HeardSince, Next;
    assert steps[..j][..j - 1] == steps[..j - 1];
    if j == i + 1 {
      CountingIsRemembered(DeviceAt(d, steps, i), steps[i]);
    } else {
      HeardUntil(d, steps, i, j - 1);
      RememberedOn(DeviceAt(d, steps, j - 1), steps[j - 1], TimeOf(steps[i]).value);
    }
  }

  /**
   In every run in which trust is not otherwise removed, a request is taken up only a whole
   quarter of an hour after the last one taken up and after anything was heard from the unit.
   */
  lemma PairingsKeepTheirDistance(d: Device, steps: seq<Step>, i: nat, j: nat)
    requires InOrder(steps) && i < j < |steps|
    requires Counts(DeviceAt(d, steps, i), steps[i]) && TakesUp(DeviceAt(d, steps, j), steps[j])
    ensures TimeOf(steps[j]).value >= TimeOf(steps[i]).value + 900_000
  {
    HeardUntil(d, steps, i, j);
  }

  predicate CountedAt(d: Device, steps: seq<Step>, i: nat)
    requires i < |steps|
  {
    Counts(DeviceAt(d, steps, i), steps[i])
  }

  /** Nothing that counted up to here is less than a quarter of an hour ago, nor is the hub's start. */
  predicate SilentAt(d: Device, steps: seq<Step>, now: nat) {
    && now >= 900_000
    && forall i :: 0 <= i < |steps| && CountedAt(d, steps, i) ==> now >= TimeOf(steps[i]).value + 900_000
  }

  lemma SilentOneMore(d: Device, front: seq<Step>, step: Step, now: nat)
    ensures SilentAt(d, front + [step], now)
       <==> SilentAt(d, front, now)
            && (Counts(Run(d, front), step) ==> now >= TimeOf(step).value + REPLACEABLE_AFTER)
  {
    var steps := front + [step];
    hide Counts, Run;
    forall i | 0 <= i < |front| ensures CountedAt(d, steps, i) <==> CountedAt(d, front, i) {
      assert steps[..i] == front[..i];
    }
    assert steps[..|front|] == front;
    assert CountedAt(d, steps, |front|) <==> Counts(Run(d, front), step);
  }

  /** The one instant the hub keeps stands for everything that ever restarted the quarter of an hour. */
  lemma {:induction false} LastExchangeStandsForAll(d: Device, steps: seq<Step>, now: nat)
    requires d.lastExchange.None? && InOrder(steps)
    ensures Run(d, steps).own == d.own
    ensures now >= Run(d, steps).lastExchange.UnwrapOr(0) + REPLACEABLE_AFTER <==> SilentAt(d, steps, now)
    decreases |steps|
  {
    if steps != [] {
      var front, step := steps[..|steps| - 1], steps[|steps| - 1];
      assert steps == front + [step];
      LastExchangeStandsForAll(d, front, now);
      SilentOneMore(d, front, step, now);
      if Counts(Run(d, front), step) && now >= TimeOf(step).value + REPLACEABLE_AFTER {
        EarlierCountsAreOlder(d, front, step, now);
      }
    }
  }

  lemma EarlierCountsAreOlder(d: Device, front: seq<Step>, step: Step, now: nat)
    requires InOrder(front + [step]) && TimeOf(step).Some?
    requires now >= TimeOf(step).value + REPLACEABLE_AFTER
    ensures SilentAt(d, front, now)
  {
    forall i | 0 <= i < |front| && CountedAt(d, front, i)
      ensures now >= TimeOf(front[i]).value + REPLACEABLE_AFTER
    {
      assert (front + [step])[i] == front[i];
      assert TimeOf((front + [step])[i]).value <= TimeOf((front + [step])[|front|]).value;
    }
  }

  /**
   After any run from the hub's start, a request from another certificate is taken up exactly when
   there is no unit, or nothing has restarted the quarter of an hour for that long.
   */
  lemma SilentUnitIsReplaceable(d: Device, steps: seq<Step>, r: Request, now: nat)
    requires d.lastExchange.None? && InOrder(steps) && r.fingerprint != d.own
    ensures TakesUp(Run(d, steps), Announce(Some(r), now))
       <==> Run(d, steps).store.unit.None? || SilentAt(d, steps, now)
  {
    LastExchangeStandsForAll(d, steps, now);
  }

  // ---- the displaced unit -------------------------------------------------------------------

  lemma {:induction false} AllMarkedGone(links: seq<Link>, marks: seq<bool>, ski: Ski)
    requires |marks| == |links| && forall i :: 0 <= i < |links| && links[i].ski == ski ==> marks[i]
    ensures LinksTo(Unmarked(links, marks), ski) == 0
    decreases |links|
  {
    if links != [] {
      var n := |links| - 1;
      AllMarkedGone(links[..n], marks[..n], ski);
      HubRuns.LinksAppend(Unmarked(links[..n], marks[..n]), [links[n]], ski, true);
      HubRuns.OneLink(links[n], ski, true);
      assert Unmarked(links[..n], marks[..n]) + [] == Unmarked(links[..n], marks[..n]);
    }
  }

  lemma ClosedLinksAreGone(s: State, ski: Ski)
    ensures LinksTo(AfterCloseLinks(s, ski).links, ski) == 0
    ensures Links(AfterCloseLinks(s, ski).links, ski, false) == Links(s.links, ski, false)
  {
    var marks := MarkPeer(s.links, ski);
    DropAllMarked(s, marks, Local);
    AllMarkedGone(s.links, marks, ski);
    UnmarkedOthers(s.links, marks, ski);
  }

  /**
   A displaced unit is gone at once: its certificate, its SKI and its connections, while every
   other peer keeps its trust and its links.
   */
  lemma DisplacedUnitIsGone(d: Device, r: Request, now: nat, other: Ski)
    requires Trust.Sound(d.store) && TakesUp(d, Announce(Some(r), now))
    requires Displaced(d, r).Some?
    ensures var after := Next(d, Announce(Some(r), now));
            var gone := Trust.UnitSki(d.store.unit);
            && !Trust.IsUnit(after.store, d.store.unit.value.fingerprint)
            && (if gone.None? then after.hub == d.hub
                else
                  && gone.value !in after.store.peers
                  && LinksTo(after.hub.links, gone.value) == 0
                  && Links(after.hub.links, gone.value, false) == Links(d.hub.links, gone.value, false))
            && (gone != Some(other) ==> (other in after.store.peers <==> other in d.store.peers))
            && (gone != Some(other) && other in d.store.peers ==> after.store.peers[other] == d.store.peers[other])
  {
    Trust.DisplacedLosesEverything(d.store, UnitOf(r), other);
    if Trust.UnitSki(d.store.unit).Some? {
      ClosedLinksAreGone(d.hub, Trust.UnitSki(d.store.unit).value);
    }
    hide AfterCloseLinks, Links, LinksTo;
  }

  /** A unit that pairs again displaces nobody: its connections stay, though its SKI is to be proved anew. */
  lemma PairingAgainClosesNothing(d: Device, r: Request, now: nat)
    requires TakesUp(d, Announce(Some(r), now)) && Trust.IsUnit(d.store, r.fingerprint)
    ensures var after := Next(d, Announce(Some(r), now));
            after.hub == d.hub && Trust.IsUnit(after.store, r.fingerprint)
  {
  }

  /**
   The unit taken up is let in from then on, under whatever SKI it presents, and it is the only
   trust the request adds; a request not taken up changes nothing.
   */
  lemma TakenUpIsLetIn(d: Device, r: Request, now: nat, ski: Ski)
    ensures var after := Next(d, Announce(Some(r), now));
            if !TakesUp(d, Announce(Some(r), now)) then after == d
            else
              && after.store.unit == Some(Trust.PairedUnit(r.shipId, r.fingerprint, r.curve, None))
              && Trust.Decided(after.store, ski, r.fingerprint).1 != Trust.Pending
              && (ski in after.store.peers <==> ski in d.store.peers && Trust.UnitSki(d.store.unit) != Some(ski))
              && after.hub.known == d.hub.known
  {
    Trust.OthersKeepTheirRecord(d.store, Trust.TrustUnit(UnitOf(r)), ski);
    Trust.UnitKeepsItsPairing(d.store, Trust.TrustUnit(UnitOf(r)), r.fingerprint);
    var gone := Trust.UnitSki(Displaced(d, r));
    if gone.Some? {
      HubPending.DropMarkedElsewhere(d.hub, MarkPeer(d.hub.links, gone.value), |d.hub.links|, Local);
    }
  }
}
