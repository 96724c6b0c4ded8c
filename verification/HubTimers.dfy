/**
 Timers, section 10.4 of SHIP 1.1.0 and the redial schedule: one pass discharges everything that
 was due, and closes a link as unresponsive only when its ping went unanswered all the time.
 */
module HubTimers {
  import opened SkiText
  import opened Policy
  import opened HubState
  import opened HubRuns
  import opened HubPeers
  import opened HubTables
  import opened HubArbitration

  // ---- pings and pongs ------------------------------------------------------------------

  /** While a keep-alive ping is on record, the connection awaits a pong unless one came in. */
  predicate PingSound(l: Link) {
    l.pingedAt.Some? ==> (l.awaitingPong <==> !l.ponged)
  }

  predicate PingsSound(links: seq<Link>) {
    forall i :: 0 <= i < |links| ==> PingSound(links[i])
  }

  lemma {:induction false} DropMarkedKeepsPings(s: State, marks: seq<bool>, n: nat, reason: Disconnect)
    requires PingsSound(s.links) && n <= |marks| <= |s.links|
    ensures PingsSound(DropMarked(s, marks, n, reason).links)
    decreases n
  {
    if n > 0 {
      if marks[n - 1] {
        DropMarkedKeepsPings(AfterDrop(s, n - 1, reason), marks[..n - 1], n - 1, reason);
      } else {
        DropMarkedKeepsPings(s, marks[..n - 1], n - 1, reason);
      }
    }
  }

  lemma CloseDuplicatesKeepsPings(s: State, ski: Ski)
    requires PingsSound(s.links)
    ensures PingsSound(AfterCloseDuplicates(s, ski).links)
  {
    var marks := MarkOthers(s.links, ski, NewestTo(s.links, ski));
    var left := Unmarked(s.links, marks);
    forall i | 0 <= i < |left| ensures PingSound(left[i]) {
      UnmarkedAreMembers(s.links, marks, left[i]);
    }
  }

  lemma ArbitrateKeepsPings(c: Config, s: State, now: nat, sent: seq<bool>)
    requires PingsSound(s.links) && |sent| == |s.links|
    ensures PingsSound(AfterArbitrate(c, s, now, sent).links)
  {
    hide PingsSound, ResolutionFor, DropMarked, AfterCloseDuplicates;
    if s.duplicates != [] {
      var ski := s.duplicates[0].ski;
      CloseDuplicatesKeepsPings(s, ski);
      ProbeKeepsPings(s, ski, now, sent);
      var marks := MarkUnanswered(s.links, ski);
      DropMarkedKeepsPings(s, marks, |marks|, Unresponsive);
      CloseDuplicatesKeepsPings(DropMarked(s, marks, |marks|, Unresponsive), ski);
      hide AfterProbe;
    }
  }

  /** The probe of a double connection counts an answered keep-alive before it asks again. */
  lemma ProbeKeepsPings(s: State, ski: Ski, now: nat, sent: seq<bool>)
    requires PingsSound(s.links) && |sent| == |s.links|
    ensures PingsSound(AfterProbe(s, ski, now, sent).links)
  {
    var probed := AllProbed(s.links, ski, now, sent);
    forall i | 0 <= i < |probed| ensures PingSound(probed[i]) {
      assert PingSound(s.links[i]);
    }
    DropMarkedKeepsPings(s.(links := probed, duplicates := MarkProbed(s.duplicates, ski)), MarkUnprobed(s.links, ski, sent), |sent|, Remote);
  }

  lemma StepKeepsPings(c: Config, w: World, step: Step)
    requires PingsSound(w.hub.links)
    ensures PingsSound(Next(c, w, step).hub.links)
  {
    hide PingsSound, AfterArbitrate, DropMarked, AfterEstablished, AfterFailed, Receiving, AfterDrop, AfterTimers, AfterKeepAlive;
    var s := w.hub;
    if Enabled(w, step) {
      match step
      case Redial(now, clock) =>
        DialingAllIsDialAll(c, w, DueDials(s, s.known, now), clock);
        DialAllSameTable(c, s, DueDials(s, s.known, now), clock);
      case Establish(task, ski, now) =>
        var l := NewLink(w.nextConnection, ski, w.running[task].origin, now, [w.nextCounter, w.nextCounter + 1]);
        HubSlots.EstablishedSlots(c, w, task, ski, now, l);
        AppendKeepsPings(s.links, l);
      case Fail(task, peer, now) =>
        HubSlots.FailedTable(c, s, w.running[task].origin, w.running[task].expected, peer, now);
      case Frame(index, now) => UpdateKeepsPings(s.links, index, Seen(s.links[index], now));
      case Pong(index) => UpdateKeepsPings(s.links, index, Ponged(s.links[index]));
      case Receive(index, heard) => ReceivingKeepsPings(c, s, index, heard);
      case Drop(index, reason) => DropKeepsPings(s, index, reason);
      case CloseLinks(ski) => DropMarkedKeepsPings(s, MarkPeer(s.links, ski), |s.links|, Local);
      case Timers(now) => TimersKeepPings(s, now);
      case KeepAlivePings(now, sent) => PingingKeepsPings(s, now, sent);
      case Arbitrate(now, sent) => ArbitrateKeepsPings(c, s, now, sent);
      case _ =>
    }
  }

  lemma AppendKeepsPings(links: seq<Link>, l: Link)
    requires PingsSound(links) && PingSound(l)
    ensures PingsSound(links + [l])
  {
  }

  lemma UpdateKeepsPings(links: seq<Link>, index: nat, l: Link)
    requires PingsSound(links) && index < |links| && (PingSound(links[index]) ==> PingSound(l))
    ensures PingsSound(links[index := l])
  {
  }

  lemma DropKeepsPings(s: State, index: nat, reason: Disconnect)
    requires PingsSound(s.links) && index < |s.links|
    ensures PingsSound(AfterDrop(s, index, reason).links)
  {
  }

  lemma ReceivingKeepsPings(c: Config, s: State, index: nat, heard: Heard)
    requires PingsSound(s.links) && index < |s.links|
    ensures PingsSound(Receiving(c, s, index, heard).links)
  {
    hide Conflicts, Announces;
  }

  lemma TimersKeepPings(s: State, now: nat)
    requires PingsSound(s.links)
    ensures PingsSound(AfterTimers(s, now).links)
  {
    var kept := s.(links := AllKeptAlive(s.links, now));
    forall i | 0 <= i < |kept.links| ensures PingSound(kept.links[i]) {
      assert PingSound(s.links[i]);
    }
    DropMarkedKeepsPings(kept, MarkDead(s.links, now), |s.links|, Unresponsive);
  }

  lemma PingingKeepsPings(s: State, now: nat, sent: seq<bool>)
    requires PingsSound(s.links) && |sent| == |s.links|
    ensures PingsSound(AfterKeepAlive(s, now, sent).links)
  {
    var pinged := s.(links := AllPinged(s.links, now, sent));
    forall i | 0 <= i < |pinged.links| ensures PingSound(pinged.links[i]) {
      assert PingSound(s.links[i]);
    }
    DropMarkedKeepsPings(pinged, MarkUnsent(s.links, now, sent), |sent|, Remote);
  }

  lemma {:induction false} EveryRunKeepsPings(c: Config, steps: seq<Step>)
    ensures PingsSound(Run(c, steps).hub.links)
    decreases |steps|
  {
    if steps != [] {
      EveryRunKeepsPings(c, steps[..|steps| - 1]);
      StepKeepsPings(c, Run(c, steps[..|steps| - 1]), steps[|steps| - 1]);
    }
  }

  /**
   The timer pass keeps exactly the links whose ping is not overdue, and a ping is overdue when
   no pong has come in since it went out, a whole timeout ago.
   */
  lemma UnresponsiveMeansUnanswered(c: Config, steps: seq<Step>, now: nat)
    ensures var s := Run(c, steps).hub;
            && AfterTimers(s, now).links == Unmarked(AllKeptAlive(s.links, now), MarkDead(s.links, now))
            && forall i :: 0 <= i < |s.links| ==>
                 (MarkDead(s.links, now)[i]
                  <==> s.links[i].pingedAt.Some? && !s.links[i].ponged && now >= s.links[i].pingedAt.value + PONG_TIMEOUT)
  {
    EveryRunKeepsPings(c, steps);
    var s := Run(c, steps).hub;
    DropAllMarked(s.(links := AllKeptAlive(s.links, now)), MarkDead(s.links, now), Unresponsive);
    hide Run, AllKeptAlive;
    assert forall i :: 0 <= i < |s.links| ==> PingSound(s.links[i]);
  }

  // ---- deadlines -----------------------------------------------------------------------------

  lemma KeptAliveHasTime(l: Link, now: nat)
    requires CheckLink(l, now) != Dead
    ensures KeptAlive(l, now).pingedAt.Some? ==> LinkDeadline(KeptAlive(l, now)) > now
  {
  }

  /** After the timer pass no ping is overdue; the keep-alive pass after it leaves every deadline ahead. */
  lemma PassDischargesLinks(s: State, now: nat, later: nat, sent: seq<bool>)
    requires now <= later && |sent| == |AfterTimers(s, now).links|
    ensures forall i :: 0 <= i < |AfterKeepAlive(AfterTimers(s, now), later, sent).links| ==>
              LinkDeadline(AfterKeepAlive(AfterTimers(s, now), later, sent).links[i]) > now
  {
    var kept, dead := AllKeptAlive(s.links, now), MarkDead(s.links, now);
    DropAllMarked(s.(links := kept), dead, Unresponsive);
    var fired := AfterTimers(s, now);
    assert fired.links == Unmarked(kept, dead);
    forall i | 0 <= i < |fired.links| ensures fired.links[i].pingedAt.Some? ==> LinkDeadline(fired.links[i]) > now {
      UnmarkedAreMembers(kept, dead, fired.links[i]);
      var j :| 0 <= j < |kept| && kept[j] == fired.links[i] && !dead[j];
      KeptAliveHasTime(s.links[j], now);
    }
    PingsHaveTime(fired, now, later, sent);
  }

  lemma PingsHaveTime(s: State, now: nat, later: nat, sent: seq<bool>)
    requires now <= later && |sent| == |s.links|
    requires forall i :: 0 <= i < |s.links| && s.links[i].pingedAt.Some? ==> LinkDeadline(s.links[i]) > now
    ensures forall i :: 0 <= i < |AfterKeepAlive(s, later, sent).links| ==>
              LinkDeadline(AfterKeepAlive(s, later, sent).links[i]) > now
  {
    var pinged, unsent := AllPinged(s.links, later, sent), MarkUnsent(s.links, later, sent);
    DropAllMarked(s.(links := pinged), unsent, Remote);
    var after := AfterKeepAlive(s, later, sent);
    assert after.links == Unmarked(pinged, unsent);
    forall i | 0 <= i < |after.links| ensures LinkDeadline(after.links[i]) > now {
      UnmarkedAreMembers(pinged, unsent, after.links[i]);
      var j :| 0 <= j < |pinged| && pinged[j] == after.links[i] && !unsent[j];
    }
  }
}
