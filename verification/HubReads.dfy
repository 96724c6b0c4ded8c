/**
 The two opening reads of a connection: which of them are outstanding at any time of a run, and
 exactly when the peer is reported as discovered.
 */
module HubReads {
  import opened Wrappers
  import opened HubState
  import opened HubRuns
  import opened HubSlots
  import opened HubPeers
  import opened HubTables
  import opened HubClaims
  import opened HubDiscovery

  // ---- one datagram ---------------------------------------------------------------------

  /** The address heard is the one the link is bound to, or may bind it: nobody else answers to it. */
  predicate Fitting(c: Config, links: seq<Link>, index: nat, heard: Option<string>)
    requires index < |links|
  {
    heard.Some? ==>
      if links[index].device.Some? then links[index].device == heard
      else heard.value != c.device && forall i :: 0 <= i < |links| && i != index ==> links[i].device != heard
  }

  lemma FittingIs(c: Config, links: seq<Link>, index: nat, h: Heard)
    requires index < |links|
    ensures Fitting(c, links, index, h.device) <==> !Conflicts(c, links, index, h)
  {
    if h.device.Some? && links[index].device.None? {
      assert Some(h.device.value) == h.device;
    }
  }

  /**
   A datagram whose address does not fit costs its connection and reports why; any other leaves
   all links in place and changes its own alone.
   */
  lemma DatagramIs(c: Config, s: State, index: nat, h: Heard)
    requires index < |s.links|
    ensures var before, after := s.links[index], Receiving(c, s, index, h);
            if !Fitting(c, s.links, index, h.device) then
              && after.links == s.links[..index] + s.links[index + 1..]
              && after.pending == s.pending + [Disconnected(before.ski, AddressConflict)]
            else
              && |after.links| == |s.links|
              && (forall i :: 0 <= i < |s.links| && i != index ==> after.links[i] == s.links[i])
              && after.links[index].device == (if before.device.Some? then before.device else h.device)
              && (forall k :: k in after.links[index].bootstrap <==> k in before.bootstrap && h.reference != Some(k))
  {
    FittingIs(c, s.links, index, h);
    hide Fitting, Conflicts;
    if h.reference.Some? {
      forall k ensures k in WithoutCounter(s.links[index].bootstrap, h.reference.value) <==> k in s.links[index].bootstrap && h.reference != Some(k) {
        AnsweredGoes(s.links[index].bootstrap, h.reference.value, k);
      }
    }
  }

  /**
   A discovery is queued exactly by a datagram whose address fits, on a link not announced before
   that is bound by now, when it answers every read that was still outstanding.
   */
  lemma DiscoversExactly(c: Config, w: World, step: Step)
    ensures Discovers(c, w, step)
       <==> && step.Receive? && step.index < |w.hub.links|
            && Fitting(c, w.hub.links, step.index, step.heard.device)
            && var l := w.hub.links[step.index];
               !l.announced && (l.device.Some? || step.heard.device.Some?)
               && forall k :: k in l.bootstrap ==> step.heard.reference == Some(k)
  {
    OnlyReportsDiscover(c, w, step);
    if step.Receive? && step.index < |w.hub.links| {
      FittingIs(c, w.hub.links, step.index, step.heard);
      LastAnswered(w.hub.links[step.index].bootstrap, step.heard.reference);
    }
    hide Discovers, Conflicts, Fitting, WithoutCounter;
  }

  lemma LastAnswered(counters: seq<nat>, reference: Option<nat>)
    ensures (if reference.Some? then WithoutCounter(counters, reference.value) else counters) == []
       <==> forall k :: k in counters ==> reference == Some(k)
  {
    if reference.Some? {
      var rest := WithoutCounter(counters, reference.value);
      forall k | k in counters ensures k in rest <==> reference != Some(k) {
        AnsweredGoes(counters, reference.value, k);
      }
      if rest != [] {
        AnsweredGoes(counters, reference.value, rest[0]);
      }
    } else if counters != [] {
      assert counters[0] in counters;
    }
  }

  // ---- over a run -----------------------------------------------------------------------

  /** Step `e` establishes connection `n`. */
  predicate Opens(c: Config, steps: seq<Step>, e: nat, n: nat)
    requires e < |steps|
  {
    steps[e].Establish? && Enabled(WorldAt(c, steps, e), steps[e]) && WorldAt(c, steps, e).nextConnection == n
  }

  /** The two reads sent when it was. */
  predicate OpeningRead(c: Config, steps: seq<Step>, e: nat, k: nat)
    requires e < |steps|
  {
    k == WorldAt(c, steps, e).nextCounter || k == WorldAt(c, steps, e).nextCounter + 1
  }

  /** Step `r` is a datagram on connection `n`. */
  predicate HearsFrom(c: Config, steps: seq<Step>, r: nat, n: nat)
    requires r < |steps|
  {
    var links := WorldAt(c, steps, r).hub.links;
    steps[r].Receive? && steps[r].index < |links| && links[steps[r].index].connection == n
  }

  predicate RefersTo(c: Config, steps: seq<Step>, r: nat, n: nat, k: nat)
    requires r < |steps|
  {
    HearsFrom(c, steps, r, n) && steps[r].heard.reference == Some(k)
  }

  predicate NamesDevice(c: Config, steps: seq<Step>, r: nat, n: nat)
    requires r < |steps|
  {
    HearsFrom(c, steps, r, n) && steps[r].heard.device.Some?
  }

  predicate ReportsPeer(c: Config, steps: seq<Step>, r: nat, n: nat)
    requires r < |steps|
  {
    HearsFrom(c, steps, r, n) && Discovers(c, WorldAt(c, steps, r), steps[r])
  }

  /** A datagram after `e` and before `j` referred to it. */
  ghost predicate Answered(c: Config, steps: seq<Step>, e: nat, j: nat, n: nat, k: nat)
    requires j <= |steps|
  {
    exists r :: e < r < j && RefersTo(c, steps, r, n, k)
  }

  ghost predicate Named(c: Config, steps: seq<Step>, e: nat, j: nat, n: nat)
    requires j <= |steps|
  {
    exists r :: e < r < j && NamesDevice(c, steps, r, n)
  }

  ghost predicate Reported(c: Config, steps: seq<Step>, e: nat, j: nat, n: nat)
    requires j <= |steps|
  {
    exists r :: e < r < j && ReportsPeer(c, steps, r, n)
  }

  /** What a link knows is what was heard over its connection since it was established. */
  ghost predicate Followed(c: Config, steps: seq<Step>, e: nat, j: nat, l: Link)
    requires j <= |steps|
  {
    && e < j && Opens(c, steps, e, l.connection)
    && (forall k :: k in l.bootstrap <==> OpeningRead(c, steps, e, k) && !Answered(c, steps, e, j, l.connection, k))
    && (l.device.Some? <==> Named(c, steps, e, j, l.connection))
    && (l.announced <==> Reported(c, steps, e, j, l.connection))
  }

  lemma NewsIs(c: Config, steps: seq<Step>, j: nat, n: nat)
    requires j < |steps|
    ensures var news := NewsOf(c, WorldAt(c, steps, j), steps[j]);
            && (news.Some? && news.value.connection == n <==> HearsFrom(c, steps, j, n))
            && (news.Some? ==> news.value.heard == steps[j].heard
                               && (news.value.completes <==> Discovers(c, WorldAt(c, steps, j), steps[j])))
  {
    OnlyReportsDiscover(c, WorldAt(c, steps, j), steps[j]);
    hide WorldAt, Discovers, Reports;
  }

  lemma OneMoreHeard(c: Config, steps: seq<Step>, e: nat, j: nat, n: nat)
    requires e < j < |steps|
    ensures forall k :: Answered(c, steps, e, j + 1, n, k) <==> Answered(c, steps, e, j, n, k) || RefersTo(c, steps, j, n, k)
    ensures Named(c, steps, e, j + 1, n) <==> Named(c, steps, e, j, n) || NamesDevice(c, steps, j, n)
    ensures Reported(c, steps, e, j + 1, n) <==> Reported(c, steps, e, j, n) || ReportsPeer(c, steps, j, n)
  {
    hide RefersTo, NamesDevice, ReportsPeer;
  }

  lemma StillFollowed(c: Config, steps: seq<Step>, e: nat, j: nat, a: Link, b: Link)
    requires j < |steps| && Followed(c, steps, e, j, a)
    requires Follows(a, b, NewsOf(c, WorldAt(c, steps, j), steps[j]))
    ensures Followed(c, steps, e, j + 1, b)
  {
    OneMoreHeard(c, steps, e, j, a.connection);
    NewsIs(c, steps, j, a.connection);
    hide WorldAt, NewsOf, HearsFrom, Discovers, Answered, Named, Reported, OpeningRead, Opens;
  }

  lemma NewIsFollowed(c: Config, steps: seq<Step>, e: nat, l: Link)
    requires e < |steps| && Opens(c, steps, e, l.connection)
    requires l.device == None && !l.announced
    requires l.bootstrap == [WorldAt(c, steps, e).nextCounter, WorldAt(c, steps, e).nextCounter + 1]
    ensures Followed(c, steps, e, e + 1, l)
  {
    hide Opens, RefersTo, NamesDevice, ReportsPeer, WorldAt;
  }

  /** Only a handshake established makes a link, which knows nothing and awaits two answers. */
  lemma NewLinksAre(c: Config, w: World, step: Step, a: nat)
    requires WorldSound(c, w) && a < |Next(c, w, step).hub.links|
    requires Next(c, w, step).hub.links[a].connection >= w.nextConnection
    ensures step.Establish? && Enabled(w, step)
    ensures var l := Next(c, w, step).hub.links[a];
            && l.connection == w.nextConnection && l.device == None && !l.announced
            && l.bootstrap == [w.nextCounter, w.nextCounter + 1]
  {
    StepIsSound(c, w, step);
    var v := Next(c, w, step);
    assert LinkSound(c, v.nextConnection, v.nextCounter, v.hub.links[a]);
    OnlyEstablishNumbers(c, w, step);
    if step.Establish? && Enabled(w, step) {
      var l := NewLink(w.nextConnection, step.ski, w.running[step.task].origin, step.now, [w.nextCounter, w.nextCounter + 1]);
      EstablishedSlots(c, w, step.task, step.ski, step.now, l);
      hide Next;
      assert a < |w.hub.links| ==> LinkSound(c, w.nextConnection, w.nextCounter, w.hub.links[a]);
    }
  }

  lemma OnlyEstablishNumbers(c: Config, w: World, step: Step)
    ensures (step.Establish? && Enabled(w, step)) || Next(c, w, step).nextConnection == w.nextConnection
  {
    if step.Redial? && Enabled(w, step) {
      DialingAllIsDialAll(c, w, DueDials(w.hub, w.hub.known, step.now), step.clock);
    }
    hide DueDials, DialAll, AfterEstablished, AfterFailed, AfterTimers, AfterKeepAlive, AfterArbitrate, Receiving,
         AfterDrop, AfterTrustRequested, AfterAccept, AfterDial, Remembered, Asking, HasRoomFor;
  }

  /**
   At any time of a run, each link's outstanding reads are those of its two opening reads no datagram
   on its connection has referred to; it is bound if one named a device, and announced if one
   was the discovery of its peer.
   */
  lemma {:induction false} OutstandingAreUnanswered(c: Config, steps: seq<Step>, j: nat, a: nat) returns (e: nat)
    requires j <= |steps| && a < |WorldAt(c, steps, j).hub.links|
    ensures Followed(c, steps, e, j, WorldAt(c, steps, j).hub.links[a])
    decreases j
  {
    hide Followed, Follows, NewsOf, Next, Opens, WorldSound;
    assert j > 0 by {
      assert steps[..0] == [];
    }
    assert steps[..j][..j - 1] == steps[..j - 1];
    var w, l := WorldAt(c, steps, j - 1), WorldAt(c, steps, j).hub.links[a];
    EveryRunIsSound(c, steps[..j - 1]);
    if l.connection < w.nextConnection {
      StepInherits(c, w, steps[j - 1]);
      assert IsContinued(w.hub.links, l, NewsOf(c, w, steps[j - 1]));
      var h :| 0 <= h < |w.hub.links| && Follows(w.hub.links[h], l, NewsOf(c, w, steps[j - 1]));
      e := OutstandingAreUnanswered(c, steps, j - 1, h);
      StillFollowed(c, steps, e, j - 1, w.hub.links[h], l);
    } else {
      NewLinksAre(c, w, steps[j - 1], a);
      e := j - 1;
      OpensHere(c, steps, e);
      NewIsFollowed(c, steps, e, l);
    }
  }

  lemma OpensHere(c: Config, steps: seq<Step>, e: nat)
    requires e < |steps| && steps[e].Establish? && Enabled(WorldAt(c, steps, e), steps[e])
    ensures Opens(c, steps, e, WorldAt(c, steps, e).nextConnection)
  {
  }

  /**
   Over a whole run, a datagram on a connection reports its peer exactly if its address fits, no
   earlier one did, one of them has named a device, and each of the two opening reads
   has been answered on that connection, by this datagram or an earlier one.
   */
  lemma DiscoveredOnceAllAnswered(c: Config, steps: seq<Step>, i: nat, n: nat) returns (e: nat)
    requires i < |steps| && HearsFrom(c, steps, i, n)
    ensures e < i && Opens(c, steps, e, n)
    ensures Discovers(c, WorldAt(c, steps, i), steps[i])
       <==> && Fitting(c, WorldAt(c, steps, i).hub.links, steps[i].index, steps[i].heard.device)
            && !Reported(c, steps, e, i, n)
            && Named(c, steps, e, i + 1, n)
            && forall k :: OpeningRead(c, steps, e, k) ==> Answered(c, steps, e, i + 1, n, k)
  {
    e := OutstandingAreUnanswered(c, steps, i, steps[i].index);
    DiscoversExactly(c, WorldAt(c, steps, i), steps[i]);
    OneMoreHeard(c, steps, e, i, n);
    hide WorldAt, Discovers, Fitting, Answered, Named, Reported, OpeningRead, Opens;
  }
}
