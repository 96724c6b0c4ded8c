/**
 Double connections, section 12.2.3 of SHIP 1.1.0: arbitration leaves the newest connection to
 the peer and touches no other, it ends after one probe, and both nodes keep the same one.
 */
module HubArbitration {
  import opened Wrappers
  import opened SkiText
  import opened Policy
  import opened HubState
  import opened HubRuns
  import opened HubPeers
  import opened HubTables

  /** The links to a peer, or the links to everyone else, in order. */
  function Links(links: seq<Link>, ski: Ski, to: bool): seq<Link> {
    if links == [] then []
    else
      var n := |links| - 1;
      Links(links[..n], ski, to) + if (links[n].ski == ski) == to then [links[n]] else []
  }

  function Openings(links: seq<Link>): seq<nat> {
    seq(|links|, i requires 0 <= i < |links| => links[i].openedAt)
  }

  lemma {:induction false} OpenedToAppend(links: seq<Link>, l: Link, ski: Ski)
    ensures OpenedTo(links + [l], ski) == OpenedTo(links, ski) + if l.ski == ski then [l.openedAt] else []
  {
    if links == [] {
      assert links + [l] == [l] && [l][1..] == [];
    } else {
      var head := if links[0].ski == ski then [links[0].openedAt] else [];
      assert (links + [l])[1..] == links[1..] + [l] && (links + [l])[0] == links[0];
      OpenedToAppend(links[1..], l, ski);
      var last := if l.ski == ski then [l.openedAt] else [];
      assert OpenedTo(links + [l], ski) == head + (OpenedTo(links[1..], ski) + last);
      assert head + (OpenedTo(links[1..], ski) + last) == head + OpenedTo(links[1..], ski) + last;
    }
  }

  lemma {:induction false} OpenedToIs(links: seq<Link>, ski: Ski)
    ensures OpenedTo(links, ski) == Openings(Links(links, ski, true))
    decreases |links|
  {
    if links != [] {
      var n := |links| - 1;
      OpenedToIs(links[..n], ski);
      OpenedToAppend(links[..n], links[n], ski);
      assert links == links[..n] + [links[n]];
      var front := Links(links[..n], ski, true);
      assert Openings(front + [links[n]]) == Openings(front) + [links[n].openedAt];
    }
  }

  lemma NewestOneMore(to: seq<Link>, l: Link)
    ensures Newest(Openings(to + [l])).value
         == if to == [] || to[Newest(Openings(to)).value].openedAt <= l.openedAt then |to|
            else Newest(Openings(to)).value
  {
    assert Openings(to + [l])[..|to|] == Openings(to);
  }

  /** The link the hub keeps is the one `newest` names among those to the peer. */
  lemma {:induction false} KeptIsNewest(links: seq<Link>, ski: Ski)
    ensures var to := Links(links, ski, true);
            && (NewestTo(links, ski) == |links| <==> to == [])
            && (to != [] ==> links[NewestTo(links, ski)] == to[Newest(Openings(to)).value])
    decreases |links|
  {
    if links != [] {
      var n := |links| - 1;
      KeptIsNewest(links[..n], ski);
      var front := Links(links[..n], ski, true);
      NewestOneMore(front, links[n]);
      assert Links(links, ski, true) == front + if links[n].ski == ski then [links[n]] else [];
      assert front + [] == front;
      hide Newest, Openings, Links;
    }
  }

  lemma LinksOneMore(links: seq<Link>, l: Link, ski: Ski, to: bool)
    ensures Links(links + [l], ski, to) == Links(links, ski, to) + if (l.ski == ski) == to then [l] else []
  {
    assert (links + [l])[..|links|] == links;
  }

  lemma UnmarkedOneMore(links: seq<Link>, marks: seq<bool>)
    requires links != [] && |marks| == |links|
    ensures var n := |links| - 1;
            Unmarked(links, marks) == if marks[n] then Unmarked(links[..n], marks[..n])
                                      else Unmarked(links[..n], marks[..n]) + [links[n]]
  {
    var front := Unmarked(links[..|links| - 1], marks[..|links| - 1]);
    assert front + [] == front;
  }

  lemma {:induction false} UnmarkedOne(links: seq<Link>, marks: seq<bool>, ski: Ski, keep: nat)
    requires |marks| == |links|
    requires forall i :: 0 <= i < |links| && links[i].ski == ski ==> marks[i] == (i != keep)
    ensures Links(Unmarked(links, marks), ski, true) == if keep < |links| && links[keep].ski == ski then [links[keep]] else []
    decreases |links|
  {
    if links != [] {
      var n := |links| - 1;
      UnmarkedOne(links[..n], marks[..n], ski, keep);
      UnmarkedOneMore(links, marks);
      LinksOneMore(Unmarked(links[..n], marks[..n]), links[n], ski, true);
      hide Links, Unmarked;
      assert keep < n ==> links[..n][keep] == links[keep];
    }
  }

  lemma {:induction false} UnmarkedOthers(links: seq<Link>, marks: seq<bool>, ski: Ski)
    requires |marks| == |links| && forall i :: 0 <= i < |links| && links[i].ski != ski ==> !marks[i]
    ensures Links(Unmarked(links, marks), ski, false) == Links(links, ski, false)
    decreases |links|
  {
    hide Links, Unmarked;
    if links == [] {
      NothingUnmarked(links, marks);
      assert links[..0] == [] && marks[..0] == [];
    } else {
      var n := |links| - 1;
      assert links == links[..n] + [links[n]];
      UnmarkedOthers(links[..n], marks[..n], ski);
      UnmarkedOneMore(links, marks);
      LinksOneMore(Unmarked(links[..n], marks[..n]), links[n], ski, false);
      LinksOneMore(links[..n], links[n], ski, false);
    }
  }

  /** The one kept of some links: the newest. */
  function Survivor(to: seq<Link>): seq<Link> {
    if to == [] then [] else [to[Newest(Openings(to)).value]]
  }

  lemma CloseDuplicatesKeepsNewest(s: State, ski: Ski)
    ensures var after := AfterCloseDuplicates(s, ski);
            && Links(after.links, ski, true) == Survivor(Links(s.links, ski, true))
            && Links(after.links, ski, false) == Links(s.links, ski, false)
            && !HasDuplicate(after.duplicates, ski)
  {
    var keep := NewestTo(s.links, ski);
    KeptIsNewest(s.links, ski);
    WithoutRecord(s.duplicates, ski, ski);
    if keep < |s.links| {
      var marks := MarkOthers(s.links, ski, keep);
      UnmarkedOne(s.links, marks, ski, keep);
      UnmarkedOthers(s.links, marks, ski);
    }
  }

  lemma {:induction false} DropMarkedLeaves(s: State, marks: seq<bool>, n: nat, reason: Disconnect)
    requires n <= |marks| <= |s.links|
    ensures DropMarked(s, marks, n, reason).links == Unmarked(s.links[..n], marks[..n]) + s.links[n..]
    decreases n
  {
    hide Unmarked;
    if n == 0 {
      NothingUnmarked(s.links, marks);
    } else {
      var m := n - 1;
      assert s.links[..n][..m] == s.links[..m] && marks[..n][..m] == marks[..m] && marks[..m][..m] == marks[..m];
      UnmarkedOneMore(s.links[..n], marks[..n]);
      var front := Unmarked(s.links[..m], marks[..m]);
      if marks[m] {
        var dropped := AfterDrop(s, m, reason);
        assert dropped.links[..m] == s.links[..m] && dropped.links[m..] == s.links[n..];
        DropMarkedLeaves(dropped, marks[..m], m, reason);
      } else {
        DropMarkedLeaves(s, marks[..m], m, reason);
        assert s.links[m..] == [s.links[m]] + s.links[n..];
        assert front + ([s.links[m]] + s.links[n..]) == front + [s.links[m]] + s.links[n..];
      }
    }
  }

  lemma NothingUnmarked(links: seq<Link>, marks: seq<bool>)
    ensures Unmarked(links[..0], marks[..0]) + links[0..] == links
  {
  }

  lemma DropAllMarked(s: State, marks: seq<bool>, reason: Disconnect)
    requires |marks| == |s.links|
    ensures DropMarked(s, marks, |marks|, reason).links == Unmarked(s.links, marks)
  {
    DropMarkedLeaves(s, marks, |marks|, reason);
    assert s.links[..|marks|] == s.links && marks[..|marks|] == marks && s.links[|marks|..] == [];
  }

  /** The links to a peer that answered the probe. */
  function AnsweredTo(links: seq<Link>, ski: Ski): seq<Link> {
    Links(Unmarked(links, MarkUnanswered(links, ski)), ski, true)
  }

  lemma CloseUnansweredKeepsNewest(s: State, ski: Ski)
    ensures var after := AfterCloseUnanswered(s, ski);
            && Links(after.links, ski, true) == Survivor(AnsweredTo(s.links, ski))
            && Links(after.links, ski, false) == Links(s.links, ski, false)
            && !HasDuplicate(after.duplicates, ski)
  {
    var marks := MarkUnanswered(s.links, ski);
    DropAllMarked(s, marks, Unresponsive);
    UnmarkedOthers(s.links, marks, ski);
    CloseDuplicatesKeepsNewest(DropMarked(s, marks, |marks|, Unresponsive), ski);
    hide DropMarked, AfterCloseDuplicates, Survivor, MarkUnanswered;
  }

  /**
   When a decision falls, the peer is left with its newest connection, of those that answered if
   it came to a probe; every other link stays, in order, and the record goes.
   */
  lemma ArbitrationSettles(c: Config, s: State, now: nat, sent: seq<bool>)
    requires s.duplicates != [] && |sent| == |s.links|
    ensures var ski, r := s.duplicates[0].ski, ResolutionFor(c, s, s.duplicates[0], now);
            var after := AfterArbitrate(c, s, now, sent);
            r == KeepNewest || r == CloseAfterProbe ==>
              && Links(after.links, ski, true)
                 == Survivor(if r == KeepNewest then Links(s.links, ski, true) else AnsweredTo(s.links, ski))
              && Links(after.links, ski, false) == Links(s.links, ski, false)
              && !HasDuplicate(after.duplicates, ski)
  {
    CloseDuplicatesKeepsNewest(s, s.duplicates[0].ski);
    CloseUnansweredKeepsNewest(s, s.duplicates[0].ski);
    hide Links, ResolutionFor, AfterCloseDuplicates, AfterCloseUnanswered, AfterProbe, AnsweredTo, Survivor, HasDuplicate;
  }

  lemma {:induction false} LinksCount(links: seq<Link>, ski: Ski)
    ensures |Links(links, ski, true)| == LinksTo(links, ski)
    decreases |links|
  {
    if links != [] {
      var n := |links| - 1;
      LinksCount(links[..n], ski);
      assert links == links[..n] + [links[n]];
      LinksAppend(links[..n], [links[n]], ski, true);
      OneLink(links[n], ski, true);
    }
  }

  // ---- one probe -----------------------------------------------------------------------

  lemma {:induction false} DropMarkedThins(s: State, marks: seq<bool>, n: nat, reason: Disconnect, ski: Ski)
    requires n <= |marks| <= |s.links|
    ensures LinksTo(DropMarked(s, marks, n, reason).links, ski) <= LinksTo(s.links, ski)
    decreases n
  {
    if n > 0 {
      if marks[n - 1] {
        LinksRemoved(s.links, n - 1, ski, true);
        DropMarkedThins(AfterDrop(s, n - 1, reason), marks[..n - 1], n - 1, reason, ski);
      } else {
        DropMarkedThins(s, marks[..n - 1], n - 1, reason, ski);
      }
    }
  }

  /** Dropping links to one peer leaves every record alone until the last of them is gone. */
  lemma {:induction false} DropMarkedRecords(s: State, marks: seq<bool>, n: nat, reason: Disconnect, ski: Ski)
    requires n <= |marks| <= |s.links| && forall i :: 0 <= i < n && marks[i] ==> s.links[i].ski == ski
    ensures var after := DropMarked(s, marks, n, reason);
            || after.duplicates == s.duplicates
            || (LinksTo(after.links, ski) == 0 && !HasDuplicate(after.duplicates, ski))
    decreases n
  {
    if n > 0 {
      if marks[n - 1] {
        var dropped := AfterDrop(s, n - 1, reason);
        DropMarkedRecords(dropped, marks[..n - 1], n - 1, reason, ski);
        DropMarkedThins(dropped, marks[..n - 1], n - 1, reason, ski);
        WithoutRecord(s.duplicates, ski, ski);
      } else {
        DropMarkedRecords(s, marks[..n - 1], n - 1, reason, ski);
      }
    }
  }

  /** A probe marks its record, or the record is gone with the last link. */
  lemma ProbeIsRecorded(s: State, now: nat, sent: seq<bool>)
    requires s.duplicates != [] && |sent| == |s.links|
    ensures var ski, after := s.duplicates[0].ski, AfterProbe(s, s.duplicates[0].ski, now, sent);
            || after.duplicates == [s.duplicates[0].(probed := true)] + s.duplicates[1..]
            || (LinksTo(after.links, ski) == 0 && !HasDuplicate(after.duplicates, ski))
  {
    var ski := s.duplicates[0].ski;
    var pinged := s.(links := AllProbed(s.links, ski, now, sent), duplicates := MarkProbed(s.duplicates, ski));
    DropMarkedRecords(pinged, MarkUnprobed(s.links, ski, sent), |sent|, Remote, ski);
  }

  /**
   The side that waits ends it too: past the grace period, looking at the record at most twice
   leaves at most one connection, whatever the pings did and however late the second look.
   */
  lemma ArbitrationEnds(c: Config, s: State, now: nat, later: nat, sent: seq<bool>, sentLater: seq<bool>)
    requires s.duplicates != [] && |sent| == |s.links|
    requires |sentLater| == |AfterArbitrate(c, s, now, sent).links|
    requires s.duplicates[0].since + ARBITRATION_DELAY <= now <= later
    ensures var ski, once := s.duplicates[0].ski, AfterArbitrate(c, s, now, sent);
            || LinksTo(once.links, ski) < 2
            || LinksTo(AfterArbitrate(c, once, later, sentLater).links, ski) < 2
  {
    var ski, once := s.duplicates[0].ski, AfterArbitrate(c, s, now, sent);
    OpenedToCounts(s.links, ski);
    LinksCount(once.links, ski);
    ArbitrationSettles(c, s, now, sent);
    if ResolutionFor(c, s, s.duplicates[0], now) == Probe {
      ProbeIsRecorded(s, now, sent);
      if LinksTo(once.links, ski) > 0 {
        OpenedToCounts(once.links, ski);
        ArbitrationSettles(c, once, later, sentLater);
        LinksCount(AfterArbitrate(c, once, later, sentLater).links, ski);
      }
    }
    hide AfterArbitrate, Links, LinksTo, OpenedTo, AnsweredTo;
  }

  /** Records only ever move on: the grace period keeps its start, and a probe is not forgotten. */
  predicate MovedOn(before: seq<Duplicate>, d: Duplicate) {
    HasDuplicate(before, d.ski) ==>
      exists i :: 0 <= i < |before| && before[i].ski == d.ski && before[i].since == d.since && (before[i].probed ==> d.probed)
  }

  predicate RecordsMoveOn(before: seq<Duplicate>, after: seq<Duplicate>) {
    forall j :: 0 <= j < |after| ==> MovedOn(before, after[j])
  }

  predicate Within(after: seq<Duplicate>, before: seq<Duplicate>) {
    forall d :: d in after ==> d in before
  }

  lemma MembersMoveOn(before: seq<Duplicate>, after: seq<Duplicate>)
    requires Within(after, before)
    ensures RecordsMoveOn(before, after)
  {
    forall j | 0 <= j < |after| ensures MovedOn(before, after[j]) {
      assert after[j] in before;
    }
  }

  lemma {:induction false} WithoutAreMembers(duplicates: seq<Duplicate>, ski: Ski)
    ensures Within(WithoutDuplicate(duplicates, ski), duplicates)
  {
    if duplicates != [] {
      WithoutAreMembers(duplicates[1..], ski);
    }
  }

  lemma {:induction false} DropMarkedAreMembers(s: State, marks: seq<bool>, n: nat, reason: Disconnect)
    requires n <= |marks| <= |s.links|
    ensures Within(DropMarked(s, marks, n, reason).duplicates, s.duplicates)
    decreases n
  {
    if n > 0 {
      if marks[n - 1] {
        var dropped := AfterDrop(s, n - 1, reason);
        DropMarkedAreMembers(dropped, marks[..n - 1], n - 1, reason);
        WithoutAreMembers(s.duplicates, s.links[n - 1].ski);
      } else {
        DropMarkedAreMembers(s, marks[..n - 1], n - 1, reason);
      }
    }
  }

  lemma {:induction false} MarkProbedMovesOn(duplicates: seq<Duplicate>, ski: Ski)
    ensures var probed := MarkProbed(duplicates, ski);
            && |probed| == |duplicates|
            && forall j :: 0 <= j < |probed| ==>
                 && probed[j].ski == duplicates[j].ski && probed[j].since == duplicates[j].since
                 && (duplicates[j].probed ==> probed[j].probed)
  {
    if duplicates != [] {
      MarkProbedMovesOn(duplicates[1..], ski);
    }
  }

  lemma ProbeMovesOn(s: State, ski: Ski, now: nat, sent: seq<bool>)
    requires |sent| == |s.links|
    ensures RecordsMoveOn(s.duplicates, AfterProbe(s, ski, now, sent).duplicates)
  {
    var probed := MarkProbed(s.duplicates, ski);
    MarkProbedMovesOn(s.duplicates, ski);
    var pinged := s.(links := AllProbed(s.links, ski, now, sent), duplicates := probed);
    DropMarkedAreMembers(pinged, MarkUnprobed(s.links, ski, sent), |sent|, Remote);
    var after := AfterProbe(s, ski, now, sent).duplicates;
    hide DropMarked, MarkProbed, AllProbed, MarkUnprobed, HasDuplicate;
    forall j | 0 <= j < |after| ensures MovedOn(s.duplicates, after[j]) {
      assert after[j] in probed;
      var i :| 0 <= i < |probed| && probed[i] == after[j];
      assert s.duplicates[i].ski == after[j].ski;
    }
  }

  lemma ArbitrateMovesOn(c: Config, s: State, now: nat, sent: seq<bool>)
    requires |sent| == |s.links|
    ensures RecordsMoveOn(s.duplicates, AfterArbitrate(c, s, now, sent).duplicates)
  {
    MembersMoveOn(s.duplicates, s.duplicates);
    if s.duplicates != [] {
      var ski := s.duplicates[0].ski;
      var closed := WithoutDuplicate(s.duplicates, ski);
      WithoutAreMembers(s.duplicates, ski);
      MembersMoveOn(s.duplicates, closed);
      ProbeMovesOn(s, ski, now, sent);
      var marks := MarkUnanswered(s.links, ski);
      DropMarkedAreMembers(s, marks, |marks|, Unresponsive);
      var dropped := DropMarked(s, marks, |marks|, Unresponsive).duplicates;
      WithoutAreMembers(dropped, ski);
      assert Within(WithoutDuplicate(dropped, ski), s.duplicates);
      MembersMoveOn(s.duplicates, WithoutDuplicate(dropped, ski));
    }
    hide RecordsMoveOn, ResolutionFor, AfterProbe, WithoutDuplicate, DropMarked, NewestTo;
  }

  lemma AdoptedMovesOn(c: Config, s: State, connection: nat, ski: Ski, origin: Origin, now: nat, bootstrap: seq<nat>)
    ensures var a := Adopted(c, s, connection, ski, origin, now, bootstrap);
            a.Taken? ==> RecordsMoveOn(s.duplicates, a.state.duplicates)
  {
    MembersMoveOn(s.duplicates, s.duplicates);
    var d := Duplicate(ski, now, false);
    if !HasDuplicate(s.duplicates, ski) {
      forall j | 0 <= j < |s.duplicates + [d]| ensures MovedOn(s.duplicates, (s.duplicates + [d])[j]) {
        assert j < |s.duplicates| ==> MovedOn(s.duplicates, s.duplicates[j]);
      }
    }
  }

  lemma DropMovesOn(s: State, index: nat, reason: Disconnect)
    requires index < |s.links|
    ensures RecordsMoveOn(s.duplicates, AfterDrop(s, index, reason).duplicates)
  {
    WithoutAreMembers(s.duplicates, s.links[index].ski);
    MembersMoveOn(s.duplicates, AfterDrop(s, index, reason).duplicates);
  }

  lemma ReceivingMovesOn(c: Config, s: State, index: nat, heard: Heard)
    requires index < |s.links|
    ensures RecordsMoveOn(s.duplicates, Receiving(c, s, index, heard).duplicates)
  {
    DropMovesOn(s, index, AddressConflict);
    MembersMoveOn(s.duplicates, s.duplicates);
    hide RecordsMoveOn, Conflicts, Heeded, Announces, WithoutDuplicate, LinksTo;
  }

  lemma TimersMoveOn(s: State, now: nat)
    ensures RecordsMoveOn(s.duplicates, AfterTimers(s, now).duplicates)
  {
    DropMarkedAreMembers(s.(links := AllKeptAlive(s.links, now)), MarkDead(s.links, now), |s.links|, Unresponsive);
    hide DropMarked;
    MembersMoveOn(s.duplicates, AfterTimers(s, now).duplicates);
  }

  lemma PingsMoveOn(s: State, now: nat, sent: seq<bool>)
    requires |sent| == |s.links|
    ensures RecordsMoveOn(s.duplicates, AfterKeepAlive(s, now, sent).duplicates)
  {
    DropMarkedAreMembers(s.(links := AllPinged(s.links, now, sent)), MarkUnsent(s.links, now, sent), |sent|, Remote);
    hide DropMarked;
    MembersMoveOn(s.duplicates, AfterKeepAlive(s, now, sent).duplicates);
  }

  lemma CloseLinksMovesOn(s: State, ski: Ski)
    ensures RecordsMoveOn(s.duplicates, AfterCloseLinks(s, ski).duplicates)
  {
    DropMarkedAreMembers(s, MarkPeer(s.links, ski), |s.links|, Local);
    hide DropMarked;
    MembersMoveOn(s.duplicates, AfterCloseLinks(s, ski).duplicates);
  }

  lemma EstablishedMovesOn(c: Config, s: State, n: nat, ski: Ski, origin: Origin, expected: Option<Ski>, now: nat, bootstrap: seq<nat>)
    ensures RecordsMoveOn(s.duplicates, AfterEstablished(c, s, n, ski, origin, expected, now, bootstrap).duplicates)
  {
    hide RecordsMoveOn, Adopted, AfterEstablished;
    MembersMoveOn(s.duplicates, s.duplicates);
    HubSlots.EstablishedTable(c, s, n, ski, origin, expected, now, bootstrap);
    AdoptedMovesOn(c, Released(s, origin), n, ski, origin, now, bootstrap);
  }

  /** In every step a record that stays keeps its start and its probe. */
  lemma StepMovesOn(c: Config, w: World, step: Step)
    ensures RecordsMoveOn(w.hub.duplicates, Next(c, w, step).hub.duplicates)
  {
    hide RecordsMoveOn, AfterArbitrate, AfterTimers, AfterKeepAlive, AfterCloseLinks, AfterDrop, Receiving, AfterEstablished, AfterFailed;
    var s := w.hub;
    MembersMoveOn(s.duplicates, s.duplicates);
    if Enabled(w, step) {
      match step
      case Redial(now, clock) =>
        DialingAllIsDialAll(c, w, DueDials(s, s.known, now), clock);
        DialAllSameTable(c, s, DueDials(s, s.known, now), clock);
      case Establish(task, ski, now) =>
        EstablishedMovesOn(c, s, w.nextConnection, ski, w.running[task].origin, w.running[task].expected, now,
                           [w.nextCounter, w.nextCounter + 1]);
      case Fail(task, peer, now) =>
        HubSlots.FailedTable(c, s, w.running[task].origin, w.running[task].expected, peer, now);
      case Receive(index, heard) => ReceivingMovesOn(c, s, index, heard);
      case Drop(index, reason) => DropMovesOn(s, index, reason);
      case CloseLinks(ski) => CloseLinksMovesOn(s, ski);
      case Timers(now) => TimersMoveOn(s, now);
      case KeepAlivePings(now, sent) => PingsMoveOn(s, now, sent);
      case Arbitrate(now, sent) => ArbitrateMovesOn(c, s, now, sent);
      case _ =>
    }
  }

  /** Whether this step sends out the probe of the double connection to `ski`. */
  predicate Probes(c: Config, w: World, step: Step, ski: Ski) {
    && step.Arbitrate? && Enabled(w, step)
    && w.hub.duplicates != [] && w.hub.duplicates[0].ski == ski
    && ResolutionFor(c, w.hub, w.hub.duplicates[0], step.now) == Probe
  }

  predicate ProbedAlready(duplicates: seq<Duplicate>, ski: Ski) {
    forall i :: 0 <= i < |duplicates| && duplicates[i].ski == ski ==> duplicates[i].probed
  }

  lemma ProbeMarksRecord(c: Config, w: World, step: Step, ski: Ski)
    requires WorldSound(c, w) && Probes(c, w, step, ski)
    ensures ProbedAlready(Next(c, w, step).hub.duplicates, ski)
  {
    ProbeIsRecorded(w.hub, step.now, step.sent);
    hide AfterProbe, ResolutionFor;
  }

  lemma RecordStaysProbed(before: seq<Duplicate>, after: seq<Duplicate>, ski: Ski)
    requires RecordsMoveOn(before, after) && HasDuplicate(before, ski) && ProbedAlready(before, ski)
    ensures ProbedAlready(after, ski)
  {
    forall j | 0 <= j < |after| && after[j].ski == ski ensures after[j].probed {
      assert MovedOn(before, after[j]);
    }
  }

  lemma {:induction false} ProbedUntil(c: Config, steps: seq<Step>, ski: Ski, i: nat, j: nat)
    requires i < j <= |steps| && Probes(c, WorldAt(c, steps, i), steps[i], ski)
    requires forall k :: i < k < j ==> HasDuplicate(WorldAt(c, steps, k).hub.duplicates, ski)
    ensures ProbedAlready(WorldAt(c, steps, j).hub.duplicates, ski)
    decreases j
  {
    hide Probes, ProbedAlready, HasDuplicate, RecordsMoveOn, Next, WorldSound;
    assert steps[..j][..j - 1] == steps[..j - 1];
    if j == i + 1 {
      EveryRunIsSound(c, steps[..i]);
      ProbeMarksRecord(c, WorldAt(c, steps, i), steps[i], ski);
    } else {
      ProbedUntil(c, steps, ski, i, j - 1);
      var w := WorldAt(c, steps, j - 1);
      StepMovesOn(c, w, steps[j - 1]);
      RecordStaysProbed(w.hub.duplicates, WorldAt(c, steps, j).hub.duplicates, ski);
    }
  }

  /** Over a whole run, while a double connection stays on record it is probed at most once. */
  lemma ProbedAtMostOnce(c: Config, steps: seq<Step>, ski: Ski, i: nat, j: nat)
    requires i < j < |steps| && Probes(c, WorldAt(c, steps, i), steps[i], ski)
    requires forall k :: i < k <= j ==> HasDuplicate(WorldAt(c, steps, k).hub.duplicates, ski)
    ensures !Probes(c, WorldAt(c, steps, j), steps[j], ski)
  {
    ProbedUntil(c, steps, ski, i, j);
    hide WorldAt, OpenedTo;
  }

  // ---- both nodes keep the same connection ---------------------------------------------------

  /** The newest once `l` comes after links whose newest is at `front`. */
  function NewestOf(links: seq<Link>, front: nat, l: Link, ski: Ski): nat
    requires front <= |links|
  {
    if l.ski != ski then (if front == |links| then |links| + 1 else front)
    else if front == |links| || links[front].openedAt <= l.openedAt then |links|
    else front
  }

  lemma NewestStep(links: seq<Link>, l: Link, ski: Ski)
    ensures NewestTo(links + [l], ski)
         == NewestOf(links, NewestTo(links, ski), l, ski)
  {
    assert (links + [l])[..|links|] == links;
  }

  predicate NewestIs(links: seq<Link>, ski: Ski, l: Link) {
    NewestTo(links, ski) < |links| && links[NewestTo(links, ski)] == l
  }

  /** A link no newer leaves the newest what it was; one no older takes its place. */
  lemma NewestAfter(links: seq<Link>, l: Link, ski: Ski)
    ensures forall k :: NewestIs(links, ski, k) && (l.ski != ski || l.openedAt < k.openedAt) ==> NewestIs(links + [l], ski, k)
    ensures l.ski == ski && (forall k :: k in links && k.ski == ski ==> k.openedAt <= l.openedAt) ==>
              NewestIs(links + [l], ski, l)
  {
    NewestStep(links, l, ski);
    hide NewestTo;
  }

  lemma NewestBefore(links: seq<Link>, l: Link, ski: Ski, k: Link)
    requires NewestIs(links + [l], ski, k)
    ensures || (NewestIs(links, ski, k) && (l.ski != ski || l.openedAt < k.openedAt))
            || (l == k && l.ski == ski && forall x :: x in links && x.ski == ski ==> x.openedAt <= l.openedAt)
  {
    var all := links + [l];
    NewestStep(links, l, ski);
    NewestToIs(all, ski);
    hide NewestTo;
    forall x | x in links && x.ski == ski && NewestTo(all, ski) == |links| ensures x.openedAt <= l.openedAt {
      var i :| 0 <= i < |links| && links[i] == x;
      assert all[i] == x;
    }
  }

  /** A link that answered and is the newest of all is the newest of those that answered. */
  lemma {:induction false} NewestAnswered(links: seq<Link>, ski: Ski, k: Link)
    requires NewestIs(links, ski, k) && !k.awaitingPong
    ensures NewestIs(Unmarked(links, MarkUnanswered(links, ski)), ski, k)
    decreases |links|
  {
    var n := |links| - 1;
    var marks := MarkUnanswered(links, ski);
    assert links == links[..n] + [links[n]];
    assert marks[..n] == MarkUnanswered(links[..n], ski);
    assert marks[n] ==> links[n].ski == ski && links[n].awaitingPong;
    UnmarkedOneMore(links, marks);
    var front := Unmarked(links[..n], marks[..n]);
    UnmarkedAreAmong(links[..n], marks[..n]);
    hide *;
    NewestBefore(links[..n], links[n], ski, k);
    NewestAfter(front, links[n], ski);
    if NewestIs(links[..n], ski, k) && (links[n].ski != ski || links[n].openedAt < k.openedAt) {
      NewestAnswered(links[..n], ski, k);
    }
  }

  lemma UnmarkedAreAmong(links: seq<Link>, marks: seq<bool>)
    requires |marks| == |links|
    ensures forall x :: x in Unmarked(links, marks) ==> x in links
  {
    forall x | x in Unmarked(links, marks) ensures x in links {
      UnmarkedAreMembers(links, marks, x);
    }
  }

  lemma AnsweredKeepsNewest(links: seq<Link>, ski: Ski, i: nat)
    requires Links(links, ski, true) != [] && i == Newest(Openings(Links(links, ski, true))).value
    requires !Links(links, ski, true)[i].awaitingPong
    ensures Survivor(AnsweredTo(links, ski)) == [Links(links, ski, true)[i]]
  {
    KeptIsNewest(links, ski);
    NewestAnswered(links, ski, links[NewestTo(links, ski)]);
    KeptIsNewest(Unmarked(links, MarkUnanswered(links, ski)), ski);
    hide Links, MarkUnanswered, Unmarked;
  }

  /**
   Two nodes that hold the same connections in the same order, with the newest answering, keep
   the same one: `a`, which decides, at its first look, and `b`, which waits, after its probe.
   */
  lemma BothKeepTheSame(ca: Config, a: State, nowA: nat, sentA: seq<bool>,
                        cb: Config, b: State, nowB: nat, sentB: seq<bool>, place: seq<nat>)
    requires ArbiterOf(ca.ski, cb.ski) == LocalDecides
    requires a.duplicates != [] && a.duplicates[0].ski == cb.ski && |sentA| == |a.links|
    requires b.duplicates != [] && b.duplicates[0].ski == ca.ski && |sentB| == |b.links|
    requires LinksTo(a.links, cb.ski) >= 2
    requires OrderAlike(OpenedTo(a.links, cb.ski), OpenedTo(b.links, ca.ski), place)
    requires b.duplicates[0].probed && b.duplicates[0].since + ARBITRATION_DELAY <= nowB
    requires var i := NewestTo(b.links, ca.ski); i < |b.links| && !b.links[i].awaitingPong
    ensures var la, lb := Links(a.links, cb.ski, true), Links(b.links, ca.ski, true);
            var keptA := Links(AfterArbitrate(ca, a, nowA, sentA).links, cb.ski, true);
            var keptB := Links(AfterArbitrate(cb, b, nowB, sentB).links, ca.ski, true);
            && |la| == |lb| == |place|
            && exists i :: 0 <= i < |place| && place[i] < |lb| && keptA == [la[i]] && keptB == [lb[place[i]]]
  {
    var la, lb := Links(a.links, cb.ski, true), Links(b.links, ca.ski, true);
    OpenedToIs(a.links, cb.ski);
    OpenedToIs(b.links, ca.ski);
    OpenedToCounts(a.links, cb.ski);
    GreaterIsTotal(ca.ski, cb.ski);
    SameOneIsKept(Openings(la), Openings(lb), place);
    KeptIsNewest(b.links, ca.ski);
    var i := Newest(Openings(la)).value;
    AnsweredKeepsNewest(b.links, ca.ski, place[i]);
    ArbitrationSettles(ca, a, nowA, sentA);
    ArbitrationSettles(cb, b, nowB, sentB);
    hide AfterArbitrate, Links, OpenedTo, AnsweredTo, Openings;
    assert Links(AfterArbitrate(ca, a, nowA, sentA).links, cb.ski, true) == [la[i]];
  }
}
