/**
 What holds in every reachable table: routing finds the only link there can be, and a binding
 outlives everything but its link.
 */
module HubClaims {
  import opened Wrappers
  import opened SkiText
  import opened HubState
  import opened HubRuns
  import opened HubSlots
  import opened HubPeers
  import opened HubTables

  // ---- routing -------------------------------------------------------------------------

  lemma {:induction false} RouteIsFirst(links: seq<Link>, device: Option<string>, counter: Option<nat>)
    ensures var r := Route(links, device, counter);
            && (r.Some? ==> Answers(links[r.value], device, counter))
            && forall i :: 0 <= i < (if r.Some? then r.value else |links|) ==> !Answers(links[i], device, counter)
  {
    if links != [] {
      RouteIsFirst(links[1..], device, counter);
      assert forall i :: 1 <= i < |links| ==> links[i] == links[1..][i - 1];
    }
  }

  predicate Answers(l: Link, device: Option<string>, counter: Option<nat>) {
    if device.Some? then l.device == device else counter.Some? && counter.value in l.bootstrap
  }

  /** An addressed datagram goes to the one link bound to its address, a bare one to the one that asked. */
  lemma RouteFindsTheOnlyLink(c: Config, w: World, device: Option<string>, counter: Option<nat>, i: nat)
    requires WorldSound(c, w) && i < |w.hub.links|
    ensures Route(w.hub.links, device, counter) == Some(i) <==> Answers(w.hub.links[i], device, counter)
  {
    RouteIsFirst(w.hub.links, device, counter);
    var r := Route(w.hub.links, device, counter);
    if r.Some? && r.value != i {
      assert Apart(w.hub.links[r.value], w.hub.links[i]);
    }
  }

  /** Nothing is ever routed to this node's own address. */
  lemma NothingIsRoutedHere(c: Config, w: World, counter: Option<nat>)
    requires WorldSound(c, w)
    ensures Route(w.hub.links, Some(c.device), counter) == None
  {
    RouteIsFirst(w.hub.links, Some(c.device), counter);
    assert forall i :: 0 <= i < |w.hub.links| ==> LinkSound(c, w.nextConnection, w.nextCounter, w.hub.links[i]);
  }

  // ---- what becomes of a link -----------------------------------------------------------

  /** The same connection later on: what was learned over it stays learned. */
  predicate Continues(a: Link, b: Link) {
    && a.connection == b.connection && a.ski == b.ski && a.origin == b.origin && a.openedAt == b.openedAt
    && (a.device.Some? ==> b.device == a.device)
    && (a.announced ==> b.announced)
  }

  /** A datagram on a connection, and whether it completes what makes its peer discovered. */
  datatype News = News(connection: nat, heard: Heard, completes: bool)

  /** The datagram of a step completes a discovery: its link is announced from this step on. */
  predicate Reports(c: Config, w: World, step: Step) {
    && step.Receive? && step.index < |w.hub.links|
    && !Conflicts(c, w.hub.links, step.index, step.heard)
    && Announces(Heeded(w.hub.links[step.index], step.heard))
  }

  function NewsOf(c: Config, w: World, step: Step): Option<News> {
    if step.Receive? && step.index < |w.hub.links|
    then Some(News(w.hub.links[step.index].connection, step.heard, Reports(c, w, step)))
    else None
  }

  /**
   What a datagram makes of a connection that survives it: it takes the first address heard and
   loses the read answered, and no other; nothing else binds, answers or announces.
   */
  ghost predicate Follows(a: Link, b: Link, news: Option<News>) {
    && Continues(a, b)
    && if news.Some? && news.value.connection == a.connection then
         && b.device == (if a.device.Some? then a.device else news.value.heard.device)
         && (forall k :: k in b.bootstrap <==> k in a.bootstrap && news.value.heard.reference != Some(k))
         && (b.announced <==> a.announced || news.value.completes)
       else
         b.device == a.device && b.bootstrap == a.bootstrap && b.announced == a.announced
  }

  ghost predicate IsContinued(before: seq<Link>, l: Link, news: Option<News>) {
    exists i :: 0 <= i < |before| && Follows(before[i], l, news)
  }

  /** Every link from before `n` continues one there was; the others are new. */
  ghost predicate Inherited(before: seq<Link>, after: seq<Link>, n: nat, news: Option<News>) {
    forall j :: 0 <= j < |after| && after[j].connection < n ==> IsContinued(before, after[j], news)
  }

  lemma InheritedTwice(a: seq<Link>, b: seq<Link>, d: seq<Link>, n: nat)
    requires Inherited(a, b, n, None) && Inherited(b, d, n, None)
    ensures Inherited(a, d, n, None)
  {
    forall j | 0 <= j < |d| && d[j].connection < n ensures IsContinued(a, d[j], None) {
      assert IsContinued(b, d[j], None);
      var i :| 0 <= i < |b| && Follows(b[i], d[j], None);
      assert IsContinued(a, b[i], None);
      var h :| 0 <= h < |a| && Follows(a[h], b[i], None);
      assert Follows(a[h], d[j], None);
    }
  }

  lemma UpdatedInherit(a: seq<Link>, b: seq<Link>, n: nat, news: Option<News>)
    requires |a| == |b| && forall i :: 0 <= i < |a| ==> Follows(a[i], b[i], news)
    ensures Inherited(a, b, n, news)
  {
    forall j | 0 <= j < |b| ensures IsContinued(a, b[j], news) {
      assert Follows(a[j], b[j], news);
    }
  }

  lemma TouchedInherit(links: seq<Link>, index: nat, l: Link, n: nat)
    requires index < |links| && SameConnection(links[index], l) && links[index].openedAt == l.openedAt
    ensures Inherited(links, links[index := l], n, None)
  {
    UpdatedInherit(links, links[index := l], n, None);
  }

  lemma MembersInherit(a: seq<Link>, b: seq<Link>, n: nat)
    requires forall j :: 0 <= j < |b| ==> b[j] in a
    ensures Inherited(a, b, n, None)
  {
    forall j | 0 <= j < |b| ensures IsContinued(a, b[j], None) {
      var i :| 0 <= i < |a| && a[i] == b[j];
      assert Follows(a[i], b[j], None);
    }
  }

  lemma DropInherits(s: State, index: nat, reason: Disconnect, n: nat)
    requires index < |s.links|
    ensures Inherited(s.links, AfterDrop(s, index, reason).links, n, None)
  {
    MembersInherit(s.links, RemoveAt(s.links, index), n);
  }

  lemma {:induction false} DropMarkedInherits(s: State, marks: seq<bool>, m: nat, reason: Disconnect, n: nat)
    requires m <= |marks| <= |s.links|
    ensures Inherited(s.links, DropMarked(s, marks, m, reason).links, n, None)
    decreases m
  {
    hide Inherited, AfterDrop;
    if m == 0 {
      MembersInherit(s.links, s.links, n);
    } else if marks[m - 1] {
      DropLength(s, m - 1, reason);
      DropInherits(s, m - 1, reason, n);
      var dropped := AfterDrop(s, m - 1, reason);
      DropMarkedInherits(dropped, marks[..m - 1], m - 1, reason, n);
      InheritedTwice(s.links, dropped.links, DropMarked(dropped, marks[..m - 1], m - 1, reason).links, n);
    } else {
      DropMarkedInherits(s, marks[..m - 1], m - 1, reason, n);
    }
  }

  lemma DropLength(s: State, index: nat, reason: Disconnect)
    requires index < |s.links|
    ensures |AfterDrop(s, index, reason).links| == |s.links| - 1
  {
  }

  lemma CloseDuplicatesInherits(s: State, ski: Ski, n: nat)
    ensures Inherited(s.links, AfterCloseDuplicates(s, ski).links, n, None)
  {
    var marks := MarkOthers(s.links, ski, NewestTo(s.links, ski));
    var left := AfterCloseDuplicates(s, ski).links;
    forall j | 0 <= j < |left| ensures left[j] in s.links {
      if left == Unmarked(s.links, marks) {
        UnmarkedAreMembers(s.links, marks, left[j]);
      }
    }
    MembersInherit(s.links, left, n);
  }

  lemma TimersInherit(s: State, now: nat, n: nat)
    ensures Inherited(s.links, AfterTimers(s, now).links, n, None)
  {
    var kept, marks := s.(links := AllKeptAlive(s.links, now)), MarkDead(s.links, now);
    UpdatedInherit(s.links, kept.links, n, None);
    DropMarkedInherits(kept, marks, |marks|, Unresponsive, n);
    hide Inherited, DropMarked, AllKeptAlive, MarkDead;
    InheritedTwice(s.links, kept.links, DropMarked(kept, marks, |marks|, Unresponsive).links, n);
  }

  lemma PingsInherit(s: State, now: nat, sent: seq<bool>, n: nat)
    requires |sent| == |s.links|
    ensures Inherited(s.links, AfterKeepAlive(s, now, sent).links, n, None)
  {
    var pinged := s.(links := AllPinged(s.links, now, sent));
    UpdatedInherit(s.links, pinged.links, n, None);
    var marks := MarkUnsent(s.links, now, sent);
    DropMarkedInherits(pinged, marks, |sent|, Remote, n);
    hide Inherited, DropMarked;
    InheritedTwice(s.links, pinged.links, DropMarked(pinged, marks, |sent|, Remote).links, n);
  }

  lemma ProbeInherits(s: State, ski: Ski, now: nat, sent: seq<bool>, n: nat)
    requires |sent| == |s.links|
    ensures Inherited(s.links, AfterProbe(s, ski, now, sent).links, n, None)
  {
    var pinged := s.(links := AllProbed(s.links, ski, now, sent), duplicates := MarkProbed(s.duplicates, ski));
    UpdatedInherit(s.links, pinged.links, n, None);
    var marks := MarkUnprobed(s.links, ski, sent);
    DropMarkedInherits(pinged, marks, |sent|, Remote, n);
    hide Inherited, DropMarked, MarkProbed;
    InheritedTwice(s.links, pinged.links, DropMarked(pinged, marks, |sent|, Remote).links, n);
  }

  lemma CloseUnansweredInherits(s: State, ski: Ski, n: nat)
    ensures Inherited(s.links, AfterCloseUnanswered(s, ski).links, n, None)
  {
    var marks := MarkUnanswered(s.links, ski);
    DropMarkedInherits(s, marks, |marks|, Unresponsive, n);
    var dropped := DropMarked(s, marks, |marks|, Unresponsive);
    CloseDuplicatesInherits(dropped, ski, n);
    hide Inherited, DropMarked, AfterCloseDuplicates;
    InheritedTwice(s.links, dropped.links, AfterCloseDuplicates(dropped, ski).links, n);
  }

  lemma ArbitrateInherits(c: Config, s: State, now: nat, sent: seq<bool>, n: nat)
    requires |sent| == |s.links|
    ensures Inherited(s.links, AfterArbitrate(c, s, now, sent).links, n, None)
  {
    hide Inherited, ResolutionFor, AfterCloseDuplicates, AfterProbe, AfterCloseUnanswered, WithoutDuplicate;
    UnchangedInherit(s.links, n);
    if s.duplicates != [] {
      CloseDuplicatesInherits(s, s.duplicates[0].ski, n);
      ProbeInherits(s, s.duplicates[0].ski, now, sent, n);
      CloseUnansweredInherits(s, s.duplicates[0].ski, n);
    }
  }

  lemma UnchangedInherit(links: seq<Link>, n: nat)
    ensures Inherited(links, links, n, None)
  {
    MembersInherit(links, links, n);
  }

  lemma ReceivingInherits(c: Config, w: World, step: Step)
    requires WorldSound(c, w) && step.Receive? && step.index < |w.hub.links|
    ensures Inherited(w.hub.links, Receiving(c, w.hub, step.index, step.heard).links, w.nextConnection, NewsOf(c, w, step))
  {
    var links, after := w.hub.links, Receiving(c, w.hub, step.index, step.heard).links;
    var news := NewsOf(c, w, step);
    if Conflicts(c, links, step.index, step.heard) {
      forall j | 0 <= j < |after| ensures IsContinued(links, after[j], news) {
        var i := if j < step.index then j else j + 1;
        assert Apart(links[i], links[step.index]);
        assert Follows(links[i], after[j], news);
      }
    } else {
      HeedingFollows(c, w, step);
      forall i | 0 <= i < |links| && i != step.index ensures Follows(links[i], after[i], news) {
        assert Apart(links[i], links[step.index]);
      }
      UpdatedInherit(links, after, w.nextConnection, news);
    }
  }

  lemma HeedingFollows(c: Config, w: World, step: Step)
    requires step.Receive? && step.index < |w.hub.links| && !Conflicts(c, w.hub.links, step.index, step.heard)
    ensures |Receiving(c, w.hub, step.index, step.heard).links| == |w.hub.links|
    ensures forall i :: 0 <= i < |w.hub.links| && i != step.index ==>
              Receiving(c, w.hub, step.index, step.heard).links[i] == w.hub.links[i]
    ensures Follows(w.hub.links[step.index], Receiving(c, w.hub, step.index, step.heard).links[step.index], NewsOf(c, w, step))
  {
    var l := w.hub.links[step.index];
    if step.heard.reference.Some? {
      forall k ensures k in WithoutCounter(l.bootstrap, step.heard.reference.value) <==> k in l.bootstrap && step.heard.reference != Some(k) {
        AnsweredGoes(l.bootstrap, step.heard.reference.value, k);
      }
    }
  }

  /** A read is outstanding after an answer if it was before and is not the one answered. */
  lemma {:induction false} AnsweredGoes(counters: seq<nat>, reference: nat, k: nat)
    ensures k in WithoutCounter(counters, reference) <==> k in counters && k != reference
  {
    if counters != [] {
      AnsweredGoes(counters[1..], reference, k);
    }
  }

  lemma EstablishedInherits(c: Config, w: World, task: nat, ski: Ski, now: nat)
    requires task < |w.running|
    ensures Inherited(w.hub.links, Next(c, w, Establish(task, ski, now)).hub.links, w.nextConnection, None)
  {
    var l := NewLink(w.nextConnection, ski, w.running[task].origin, now, [w.nextCounter, w.nextCounter + 1]);
    EstablishedSlots(c, w, task, ski, now, l);
    var after := Next(c, w, Establish(task, ski, now)).hub.links;
    hide Next;
    forall j | 0 <= j < |after| && after[j].connection < w.nextConnection ensures IsContinued(w.hub.links, after[j], None) {
      assert after[j] == w.hub.links[j];
      assert Follows(w.hub.links[j], after[j], None);
    }
  }

  /** Handshakes starting, failing and asking for trust, and peers remembered, leave the links alone. */
  lemma HandshakesKeepLinks(c: Config, w: World, step: Step)
    requires step.Accept? || step.Dial? || step.Redial? || step.Remember? || step.Forget? || step.AskTrust? || step.Fail?
          || step.WakeAt? || step.TakeEvent? || step.EngineSends?
    ensures Next(c, w, step).hub.links == w.hub.links && Next(c, w, step).nextConnection == w.nextConnection
  {
    hide AfterFailed, HasRoomFor, KnownAt, WaitingAt, IsWaiting, Asking, Remembered, WithoutKnown;
    var s := w.hub;
    if Enabled(w, step) {
      match step
      case Redial(now, clock) =>
        var due := DueDials(s, s.known, now);
        DialingAllIsDialAll(c, w, due, clock);
        DialAllSameTable(c, s, due, clock);
      case Fail(task, peer, now) => FailedTable(c, s, w.running[task].origin, w.running[task].expected, peer, now);
      case Remember(ski, address, now) => RememberKeepsLinks(c, s, ski, address, now);
      case _ =>
    }
  }

  lemma RememberKeepsLinks(c: Config, s: State, ski: Ski, address: nat, now: nat)
    ensures Remembered(c, s, ski, address, now).links == s.links
  {
  }

  /**
   In every step each link either is new or continues one there was. What was learned over it stays
   learned, and only a datagram on that very connection adds to it: an address, an answer, or both.
   */
  lemma StepInherits(c: Config, w: World, step: Step)
    requires WorldSound(c, w)
    ensures Inherited(w.hub.links, Next(c, w, step).hub.links, w.nextConnection, NewsOf(c, w, step))
    ensures w.nextConnection <= Next(c, w, step).nextConnection
  {
    hide Inherited, AfterTimers, AfterKeepAlive, AfterArbitrate, Receiving, AfterDrop, DropMarked, AfterEstablished, Reports,
         WorldSound, Dialing, DialingAll, AfterAccept, AfterFailed, AfterTrustRequested, Remembered, WithoutKnown, DueDials,
         Asking, AfterWakeAt;
    var n, s := w.nextConnection, w.hub;
    MembersInherit(s.links, s.links, n);
    if Enabled(w, step) {
      match step
      case Establish(task, ski, now) => EstablishedInherits(c, w, task, ski, now);
      case Frame(index, now) => TouchedInherit(s.links, index, Seen(s.links[index], now), n);
      case Pong(index) => TouchedInherit(s.links, index, Ponged(s.links[index]), n);
      case Receive(index, heard) => ReceivingInherits(c, w, step);
      case Drop(index, reason) => DropInherits(s, index, reason, n);
      case CloseLinks(ski) => DropMarkedInherits(s, MarkPeer(s.links, ski), |s.links|, Local, n);
      case Timers(now) => TimersInherit(s, now, n);
      case KeepAlivePings(now, sent) => PingsInherit(s, now, sent, n);
      case Arbitrate(now, sent) => ArbitrateInherits(c, s, now, sent, n);
      case _ => HandshakesKeepLinks(c, w, step);
    }
  }

  lemma SocketNamesOneLink(c: Config, n: nat, k: nat, links: seq<Link>, i: nat, j: nat)
    requires LinksSound(c, n, k, links) && i < |links| && j < |links|
    ensures links[i].connection == links[j].connection ==> i == j
  {
    assert i != j ==> Apart(links[i], links[j]);
  }

  lemma StepKeepsBinding(c: Config, w: World, step: Step, i: nat, j: nat)
    requires WorldSound(c, w) && i < |w.hub.links| && j < |Next(c, w, step).hub.links|
    requires w.hub.links[i].connection == Next(c, w, step).hub.links[j].connection
    ensures Continues(w.hub.links[i], Next(c, w, step).hub.links[j])
  {
    StepInherits(c, w, step);
    var links, l := w.hub.links, Next(c, w, step).hub.links[j];
    hide Next;
    assert LinkSound(c, w.nextConnection, w.nextCounter, links[i]);
    assert IsContinued(links, l, NewsOf(c, w, step));
    var h :| 0 <= h < |links| && Follows(links[h], l, NewsOf(c, w, step));
    SocketNamesOneLink(c, w.nextConnection, w.nextCounter, links, h, i);
  }

  /** Over a whole run, the binding of a link never changes while the link lives. */
  lemma {:induction false} BindingHolds(c: Config, steps: seq<Step>, i: nat, j: nat, a: nat, b: nat)
    requires i <= j <= |steps|
    requires a < |WorldAt(c, steps, i).hub.links| && b < |WorldAt(c, steps, j).hub.links|
    requires WorldAt(c, steps, i).hub.links[a].connection == WorldAt(c, steps, j).hub.links[b].connection
    ensures Continues(WorldAt(c, steps, i).hub.links[a], WorldAt(c, steps, j).hub.links[b])
    decreases j
  {
    hide Next, WorldSound;
    EveryRunIsSound(c, steps[..i]);
    if j == i {
      SoundNamesOneLink(c, WorldAt(c, steps, i), a, b);
    } else {
      assert steps[..j][..j - 1] == steps[..j - 1];
      var w, l := WorldAt(c, steps, j - 1), WorldAt(c, steps, j).hub.links[b];
      EveryRunIsSound(c, steps[..j - 1]);
      ConnectionsAreOld(c, steps, i, j - 1, a);
      StepInherits(c, w, steps[j - 1]);
      hide WorldAt, Inherited;
      LinkWasThere(w, Next(c, w, steps[j - 1]), b, NewsOf(c, w, steps[j - 1]));
      var h :| 0 <= h < |w.hub.links| && Continues(w.hub.links[h], l);
      BindingHolds(c, steps, i, j - 1, a, h);
      StepKeepsBinding(c, w, steps[j - 1], h, b);
    }
  }

  lemma LinkWasThere(w: World, v: World, b: nat, news: Option<News>)
    requires b < |v.hub.links| && Inherited(w.hub.links, v.hub.links, w.nextConnection, news)
    requires v.hub.links[b].connection < w.nextConnection
    ensures exists h :: 0 <= h < |w.hub.links| && Continues(w.hub.links[h], v.hub.links[b])
  {
    assert IsContinued(w.hub.links, v.hub.links[b], news);
  }

  lemma SoundNamesOneLink(c: Config, w: World, a: nat, b: nat)
    requires WorldSound(c, w) && a < |w.hub.links| && b < |w.hub.links|
    requires w.hub.links[a].connection == w.hub.links[b].connection
    ensures a == b
  {
    SocketNamesOneLink(c, w.nextConnection, w.nextCounter, w.hub.links, a, b);
  }

  /** Connections are numbered as they are made, so one held once is older than all made later. */
  lemma {:induction false} ConnectionsAreOld(c: Config, steps: seq<Step>, i: nat, j: nat, a: nat)
    requires i <= j <= |steps| && a < |WorldAt(c, steps, i).hub.links|
    ensures WorldAt(c, steps, i).hub.links[a].connection < WorldAt(c, steps, j).nextConnection
    decreases j
  {
    hide Next;
    if j == i {
      EveryRunIsSound(c, steps[..i]);
      var w := WorldAt(c, steps, i);
      assert LinkSound(c, w.nextConnection, w.nextCounter, w.hub.links[a]);
    } else {
      assert steps[..j][..j - 1] == steps[..j - 1];
      ConnectionsAreOld(c, steps, i, j - 1, a);
      EveryRunIsSound(c, steps[..j - 1]);
      StepInherits(c, WorldAt(c, steps, j - 1), steps[j - 1]);
    }
  }
}
