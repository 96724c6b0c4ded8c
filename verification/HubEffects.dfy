/**
 What each pass over the connections changes, position by position: which links go, what becomes
 of the others, what is reported, and in which order.
 */
module HubEffects {
  import opened Wrappers
  import opened Sequences
  import opened SkiText
  import opened Policy
  import opened HubState
  import opened HubRuns
  import opened HubPeers
  import opened HubTables
  import opened HubArbitration
  import opened HubPending

  // ---- parts of lists -------------------------------------------------------------------

  lemma {:induction false} UnmarkedArePicked(s: seq<Link>, marks: seq<bool>) returns (at: seq<nat>)
    requires |marks| == |s|
    ensures PickedAt(at, s, Unmarked(s, marks))
    ensures forall i :: 0 <= i < |s| ==> (i in at <==> !marks[i])
    decreases |s|
  {
    if s == [] {
      at := [];
    } else {
      var n := |s| - 1;
      var before := Unmarked(s[..n], marks[..n]);
      var front := UnmarkedArePicked(s[..n], marks[..n]);
      UnmarkedOneMore(s, marks);
      hide *;
      assert before + [] == before;
      assert forall i :: 0 <= i < n ==> marks[..n][i] == marks[i];
      at := PickedLast(front, s, before, !marks[n]);
    }
  }

  lemma {:induction false} RecordsLeft(duplicates: seq<Duplicate>, ski: Ski) returns (at: seq<nat>)
    ensures PickedAt(at, duplicates, WithoutDuplicate(duplicates, ski))
    ensures forall i :: 0 <= i < |duplicates| ==> (i in at <==> duplicates[i].ski != ski)
  {
    if duplicates == [] {
      at := [];
    } else {
      var rest := RecordsLeft(duplicates[1..], ski);
      at := PickedNext(rest, duplicates, WithoutDuplicate(duplicates[1..], ski), duplicates[0].ski != ski);
    }
  }

  lemma {:induction false} EventsLeft(pending: seq<Event>, ski: Ski) returns (at: seq<nat>)
    ensures PickedAt(at, pending, WithoutDisconnected(pending, ski))
    ensures forall i :: 0 <= i < |pending| ==> (i in at <==> !(pending[i].Disconnected? && pending[i].ski == ski))
  {
    if pending == [] {
      at := [];
    } else {
      var rest := EventsLeft(pending[1..], ski);
      at := PickedNext(rest, pending, WithoutDisconnected(pending[1..], ski), !(pending[0].Disconnected? && pending[0].ski == ski));
    }
  }

  lemma {:induction false} LinksArePicked(links: seq<Link>, ski: Ski, to: bool) returns (at: seq<nat>)
    ensures PickedAt(at, links, Links(links, ski, to))
    ensures forall i :: 0 <= i < |links| ==> (i in at <==> (links[i].ski == ski) == to)
    decreases |links|
  {
    if links == [] {
      at := [];
    } else {
      var n := |links| - 1;
      var before := Links(links[..n], ski, to);
      var front := LinksArePicked(links[..n], ski, to);
      assert links == links[..n] + [links[n]];
      LinksOneMore(links[..n], links[n], ski, to);
      hide *;
      assert before + [] == before;
      at := PickedLast(front, links, before, (links[n].ski == ski) == to);
    }
  }

  /** Of the links to a peer, those that answered are the ones that await no pong. */
  lemma {:induction false} AnsweredArePicked(links: seq<Link>, ski: Ski) returns (at: seq<nat>)
    ensures PickedAt(at, links, AnsweredTo(links, ski))
    ensures forall i :: 0 <= i < |links| ==> (i in at <==> links[i].ski == ski && !links[i].awaitingPong)
    decreases |links|
  {
    if links == [] {
      at := [];
    } else {
      var n := |links| - 1;
      var marks := MarkUnanswered(links, ski);
      assert marks[..n] == MarkUnanswered(links[..n], ski);
      UnmarkedOneMore(links, marks);
      LinksOneMore(Unmarked(links[..n], marks[..n]), links[n], ski, true);
      var front := AnsweredArePicked(links[..n], ski);
      var before := AnsweredTo(links[..n], ski);
      assert before + [] == before;
      hide PickedAt, Links, Unmarked;
      at := PickedLast(front, links, before, links[n].ski == ski && !links[n].awaitingPong);
    }
  }

  // ---- links dropped --------------------------------------------------------------------

  function Departures(links: seq<Link>, gone: seq<nat>, reason: Disconnect): seq<Event>
    requires forall k :: 0 <= k < |gone| ==> gone[k] < |links|
  {
    seq(|gone|, k requires 0 <= k < |gone| => Disconnected(links[gone[k]].ski, reason))
  }

  predicate Falling(gone: seq<nat>, n: nat) {
    && (forall k :: 0 <= k < |gone| ==> gone[k] < n)
    && forall k, m :: 0 <= k < m < |gone| ==> gone[k] > gone[m]
  }

  lemma LastDeparts(links: seq<Link>, left: seq<Link>, rest: seq<nat>, n: nat, reason: Disconnect)
    requires 0 < n <= |links| && left == RemoveAt(links, n - 1) && Falling(rest, n - 1)
    ensures Falling([n - 1] + rest, n)
    ensures forall i :: 0 <= i < n ==> (i in [n - 1] + rest <==> i == n - 1 || i in rest)
    ensures Departures(links, [n - 1] + rest, reason) == [Disconnected(links[n - 1].ski, reason)] + Departures(left, rest, reason)
  {
  }

  /** Every link dropped is reported, the last one first. */
  lemma {:induction false} DroppedAreReported(s: State, marks: seq<bool>, n: nat, reason: Disconnect) returns (gone: seq<nat>)
    requires n <= |marks| <= |s.links|
    ensures Falling(gone, n) && forall i :: 0 <= i < n ==> (i in gone <==> marks[i])
    ensures DropMarked(s, marks, n, reason).pending == s.pending + Departures(s.links, gone, reason)
    decreases n
  {
    if n == 0 {
      gone := [];
    } else if marks[n - 1] {
      var dropped := AfterDrop(s, n - 1, reason);
      var rest := DroppedAreReported(dropped, marks[..n - 1], n - 1, reason);
      gone := [n - 1] + rest;
      hide DropMarked;
      LastDeparts(s.links, dropped.links, rest, n, reason);
      hide *;
      assert forall i :: 0 <= i < n - 1 ==> marks[..n - 1][i] == marks[i];
      Regroup(s.pending, [Disconnected(s.links[n - 1].ski, reason)], Departures(dropped.links, rest, reason));
    } else {
      gone := DroppedAreReported(s, marks[..n - 1], n - 1, reason);
    }
  }

  lemma {:induction false} SparedStay(s: State, marks: seq<bool>, n: nat, reason: Disconnect, ski: Ski)
    requires n <= |marks| <= |s.links| && Spared(s.links, marks, n, ski)
    ensures LinksTo(DropMarked(s, marks, n, reason).links, ski) == LinksTo(s.links, ski)
    decreases n
  {
    if n > 0 {
      var m := n - 1;
      var dropped := AfterDrop(s, m, reason);
      if marks[m] {
        SparedOneLess(s.links, dropped.links, marks, n, ski);
        LinksRemoved(s.links, m, ski, true);
        SparedStay(dropped, marks[..m], m, reason, ski);
      } else {
        SparedOneLess(s.links, s.links, marks, n, ski);
        SparedStay(s, marks[..m], m, reason, ski);
      }
    }
  }

  /** The record of a peer goes with the last link to it, and only then. */
  lemma {:induction false} DroppedRecords(s: State, marks: seq<bool>, n: nat, reason: Disconnect, ski: Ski)
    requires n <= |marks| <= |s.links|
    ensures HasDuplicate(DropMarked(s, marks, n, reason).duplicates, ski)
       <==> HasDuplicate(s.duplicates, ski)
            && (LinksTo(DropMarked(s, marks, n, reason).links, ski) > 0 || Spared(s.links, marks, n, ski))
    decreases n
  {
    if n > 0 {
      var m := n - 1;
      if marks[m] {
        var dropped, gone := AfterDrop(s, m, reason), s.links[m].ski;
        WithoutRecord(s.duplicates, gone, ski);
        DroppedRecords(dropped, marks[..m], m, reason, ski);
        DropMarkedThins(dropped, marks[..m], m, reason, ski);
        if Spared(dropped.links, marks[..m], m, ski) {
          SparedStay(dropped, marks[..m], m, reason, ski);
        }
        SparedOneLess(s.links, dropped.links, marks, n, ski);
        hide WithoutDuplicate, HasDuplicate, Spared;
      } else {
        DroppedRecords(s, marks[..m], m, reason, ski);
        SparedOneLess(s.links, s.links, marks, n, ski);
      }
    }
  }

  /** No link to the peer is marked among the first `n`. */
  predicate Spared(links: seq<Link>, marks: seq<bool>, n: nat, ski: Ski)
    requires n <= |marks| && n <= |links|
  {
    forall i :: 0 <= i < n && marks[i] ==> links[i].ski != ski
  }

  lemma SparedOneLess(links: seq<Link>, left: seq<Link>, marks: seq<bool>, n: nat, ski: Ski)
    requires 0 < n <= |marks| && n <= |links| && n - 1 <= |left| && left[..n - 1] == links[..n - 1]
    ensures Spared(links, marks, n, ski) <==> (marks[n - 1] ==> links[n - 1].ski != ski) && Spared(left, marks[..n - 1], n - 1, ski)
  {
    assert forall i :: 0 <= i < n - 1 ==> left[i] == left[..n - 1][i] && links[i] == links[..n - 1][i] && marks[..n - 1][i] == marks[i];
  }

  /** The links left are those not marked, in place; the others are reported, and nothing else is touched. */
  lemma MarkedGo(s: State, marks: seq<bool>, reason: Disconnect) returns (at: seq<nat>, gone: seq<nat>)
    requires |marks| == |s.links|
    ensures var after := DropMarked(s, marks, |marks|, reason);
            && PickedAt(at, s.links, after.links)
            && Falling(gone, |s.links|)
            && after.pending == s.pending + Departures(s.links, gone, reason)
            && after.known == s.known && after.awaitingTrust == s.awaitingTrust && after.wakeAt == s.wakeAt
    ensures forall i :: 0 <= i < |s.links| ==> (i in at <==> !marks[i]) && (i in gone <==> marks[i])
  {
    at := UnmarkedArePicked(s.links, marks);
    gone := DroppedAreReported(s, marks, |marks|, reason);
    DropAllMarked(s, marks, reason);
    DropMarkedElsewhere(s, marks, |marks|, reason);
    hide DropMarked, Unmarked;
  }

  /** Closing a peer's connections closes those to it, all of them, and reports each. */
  lemma CloseLinksIs(s: State, ski: Ski) returns (at: seq<nat>, gone: seq<nat>)
    ensures PickedAt(at, s.links, AfterCloseLinks(s, ski).links) && Falling(gone, |s.links|)
    ensures AfterCloseLinks(s, ski).pending == s.pending + Departures(s.links, gone, Local)
    ensures forall i :: 0 <= i < |s.links| ==> (i in at <==> s.links[i].ski != ski) && (i in gone <==> s.links[i].ski == ski)
  {
    at, gone := MarkedGo(s, MarkPeer(s.links, ski), Local);
  }

  // ---- timers -----------------------------------------------------------------------------

  /** A ping a pong is still awaited for, ten seconds after it went out. */
  predicate Overdue(l: Link, now: nat) {
    l.pingedAt.Some? && l.awaitingPong && now >= l.pingedAt.value + 10_000
  }

  /** The pong to a keep-alive ping is a sign of life, and the ping is settled. */
  function Heeding(l: Link, now: nat): Link {
    if l.pingedAt.Some? && !l.awaitingPong then l.(lastSeen := now, pingedAt := None) else l
  }

  /**
   The timer pass drops the links whose ping is overdue, and no others; pongs that came in count. A
   wake-up that is due is reported once.
   */
  lemma TimersPassIs(s: State, now: nat) returns (at: seq<nat>, gone: seq<nat>)
    ensures |at| == |AfterTimers(s, now).links|
    ensures forall k, m :: 0 <= k < m < |at| ==> at[k] < at[m]
    ensures forall k :: 0 <= k < |at| ==> at[k] < |s.links| && AfterTimers(s, now).links[k] == Heeding(s.links[at[k]], now)
    ensures Falling(gone, |s.links|)
    ensures forall i :: 0 <= i < |s.links| ==> (i in at <==> !Overdue(s.links[i], now)) && (i in gone <==> Overdue(s.links[i], now))
    ensures var woken := s.wakeAt.Some? && s.wakeAt.value <= now;
            && AfterTimers(s, now).wakeAt == (if woken then None else s.wakeAt)
            && AfterTimers(s, now).pending
               == s.pending + Departures(s.links, gone, Unresponsive) + (if woken then [Tick] else [])
            && AfterTimers(s, now).known == s.known
  {
    var kept, marks := s.(links := AllKeptAlive(s.links, now)), MarkDead(s.links, now);
    at, gone := MarkedGo(kept, marks, Unresponsive);
    assert Departures(kept.links, gone, Unresponsive) == Departures(s.links, gone, Unresponsive);
    hide DropMarked;
    forall i | 0 <= i < |s.links| ensures kept.links[i] == Heeding(s.links[i], now) {
    }
  }

  /** A connection quiet for fifty seconds, with no ping on its way. */
  predicate Quiet(l: Link, now: nat) {
    l.pingedAt.None? && now >= l.lastSeen + 50_000
  }

  /** The keep-alive pass pings the quiet connections and no others; those a ping does not go out on are dropped. */
  lemma KeepAlivePassIs(s: State, now: nat, sent: seq<bool>) returns (at: seq<nat>, gone: seq<nat>)
    requires |sent| == |s.links|
    ensures |at| == |AfterKeepAlive(s, now, sent).links|
    ensures forall k, m :: 0 <= k < m < |at| ==> at[k] < at[m]
    ensures forall k :: 0 <= k < |at| ==> at[k] < |s.links|
    ensures forall k :: 0 <= k < |at| ==>
              var l, after := s.links[at[k]], AfterKeepAlive(s, now, sent).links[k];
              after == if Quiet(l, now) then l.(pingedAt := Some(now), awaitingPong := true, ponged := false) else l
    ensures Falling(gone, |s.links|)
    ensures forall i :: 0 <= i < |s.links| ==>
              (i in at <==> !Quiet(s.links[i], now) || sent[i]) && (i in gone <==> Quiet(s.links[i], now) && !sent[i])
    ensures AfterKeepAlive(s, now, sent).pending == s.pending + Departures(s.links, gone, Remote)
  {
    var pinged, marks := s.(links := AllPinged(s.links, now, sent)), MarkUnsent(s.links, now, sent);
    at, gone := MarkedGo(pinged, marks, Remote);
    assert Departures(pinged.links, gone, Remote) == Departures(s.links, gone, Remote);
    hide DropMarked, Falling, Departures;
    forall k | 0 <= k < |at|
      ensures var l := s.links[at[k]];
              AfterKeepAlive(s, now, sent).links[k]
                == if Quiet(l, now) then l.(pingedAt := Some(now), awaitingPong := true, ponged := false) else l
    {
      assert at[k] in at;
      assert !marks[at[k]];
      assert AfterKeepAlive(s, now, sent).links[k] == pinged.links[at[k]];
    }
  }

  // ---- double connections -----------------------------------------------------------------

  /**
   The probe goes down every connection to the peer, and down no other: those it goes out on await
   a pong, with an answered keep-alive counted first, and the others are dropped.
   */
  lemma ProbeIs(s: State, ski: Ski, now: nat, sent: seq<bool>) returns (at: seq<nat>, gone: seq<nat>)
    requires |sent| == |s.links|
    ensures |at| == |AfterProbe(s, ski, now, sent).links|
    ensures forall k, m :: 0 <= k < m < |at| ==> at[k] < at[m]
    ensures forall k :: 0 <= k < |at| ==> at[k] < |s.links|
    ensures forall k :: 0 <= k < |at| ==>
              var l, after := s.links[at[k]], AfterProbe(s, ski, now, sent).links[k];
              after == if l.ski == ski then Heeding(l, now).(awaitingPong := true) else l
    ensures Falling(gone, |s.links|)
    ensures forall i :: 0 <= i < |s.links| ==>
              (i in at <==> s.links[i].ski != ski || sent[i]) && (i in gone <==> s.links[i].ski == ski && !sent[i])
    ensures AfterProbe(s, ski, now, sent).pending == s.pending + Departures(s.links, gone, Remote)
    ensures WokenBy(s.wakeAt, now + 10_000, AfterProbe(s, ski, now, sent).wakeAt)
  {
    var pinged := s.(links := AllProbed(s.links, ski, now, sent), duplicates := MarkProbed(s.duplicates, ski));
    at, gone := MarkedGo(pinged, MarkUnprobed(s.links, ski, sent), Remote);
    assert Departures(pinged.links, gone, Remote) == Departures(s.links, gone, Remote);
    hide DropMarked, MarkProbed, Falling, Departures;
    forall k | 0 <= k < |at|
      ensures var l := s.links[at[k]];
              AfterProbe(s, ski, now, sent).links[k] == if l.ski == ski then Heeding(l, now).(awaitingPong := true) else l
    {
      assert at[k] in at;
      assert !MarkUnprobed(s.links, ski, sent)[at[k]];
      assert AfterProbe(s, ski, now, sent).links[k] == pinged.links[at[k]];
    }
  }

  /** The wake-up kept is the earlier of the one there was and the one asked for. */
  predicate WokenBy(before: Option<nat>, at: nat, after: Option<nat>) {
    && after.Some? && (after == before || after.value == at)
    && after.value <= at && (before.Some? ==> after.value <= before.value)
  }

  lemma WakeAtIs(s: State, at: nat)
    ensures WokenBy(s.wakeAt, at, AfterWakeAt(s, at).wakeAt) && AfterWakeAt(s, at) == s.(wakeAt := AfterWakeAt(s, at).wakeAt)
  {
  }

  /**
   What becomes of the first double connection on record. With fewer than two links only the record
   goes. The bigger node keeps the newest at once. The other waits three seconds from the
   record's start, then probes, and keeps the newest that answered.
   */
  lemma ArbitrationIs(c: Config, s: State, now: nat, sent: seq<bool>)
    requires s.duplicates != [] && |sent| == |s.links|
    ensures var d, after := s.duplicates[0], AfterArbitrate(c, s, now, sent);
            var two := LinksTo(s.links, d.ski) >= 2;
            var bigger := exists k :: 0 <= k < LEN && c.ski[..k] == d.ski[..k] && c.ski[k] > d.ski[k];
            && (!two ==> after == s.(duplicates := WithoutDuplicate(s.duplicates, d.ski)))
            && (two && (bigger || (d.probed && now >= d.since + 3_000)) ==>
                  && Links(after.links, d.ski, true)
                     == Survivor(if bigger then Links(s.links, d.ski, true) else AnsweredTo(s.links, d.ski))
                  && Links(after.links, d.ski, false) == Links(s.links, d.ski, false)
                  && !HasDuplicate(after.duplicates, d.ski))
            && (two && !bigger && now < d.since + 3_000 ==>
                  && after == s.(wakeAt := after.wakeAt)
                  && WokenBy(s.wakeAt, d.since + 3_000, after.wakeAt))
            && (two && !bigger && now >= d.since + 3_000 && !d.probed ==> after == AfterProbe(s, d.ski, now, sent))
  {
    var d := s.duplicates[0];
    OpenedToCounts(s.links, d.ski);
    BiggerDecides(c.ski, d.ski);
    ArbitrationSettles(c, s, now, sent);
    hide Links, LinksTo, OpenedTo, ArbiterOf, AfterCloseDuplicates, AfterCloseUnanswered, AfterProbe, AnsweredTo, Survivor,
         HasDuplicate, WithoutDuplicate;
  }

  /** Once a decision has fallen, no departure of that peer is left to be reported. */
  lemma DuplicatesCloseSilently(s: State, ski: Ski) returns (at: seq<nat>)
    requires LinksTo(s.links, ski) > 0
    ensures PickedAt(at, s.pending, AfterCloseDuplicates(s, ski).pending)
    ensures forall i :: 0 <= i < |s.pending| ==> (i in at <==> !(s.pending[i].Disconnected? && s.pending[i].ski == ski))
  {
    NewestToIs(s.links, ski);
    NoneLinked(s.links, ski);
    at := EventsLeft(s.pending, ski);
  }
}
