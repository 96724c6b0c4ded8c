/**
 What the links of every reachable table keep: at most two to a peer and a record of every
 double, none to this node, and SPINE device addresses that name one link each.
 */
module HubPeers {
  import opened Wrappers
  import opened SkiText
  import opened HubState
  import opened HubRuns

  // ---- links, one by one and in pairs ------------------------------------------------

  predicate LinkSound(c: Config, connections: nat, counters: nat, l: Link) {
    && l.connection < connections && l.ski != c.ski && l.device != Some(c.device)
    && (forall i :: 0 <= i < |l.bootstrap| ==> l.bootstrap[i] < counters)
    && (l.announced ==> l.device.Some? && l.bootstrap == [])
  }

  /** Different sockets, different device addresses, different requests outstanding. */
  predicate Apart(a: Link, b: Link) {
    && a.connection != b.connection
    && (a.device.Some? ==> a.device != b.device)
    && forall i :: 0 <= i < |a.bootstrap| ==> a.bootstrap[i] !in b.bootstrap
  }

  predicate LinksSound(c: Config, connections: nat, counters: nat, links: seq<Link>) {
    && (forall i :: 0 <= i < |links| ==> LinkSound(c, connections, counters, links[i]))
    && (forall i, j :: 0 <= i < |links| && 0 <= j < |links| && i != j ==> Apart(links[i], links[j]))
  }

  lemma SameConnectionsStaySound(c: Config, n: nat, k: nat, a: seq<Link>, b: seq<Link>)
    requires SameConnections(b, a) && LinksSound(c, n, k, a)
    ensures LinksSound(c, n, k, b)
  {
  }

  lemma RemovedStaySound(c: Config, n: nat, k: nat, links: seq<Link>, i: nat)
    requires LinksSound(c, n, k, links) && i < |links|
    ensures LinksSound(c, n, k, RemoveAt(links, i))
  {
    hide LinkSound, Apart;
    var left := RemoveAt(links, i);
    assert forall j :: 0 <= j < |left| ==> left[j] == links[if j < i then j else j + 1];
  }

  lemma UnmarkedAreMembers<T>(s: seq<T>, marks: seq<bool>, x: T)
    requires |marks| == |s| && x in Unmarked(s, marks)
    ensures exists i :: 0 <= i < |s| && s[i] == x && !marks[i]
    decreases |s|
  {
    if s != [] {
      var n := |s| - 1;
      if x in Unmarked(s[..n], marks[..n]) {
        UnmarkedAreMembers(s[..n], marks[..n], x);
        var i :| 0 <= i < n && s[..n][i] == x && !marks[..n][i];
        assert s[i] == x && !marks[i];
      } else {
        assert s[n] == x && !marks[n];
      }
    }
  }

  lemma {:induction false} UnmarkedStaySound(c: Config, n: nat, k: nat, links: seq<Link>, marks: seq<bool>)
    requires LinksSound(c, n, k, links) && |marks| == |links|
    ensures LinksSound(c, n, k, Unmarked(links, marks))
    decreases |links|
  {
    hide LinkSound, Apart;
    if links != [] {
      var m := |links| - 1;
      UnmarkedStaySound(c, n, k, links[..m], marks[..m]);
      var front := Unmarked(links[..m], marks[..m]);
      forall i | 0 <= i < |front| ensures Apart(front[i], links[m]) && Apart(links[m], front[i]) {
        UnmarkedAreMembers(links[..m], marks[..m], front[i]);
        var j :| 0 <= j < m && links[..m][j] == front[i];
        assert links[j] == front[i];
      }
    }
  }

  lemma AppendedStaySound(c: Config, n: nat, k: nat, links: seq<Link>, l: Link)
    requires LinksSound(c, n, k, links)
    requires l.connection == n && l.ski != c.ski && l.device == None && l.bootstrap == [k, k + 1] && !l.announced
    ensures LinksSound(c, n + 1, k + 2, links + [l])
  {
    var all := links + [l];
    forall i | 0 <= i < |links| ensures LinkSound(c, n + 1, k + 2, all[i]) && Apart(all[i], l) && Apart(l, all[i]) {
      assert LinkSound(c, n, k, links[i]);
    }
    forall i, j | 0 <= i < |all| && 0 <= j < |all| && i != j ensures Apart(all[i], all[j]) {
      assert i < |links| && j < |links| ==> Apart(links[i], links[j]);
    }
  }

  lemma CountersGrow(c: Config, n: nat, k: nat, m: nat, j: nat, links: seq<Link>)
    requires LinksSound(c, n, k, links) && n <= m && k <= j
    ensures LinksSound(c, m, j, links)
  {
    hide Apart;
    assert forall i :: 0 <= i < |links| ==> LinkSound(c, n, k, links[i]);
  }

  lemma {:induction false} WithoutCounterIsPart(counters: seq<nat>, reference: nat)
    ensures forall i :: 0 <= i < |WithoutCounter(counters, reference)| ==> WithoutCounter(counters, reference)[i] in counters
    ensures counters == [] ==> WithoutCounter(counters, reference) == []
  {
    if counters != [] {
      WithoutCounterIsPart(counters[1..], reference);
    }
  }

  /** A datagram that does not conflict binds its link, and leaves all links apart. */
  lemma HeededStaysSound(c: Config, n: nat, k: nat, links: seq<Link>, index: nat, h: Heard)
    requires LinksSound(c, n, k, links) && index < |links| && !Conflicts(c, links, index, h)
    ensures LinksSound(c, n, k, links[index := Heeded(links[index], h)])
  {
    var l, heeded := links[index], Heeded(links[index], h);
    assert LinkSound(c, n, k, l);
    if h.reference.Some? {
      WithoutCounterIsPart(l.bootstrap, h.reference.value);
    }
    forall i | 0 <= i < |links| && i != index ensures Apart(links[i], heeded) && Apart(heeded, links[i]) {
      assert Apart(links[i], l) && Apart(l, links[i]);
      if l.device.None? && h.device.Some? {
        assert !TakenElsewhere(c, links, index, h.device.value);
        assert links[i].device != Some(h.device.value);
      }
    }
    hide Apart, LinkSound, Heeded;
  }

  lemma AnnouncedStaysSound(c: Config, n: nat, k: nat, links: seq<Link>, index: nat)
    requires LinksSound(c, n, k, links) && index < |links| && Announces(links[index])
    ensures LinksSound(c, n, k, links[index := links[index].(announced := true)])
  {
    var l := links[index];
    assert LinkSound(c, n, k, l);
    forall i | 0 <= i < |links| && i != index
      ensures Apart(links[i], l.(announced := true)) && Apart(l.(announced := true), links[i])
    {
      assert Apart(links[i], l) && Apart(l, links[i]);
    }
    assert LinkSound(c, n, k, l.(announced := true));
    hide Apart, LinkSound;
  }

  // ---- double connections -----------------------------------------------------------------

  /** At most two links to a peer, and two only with a record of it. */
  predicate PeerOnRecord(s: State, ski: Ski) {
    && LinksTo(s.links, ski) <= MAX_CONNECTIONS_PER_PEER
    && (LinksTo(s.links, ski) >= 2 ==> HasDuplicate(s.duplicates, ski))
  }

  predicate DistinctRecords(duplicates: seq<Duplicate>) {
    forall i, j :: 0 <= i < j < |duplicates| ==> duplicates[i].ski != duplicates[j].ski
  }

  ghost predicate DoublesOnRecord(s: State) {
    DistinctRecords(s.duplicates) && forall ski :: PeerOnRecord(s, ski)
  }

  lemma {:induction false} WithoutRecord(duplicates: seq<Duplicate>, ski: Ski, other: Ski)
    ensures HasDuplicate(WithoutDuplicate(duplicates, ski), other) <==> other != ski && HasDuplicate(duplicates, other)
    decreases |duplicates|
  {
    if duplicates != [] {
      WithoutRecord(duplicates[1..], ski, other);
      RecordSplits(duplicates, other);
      var rest := WithoutDuplicate(duplicates[1..], ski);
      RecordSplits([duplicates[0]] + rest, other);
      assert ([duplicates[0]] + rest)[1..] == rest && [] + rest == rest;
    }
  }

  lemma RecordSplits(duplicates: seq<Duplicate>, ski: Ski)
    requires duplicates != []
    ensures HasDuplicate(duplicates, ski) <==> duplicates[0].ski == ski || HasDuplicate(duplicates[1..], ski)
  {
    if i :| 1 <= i < |duplicates| && duplicates[i].ski == ski {
      assert duplicates[1..][i - 1].ski == ski;
    }
    if i :| 0 <= i < |duplicates[1..]| && duplicates[1..][i].ski == ski {
      assert duplicates[i + 1].ski == ski;
    }
  }

  lemma {:induction false} WithoutStaysDistinct(duplicates: seq<Duplicate>, ski: Ski)
    requires DistinctRecords(duplicates)
    ensures DistinctRecords(WithoutDuplicate(duplicates, ski))
    decreases |duplicates|
  {
    if duplicates != [] {
      WithoutStaysDistinct(duplicates[1..], ski);
      var d, rest := duplicates[0], WithoutDuplicate(duplicates[1..], ski);
      forall i | 0 <= i < |rest| ensures rest[i].ski != d.ski {
        assert HasDuplicate(rest, rest[i].ski);
        WithoutRecord(duplicates[1..], ski, rest[i].ski);
        var j :| 0 <= j < |duplicates[1..]| && duplicates[1..][j].ski == rest[i].ski;
        assert duplicates[j + 1].ski == rest[i].ski;
      }
    }
  }

  lemma {:induction false} MarkProbedKeepsRecords(duplicates: seq<Duplicate>, ski: Ski)
    ensures var probed := MarkProbed(duplicates, ski);
            |probed| == |duplicates| && forall i :: 0 <= i < |duplicates| ==> probed[i].ski == duplicates[i].ski
  {
    if duplicates != [] {
      MarkProbedKeepsRecords(duplicates[1..], ski);
    }
  }

  lemma DropKeepsRecords(s: State, index: nat, reason: Disconnect)
    requires DoublesOnRecord(s) && index < |s.links|
    ensures DoublesOnRecord(AfterDrop(s, index, reason))
  {
    var gone := s.links[index].ski;
    WithoutStaysDistinct(s.duplicates, gone);
    forall ski ensures PeerOnRecord(AfterDrop(s, index, reason), ski) {
      assert PeerOnRecord(s, ski);
      LinksRemoved(s.links, index, ski, true);
      WithoutRecord(s.duplicates, gone, ski);
    }
  }

  lemma SameLinksKeepRecords(s: State, links: seq<Link>)
    requires DoublesOnRecord(s) && SameConnections(links, s.links)
    ensures DoublesOnRecord(s.(links := links))
  {
    forall ski ensures PeerOnRecord(s.(links := links), ski) {
      assert PeerOnRecord(s, ski);
      SameCounts(links, s.links, ski, true);
    }
  }

  lemma AdoptedKeepsRecords(c: Config, s: State, connection: nat, ski: Ski, origin: Origin, now: nat, bootstrap: seq<nat>)
    requires DoublesOnRecord(s)
    ensures var a := Adopted(c, s, connection, ski, origin, now, bootstrap);
            a.Taken? ==> DoublesOnRecord(a.state)
  {
    var a := Adopted(c, s, connection, ski, origin, now, bootstrap);
    if a.Taken? {
      var l := NewLink(connection, ski, origin, now, bootstrap);
      assert DistinctRecords(a.state.duplicates);
      forall x ensures PeerOnRecord(a.state, x) {
        assert PeerOnRecord(s, x);
        LinksAppend(s.links, [l], x, true);
        OneLink(l, x, true);
        RecordsGrow(s.duplicates, Duplicate(ski, now, false), x);
      }
    }
  }

  lemma RecordsGrow(duplicates: seq<Duplicate>, d: Duplicate, ski: Ski)
    ensures HasDuplicate(duplicates + [d], ski) <==> HasDuplicate(duplicates, ski) || d.ski == ski
  {
    assert (duplicates + [d])[|duplicates|] == d;
    assert forall i :: 0 <= i < |duplicates| ==> (duplicates + [d])[i] == duplicates[i];
  }

  /** Marks that spare a peer leave its links alone. */
  lemma {:induction false} UnmarkedSpares(links: seq<Link>, marks: seq<bool>, ski: Ski)
    requires |marks| == |links| && forall i :: 0 <= i < |links| && links[i].ski == ski ==> !marks[i]
    ensures LinksTo(Unmarked(links, marks), ski) == LinksTo(links, ski)
    decreases |links|
  {
    if links != [] {
      var n := |links| - 1;
      UnmarkedSpares(links[..n], marks[..n], ski);
      assert links == links[..n] + [links[n]];
      LinksAppend(links[..n], [links[n]], ski, true);
      LinksAppend(Unmarked(links[..n], marks[..n]), [links[n]], ski, true);
      OneLink(links[n], ski, true);
      assert Unmarked(links[..n], marks[..n]) + [] == Unmarked(links[..n], marks[..n]);
    }
  }

  /** Marks that hit every link to a peer but the one at `keep` leave just that one. */
  lemma {:induction false} UnmarkedKeepsOne(links: seq<Link>, marks: seq<bool>, ski: Ski, keep: nat)
    requires |marks| == |links|
    requires forall i :: 0 <= i < |links| && links[i].ski == ski ==> marks[i] == (i != keep)
    ensures LinksTo(Unmarked(links, marks), ski) == if keep < |links| && links[keep].ski == ski then 1 else 0
    decreases |links|
  {
    if links != [] {
      var n := |links| - 1;
      UnmarkedKeepsOne(links[..n], marks[..n], ski, keep);
      LinksAppend(Unmarked(links[..n], marks[..n]), [links[n]], ski, true);
      OneLink(links[n], ski, true);
      assert Unmarked(links[..n], marks[..n]) + [] == Unmarked(links[..n], marks[..n]);
    }
  }

  lemma {:induction false} NoneLinked(links: seq<Link>, ski: Ski)
    ensures LinksTo(links, ski) == 0 <==> forall i :: 0 <= i < |links| ==> links[i].ski != ski
  {
    if links != [] {
      NoneLinked(links[1..], ski);
      assert forall i :: 1 <= i < |links| ==> links[i] == links[1..][i - 1];
    }
  }

  /** Closing a peer's duplicates leaves one link to it if there was any, and no record. */
  lemma ClosedDuplicates(s: State, ski: Ski, other: Ski)
    ensures var after := AfterCloseDuplicates(s, ski);
            && LinksTo(after.links, ski) == (if LinksTo(s.links, ski) > 0 then 1 else 0)
            && (other != ski ==> LinksTo(after.links, other) == LinksTo(s.links, other))
            && (HasDuplicate(after.duplicates, other) <==> other != ski && HasDuplicate(s.duplicates, other))
  {
    var keep := NewestTo(s.links, ski);
    NewestToIs(s.links, ski);
    NoneLinked(s.links, ski);
    WithoutRecord(s.duplicates, ski, other);
    if keep < |s.links| {
      var marks := MarkOthers(s.links, ski, keep);
      UnmarkedKeepsOne(s.links, marks, ski, keep);
      if other != ski {
        UnmarkedSpares(s.links, marks, other);
      }
    }
  }

  lemma CloseDuplicatesKeepsRecords(s: State, ski: Ski)
    requires DoublesOnRecord(s)
    ensures DoublesOnRecord(AfterCloseDuplicates(s, ski))
  {
    WithoutStaysDistinct(s.duplicates, ski);
    forall other ensures PeerOnRecord(AfterCloseDuplicates(s, ski), other) {
      assert PeerOnRecord(s, other);
      ClosedDuplicates(s, ski, other);
    }
  }
}
