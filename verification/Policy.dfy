/**
 The decisions the connection table rests on: who settles a double connection and which one
 stays (src/ship/policy.rs, section 12.2.3 of SHIP 1.1.0), whether a keep-alive ping has been
 answered (src/runtime/keepalive.rs) and when to dial again (src/runtime/reconnect.rs).
 Durations are in milliseconds.
 */
module Policy {
  import opened Wrappers
  import Calendar
  import opened SkiText

  const ARBITRATION_DELAY := 3_000

  // ---- double connections -------------------------------------------------------------

  datatype Arbiter = LocalDecides | PeerDecides

  /** Bytes compared as `[u8; 20]` compares them, from the first on. */
  predicate Greater(a: seq<Byte>, b: seq<Byte>)
    requires |a| == |b|
  {
    a != [] && (a[0] > b[0] || (a[0] == b[0] && Greater(a[1..], b[1..])))
  }

  function ArbiterOf(local: Ski, peer: Ski): Arbiter {
    if Greater(local, peer) then LocalDecides else PeerDecides
  }

  lemma {:induction false} GreaterIsTotal(a: seq<Byte>, b: seq<Byte>)
    requires |a| == |b|
    ensures a != b ==> (Greater(a, b) <==> !Greater(b, a))
    ensures a == b ==> !Greater(a, b)
  {
    if a != [] {
      GreaterIsTotal(a[1..], b[1..]);
      assert a == [a[0]] + a[1..] && b == [b[0]] + b[1..];
    }
  }

  lemma {:induction false} GreaterAtFirstDifference(a: seq<Byte>, b: seq<Byte>)
    requires |a| == |b|
    ensures Greater(a, b) <==> exists k :: 0 <= k < |a| && a[..k] == b[..k] && a[k] > b[k]
  {
    if a != [] && a[0] == b[0] {
      GreaterAtFirstDifference(a[1..], b[1..]);
      if Greater(a[1..], b[1..]) {
        var k :| 0 <= k < |a[1..]| && a[1..][..k] == b[1..][..k] && a[1..][k] > b[1..][k];
        assert a[..k + 1] == [a[0]] + a[1..][..k] && b[..k + 1] == [b[0]] + b[1..][..k];
        assert a[k + 1] > b[k + 1];
      }
      forall k | 0 <= k < |a| && a[..k] == b[..k] && a[k] > b[k] ensures Greater(a, b) {
        assert a[1..][..k - 1] == a[..k][1..] && b[1..][..k - 1] == b[..k][1..];
        assert a[1..][k - 1] > b[1..][k - 1];
      }
    } else if a != [] {
      assert a[..0] == b[..0];
      forall k | 0 < k < |a| ensures a[..k] != b[..k] {
        assert a[..k][0] != b[..k][0];
      }
    }
  }

  /** The node decides whose SKI is the bigger number: it has the bigger byte where they first differ. */
  lemma BiggerDecides(local: Ski, peer: Ski)
    ensures ArbiterOf(local, peer) == LocalDecides
       <==> exists k :: 0 <= k < LEN && local[..k] == peer[..k] && local[k] > peer[k]
  {
    GreaterAtFirstDifference(local, peer);
  }

  /** Of two different nodes exactly one decides, and both know which. */
  lemma OneSideDecides(a: Ski, b: Ski)
    requires a != b
    ensures ArbiterOf(a, b) == LocalDecides <==> ArbiterOf(b, a) == PeerDecides
  {
    GreaterIsTotal(a, b);
  }

  datatype Resolution = Settled | KeepNewest | Wait(until: nat) | Probe | CloseAfterProbe

  function Resolve(local: Ski, peer: Ski, openings: seq<nat>, duplicatesSince: nat, probed: bool, now: nat): Resolution {
    if |openings| < 2 then Settled
    else match ArbiterOf(local, peer)
      case LocalDecides => KeepNewest
      case PeerDecides =>
        var deadline := duplicatesSince + ARBITRATION_DELAY;
        if now < deadline then Wait(deadline)
        else if probed then CloseAfterProbe
        else Probe
  }

  /** The most recent of some connections; of those openings at once, the later in the list. */
  function Newest(openings: seq<nat>): (r: Option<nat>)
    ensures r.None? <==> openings == []
    ensures r.Some? ==>
              && r.value < |openings|
              && (forall i :: 0 <= i < r.value ==> openings[i] <= openings[r.value])
              && (forall i :: r.value < i < |openings| ==> openings[i] < openings[r.value])
  {
    if openings == [] then None
    else
      var n := |openings| - 1;
      var front := Newest(openings[..n]);
      if front.None? || openings[front.value] <= openings[n] then Some(n) else front
  }

  /** Two lists that put connections in the same order of opening, position breaking ties. */
  predicate OrderAlike(a: seq<nat>, b: seq<nat>, place: seq<nat>) {
    && |a| == |b| == |place|
    && (forall i :: 0 <= i < |place| ==> place[i] < |b|)
    && (forall i, j :: 0 <= i < |a| && 0 <= j < |a| ==>
          (Earlier(a, i, j) <==> Earlier(b, place[i], place[j])))
    && (forall k :: 0 <= k < |b| ==> k in place)
  }

  predicate Earlier(openings: seq<nat>, i: nat, j: nat)
    requires i < |openings| && j < |openings|
  {
    openings[i] < openings[j] || (openings[i] == openings[j] && i < j)
  }

  lemma NewestIsLast(openings: seq<nat>, i: nat)
    requires i < |openings|
    ensures i == Newest(openings).value <==> forall j :: 0 <= j < |openings| && j != i ==> Earlier(openings, j, i)
  {
    var n := Newest(openings).value;
    if i != n {
      assert !Earlier(openings, n, i);
    }
  }

  /** Two nodes that order their connections alike keep the same one. */
  lemma SameOneIsKept(a: seq<nat>, b: seq<nat>, place: seq<nat>)
    requires a != [] && OrderAlike(a, b, place)
    ensures place[Newest(a).value] == Newest(b).value
  {
    var n := Newest(a).value;
    NewestIsLast(a, n);
    forall k | 0 <= k < |b| && k != place[n] ensures Earlier(b, k, place[n]) {
      assert k in place;
      var i :| 0 <= i < |place| && place[i] == k;
      assert Earlier(a, i, n);
    }
    NewestIsLast(b, place[n]);
  }

  // ---- keep-alive -----------------------------------------------------------------------

  datatype KeepAlive = Idle | Waiting | Answered | Dead

  function Check(pingedAt: Option<nat>, awaitingPong: bool, now: nat, timeout: nat): KeepAlive {
    if pingedAt.None? then Idle
    else if !awaitingPong then Answered
    else if now >= pingedAt.value + timeout then Dead
    else Waiting
  }

  // ---- redialling ------------------------------------------------------------------------

  const BASE_DELAY := 1_000
  const MAX_DELAY := 120_000

  function Pow2(n: nat): nat {
    if n == 0 then 1 else 2 * Pow2(n - 1)
  }

  function ReconnectDelay(attempt: nat): nat {
    var seconds := Pow2(if attempt < 7 then attempt else 7);
    BASE_DELAY * if seconds < 120 then seconds else 120
  }

  /** The SKI folded into one 64-bit number, wrapping. */
  function Mixed(bytes: seq<Byte>): nat {
    if bytes == [] then 0
    else (Mixed(bytes[..|bytes| - 1]) * 31 + bytes[|bytes| - 1]) % 0x1_0000_0000_0000_0000
  }

  function ReconnectDelayFor(peer: Ski, attempt: nat): nat {
    var base := ReconnectDelay(attempt);
    var spread := base / 4;
    if spread == 0 then base else base - spread + Mixed(peer) % (2 * spread)
  }

  lemma {:induction false} Pow2Grows(m: nat, n: nat)
    requires m <= n
    ensures Pow2(m) <= Pow2(n)
  {
    if m < n {
      Pow2Grows(m, n - 1);
    }
  }

  /** The delay doubles from a second and stops at two minutes, at any number of attempts. */
  lemma DelayDoublesUpToTheCap(attempt: nat)
    ensures ReconnectDelay(attempt)
         == if 1_000 * Pow2(attempt) < 120_000 then 1_000 * Pow2(attempt) else 120_000
  {
    assert Pow2(7) == 128 by {
      assert Pow2(3) == 8 && Pow2(5) == 4 * Pow2(3) && Pow2(7) == 4 * Pow2(5);
    }
    if attempt >= 7 {
      Pow2Grows(7, attempt);
    } else {
      Pow2Grows(attempt, 6);
      assert Pow2(6) == 64;
    }
  }

  /** Spread out by the SKI, it stays within a quarter either way, and is never zero. */
  lemma DelayIsSpreadByAQuarter(peer: Ski, attempt: nat)
    ensures var base := ReconnectDelay(attempt);
            && 4 * ReconnectDelayFor(peer, attempt) >= 3 * base
            && 4 * ReconnectDelayFor(peer, attempt) < 5 * base
            && ReconnectDelayFor(peer, attempt) > 0
  {
    var seconds := Pow2(if attempt < 7 then attempt else 7);
    Pow2Grows(0, if attempt < 7 then attempt else 7);
    var base := ReconnectDelay(attempt);
    assert base == BASE_DELAY * if seconds < 120 then seconds else 120;
    assert base % 4 == 0;
    var spread := base / 4;
    assert 0 <= Mixed(peer) % (2 * spread) < 2 * spread;
  }

  /** The bytes as the digits of a number to the base thirty-one. */
  function Polynomial(bytes: seq<Byte>): nat {
    if bytes == [] then 0 else Polynomial(bytes[..|bytes| - 1]) * 31 + bytes[|bytes| - 1]
  }

  lemma WrapsAgain(a: nat, b: nat, m: nat)
    requires m > 0
    ensures (a % m * 31 + b) % m == (a * 31 + b) % m
  {
    var q, wrapped := a / m, a % m * 31 + b;
    var d := wrapped / m;
    assert a * 31 + b == wrapped + q * 31 * m;
    assert (q * 31 + d) * m == q * 31 * m + d * m;
    Calendar.DivUnique(a * 31 + b, m, q * 31 + d);
  }

  /** Folding with wrap-around at every step gives that number modulo 2^64: every byte of the SKI counts. */
  lemma {:induction false} MixedIsPolynomial(bytes: seq<Byte>)
    ensures Mixed(bytes) == Polynomial(bytes) % 0x1_0000_0000_0000_0000
    decreases |bytes|
  {
    if bytes != [] {
      var n := |bytes| - 1;
      MixedIsPolynomial(bytes[..n]);
      WrapsAgain(Polynomial(bytes[..n]), bytes[n], 0x1_0000_0000_0000_0000);
    }
  }

  /** Where in that interval a delay falls is decided by the whole SKI. */
  lemma SpreadByTheSki(peer: Ski, attempt: nat)
    ensures var base := ReconnectDelay(attempt);
            && base >= 1_000
            && ReconnectDelayFor(peer, attempt)
               == base - base / 4 + Polynomial(peer) % 0x1_0000_0000_0000_0000 % (2 * (base / 4))
  {
    var seconds := Pow2(if attempt < 7 then attempt else 7);
    Pow2Grows(0, if attempt < 7 then attempt else 7);
    MixedIsPolynomial(peer);
    assert ReconnectDelay(attempt) / 4 > 0;
    hide Mixed, Polynomial;
  }
}
