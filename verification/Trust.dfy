/**
 Whom a node trusts, src/runtime/node.rs: peers by SKI, and the one control unit by certificate
 (sections 10.2 to 10.4 of the SHIP Pairing Service).
 */
module Trust {
  import opened Wrappers
  import opened SkiText

  /** Certificates are numbered by their fingerprint. */
  type Fingerprint = nat

  datatype TrustedPeer = TrustedPeer(ski: Ski, shipId: Option<string>, fingerprint: Option<Fingerprint>)

  datatype PairedUnit = PairedUnit(shipId: string, fingerprint: Fingerprint, curve: string, ski: Option<Ski>)

  datatype Trusted = Trusted(peers: map<Ski, TrustedPeer>, unit: Option<PairedUnit>)

  datatype Change =
    | Remember(peer: TrustedPeer)
    | TrustUnit(paired: PairedUnit)
    | ForgetUnit
    | ObserveUnitSki(fingerprint: Fingerprint, ski: Ski)
    | Forget(ski: Ski)
    | ForgetAll

  function UnitSki(unit: Option<PairedUnit>): Option<Ski> {
    if unit.Some? then unit.value.ski else None
  }

  function Without(peers: map<Ski, TrustedPeer>, ski: Option<Ski>): map<Ski, TrustedPeer> {
    if ski.Some? then peers - {ski.value} else peers
  }

  function AsPeer(u: PairedUnit, ski: Ski): TrustedPeer {
    TrustedPeer(ski, Some(u.shipId), Some(u.fingerprint))
  }

  predicate IsUnit(t: Trusted, fingerprint: Fingerprint) {
    t.unit.Some? && t.unit.value.fingerprint == fingerprint
  }

  function Changed(t: Trusted, c: Change): Trusted {
    match c
    case Remember(peer) => t.(peers := t.peers[peer.ski := peer])
    case TrustUnit(u) =>
      var left := Without(t.peers, UnitSki(t.unit));
      Trusted(if u.ski.Some? then left[u.ski.value := AsPeer(u, u.ski.value)] else left, Some(u))
    case ForgetUnit => Trusted(Without(t.peers, UnitSki(t.unit)), None)
    case ObserveUnitSki(fingerprint, ski) =>
      if !IsUnit(t, fingerprint) || t.unit.value.ski == Some(ski) then t
      else
        var u := t.unit.value;
        Trusted(Without(t.peers, u.ski)[ski := AsPeer(u, ski)], Some(u.(ski := Some(ski))))
    case Forget(ski) => Trusted(t.peers - {ski}, if UnitSki(t.unit) == Some(ski) then None else t.unit)
    case ForgetAll => Trusted(map[], None)
  }

  /** Whether a handshake goes through: to a peer of record, to the paired unit, or not yet. */
  datatype Decision = Known | Commissioned | Pending

  /** What the peer presenting a certificate is told, and what the store learns from it. */
  function Decided(t: Trusted, ski: Ski, fingerprint: Fingerprint): (Trusted, Decision) {
    if ski in t.peers then (t, Known)
    else if IsUnit(t, fingerprint) then (Changed(t, ObserveUnitSki(fingerprint, ski)), Commissioned)
    else (t, Pending)
  }

  // ---- the store, updated in place -------------------------------------------------

  class TrustStore {
    var peers: map<Ski, TrustedPeer>
    var unit: Option<PairedUnit>
    /** Bumped on every change, so that a handshake waiting for a decision is woken by it. */
    var changes: nat

    ghost function State(): Trusted
      reads this
    {
      Trusted(peers, unit)
    }

    constructor ()
      ensures State() == Trusted(map[], None) && changes == 0
    {
      peers := map[];
      unit := None;
      changes := 0;
    }

    method Touch()
      modifies this`changes
      ensures changes == old(changes) + 1
    {
      changes := changes + 1;
    }

    method RememberPeer(peer: TrustedPeer)
      modifies this
      ensures State() == Changed(old(State()), Remember(peer)) && changes > old(changes)
    {
      peers := peers[peer.ski := peer];
      Touch();
    }

    method TrustPairedUnit(paired: PairedUnit) returns (displaced: Option<PairedUnit>)
      modifies this
      ensures State() == Changed(old(State()), TrustUnit(paired)) && changes > old(changes)
      ensures displaced == old(unit)
    {
      var known: Option<TrustedPeer> := None;
      if paired.ski.Some? {
        known := Some(TrustedPeer(paired.ski.value, Some(paired.shipId), Some(paired.fingerprint)));
      }
      displaced := unit;
      unit := Some(paired);
      if displaced.Some? && displaced.value.ski.Some? {
        peers := peers - {displaced.value.ski.value};
      }
      if known.Some? {
        peers := peers[known.value.ski := known.value];
      }
      Touch();
    }

    method ForgetPairedUnit() returns (gone: Option<PairedUnit>)
      modifies this
      ensures State() == Changed(old(State()), ForgetUnit) && changes > old(changes)
      ensures gone == old(unit)
    {
      gone := unit;
      unit := None;
      if gone.Some? && gone.value.ski.Some? {
        peers := peers - {gone.value.ski.value};
      }
      Touch();
    }

    method ObserveSki(fingerprint: Fingerprint, ski: Ski)
      modifies this
      ensures State() == Changed(old(State()), ObserveUnitSki(fingerprint, ski))
      ensures changes > old(changes) <==> State() != old(State())
    {
      if unit.None? || unit.value.fingerprint != fingerprint {
        return;
      }
      if unit.value.ski == Some(ski) {
        return;
      }
      var previous := unit.value.ski;
      var shipId := unit.value.shipId;
      unit := Some(unit.value.(ski := Some(ski)));
      if previous.Some? {
        peers := peers - {previous.value};
      }
      peers := peers[ski := TrustedPeer(ski, Some(shipId), Some(fingerprint))];
      Touch();
    }

    /** `trust_for`: by SKI first, then by certificate, which also records the SKI. */
    method TrustFor(ski: Ski, fingerprint: Fingerprint) returns (d: Decision)
      modifies this
      ensures (State(), d) == Decided(old(State()), ski, fingerprint)
    {
      if ski in peers {
        return Known;
      }
      if unit.Some? && unit.value.fingerprint == fingerprint {
        ObserveSki(fingerprint, ski);
        return Commissioned;
      }
      return Pending;
    }

    method ForgetPeer(ski: Ski)
      modifies this
      ensures State() == Changed(old(State()), Forget(ski)) && changes > old(changes)
    {
      peers := peers - {ski};
      if unit.Some? && unit.value.ski == Some(ski) {
        unit := None;
      }
      Touch();
    }

    method ForgetEverybody() returns (count: nat)
      modifies this
      ensures State() == Changed(old(State()), ForgetAll) && changes > old(changes)
      ensures count == |old(peers)| + if old(unit).Some? then 1 else 0
    {
      count := |peers| + if unit.Some? then 1 else 0;
      peers := map[];
      unit := None;
      Touch();
    }
  }

  // ---- what every store keeps -----------------------------------------------------------

  function Run(t: Trusted, changes: seq<Change>): Trusted {
    if changes == [] then t else Changed(Run(t, changes[..|changes| - 1]), changes[|changes| - 1])
  }

  /** Records stand under their own SKI, and the unit's SKI, once known, is a trusted peer. */
  predicate Sound(t: Trusted) {
    && (forall ski :: ski in t.peers ==> t.peers[ski].ski == ski)
    && (UnitSki(t.unit).Some? ==> UnitSki(t.unit).value in t.peers)
  }

  lemma ChangeKeepsSound(t: Trusted, c: Change)
    requires Sound(t)
    ensures Sound(Changed(t, c))
  {
  }

  lemma {:induction false} EveryStoreIsSound(changes: seq<Change>)
    ensures Sound(Run(Trusted(map[], None), changes))
    decreases |changes|
  {
    if changes != [] {
      EveryStoreIsSound(changes[..|changes| - 1]);
      ChangeKeepsSound(Run(Trusted(map[], None), changes[..|changes| - 1]), changes[|changes| - 1]);
    }
  }

  // ---- nobody is trusted unasked ------------------------------------------------------

  /** A deliberate act that trusts a SKI: approving it, or pairing with the unit that presents it. */
  ghost predicate Grants(changes: seq<Change>, i: nat, ski: Ski)
    requires i < |changes|
  {
    match changes[i]
    case Remember(peer) => peer.ski == ski
    case TrustUnit(u) => u.ski == Some(ski)
    case ObserveUnitSki(fingerprint, s) => s == ski && exists k :: Pairs(changes[..i], k, fingerprint)
    case _ => false
  }

  /** The last pairing of all is with this certificate, and nothing has undone it. */
  predicate Pairs(changes: seq<Change>, k: nat, fingerprint: Fingerprint) {
    && k < |changes| && changes[k].TrustUnit? && changes[k].paired.fingerprint == fingerprint
    && forall j :: k < j < |changes| ==> !changes[j].TrustUnit? && !changes[j].ForgetUnit? && !changes[j].ForgetAll?
  }

  /** A deliberate act trusts the SKI, and nobody has forgotten it since. */
  ghost predicate Asked(changes: seq<Change>, i: nat, ski: Ski) {
    && i < |changes| && Grants(changes, i, ski)
    && forall j :: i < j < |changes| ==> changes[j] != Forget(ski) && !changes[j].ForgetAll?
  }

  lemma {:induction false} UnitWasPaired(changes: seq<Change>, fingerprint: Fingerprint) returns (k: nat)
    requires IsUnit(Run(Trusted(map[], None), changes), fingerprint)
    ensures Pairs(changes, k, fingerprint)
    decreases |changes|
  {
    var n := |changes| - 1;
    if changes[n].TrustUnit? {
      k := n;
    } else {
      k := UnitWasPaired(changes[..n], fingerprint);
      assert changes[..n][k] == changes[k];
      assert forall j :: k < j < n ==> changes[..n][j] == changes[j];
    }
  }

  lemma AskedStays(changes: seq<Change>, n: nat, i: nat, ski: Ski)
    requires n == |changes| - 1 && Asked(changes[..n], i, ski)
    requires changes[n] != Forget(ski) && !changes[n].ForgetAll?
    ensures Asked(changes, i, ski)
  {
    assert changes[..n][..i] == changes[..i];
    assert forall j :: i <= j < n ==> changes[..n][j] == changes[j];
  }

  lemma {:induction false} TrustedWasAsked(changes: seq<Change>, ski: Ski) returns (i: nat)
    requires ski in Run(Trusted(map[], None), changes).peers
    ensures Asked(changes, i, ski)
    decreases |changes|
  {
    var n := |changes| - 1;
    var before := Run(Trusted(map[], None), changes[..n]);
    if ski in before.peers {
      i := TrustedWasAsked(changes[..n], ski);
      AskedStays(changes, n, i, ski);
    } else {
      i := n;
      if changes[n].ObserveUnitSki? {
        var k := UnitWasPaired(changes[..n], changes[n].fingerprint);
      }
    }
  }

  /**
   Over every history of a store, a peer is let in only on a deliberate act not undone since: its
   SKI was approved or presented by the paired unit, or its certificate is the one last paired.
   */
  lemma NobodyIsTrustedUnasked(changes: seq<Change>, ski: Ski, fingerprint: Fingerprint)
    requires Decided(Run(Trusted(map[], None), changes), ski, fingerprint).1 != Pending
    ensures (exists i :: Asked(changes, i, ski)) || (exists k :: Pairs(changes, k, fingerprint))
  {
    if ski in Run(Trusted(map[], None), changes).peers {
      var i := TrustedWasAsked(changes, ski);
    } else {
      var k := UnitWasPaired(changes, fingerprint);
    }
  }

  /** A peer let in once is known by its SKI from then on; one kept waiting leaves no trace. */
  lemma DecisionIsRemembered(t: Trusted, ski: Ski, fingerprint: Fingerprint, other: Fingerprint)
    requires Sound(t)
    ensures var (after, d) := Decided(t, ski, fingerprint);
            && Sound(after)
            && (d == Pending <==> ski !in after.peers)
            && (d != Pending ==> Decided(after, ski, other) == (after, Known))
            && (d != Commissioned ==> after == t)
            && (d == Commissioned ==> UnitSki(after.unit) == Some(ski))
  {
  }

  /**
   A unit that another one displaces loses its certificate and its SKI in the same step, unless
   the new unit is known to present that same SKI; nobody else's trust changes.
   */
  lemma DisplacedLosesEverything(t: Trusted, u: PairedUnit, other: Ski)
    requires Sound(t) && t.unit.Some? && t.unit.value.fingerprint != u.fingerprint
    ensures var after := Changed(t, TrustUnit(u));
            && !IsUnit(after, t.unit.value.fingerprint) && IsUnit(after, u.fingerprint)
            && (UnitSki(t.unit).Some? ==> (UnitSki(t.unit).value in after.peers <==> u.ski == UnitSki(t.unit)))
            && (Some(other) != UnitSki(t.unit) && Some(other) != u.ski ==>
                  (other in after.peers <==> other in t.peers) && (other in t.peers ==> after.peers[other] == t.peers[other]))
  {
  }

  /** Forgetting the SKI a unit was reached under forgets the unit: it cannot come straight back. */
  lemma ForgottenUnitStaysOut(t: Trusted, ski: Ski)
    requires Sound(t)
    ensures var after := Changed(t, Forget(ski));
            && ski !in after.peers
            && (t.unit.Some? ==> (IsUnit(after, t.unit.value.fingerprint) <==> UnitSki(t.unit) != Some(ski)))
  {
  }

  // ---- and nobody comes back unasked --------------------------------------------------

  /** A change that may let this peer in. */
  predicate AsksFor(c: Change, ski: Ski, fingerprint: Fingerprint) {
    match c
    case Remember(peer) => peer.ski == ski
    case TrustUnit(u) => u.fingerprint == fingerprint || u.ski == Some(ski)
    case ObserveUnitSki(_, s) => s == ski
    case _ => false
  }

  predicate NeverAsked(changes: seq<Change>, ski: Ski, fingerprint: Fingerprint) {
    forall i :: 0 <= i < |changes| ==> !AsksFor(changes[i], ski, fingerprint)
  }

  lemma {:induction false} KeptOutUntilAsked(t: Trusted, later: seq<Change>, ski: Ski, fingerprint: Fingerprint)
    requires Decided(t, ski, fingerprint).1 == Pending && NeverAsked(later, ski, fingerprint)
    ensures Decided(Run(t, later), ski, fingerprint).1 == Pending
    decreases |later|
  {
    if later != [] {
      var n := |later| - 1;
      assert !AsksFor(later[n], ski, fingerprint);
      KeptOutUntilAsked(t, later[..n], ski, fingerprint);
    }
  }

  /** A unit that was forgotten, by its SKI or as the unit, waits through everything until it is asked for. */
  lemma {:induction false} ForgottenUnitWaits(t: Trusted, c: Change, later: seq<Change>, ski: Ski, fingerprint: Fingerprint)
    requires Sound(t) && UnitSki(t.unit) == Some(ski) && IsUnit(t, fingerprint)
    requires c == Forget(ski) || c == ForgetUnit || c == ForgetAll
    requires NeverAsked(later, ski, fingerprint)
    ensures Decided(t, ski, fingerprint).1 != Pending
    ensures Decided(Run(Changed(t, c), later), ski, fingerprint).1 == Pending
  {
    KeptOutUntilAsked(Changed(t, c), later, ski, fingerprint);
  }

  /** So does a unit that another one displaced. */
  lemma {:induction false} DisplacedUnitWaits(t: Trusted, u: PairedUnit, later: seq<Change>, ski: Ski, fingerprint: Fingerprint)
    requires Sound(t) && UnitSki(t.unit) == Some(ski) && IsUnit(t, fingerprint)
    requires u.fingerprint != fingerprint && u.ski != Some(ski) && NeverAsked(later, ski, fingerprint)
    ensures Decided(t, ski, fingerprint).1 != Pending
    ensures Decided(Run(Changed(t, TrustUnit(u)), later), ski, fingerprint).1 == Pending
  {
    DisplacedLosesEverything(t, u, ski);
    KeptOutUntilAsked(Changed(t, TrustUnit(u)), later, ski, fingerprint);
  }

  // ---- who is trusted, exactly --------------------------------------------------------

  function RecordOf(t: Trusted, ski: Ski): Option<TrustedPeer> {
    if ski in t.peers then Some(t.peers[ski]) else None
  }

  /** The record a change makes for a SKI: it is approved, or presented by the paired unit for the first time. */
  function Granted(t: Trusted, c: Change, ski: Ski): Option<TrustedPeer> {
    match c
    case Remember(peer) => if peer.ski == ski then Some(peer) else None
    case TrustUnit(u) => if u.ski == Some(ski) then Some(TrustedPeer(ski, Some(u.shipId), Some(u.fingerprint))) else None
    case ObserveUnitSki(fingerprint, s) =>
      if s == ski && t.unit.Some? && t.unit.value.fingerprint == fingerprint && t.unit.value.ski != Some(ski)
      then Some(TrustedPeer(ski, Some(t.unit.value.shipId), Some(fingerprint)))
      else None
    case _ => None
  }

  /** It is forgotten, with everybody or by name, or it is the unit's and the unit goes or presents another. */
  predicate Revoked(t: Trusted, c: Change, ski: Ski) {
    match c
    case Forget(s) => s == ski
    case ForgetAll => true
    case TrustUnit(_) => t.unit.Some? && t.unit.value.ski == Some(ski)
    case ForgetUnit => t.unit.Some? && t.unit.value.ski == Some(ski)
    case ObserveUnitSki(fingerprint, s) =>
      t.unit.Some? && t.unit.value.fingerprint == fingerprint && t.unit.value.ski == Some(ski) && s != ski
    case _ => false
  }

  /** No change touches anybody's record but those it grants or revokes. */
  lemma OthersKeepTheirRecord(t: Trusted, c: Change, ski: Ski)
    ensures RecordOf(Changed(t, c), ski)
         == if Granted(t, c, ski).Some? then Granted(t, c, ski)
            else if Revoked(t, c, ski) then None
            else RecordOf(t, ski)
  {
  }

  /** The pairing with the unit ends: another one is made, it is forgotten, or its SKI is. */
  predicate Unpaired(t: Trusted, c: Change) {
    c.TrustUnit? || c.ForgetUnit? || c.ForgetAll? || (c.Forget? && t.unit.Some? && t.unit.value.ski == Some(c.ski))
  }

  /** Nothing else about the unit changes but the SKI it presents. */
  lemma UnitKeepsItsPairing(t: Trusted, c: Change, fingerprint: Fingerprint)
    ensures Changed(t, c).unit
         == if Unpaired(t, c) then (if c.TrustUnit? then Some(c.paired) else None)
            else if c.ObserveUnitSki? && IsUnit(t, c.fingerprint) then Some(t.unit.value.(ski := Some(c.ski)))
            else t.unit
    ensures IsUnit(Changed(t, c), fingerprint)
       <==> if Unpaired(t, c) then c.TrustUnit? && c.paired.fingerprint == fingerprint else IsUnit(t, fingerprint)
  {
  }

  function StoreAt(changes: seq<Change>, i: nat): Trusted
    requires i <= |changes|
  {
    Run(Trusted(map[], None), changes[..i])
  }

  /** Change `i` granted the SKI a record, and none since has revoked it. */
  predicate GrantStands(changes: seq<Change>, i: nat, ski: Ski) {
    && i < |changes| && Granted(StoreAt(changes, i), changes[i], ski).Some?
    && forall j :: i < j < |changes| ==> !Revoked(StoreAt(changes, j), changes[j], ski)
  }

  /** Change `k` paired the unit with this certificate, and none since has ended that. */
  predicate PairingStands(changes: seq<Change>, k: nat, fingerprint: Fingerprint) {
    && k < |changes| && changes[k].TrustUnit? && changes[k].paired.fingerprint == fingerprint
    && forall j :: k < j < |changes| ==> !Unpaired(StoreAt(changes, j), changes[j])
  }

  lemma StoreOfFront(changes: seq<Change>, n: nat, i: nat)
    requires i <= n <= |changes|
    ensures StoreAt(changes[..n], i) == StoreAt(changes, i)
  {
    assert changes[..n][..i] == changes[..i];
  }

  /** At the last change, a grant stands if it is made there, or stood before and is not revoked. */
  lemma GrantOneMore(changes: seq<Change>, n: nat, ski: Ski)
    requires |changes| == n + 1
    ensures (exists i :: GrantStands(changes, i, ski))
       <==> || Granted(StoreAt(changes, n), changes[n], ski).Some?
            || (!Revoked(StoreAt(changes, n), changes[n], ski) && exists i :: GrantStands(changes[..n], i, ski))
  {
    var front := changes[..n];
    hide StoreAt, Granted, Revoked;
    forall i | 0 <= i <= n ensures StoreAt(front, i) == StoreAt(changes, i) {
      StoreOfFront(changes, n, i);
    }
    forall i | 0 <= i < n && !Revoked(StoreAt(changes, n), changes[n], ski)
      ensures GrantStands(front, i, ski) <==> GrantStands(changes, i, ski)
    {
      assert forall j :: 0 <= j < n ==> front[j] == changes[j];
    }
    if Granted(StoreAt(changes, n), changes[n], ski).Some? {
      assert GrantStands(changes, n, ski);
    }
  }

  lemma PairingOneMore(changes: seq<Change>, n: nat, fingerprint: Fingerprint)
    requires |changes| == n + 1
    ensures (exists k :: PairingStands(changes, k, fingerprint))
       <==> if Unpaired(StoreAt(changes, n), changes[n]) then changes[n].TrustUnit? && changes[n].paired.fingerprint == fingerprint
            else exists k :: PairingStands(changes[..n], k, fingerprint)
  {
    var front := changes[..n];
    assert changes[n].TrustUnit? ==> Unpaired(StoreAt(changes, n), changes[n]);
    hide StoreAt, Unpaired;
    forall i | 0 <= i <= n ensures StoreAt(front, i) == StoreAt(changes, i) {
      StoreOfFront(changes, n, i);
    }
    forall k | 0 <= k < n && !Unpaired(StoreAt(changes, n), changes[n])
      ensures PairingStands(front, k, fingerprint) <==> PairingStands(changes, k, fingerprint)
    {
      assert forall j :: 0 <= j < n ==> front[j] == changes[j];
    }
    if changes[n].TrustUnit? && changes[n].paired.fingerprint == fingerprint {
      assert PairingStands(changes, n, fingerprint);
    }
  }

  lemma {:induction false} StandingIsTrusted(changes: seq<Change>, ski: Ski, fingerprint: Fingerprint)
    ensures ski in Run(Trusted(map[], None), changes).peers <==> exists i :: GrantStands(changes, i, ski)
    ensures IsUnit(Run(Trusted(map[], None), changes), fingerprint) <==> exists k :: PairingStands(changes, k, fingerprint)
    decreases |changes|
  {
    if changes != [] {
      var n := |changes| - 1;
      StandingIsTrusted(changes[..n], ski, fingerprint);
      GrantOneMore(changes, n, ski);
      PairingOneMore(changes, n, fingerprint);
      OthersKeepTheirRecord(StoreAt(changes, n), changes[n], ski);
      UnitKeepsItsPairing(StoreAt(changes, n), changes[n], fingerprint);
      hide Changed, GrantStands, PairingStands, Granted, Revoked, Unpaired;
    }
  }

  /**
   Over every history a peer is known exactly while a grant to its SKI stands, and one not known
   is let in exactly while a pairing with its certificate stands; anybody else waits.
   */
  lemma LetInExactly(changes: seq<Change>, ski: Ski, fingerprint: Fingerprint)
    ensures var d := Decided(Run(Trusted(map[], None), changes), ski, fingerprint).1;
            && (d == Known <==> exists i :: GrantStands(changes, i, ski))
            && (d == Pending <==> !(exists i :: GrantStands(changes, i, ski)) && !(exists k :: PairingStands(changes, k, fingerprint)))
  {
    StandingIsTrusted(changes, ski, fingerprint);
    hide GrantStands, PairingStands;
  }

  /** A peer once remembered stays known, by the same record, until it is granted anew or revoked. */
  lemma {:induction false} KnownUntilRevoked(t: Trusted, later: seq<Change>, ski: Ski)
    requires forall j :: 0 <= j < |later| ==>
               !Revoked(Run(t, later[..j]), later[j], ski) && Granted(Run(t, later[..j]), later[j], ski).None?
    ensures RecordOf(Run(t, later), ski) == RecordOf(t, ski)
    decreases |later|
  {
    if later != [] {
      var n := |later| - 1;
      hide Revoked, Granted, Changed;
      forall j | 0 <= j < n
        ensures !Revoked(Run(t, later[..n][..j]), later[..n][j], ski) && Granted(Run(t, later[..n][..j]), later[..n][j], ski).None?
      {
        assert later[..n][..j] == later[..j];
      }
      KnownUntilRevoked(t, later[..n], ski);
      OthersKeepTheirRecord(Run(t, later[..n]), later[n], ski);
    }
  }
}
