/**
 Two reducers fold the same provider events: the store, which keeps offline
 devices, collapses LAN claims and caps its size, and the registry, which does
 none of that. This module says exactly how far apart they can be.
 */
module Simulation {
  import opened Wrappers
  import opened Devices
  import opened StoreModel
  import opened StoreRuns
  import opened Claims
  import opened Registry
  import opened Confluence

  /** The provider events among the calls on a store. */
  function EventsOf(ops: seq<Op>): seq<Tagged>
    decreases |ops|
  {
    if ops == [] then []
    else
      var rest, op := EventsOf(ops[..|ops| - 1]), ops[|ops| - 1];
      if op.Observe? then rest + [Tagged(op.provider, op.event)] else rest
  }

  /** The registry, fed what the store was fed. */
  function Shadow(ops: seq<Op>): Live {
    Folded(EventsOf(ops))
  }

  function ShadowNext(live: Live, op: Op): Live {
    if op.Observe? then Fold(live, Tagged(op.provider, op.event)) else live
  }

  lemma ShadowStep(ops: seq<Op>)
    requires ops != []
    ensures Shadow(ops) == ShadowNext(Shadow(ops[..|ops| - 1]), ops[|ops| - 1])
  {
    var rest := EventsOf(ops[..|ops| - 1]);
    var op := ops[|ops| - 1];
    if op.Observe? {
      assert (rest + [Tagged(op.provider, op.event)])[..|rest|] == rest;
    }
  }

  /** One event's effect on one claim in the registry. */
  lemma LiveClaimStep(live: Live, op: Op, p: ProviderId, id: DeviceId)
    ensures p in LiveClaims(ShadowNext(live, op), id)
       <==> || SightingOf(op, p, id)
            || (p in LiveClaims(live, id) && op != Observe(p, Lost(id)))
  {
  }

  /**
   Whatever else is called, the store never claims more than the registry: a
   device it shows online is live there too.
   */
  lemma {:induction false} StoreClaimsAreLive(caps: Caps, ops: seq<Op>, id: DeviceId)
    ensures StoreModel.Claims(Run(caps, map[], ops), id) <= LiveClaims(Shadow(ops), id)
    decreases |ops|
  {
    if ops != [] {
      var init, op := ops[..|ops| - 1], ops[|ops| - 1];
      StoreClaimsAreLive(caps, init, id);
      InvAlways(caps, map[], init);
      ShadowStep(ops);
      forall p | p in StoreModel.Claims(Run(caps, map[], ops), id)
        ensures p in LiveClaims(Shadow(ops), id)
      {
        ClaimStep(caps, Run(caps, map[], init), op, p, id);
        LiveClaimStep(Shadow(init), op, p, id);
      }
    }
  }

  lemma OnlineIsLive(caps: Caps, ops: seq<Op>, id: DeviceId)
    ensures id in OnlineIds(Run(caps, map[], ops)) ==> id in Shadow(ops)
  {
    StoreClaimsAreLive(caps, ops, id);
    InvAlways(caps, map[], ops);
  }

  // ------------------------------------------ when the two agree exactly

  /**
   Among the providers that report, no Lost speaks for anyone else: whoever is
   registered as LAN has only cross-subnet companions. One LAN provider beside
   Tailscale is apart; two LAN providers are not.
   */
  predicate Apart(caps: Caps, ps: set<ProviderId>) {
    forall p, q :: p in ps && q in ps && p != q && RegisteredLan(caps, p) ==> CrossesSubnet(caps, q)
  }

  /** All that was reported came from `ps`. */
  predicate ReportedFrom(ops: seq<Op>, ps: set<ProviderId>) {
    forall i :: 0 <= i < |ops| && ops[i].Observe? ==> ops[i].provider in ps
  }

  lemma {:induction false} ClaimsFrom(caps: Caps, ps: set<ProviderId>, ops: seq<Op>, id: DeviceId)
    requires ReportedFrom(ops, ps)
    ensures StoreModel.Claims(Run(caps, map[], ops), id) <= ps
    decreases |ops|
  {
    if ops != [] {
      var init, op := ops[..|ops| - 1], ops[|ops| - 1];
      ClaimsFrom(caps, ps, init, id);
      InvAlways(caps, map[], init);
      forall p | p in StoreModel.Claims(Run(caps, map[], ops), id)
        ensures p in ps
      {
        ClaimStep(caps, Run(caps, map[], init), op, p, id);
      }
    }
  }

  /** Apart, a Lost drops the reporter's own claim and no other. */
  lemma ApartLosesOne(caps: Caps, ps: set<ProviderId>, claims: set<ProviderId>, p: ProviderId)
    requires Apart(caps, ps) && claims <= ps && p in ps
    ensures Surviving(caps, claims, p) == claims - {p}
  {
  }

  /** Discovery was never stopped, and no sighting met a full table. */
  ghost predicate Undisturbed(caps: Caps, ops: seq<Op>)
    decreases |ops|
  {
    ops == [] ||
    var init, op := ops[..|ops| - 1], ops[|ops| - 1];
    && Undisturbed(caps, init)
    && !op.OfflineAll?
    && (op.Observe? && op.event.Sighting() ==> Admits(Run(caps, map[], init), op.event.Subject()))
  }

  function LookupLive(live: Live, id: DeviceId): Option<Record> {
    if id in live then Some(live[id]) else None
  }

  /** Same claims; and for a live device the same owner, kind and time, and no address missed. */
  ghost predicate Tracks(e: Option<Entry>, r: Option<Record>) {
    && (if e.Some? then e.value.providers else {}) == (if r.Some? then r.value.providers else {})
    && (r.Some? ==>
          && e.Some?
          && r.value.providers != {}
          && e.value.identityProvider == r.value.identityProvider
          && e.value.device.deviceType == r.value.device.deviceType
          && e.value.device.platform == r.value.device.platform
          && e.value.device.lastSeen == r.value.device.lastSeen
          && Elements(r.value.device.addresses) <= Elements(e.value.device.addresses))
  }

  lemma LiveAt(live: Live, op: Op, id: DeviceId)
    requires !op.Observe? || op.event.Subject() != id
    ensures LookupLive(ShadowNext(live, op), id) == LookupLive(live, id)
  {
  }

  lemma SightingTracks(caps: Caps, s: Store, live: Live, p: ProviderId, event: DiscoveryEvent)
    requires event.Sighting() && Admits(s, event.Subject())
    requires Tracks(Lookup(s, event.Subject()), LookupLive(live, event.Subject()))
    ensures var op := Observe(p, event);
            Tracks(Lookup(Next(caps, s, op), event.Subject()), LookupLive(ShadowNext(live, op), event.Subject()))
  {
    NextAt(caps, s, Observe(p, event), event.Subject());
  }

  lemma LostTracks(caps: Caps, ps: set<ProviderId>, s: Store, live: Live, p: ProviderId, id: DeviceId)
    requires Apart(caps, ps) && p in ps && StoreModel.Claims(s, id) <= ps
    requires Tracks(Lookup(s, id), LookupLive(live, id))
    ensures var op := Observe(p, Lost(id));
            Tracks(Lookup(Next(caps, s, op), id), LookupLive(ShadowNext(live, op), id))
  {
    NextAt(caps, s, Observe(p, Lost(id)), id);
    ApartLosesOne(caps, ps, StoreModel.Claims(s, id), p);
  }

  lemma TracksStep(caps: Caps, ps: set<ProviderId>, s: Store, live: Live, op: Op, id: DeviceId)
    requires Apart(caps, ps) && StoreModel.Claims(s, id) <= ps && (op.Observe? ==> op.provider in ps)
    requires Inv(s)
    requires !op.OfflineAll? && (op.Observe? && op.event.Sighting() ==> Admits(s, op.event.Subject()))
    requires Tracks(Lookup(s, id), LookupLive(live, id))
    ensures Tracks(Lookup(Next(caps, s, op), id), LookupLive(ShadowNext(live, op), id))
  {
    if op.Observe? && op.event.Subject() == id {
      if op.event.Lost? {
        LostTracks(caps, ps, s, live, op.provider, id);
      } else {
        SightingTracks(caps, s, live, op.provider, op.event);
      }
    } else {
      LiveAt(live, op, id);
      NextAt(caps, s, op, id);
    }
  }

  /** Undisturbed and with its reporters apart, the store tracks the registry device by device. */
  lemma {:induction false} StoreTracksRegistry(caps: Caps, ps: set<ProviderId>, ops: seq<Op>, id: DeviceId)
    requires Apart(caps, ps) && ReportedFrom(ops, ps) && Undisturbed(caps, ops)
    ensures Tracks(Lookup(Run(caps, map[], ops), id), LookupLive(Shadow(ops), id))
    decreases |ops|
  {
    if ops != [] {
      var init, op := ops[..|ops| - 1], ops[|ops| - 1];
      StoreTracksRegistry(caps, ps, init, id);
      InvAlways(caps, map[], init);
      ClaimsFrom(caps, ps, init, id);
      ShadowStep(ops);
      TracksStep(caps, ps, Run(caps, map[], init), Shadow(init), op, id);
    }
  }

  /** `id` has never lost its last claim. */
  ghost predicate NeverLapsed(caps: Caps, ops: seq<Op>, id: DeviceId)
    decreases |ops|
  {
    ops == [] ||
    var init := ops[..|ops| - 1];
    && NeverLapsed(caps, init, id)
    && (id in Run(caps, map[], init) ==> StoreModel.Claims(Run(caps, map[], ops), id) != {})
  }

  ghost predicate Identical(e: Option<Entry>, r: Option<Record>) {
    && (e.Some? <==> r.Some?)
    && (e.Some? ==> Record(e.value.device, e.value.providers, e.value.identityProvider) == r.value)
  }

  lemma IdenticalStep(caps: Caps, ps: set<ProviderId>, s: Store, live: Live, op: Op, id: DeviceId)
    requires Apart(caps, ps) && StoreModel.Claims(s, id) <= ps && (op.Observe? ==> op.provider in ps)
    requires Inv(s)
    requires !op.OfflineAll? && (op.Observe? && op.event.Sighting() ==> Admits(s, op.event.Subject()))
    requires Identical(Lookup(s, id), LookupLive(live, id))
    requires id in s ==> StoreModel.Claims(s, id) != {} && StoreModel.Claims(Next(caps, s, op), id) != {}
    ensures Identical(Lookup(Next(caps, s, op), id), LookupLive(ShadowNext(live, op), id))
  {
    NextAt(caps, s, op, id);
    if !op.Observe? || op.event.Subject() != id {
      LiveAt(live, op, id);
    } else if op.event.Lost? && id in s {
      ApartLosesOne(caps, ps, s[id].providers, op.provider);
    }
  }

  lemma NeverLapsedHasClaims(caps: Caps, ops: seq<Op>, id: DeviceId)
    requires NeverLapsed(caps, ops, id) && id in Run(caps, map[], ops)
    ensures StoreModel.Claims(Run(caps, map[], ops), id) != {}
  {
    var init, op := ops[..|ops| - 1], ops[|ops| - 1];
    NextAt(caps, Run(caps, map[], init), op, id);
  }

  /** Until a device first loses its last claim, both reducers hold the very same record of it. */
  lemma {:induction false} IdenticalUntilLapse(caps: Caps, ps: set<ProviderId>, ops: seq<Op>, id: DeviceId)
    requires Apart(caps, ps) && ReportedFrom(ops, ps)
    requires Undisturbed(caps, ops) && NeverLapsed(caps, ops, id)
    ensures Identical(Lookup(Run(caps, map[], ops), id), LookupLive(Shadow(ops), id))
    decreases |ops|
  {
    if ops != [] {
      var init, op := ops[..|ops| - 1], ops[|ops| - 1];
      IdenticalUntilLapse(caps, ps, init, id);
      InvAlways(caps, map[], init);
      ClaimsFrom(caps, ps, init, id);
      ShadowStep(ops);
      if id in Run(caps, map[], init) {
        NeverLapsedHasClaims(caps, init, id);
      }
      IdenticalStep(caps, ps, Run(caps, map[], init), Shadow(init), op, id);
    }
  }

  /** Undisturbed and with its reporters apart, the store's claims are the registry's. */
  lemma ClaimsAreLiveClaims(caps: Caps, ps: set<ProviderId>, ops: seq<Op>, id: DeviceId)
    requires Apart(caps, ps) && ReportedFrom(ops, ps) && Undisturbed(caps, ops)
    ensures StoreModel.Claims(Run(caps, map[], ops), id) == LiveClaims(Shadow(ops), id)
  {
    StoreTracksRegistry(caps, ps, ops, id);
  }

  lemma OnlineIffClaimed(s: Store, id: DeviceId)
    requires Inv(s)
    ensures id in OnlineIds(s) <==> StoreModel.Claims(s, id) != {}
  {
  }

  /** Every provider sent the same events in the same order. */
  ghost predicate SameStreams(a: seq<Op>, b: seq<Op>) {
    forall p :: StreamOf(EventsOf(a), p) == StreamOf(EventsOf(b), p)
  }

  /** Two undisturbed runs of the same streams, all from `ps`. */
  ghost predicate Comparable(caps: Caps, ps: set<ProviderId>, a: seq<Op>, b: seq<Op>) {
    && ReportedFrom(a, ps) && ReportedFrom(b, ps)
    && Undisturbed(caps, a) && Undisturbed(caps, b)
    && SameStreams(a, b)
  }

  ghost predicate SameOnline(caps: Caps, a: seq<Op>, b: seq<Op>) {
    OnlineIds(Run(caps, map[], a)) == OnlineIds(Run(caps, map[], b))
  }

  lemma ApartSameOnline(caps: Caps, ps: set<ProviderId>, a: seq<Op>, b: seq<Op>)
    requires Apart(caps, ps) && Comparable(caps, ps, a, b)
    ensures SameOnline(caps, a, b)
  {
    forall id
      ensures id in OnlineIds(Run(caps, map[], a)) <==> id in OnlineIds(Run(caps, map[], b))
    {
      SameStreamsSameClaims(EventsOf(a), EventsOf(b), id);
      ClaimsAreLiveClaims(caps, ps, a, id);
      ClaimsAreLiveClaims(caps, ps, b, id);
      InvAlways(caps, map[], a);
      InvAlways(caps, map[], b);
      OnlineIffClaimed(Run(caps, map[], a), id);
      OnlineIffClaimed(Run(caps, map[], b), id);
    }
  }

  lemma NotApartDifferentOnline(caps: Caps, ps: set<ProviderId>) returns (a: seq<Op>, b: seq<Op>)
    requires !Apart(caps, ps)
    ensures Comparable(caps, ps, a, b) && !SameOnline(caps, a, b)
  {
    var p, q :| p in ps && q in ps && p != q && RegisteredLan(caps, p) && !CrossesSubnet(caps, q);
    var id := "";
    a, b := CollapseFirst(p, q, id), CollapseLast(p, q, id);
    LanCollapseDependsOnOrder(caps, p, q, id);
    CollapseIsReportedFrom(ps, p, q, id);
    DifferentOnline(caps, a, b, id);
  }

  lemma DifferentOnline(caps: Caps, a: seq<Op>, b: seq<Op>, id: DeviceId)
    requires id in OnlineIds(Run(caps, map[], a)) && id !in OnlineIds(Run(caps, map[], b))
    ensures !SameOnline(caps, a, b)
  {
  }

  lemma CollapseIsReportedFrom(ps: set<ProviderId>, p: ProviderId, q: ProviderId, id: DeviceId)
    requires p in ps && q in ps
    ensures ReportedFrom(CollapseFirst(p, q, id), ps) && ReportedFrom(CollapseLast(p, q, id), ps)
  {
  }

  /**
   Who is online does not depend on interleaving, sweeps or measurements exactly
   when the reporting providers are apart.
   */
  lemma OnlineIsConfluent(caps: Caps, ps: set<ProviderId>)
    ensures (forall a, b :: Comparable(caps, ps, a, b) ==> SameOnline(caps, a, b)) <==> Apart(caps, ps)
  {
    if Apart(caps, ps) {
      forall a, b | Comparable(caps, ps, a, b)
        ensures SameOnline(caps, a, b)
      {
        ApartSameOnline(caps, ps, a, b);
      }
    } else {
      var a, b := NotApartDifferentOnline(caps, ps);
    }
  }

  // ------------------------------------------------- the conditions matter

  lemma ThreeCalls(caps: Caps, x: Op, y: Op, z: Op)
    ensures Run(caps, map[], [x, y, z]) == Next(caps, Next(caps, Next(caps, map[], x), y), z)
  {
    RunSnoc(caps, map[], [], x);
    assert [] + [x] == [x];
    RunSnoc(caps, map[], [x], y);
    assert [x] + [y] == [x, y];
    RunSnoc(caps, map[], [x, y], z);
    assert [x, y] + [z] == [x, y, z];
  }

  lemma ThreeEvents(x: Op, y: Op, z: Op)
    requires x.Observe? && y.Observe? && z.Observe?
    ensures EventsOf([x, y, z])
         == [Tagged(x.provider, x.event), Tagged(y.provider, y.event), Tagged(z.provider, z.event)]
  {
    assert [x, y, z][..2] == [x, y] && [x, y][..1] == [x] && [x][..0] == [];
    assert EventsOf([x]) == [Tagged(x.provider, x.event)];
    assert EventsOf([x, y]) == [Tagged(x.provider, x.event), Tagged(y.provider, y.event)];
  }

  function Named(id: DeviceId, name: string): Device {
    Device(id, name, Desktop, Linux, [], 9000, 0)
  }

  /** `p` sights a device and loses it, and `q` sights it afterwards. */
  function CollapseFirst(p: ProviderId, q: ProviderId, id: DeviceId): seq<Op> {
    [Observe(p, Found(Named(id, "x"))), Observe(p, Lost(id)), Observe(q, Found(Named(id, "x")))]
  }

  /** The same, with `q`'s sighting in between. */
  function CollapseLast(p: ProviderId, q: ProviderId, id: DeviceId): seq<Op> {
    [Observe(p, Found(Named(id, "x"))), Observe(q, Found(Named(id, "x"))), Observe(p, Lost(id))]
  }

  lemma UndisturbedSnoc(caps: Caps, ops: seq<Op>, op: Op)
    requires Undisturbed(caps, ops) && op.Observe?
    requires op.event.Sighting() ==> Admits(Run(caps, map[], ops), op.event.Subject())
    ensures Undisturbed(caps, ops + [op])
  {
    assert (ops + [op])[..|ops|] == ops;
  }

  lemma ThreeAreUndisturbed(caps: Caps, x: Op, y: Op, z: Op)
    requires x.Observe? && y.Observe? && z.Observe?
    requires x.event.Subject() == y.event.Subject() == z.event.Subject() && x.event.Sighting()
    ensures Undisturbed(caps, [x, y, z])
  {
    var id := x.event.Subject();
    UndisturbedSnoc(caps, [], x);
    assert [] + [x] == [x];
    RunSnoc(caps, map[], [], x);
    NextAt(caps, map[], x, id);
    UndisturbedSnoc(caps, [x], y);
    assert [x] + [y] == [x, y];
    RunSnoc(caps, map[], [x], y);
    NextAt(caps, Run(caps, map[], [x]), y, id);
    UndisturbedSnoc(caps, [x, y], z);
    assert [x, y] + [z] == [x, y, z];
  }

  /**
   With one LAN provider beside another that does not cross subnets, the same two
   streams end with the device online or offline.
   */
  lemma LanCollapseDependsOnOrder(caps: Caps, p: ProviderId, q: ProviderId, id: DeviceId)
    requires p != q && RegisteredLan(caps, p) && !CrossesSubnet(caps, q)
    ensures var a, b := CollapseFirst(p, q, id), CollapseLast(p, q, id);
            && id in OnlineIds(Run(caps, map[], a))
            && id !in OnlineIds(Run(caps, map[], b))
            && SameStreams(a, b)
            && Undisturbed(caps, a) && Undisturbed(caps, b)
  {
    var found, lost, other :=
      Observe(p, Found(Named(id, "x"))), Observe(p, Lost(id)), Observe(q, Found(Named(id, "x")));
    ThreeCalls(caps, found, lost, other);
    ThreeCalls(caps, found, other, lost);
    ThreeEvents(found, lost, other);
    ThreeEvents(found, other, lost);
    ThreeAreUndisturbed(caps, found, lost, other);
    ThreeAreUndisturbed(caps, found, other, lost);
    OneProvidersOrderIsKept(Tagged(p, found.event), Tagged(p, lost.event), Tagged(q, other.event));
  }

  lemma OneProvidersOrderIsKept(a: Tagged, b: Tagged, c: Tagged)
    requires a.provider == b.provider != c.provider
    ensures forall r :: StreamOf([a, b, c], r) == StreamOf([a, c, b], r)
  {
    forall r
      ensures StreamOf([a, b, c], r) == StreamOf([a, c, b], r)
    {
      ThreeTagged(a, b, c, r);
      ThreeTagged(a, c, b, r);
    }
  }

  lemma ThreeTagged(a: Tagged, b: Tagged, c: Tagged, r: ProviderId)
    ensures StreamOf([a, b, c], r)
         == (if a.provider == r then [a.event] else [])
          + (if b.provider == r then [b.event] else [])
          + (if c.provider == r then [c.event] else [])
  {
    assert [a, b, c][..2] == [a, b] && [a, b][..1] == [a] && [a][..0] == [];
    assert StreamOf([a], r) == if a.provider == r then [a.event] else [];
    assert StreamOf([a, b], r) == StreamOf([a], r) + if b.provider == r then [b.event] else [];
  }

  /** Every device anybody ever mentioned. */
  ghost function Mentioned(ops: seq<Op>): set<DeviceId>
    decreases |ops|
  {
    if ops == [] then {}
    else Mentioned(ops[..|ops| - 1]) +
         if ops[|ops| - 1].Observe? then {ops[|ops| - 1].event.Subject()} else {}
  }

  lemma NextAddsOnlyMentioned(caps: Caps, s: Store, op: Op)
    ensures Next(caps, s, op).Keys <= s.Keys + if op.Observe? then {op.event.Subject()} else {}
  {
  }

  /** With no more than 512 devices about, no sighting is ever refused. */
  lemma {:induction false} FewDevicesAreNeverRefused(caps: Caps, ops: seq<Op>)
    requires |Mentioned(ops)| <= MAX_DEVICES
    requires forall i :: 0 <= i < |ops| ==> !ops[i].OfflineAll?
    ensures Undisturbed(caps, ops)
    ensures Run(caps, map[], ops).Keys <= Mentioned(ops)
    decreases |ops|
  {
    if ops != [] {
      var init, op := ops[..|ops| - 1], ops[|ops| - 1];
      SubsetSize(Mentioned(init), Mentioned(ops));
      FewDevicesAreNeverRefused(caps, init);
      var s := Run(caps, map[], init);
      NextAddsOnlyMentioned(caps, s, op);
      if op.Observe? && op.event.Sighting() && op.event.Subject() !in s {
        SubsetSize(s.Keys, Mentioned(ops) - {op.event.Subject()});
      }
    }
  }
}
