/**
 The whole table, and everything reported, read off the history of calls alone:
 what each field of a tracked device says about the calls that were made, and
 which changes a call reports. Of the table only who is tracked is consulted.
 */
module History {
  import opened Wrappers
  import opened Devices
  import opened Order
  import opened StoreModel
  import opened StoreRuns
  import opened Claims
  import opened Identity
  import opened AddressHistory
  import DS = DeviceStore

  ghost predicate Tracked(caps: Caps, ops: seq<Op>, id: DeviceId) {
    id in Run(caps, map[], ops)
  }

  /** Some sighting of `id` by `p` still stands. */
  ghost predicate StandsFrom(caps: Caps, ops: seq<Op>, p: ProviderId, id: DeviceId) {
    exists i :: StandingSighting(caps, ops, p, id, i)
  }

  ghost predicate Alive(caps: Caps, ops: seq<Op>, id: DeviceId) {
    exists p :: StandsFrom(caps, ops, p, id)
  }

  /** The call is a sighting of `id` that the table had room for. */
  ghost predicate Admitted(caps: Caps, init: seq<Op>, op: Op, id: DeviceId) {
    Sights(op, id) && (Tracked(caps, init, id) || |Run(caps, map[], init)| < 512)
  }

  /** The timestamp of the last admitted sighting. */
  ghost function LastSighted(caps: Caps, ops: seq<Op>, id: DeviceId): Option<int>
    decreases |ops|
  {
    if ops == [] then None
    else
      var init, op := ops[..|ops| - 1], ops[|ops| - 1];
      if Admitted(caps, init, op, id) then Some(op.event.device.lastSeen) else LastSighted(caps, init, id)
  }

  /** What was last measured since the device was added, if anything was. */
  ghost function LastMeasured(caps: Caps, ops: seq<Op>, id: DeviceId): Option<u32>
    decreases |ops|
  {
    if ops == [] then None
    else
      var init, op := ops[..|ops| - 1], ops[|ops| - 1];
      if op.RecordLatency? && op.id == id then op.latency
      else if Sights(op, id) && !Tracked(caps, init, id) then None
      else LastMeasured(caps, init, id)
  }

  datatype Naming = Naming(owner: ProviderId, ident: Ident)

  /**
   What the device is called, and on whose word: the one who added it decides, then
   whoever speaks once the decider's sightings have all ended; others fill blanks.
   */
  ghost function Named(caps: Caps, ops: seq<Op>, id: DeviceId): Option<Naming>
    decreases |ops|
  {
    if ops == [] then None
    else
      var init, op := ops[..|ops| - 1], ops[|ops| - 1];
      var before := Named(caps, init, id);
      if !Admitted(caps, init, op, id) then before
      else if !Tracked(caps, init, id) || before.None? then Some(Naming(op.provider, IdentOf(op.event.device)))
      else if op.provider == before.value.owner || !StandsFrom(caps, init, before.value.owner, id)
      then Some(Naming(op.provider, Adopt(before.value.ident, op.event.device)))
      else Some(before.value.(ident := Fill(before.value.ident, op.event.device)))
  }

  ghost function Called(caps: Caps, ops: seq<Op>, id: DeviceId): Option<Ident> {
    match Named(caps, ops, id)
    case Some(naming) => Some(naming.ident)
    case None => None
  }

  /** Offline, unseen for longer than `ttl` and not exempted: what a sweep takes. */
  ghost predicate Swept(caps: Caps, init: seq<Op>, op: Op, id: DeviceId)
    requires op.Prune?
  {
    && Tracked(caps, init, id)
    && !Alive(caps, init, id)
    && (LastSighted(caps, init, id).Some? ==> op.now - LastSighted(caps, init, id).value > op.ttl)
    && !op.keep(id)
  }

  /** How the providers that stand make the device reachable, from what they registered. */
  ghost predicate Reaches(caps: Caps, ops: seq<Op>, id: DeviceId, c: Capabilities) {
    && (c.reachableLan <==>
          exists p :: StandsFrom(caps, ops, p, id) && (p !in caps || !caps[p].crossesSubnet))
    && (c.reachableRemote <==>
          exists p :: StandsFrom(caps, ops, p, id) && p in caps && caps[p].crossesSubnet)
    && (c.requiresTailscale <==>
          && Alive(caps, ops, id)
          && forall p :: StandsFrom(caps, ops, p, id) ==> p in caps && caps[p].requiresTailscale)
    && (forall p :: p in c.providers <==> StandsFrom(caps, ops, p, id))
    && NamesAscend(c.providers)
  }

  /** What a frontend is told of a device, field by field. */
  ghost predicate Tells(caps: Caps, ops: seq<Op>, id: DeviceId, m: ManagedDevice) {
    && m.device.id == id
    && Called(caps, ops, id) == Some(IdentOf(m.device))
    && m.device.addresses == AddressesOf(Run(caps, map[], ops), id)
    && (m.online <==> Alive(caps, ops, id))
    && Some(m.lastSeen) == Some(m.device.lastSeen) == LastSighted(caps, ops, id)
    && m.latency == LastMeasured(caps, ops, id)
    && Reaches(caps, ops, id, m.capabilities)
  }

  // -------------------------------------------------------- field by field

  /** The fields kept by the table itself. */
  ghost predicate FieldsRead(caps: Caps, ops: seq<Op>, id: DeviceId, e: Entry) {
    && Some(e.lastSeen) == LastSighted(caps, ops, id)
    && e.latency == LastMeasured(caps, ops, id)
    && Some(Naming(e.identityProvider, IdentOf(e.device))) == Named(caps, ops, id)
  }

  lemma Claimants(caps: Caps, ops: seq<Op>, id: DeviceId)
    ensures forall p :: p in StoreModel.Claims(Run(caps, map[], ops), id) <==> StandsFrom(caps, ops, p, id)
  {
    forall p
      ensures p in StoreModel.Claims(Run(caps, map[], ops), id) <==> StandsFrom(caps, ops, p, id)
    {
      ClaimMeansStandingSighting(caps, ops, p, id);
    }
  }

  /** One call's effect on the fields no other call sets. */
  lemma EntryStep(caps: Caps, s: Store, op: Op, id: DeviceId)
    requires Inv(s) && id in Next(caps, s, op)
    ensures var e' := Next(caps, s, op)[id];
            && (Sights(op, id) && id !in s ==>
                  e'.lastSeen == op.event.device.lastSeen && e'.latency == None &&
                  e'.identityProvider == op.provider && IdentOf(e'.device) == IdentOf(op.event.device))
            && (Sights(op, id) && id in s ==> e'.lastSeen == op.event.device.lastSeen && e'.latency == s[id].latency)
            && (!Sights(op, id) ==>
                  id in s && e'.lastSeen == s[id].lastSeen && e'.identityProvider == s[id].identityProvider
                  && IdentOf(e'.device) == IdentOf(s[id].device)
                  && e'.latency == if op.RecordLatency? && op.id == id then op.latency else s[id].latency)
  {
    NextAt(caps, s, op, id);
  }

  lemma FieldsStep(caps: Caps, ops: seq<Op>, id: DeviceId)
    requires ops != []
    requires var init := ops[..|ops| - 1];
             Tracked(caps, init, id) ==> FieldsRead(caps, init, id, Run(caps, map[], init)[id])
    requires Tracked(caps, ops, id)
    ensures FieldsRead(caps, ops, id, Run(caps, map[], ops)[id])
  {
    var init, op := ops[..|ops| - 1], ops[|ops| - 1];
    var s := Run(caps, map[], init);
    InvAlways(caps, map[], init);
    EntryStep(caps, s, op, id);
    if Sights(op, id) {
      RefusedIffFull(caps, s, op.provider, op.event);
      if id in s {
        Claimants(caps, init, id);
        TakeoverAfterDrop(caps, s, id, op.provider, op.event);
      }
    }
  }

  lemma {:induction false} FieldsAlways(caps: Caps, ops: seq<Op>, id: DeviceId)
    requires Tracked(caps, ops, id)
    ensures FieldsRead(caps, ops, id, Run(caps, map[], ops)[id])
    decreases |ops|
  {
    if ops != [] {
      var init := ops[..|ops| - 1];
      if Tracked(caps, init, id) {
        FieldsAlways(caps, init, id);
      }
      FieldsStep(caps, ops, id);
    }
  }

  // ------------------------------------------------------- the whole entry

  lemma ReachesRead(caps: Caps, ops: seq<Op>, id: DeviceId)
    ensures Reaches(caps, ops, id, CapabilitiesOf(caps, StoreModel.Claims(Run(caps, map[], ops), id)))
  {
    var providers := StoreModel.Claims(Run(caps, map[], ops), id);
    var c := CapabilitiesOf(caps, providers);
    Claimants(caps, ops, id);
    AscendingNames(c.providers);
    forall p
      ensures p in c.providers <==> p in providers
    {
      assert p in c.providers <==> p in Elements(c.providers);
    }
  }

  /**
   After any run, everything a frontend would be shown of a tracked device is what
   the calls say: who still stands, what was last sighted and last measured, what
   the owner and those who filled its blanks called it.
   */
  lemma TableIsReadOff(caps: Caps, ops: seq<Op>, id: DeviceId)
    requires Tracked(caps, ops, id)
    ensures Tells(caps, ops, id, ToManaged(caps, Run(caps, map[], ops)[id]))
  {
    InvAlways(caps, map[], ops);
    FieldsAlways(caps, ops, id);
    ReachesRead(caps, ops, id);
    Claimants(caps, ops, id);
  }

  /** So of a store object, after any calls. */
  lemma StoreTells(store: DS.DeviceStore, id: DeviceId)
    requires store.Valid() && id in store.devices
    ensures Tells(store.providerCaps, store.ops, id, ToManaged(store.providerCaps, store.devices[id]))
  {
    TableIsReadOff(store.providerCaps, store.ops, id);
  }

  /** Online, in the table, is being alive in the history. */
  lemma OnlineIffAlive(caps: Caps, ops: seq<Op>, id: DeviceId)
    ensures id in OnlineIds(Run(caps, map[], ops)) <==> Alive(caps, ops, id)
    ensures Alive(caps, ops, id) ==> Tracked(caps, ops, id)
  {
    var s := Run(caps, map[], ops);
    InvAlways(caps, map[], ops);
    Claimants(caps, ops, id);
    if id in OnlineIds(s) {
      var p :| p in s[id].providers;
      assert StandsFrom(caps, ops, p, id);
    }
    if p :| StandsFrom(caps, ops, p, id) {
      assert p in StoreModel.Claims(s, id);
    }
  }

  lemma StaleIffSwept(caps: Caps, init: seq<Op>, op: Op, id: DeviceId)
    requires op.Prune?
    ensures id in StaleIds(Run(caps, map[], init), op.now, op.ttl, op.keep) <==> Swept(caps, init, op, id)
  {
    if Tracked(caps, init, id) {
      FieldsAlways(caps, init, id);
    }
    OnlineIffAlive(caps, init, id);
  }

  /** A device is tracked from an admitted sighting until a sweep takes it. */
  lemma TrackedStep(caps: Caps, init: seq<Op>, op: Op, id: DeviceId)
    ensures Tracked(caps, init + [op], id)
       <==> || Admitted(caps, init, op, id)
            || (Tracked(caps, init, id) && !(op.Prune? && Swept(caps, init, op, id)))
  {
    RunSnoc(caps, map[], init, op);
    InvAlways(caps, map[], init);
    NextAt(caps, Run(caps, map[], init), op, id);
    if op.Prune? {
      StaleIffSwept(caps, init, op, id);
    } else if Sights(op, id) {
      RefusedIffFull(caps, Run(caps, map[], init), op.provider, op.event);
    }
  }

  // --------------------------------------------------------- what is reported

  /** Nothing about the device that a frontend sees would be news. */
  ghost predicate NoNews(caps: Caps, init: seq<Op>, after: seq<Op>, p: ProviderId, id: DeviceId) {
    && StandsFrom(caps, init, p, id)
    && Called(caps, after, id) == Called(caps, init, id)
    && AddressesOf(Run(caps, map[], after), id) == AddressesOf(Run(caps, map[], init), id)
  }

  /** What is told of a device, if it is tracked. */
  ghost function Shown(caps: Caps, ops: seq<Op>, id: DeviceId): (m: Option<ManagedDevice>)
    ensures Tracked(caps, ops, id) ==> m.Some? && Tells(caps, ops, id, m.value)
  {
    if Tracked(caps, ops, id) then
      TableIsReadOff(caps, ops, id);
      Some(ToManaged(caps, Run(caps, map[], ops)[id]))
    else None
  }

  lemma NewsIff(caps: Caps, init: seq<Op>, op: Op, id: DeviceId)
    requires Sights(op, id) && Tracked(caps, init, id)
    ensures var s := Run(caps, map[], init);
            NoNews(caps, init, init + [op], op.provider, id)
            <==> op.provider in s[id].providers
                 && SameIdentity(s[id].device, Resight(s[id], op.provider, op.event.device).device)
  {
    var s, after := Run(caps, map[], init), init + [op];
    RunSnoc(caps, map[], init, op);
    InvAlways(caps, map[], init);
    InvAlways(caps, map[], after);
    Claimants(caps, init, id);
    FieldsAlways(caps, init, id);
    FieldsAlways(caps, after, id);
    assert Run(caps, map[], after)[id] == Resight(s[id], op.provider, op.event.device);
  }

  /**
   A sighting reports nothing when refused; a new device as added; and of a known
   one, in this order, that it came back, if nothing stood, and what it is now, if
   there is news in that.
   */
  lemma SightingReport(caps: Caps, init: seq<Op>, op: Op, id: DeviceId, changes: seq<DeviceChange>)
    requires Sights(op, id)
    requires Reports(caps, Run(caps, map[], init), op, changes)
    ensures var after := init + [op];
            && (Admitted(caps, init, op, id) ==> Tracked(caps, after, id))
            && changes ==
               if !Admitted(caps, init, op, id) then []
               else if !Tracked(caps, init, id) then [DeviceAdded(Shown(caps, after, id).value)]
               else (if Alive(caps, init, id) then [] else [StatusChanged(id, true)]) +
                    (if NoNews(caps, init, after, op.provider, id) then [] else [DeviceUpdated(Shown(caps, after, id).value)])
  {
    RunSnoc(caps, map[], init, op);
    InvAlways(caps, map[], init);
    TrackedStep(caps, init, op, id);
    if Tracked(caps, init, id) {
      NewsIff(caps, init, op, id);
      OnlineIffAlive(caps, init, id);
    }
  }

  /** A Lost of a tracked device reports it offline when nothing stands any more, and otherwise what it is now. */
  lemma LostReport(caps: Caps, init: seq<Op>, p: ProviderId, id: DeviceId, changes: seq<DeviceChange>)
    requires Reports(caps, Run(caps, map[], init), Observe(p, Lost(id)), changes)
    ensures var after := init + [Observe(p, Lost(id))];
            && (Tracked(caps, init, id) ==> Tracked(caps, after, id))
            && changes ==
               if !Tracked(caps, init, id) then []
               else if Alive(caps, after, id) then [DeviceUpdated(Shown(caps, after, id).value)]
               else [StatusChanged(id, false)]
  {
    var op := Observe(p, Lost(id));
    RunSnoc(caps, map[], init, op);
    InvAlways(caps, map[], init + [op]);
    OnlineIffAlive(caps, init + [op], id);
  }

  /** Stopping reports each device that was alive, once, as offline. */
  lemma StopReport(caps: Caps, init: seq<Op>, changes: seq<DeviceChange>)
    requires Reports(caps, Run(caps, map[], init), OfflineAll, changes)
    ensures Distinct(changes)
    ensures forall c :: c in changes <==> c == StatusChanged(c.Subject(), false) && Alive(caps, init, c.Subject())
  {
    forall id
      ensures id in OnlineIds(Run(caps, map[], init)) <==> Alive(caps, init, id)
    {
      OnlineIffAlive(caps, init, id);
    }
  }

  /** A measurement is reported when it differs from the last one since the device was added. */
  lemma LatencyReport(caps: Caps, init: seq<Op>, id: DeviceId, latency: Option<u32>, changes: seq<DeviceChange>)
    requires Reports(caps, Run(caps, map[], init), RecordLatency(id, latency), changes)
    ensures changes == if Tracked(caps, init, id) && LastMeasured(caps, init, id) != latency
                       then [LatencyChanged(id, latency)] else []
  {
    if Tracked(caps, init, id) {
      FieldsAlways(caps, init, id);
    }
  }

  /** A sweep reports each device it takes, once, as removed. */
  lemma SweepReport(caps: Caps, init: seq<Op>, op: Op, changes: seq<DeviceChange>)
    requires op.Prune? && Reports(caps, Run(caps, map[], init), op, changes)
    ensures Distinct(changes)
    ensures forall c :: c in changes <==> c.DeviceRemoved? && Swept(caps, init, op, c.id)
  {
    forall id
      ensures id in StaleIds(Run(caps, map[], init), op.now, op.ttl, op.keep) <==> Swept(caps, init, op, id)
    {
      StaleIffSwept(caps, init, op, id);
    }
  }
}
