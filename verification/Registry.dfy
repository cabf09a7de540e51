/** The cross-provider dedup reducer: it forgets a device the moment nobody claims it. */
module Registry {
  import opened Wrappers
  import opened Devices
  import opened StoreModel

  datatype Record = Record(device: Device, providers: set<ProviderId>, identityProvider: ProviderId)

  type Live = map<DeviceId, Record>

  /** A provider's event, tagged with who sent it. */
  datatype Tagged = Tagged(provider: ProviderId, event: DiscoveryEvent)

  datatype PeerEvent = PeerFound(device: Device) | PeerUpdated(device: Device) | PeerLost(id: DeviceId)

  function Rerecord(r: Record, p: ProviderId, d: Device): Record {
    var take := TakesIdentity(p, r.identityProvider, r.providers);
    Record(Merge(r.device, d, take), r.providers + {p}, if take then p else r.identityProvider)
  }

  /** The registry after one event. */
  function Fold(live: Live, t: Tagged): Live {
    var id := t.event.Subject();
    if t.event.Lost? then
      if id !in live then live
      else
        var left := live[id].providers - {t.provider};
        if left == {} then live - {id} else live[id := live[id].(providers := left)]
    else if id in live then live[id := Rerecord(live[id], t.provider, t.event.device)]
    else live[id := Record(t.event.device, {t.provider}, t.provider)]
  }

  /** What that event is worth announcing. */
  function Announce(live: Live, t: Tagged): Option<PeerEvent> {
    var id := t.event.Subject();
    if t.event.Lost? then
      if id in live && live[id].providers - {t.provider} == {} then Some(PeerLost(id)) else None
    else if id !in live then Some(PeerFound(t.event.device))
    else
      var merged := Rerecord(live[id], t.provider, t.event.device).device;
      if SameIdentity(live[id].device, merged) then None else Some(PeerUpdated(merged))
  }

  /** The registry after a whole tagged stream. */
  function Folded(events: seq<Tagged>): Live
    decreases |events|
  {
    if events == [] then map[]
    else Fold(Folded(events[..|events| - 1]), events[|events| - 1])
  }

  /** The merged stream: every event scanned through one registry, silences dropped. */
  function MergedStream(events: seq<Tagged>): seq<PeerEvent>
    decreases |events|
  {
    if events == [] then []
    else
      var init, t := events[..|events| - 1], events[|events| - 1];
      match Announce(Folded(init), t)
      case None => MergedStream(init)
      case Some(e) => MergedStream(init) + [e]
  }

  function LiveClaims(live: Live, id: DeviceId): set<ProviderId> {
    if id in live then live[id].providers else {}
  }

  ghost predicate LiveInv(live: Live) {
    forall id :: id in live ==> live[id].providers != {} && live[id].device.id == id
  }

  lemma {:induction false} LiveInvAlways(events: seq<Tagged>)
    ensures LiveInv(Folded(events))
    decreases |events|
  {
    if events != [] {
      LiveInvAlways(events[..|events| - 1]);
    }
  }

  lemma StreamSnocFolds(events: seq<Tagged>, t: Tagged)
    ensures Folded(events + [t]) == Fold(Folded(events), t)
    ensures MergedStream(events + [t])
         == MergedStream(events) + match Announce(Folded(events), t) case None => [] case Some(e) => [e]
  {
    assert (events + [t])[..|events|] == events;
  }

  class DiscoveryRegistry {
    var devices: map<DeviceId, Record>

    /** Everything observed and everything announced so far. */
    ghost var events: seq<Tagged>
    ghost var announced: seq<PeerEvent>

    ghost predicate Valid()
      reads this
    {
      devices == Folded(events) && announced == MergedStream(events)
    }

    constructor ()
      ensures Valid() && devices == map[] && events == []
    {
      devices := map[];
      events, announced := [], [];
    }

    method Observe(provider: ProviderId, event: DiscoveryEvent) returns (out: Option<PeerEvent>)
      requires Valid()
      modifies this
      ensures Valid()
      ensures events == old(events) + [Tagged(provider, event)]
      ensures announced == old(announced) + (if out.Some? then [out.value] else [])
      ensures devices == Fold(old(devices), Tagged(provider, event))
    {
      ghost var before := devices;
      match event {
        case Found(device) =>
          out := Sight(provider, device);
        case Updated(device) =>
          out := Sight(provider, device);
        case Lost(id) =>
          out := DropClaim(provider, id);
      }
      assert devices == Fold(before, Tagged(provider, event));
      assert out == Announce(before, Tagged(provider, event));
      StreamSnocFolds(events, Tagged(provider, event));
      events := events + [Tagged(provider, event)];
      announced := announced + (if out.Some? then [out.value] else []);
    }

    method Sight(provider: ProviderId, device: Device) returns (out: Option<PeerEvent>)
      modifies this`devices
      ensures devices == Fold(old(devices), Tagged(provider, Found(device)))
      ensures out == Announce(old(devices), Tagged(provider, Found(device)))
    {
      var id := device.id;
      if id !in devices {
        devices := devices[id := Record(device, {provider}, provider)];
        return Some(PeerFound(device));
      }
      var record := devices[id].(providers := devices[id].providers + {provider});
      var ownerPresent := record.identityProvider in record.providers;
      var takeIdentity := provider == record.identityProvider || !ownerPresent;
      if takeIdentity {
        record := record.(identityProvider := provider);
      }
      var merged := MergeSighting(record.device, device, takeIdentity);
      var changed := !SameIdentity(record.device, merged);
      devices := devices[id := record.(device := merged)];
      out := if changed then Some(PeerUpdated(merged)) else None;
    }

    method DropClaim(provider: ProviderId, id: DeviceId) returns (out: Option<PeerEvent>)
      modifies this`devices
      ensures devices == Fold(old(devices), Tagged(provider, Lost(id)))
      ensures out == Announce(old(devices), Tagged(provider, Lost(id)))
    {
      var remove := false;
      if id in devices {
        var record := devices[id].(providers := devices[id].providers - {provider});
        devices := devices[id := record];
        remove := record.providers == {};
      }
      if remove {
        devices := devices - {id};
        out := Some(PeerLost(id));
      } else {
        out := None;
      }
    }
  }
}
