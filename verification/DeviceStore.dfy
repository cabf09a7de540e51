/** The device tracking reducer, updated in place. */
module DeviceStore {
  import opened Wrappers
  import opened Devices
  import opened Order
  import opened StoreModel
  import opened StoreRuns
  import opened Replay

  class DeviceStore {
    const providerCaps: Caps
    var devices: map<DeviceId, Entry>

    /** Every call made so far, and what each reported. */
    ghost var ops: seq<Op>
    ghost var log: seq<seq<DeviceChange>>

    ghost predicate Valid()
      reads this
    {
      && devices == Run(providerCaps, map[], ops)
      && Logged(providerCaps, map[], ops, log)
    }

    constructor (providerCaps: Caps)
      ensures Valid() && this.providerCaps == providerCaps
      ensures devices == map[] && ops == [] && log == []
    {
      this.providerCaps := providerCaps;
      devices := map[];
      ops, log := [], [];
    }

    /** Whatever calls were made, the table is well formed and the reports alone rebuild it. */
    lemma ReportsRebuildTheTable()
      requires Valid()
      ensures Inv(devices)
      ensures Mirrors(providerCaps, devices, Replayed(map[], log))
    {
      InvAlways(providerCaps, map[], ops);
      ReplayMirrorsStore(providerCaps, map[], map[], ops, log);
    }

    /** Records a finished call in the ghost history. */
    ghost method Record(before: Store, op: Op, changes: seq<DeviceChange>)
      requires before == Run(providerCaps, map[], ops) && Logged(providerCaps, map[], ops, log)
      requires devices == Next(providerCaps, before, op)
      requires Reports(providerCaps, before, op, changes)
      modifies this`ops, this`log
      ensures Valid()
      ensures ops == old(ops) + [op] && log == old(log) + [changes]
    {
      RunSnoc(providerCaps, map[], ops, op);
      LoggedSnoc(providerCaps, map[], ops, log, op, changes);
      ops, log := ops + [op], log + [changes];
    }

    method Observe(provider: ProviderId, event: DiscoveryEvent) returns (changes: seq<DeviceChange>)
      requires Valid()
      modifies this
      ensures Valid()
      ensures devices == Next(providerCaps, old(devices), Op.Observe(provider, event))
      ensures ops == old(ops) + [Op.Observe(provider, event)] && log == old(log) + [changes]
    {
      ghost var before := devices;
      match event {
        case Found(device) =>
          changes := UpsertDevice(provider, device);
        case Updated(device) =>
          changes := UpsertDevice(provider, device);
        case Lost(id) =>
          changes := DropProvider(provider, id);
      }
      Record(before, Op.Observe(provider, event), changes);
    }

    method UpsertDevice(provider: ProviderId, device: Device) returns (changes: seq<DeviceChange>)
      modifies this`devices
      ensures devices == Upsert(old(devices), provider, device)
      ensures changes == SightingChanges(providerCaps, old(devices), provider, device)
    {
      var id := device.id;
      var full := |devices| >= MAX_DEVICES;
      if id !in devices {
        if full {
          return [];
        }
        var entry := Entry(device, true, device.lastSeen, None, {provider}, provider);
        var managed := Managed(entry);
        devices := devices[id := entry];
        return [DeviceAdded(managed)];
      }
      var entry := devices[id];
      var wasOnline := entry.online;
      var newProvider := provider !in entry.providers;
      entry := entry.(providers := entry.providers + {provider});
      var ownerPresent := entry.identityProvider in entry.providers;
      var takeIdentity := provider == entry.identityProvider || !ownerPresent;
      if takeIdentity {
        entry := entry.(identityProvider := provider);
      }
      var merged := MergeSighting(entry.device, device, takeIdentity);
      var identityChanged := !SameIdentity(entry.device, merged);
      entry := entry.(device := merged, online := true, lastSeen := device.lastSeen);
      devices := devices[id := entry];
      changes := [];
      if !wasOnline {
        changes := changes + [StatusChanged(id, true)];
      }
      if identityChanged || newProvider {
        var managed := Managed(entry);
        changes := changes + [DeviceUpdated(managed)];
      }
    }

    method DropProvider(provider: ProviderId, id: DeviceId) returns (changes: seq<DeviceChange>)
      modifies this`devices
      ensures devices == Next(providerCaps, old(devices), Op.Observe(provider, Lost(id)))
      ensures changes == LostChanges(providerCaps, old(devices), provider, id)
    {
      if id !in devices {
        return [];
      }
      var entry := devices[id];
      var left := entry.providers - {provider};
      var lostLan := provider in providerCaps && !providerCaps[provider].crossesSubnet;
      if lostLan {
        left := set q | q in left && q in providerCaps && providerCaps[q].crossesSubnet;
      }
      assert left == Surviving(providerCaps, entry.providers, provider);
      entry := entry.(providers := left);
      if entry.providers == {} {
        entry := entry.(online := false);
        devices := devices[id := entry];
        return [StatusChanged(id, false)];
      }
      devices := devices[id := entry];
      var managed := Managed(entry);
      changes := [DeviceUpdated(managed)];
    }

    method OfflineAll() returns (changes: seq<DeviceChange>)
      requires Valid()
      modifies this
      ensures Valid()
      ensures devices == Next(providerCaps, old(devices), Op.OfflineAll)
      ensures ops == old(ops) + [Op.OfflineAll] && log == old(log) + [changes]
    {
      ghost var before := devices;
      changes := DropAllClaims();
      assert devices == Next(providerCaps, before, Op.OfflineAll);
      Record(before, Op.OfflineAll, changes);
    }

    /** Walks the table once, taking every online device offline. */
    method DropAllClaims() returns (changes: seq<DeviceChange>)
      modifies this`devices
      ensures devices.Keys == old(devices).Keys
      ensures forall id :: id in devices ==> devices[id] == Offlined(old(devices)[id])
      ensures OncePer(OnlineIds(old(devices)), changes, id => StatusChanged(id, false))
    {
      ghost var before := devices;
      changes := [];
      var rest := devices.Keys;
      while rest != {}
        invariant rest <= before.Keys == devices.Keys
        invariant forall id :: id in before ==> devices[id] == if id in rest then before[id] else Offlined(before[id])
        invariant OncePer(OnlineIds(before) - rest, changes, id => StatusChanged(id, false))
        decreases rest
      {
        var id :| id in rest;
        var entry := devices[id];
        ghost var done := OnlineIds(before) - rest;
        if entry.online {
          entry := entry.(online := false, providers := {});
          devices := devices[id := entry];
          changes := changes + [StatusChanged(id, false)];
          assert OncePer(done + {id}, changes, id => StatusChanged(id, false));
        }
        rest := rest - {id};
        assert OnlineIds(before) - rest == if before[id].online then done + {id} else done;
      }
      assert OnlineIds(before) - rest == OnlineIds(before);
    }

    method RecordLatency(id: DeviceId, latency: Option<u32>) returns (changes: seq<DeviceChange>)
      requires Valid()
      modifies this
      ensures Valid()
      ensures devices == Next(providerCaps, old(devices), Op.RecordLatency(id, latency))
      ensures ops == old(ops) + [Op.RecordLatency(id, latency)] && log == old(log) + [changes]
    {
      ghost var before := devices;
      if id in devices && devices[id].latency != latency {
        devices := devices[id := devices[id].(latency := latency)];
        changes := [LatencyChanged(id, latency)];
      } else {
        changes := [];
      }
      Record(before, Op.RecordLatency(id, latency), changes);
    }

    method Prune(now: int, ttl: int, keep: DeviceId -> bool) returns (changes: seq<DeviceChange>)
      requires Valid()
      modifies this
      ensures Valid()
      ensures devices == Next(providerCaps, old(devices), Op.Prune(now, ttl, keep))
      ensures ops == old(ops) + [Op.Prune(now, ttl, keep)] && log == old(log) + [changes]
    {
      ghost var before := devices;
      var stale := set id | id in devices && Stale(id, devices[id], now, ttl, keep);
      changes := RemoveAll(stale);
      assert devices == Next(providerCaps, before, Op.Prune(now, ttl, keep));
      assert stale == StaleIds(before, now, ttl, keep);
      Record(before, Op.Prune(now, ttl, keep), changes);
    }

    /** Removes each device of `stale`, reporting it as it goes. */
    method RemoveAll(stale: set<DeviceId>) returns (changes: seq<DeviceChange>)
      modifies this`devices
      ensures devices == old(devices) - stale
      ensures OncePer(stale, changes, id => DeviceRemoved(id))
    {
      changes := [];
      var rest := stale;
      while rest != {}
        invariant rest <= stale
        invariant devices == old(devices) - (stale - rest)
        invariant OncePer(stale - rest, changes, id => DeviceRemoved(id))
        decreases rest
      {
        var id :| id in rest;
        assert stale - (rest - {id}) == stale - rest + {id};
        devices := devices - {id};
        changes := changes + [DeviceRemoved(id)];
        rest := rest - {id};
      }
      assert stale - rest == stale;
    }

    method Managed(entry: Entry) returns (m: ManagedDevice)
      ensures m == ToManaged(providerCaps, entry)
    {
      var capabilities := CapabilitiesFor(entry.providers);
      m := ManagedDevice(entry.device, entry.online, entry.lastSeen, entry.latency, capabilities);
    }

    method CapabilitiesFor(providers: set<ProviderId>) returns (c: Capabilities)
      ensures c == CapabilitiesOf(providerCaps, providers)
    {
      StringLessOrders(providers);
      var unordered := Enumerate(providers);
      var provs := Sort(StringLess, unordered);
      SortedListingIsUnique(StringLess, providers, provs, SortedNames(providers));
      var reachableLan, reachableRemote, any, allRequireTailscale := false, false, false, true;
      var i := 0;
      while i < |provs|
        invariant 0 <= i <= |provs|
        invariant reachableLan <==> exists k :: 0 <= k < i && !CrossesSubnet(providerCaps, provs[k])
        invariant reachableRemote <==> exists k :: 0 <= k < i && CrossesSubnet(providerCaps, provs[k])
        invariant any <==> i > 0
        invariant allRequireTailscale <==> forall k :: 0 <= k < i ==> NeedsTailscale(providerCaps, provs[k])
      {
        any := true;
        if provs[i] in providerCaps {
          if providerCaps[provs[i]].crossesSubnet {
            reachableRemote := true;
          } else {
            reachableLan := true;
          }
          if !providerCaps[provs[i]].requiresTailscale {
            allRequireTailscale := false;
          }
        } else {
          // Nothing is known about it, so it counts as local.
          reachableLan := true;
          allRequireTailscale := false;
        }
        i := i + 1;
      }
      assert forall p :: p in Elements(provs) <==> p in providers;
      NonemptyElements(provs);
      c := Capabilities(reachableLan, reachableRemote, any && allRequireTailscale, provs);
    }
  }
}
