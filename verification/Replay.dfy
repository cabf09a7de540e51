/**
 A frontend never polls: it folds the changes it is sent. This module proves
 that the fold is enough, for every run and from any snapshot it started with.
 */
module Replay {
  import opened Wrappers
  import opened Devices
  import opened StoreModel
  import opened StoreRuns
  import opened Order

  type View = map<DeviceId, ManagedDevice>

  /** The obvious client: it knows the changes and nothing of the store. */
  function Apply(v: View, c: DeviceChange): View {
    match c
    case DeviceAdded(m) => v[m.device.id := m]
    case DeviceUpdated(m) => v[m.device.id := m]
    case StatusChanged(id, online) => if id in v then v[id := v[id].(online := online)] else v
    case LatencyChanged(id, latency) => if id in v then v[id := v[id].(latency := latency)] else v
    case DeviceRemoved(id) => v - {id}
  }

  function ApplyAll(v: View, changes: seq<DeviceChange>): View
    decreases |changes|
  {
    if changes == [] then v
    else Apply(ApplyAll(v, changes[..|changes| - 1]), changes[|changes| - 1])
  }

  function Replayed(v: View, log: seq<seq<DeviceChange>>): View
    decreases |log|
  {
    if log == [] then v
    else ApplyAll(Replayed(v, log[..|log| - 1]), log[|log| - 1])
  }

  /** The client agrees with the store on everything a frontend shows. */
  ghost predicate Shows(caps: Caps, e: Entry, m: ManagedDevice) {
    && SameIdentity(m.device, e.device)
    && m.online == e.online
    && m.latency == e.latency
    && (e.online ==> m.capabilities == CapabilitiesOf(caps, e.providers))
  }

  ghost predicate Mirrors(caps: Caps, s: Store, v: View) {
    v.Keys == s.Keys && forall id :: id in s ==> Shows(caps, s[id], v[id])
  }

  /** What `snapshot` hands a client, as a view; its order is not part of one. */
  ghost function Snapshot(caps: Caps, s: Store): (v: View)
    ensures Mirrors(caps, s, v)
  {
    map id | id in s :: ToManaged(caps, s[id])
  }

  lemma {:induction false} ApplyOffline(v: View, changes: seq<DeviceChange>)
    requires forall i :: 0 <= i < |changes| ==> changes[i] == StatusChanged(changes[i].Subject(), false)
    ensures ApplyAll(v, changes)
         == map id | id in v :: if StatusChanged(id, false) in changes then v[id].(online := false) else v[id]
    decreases |changes|
  {
    if changes != [] {
      var n := |changes| - 1;
      ApplyOffline(v, changes[..n]);
      assert changes == changes[..n] + [changes[n]];
    }
  }

  lemma {:induction false} ApplyRemoved(v: View, changes: seq<DeviceChange>)
    requires forall i :: 0 <= i < |changes| ==> changes[i] == DeviceRemoved(changes[i].Subject())
    ensures ApplyAll(v, changes) == map id | id in v && DeviceRemoved(id) !in changes :: v[id]
    decreases |changes|
  {
    if changes != [] {
      var n := |changes| - 1;
      ApplyRemoved(v, changes[..n]);
      assert changes == changes[..n] + [changes[n]];
    }
  }

  lemma ApplyShort(v: View, a: DeviceChange, b: DeviceChange)
    ensures ApplyAll(v, [a]) == Apply(v, a)
    ensures ApplyAll(v, [a, b]) == Apply(Apply(v, a), b)
  {
    assert [a][..0] == [];
    assert [a, b][..1] == [a];
  }

  /** Changing one device on both sides alike keeps the mirror. */
  lemma MirrorsAt(caps: Caps, s: Store, v: View, id: DeviceId, e: Entry, m: ManagedDevice)
    requires Mirrors(caps, s, v) && Shows(caps, e, m)
    ensures Mirrors(caps, s[id := e], v[id := m])
  {
  }

  /** What a re-sighting of a known device reports, spelled out. */
  lemma ResightReports(caps: Caps, s: Store, p: ProviderId, d: Device)
    requires Inv(s) && d.id in s
    ensures var e, e' := s[d.id], Resight(s[d.id], p, d);
            var update := DeviceUpdated(ToManaged(caps, e'));
            SightingChanges(caps, s, p, d)
            == if SameIdentity(e.device, e'.device) && p in e.providers then []
               else if e.online then [update]
               else [StatusChanged(d.id, true), update]
  {
    // A device that was offline has no claims, so the sighting is a new claim.
    assert !s[d.id].online ==> p !in s[d.id].providers;
  }

  /** A client needs to hear nothing of a sighting that changed no identity and added no claim. */
  lemma SilenceShows(caps: Caps, e: Entry, m: ManagedDevice, p: ProviderId, d: Device)
    requires Shows(caps, e, m) && e.online && p in e.providers
    requires SameIdentity(e.device, Resight(e, p, d).device)
    ensures Shows(caps, Resight(e, p, d), m)
  {
    assert e.providers + {p} == e.providers;
  }

  lemma HeardUpdate(v: View, status: DeviceChange, update: DeviceChange)
    requires update.DeviceUpdated? && status == StatusChanged(update.managed.device.id, true)
    ensures ApplyAll(v, [update]) == v[update.managed.device.id := update.managed]
    ensures ApplyAll(v, [status, update]) == v[update.managed.device.id := update.managed]
  {
    ApplyShort(v, update, update);
    ApplyShort(v, status, update);
  }

  /** What the client holds for a known device once it has heard of a re-sighting. */
  lemma ResightView(caps: Caps, s: Store, v: View, p: ProviderId, d: Device) returns (m: ManagedDevice)
    requires Inv(s) && Mirrors(caps, s, v) && d.id in s
    ensures ApplyAll(v, SightingChanges(caps, s, p, d)) == v[d.id := m]
    ensures Shows(caps, Resight(s[d.id], p, d), m)
  {
    var e, e' := s[d.id], Resight(s[d.id], p, d);
    assert EntryOk(d.id, e);
    ResightReports(caps, s, p, d);
    if SameIdentity(e.device, e'.device) && p in e.providers {
      m := v[d.id];
      SilenceShows(caps, e, m, p, d);
    } else {
      m := ToManaged(caps, e');
      HeardUpdate(v, StatusChanged(d.id, true), DeviceUpdated(m));
    }
  }

  lemma SightingMirrors(caps: Caps, s: Store, v: View, p: ProviderId, event: DiscoveryEvent)
    requires Inv(s) && Mirrors(caps, s, v) && event.Sighting()
    ensures Mirrors(caps, Next(caps, s, Observe(p, event)), ApplyAll(v, SightingChanges(caps, s, p, event.device)))
  {
    var d := event.device;
    if d.id in s {
      var m := ResightView(caps, s, v, p, d);
      MirrorsAt(caps, s, v, d.id, Resight(s[d.id], p, d), m);
    } else if |s| < MAX_DEVICES {
      var added := DeviceAdded(ToManaged(caps, FirstSight(p, d)));
      ApplyShort(v, added, added);
      MirrorsAt(caps, s, v, d.id, FirstSight(p, d), added.managed);
    }
  }

  lemma LostMirrors(caps: Caps, s: Store, v: View, p: ProviderId, id: DeviceId)
    requires Inv(s) && Mirrors(caps, s, v)
    ensures Mirrors(caps, Next(caps, s, Observe(p, Lost(id))), ApplyAll(v, LostChanges(caps, s, p, id)))
  {
    if id in s {
      var e' := Dropped(caps, s[id], p);
      ApplyShort(v, StatusChanged(id, false), StatusChanged(id, false));
      ApplyShort(v, DeviceUpdated(ToManaged(caps, e')), DeviceUpdated(ToManaged(caps, e')));
    }
  }

  lemma OfflineMirrors(caps: Caps, s: Store, v: View, changes: seq<DeviceChange>)
    requires Mirrors(caps, s, v)
    requires Reports(caps, s, OfflineAll, changes)
    ensures Mirrors(caps, Next(caps, s, OfflineAll), ApplyAll(v, changes))
  {
    ApplyOffline(v, changes);
    assert forall id :: id in OnlineIds(s) ==> StatusChanged(id, false) in changes;
  }

  lemma PruneMirrors(caps: Caps, s: Store, v: View, now: int, ttl: int, keep: DeviceId -> bool,
                     changes: seq<DeviceChange>)
    requires Mirrors(caps, s, v)
    requires Reports(caps, s, Prune(now, ttl, keep), changes)
    ensures Mirrors(caps, Next(caps, s, Prune(now, ttl, keep)), ApplyAll(v, changes))
  {
    ApplyRemoved(v, changes);
    assert forall id :: id in StaleIds(s, now, ttl, keep) ==> DeviceRemoved(id) in changes;
  }

  lemma StepMirrors(caps: Caps, s: Store, v: View, op: Op, changes: seq<DeviceChange>)
    requires Inv(s) && Mirrors(caps, s, v)
    requires Reports(caps, s, op, changes)
    ensures Mirrors(caps, Next(caps, s, op), ApplyAll(v, changes))
  {
    match op
    case Observe(p, Lost(id)) => LostMirrors(caps, s, v, p, id);
    case Observe(p, event) => SightingMirrors(caps, s, v, p, event);
    case OfflineAll => OfflineMirrors(caps, s, v, changes);
    case RecordLatency(id, latency) =>
      ApplyShort(v, LatencyChanged(id, latency), LatencyChanged(id, latency));
    case Prune(now, ttl, keep) => PruneMirrors(caps, s, v, now, ttl, keep, changes);
  }

  lemma LoggedPrefix(caps: Caps, s: Store, ops: seq<Op>, log: seq<seq<DeviceChange>>)
    requires Logged(caps, s, ops, log) && ops != []
    ensures var n := |ops| - 1;
            && Logged(caps, s, ops[..n], log[..n])
            && Reports(caps, Run(caps, s, ops[..n]), ops[n], log[n])
  {
    var n := |ops| - 1;
    assert forall i :: 0 <= i < n ==> ops[..n][..i] == ops[..i];
  }

  /** The change stream is complete: folding it reproduces the store, whatever the run. */
  lemma {:induction false} ReplayMirrorsStore(caps: Caps, s: Store, v: View, ops: seq<Op>, log: seq<seq<DeviceChange>>)
    requires Inv(s) && Mirrors(caps, s, v)
    requires Logged(caps, s, ops, log)
    ensures Mirrors(caps, Run(caps, s, ops), Replayed(v, log))
    decreases |ops|
  {
    if ops != [] {
      var n := |ops| - 1;
      LoggedPrefix(caps, s, ops, log);
      ReplayMirrorsStore(caps, s, v, ops[..n], log[..n]);
      InvAlways(caps, s, ops[..n]);
      StepMirrors(caps, Run(caps, s, ops[..n]), Replayed(v, log[..n]), ops[n], log[n]);
    }
  }

  /** Subscribe, take a snapshot, fold: whatever happens next, the client shows the store. */
  lemma SnapshotThenFold(caps: Caps, s: Store, ops: seq<Op>, log: seq<seq<DeviceChange>>)
    requires Inv(s) && Logged(caps, s, ops, log)
    ensures Mirrors(caps, Run(caps, s, ops), Replayed(Snapshot(caps, s), log))
  {
    ReplayMirrorsStore(caps, s, Snapshot(caps, s), ops, log);
  }

  /** What a frontend can see of an entry. */
  ghost function Visible(caps: Caps, e: Entry): ManagedDevice {
    ToManaged(caps, e.(device := e.device.(lastSeen := 0), lastSeen := 0))
  }

  /**
   The stream is also minimal for sightings: an admitted sighting is silent
   exactly when it changes nothing a frontend can see.
   */
  lemma SightingSilentIffInvisible(caps: Caps, s: Store, p: ProviderId, d: Device)
    requires Inv(s) && Admits(s, d.id)
    ensures SightingChanges(caps, s, p, d) == []
       <==> d.id in s && Visible(caps, Upsert(s, p, d)[d.id]) == Visible(caps, s[d.id])
  {
    if d.id in s && p in s[d.id].providers {
      assert s[d.id].providers + {p} == s[d.id].providers;
    } else if d.id in s {
      var e := s[d.id];
      assert p in Elements(SortedNames(e.providers + {p}));
      assert p !in Elements(SortedNames(e.providers));
    }
  }
}
