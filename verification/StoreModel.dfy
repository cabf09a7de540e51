/**
 What `DeviceStore` does to its table, as a step function on values: the
 specification the class is proved against and every run theorem speaks about.
 */
module StoreModel {
  import opened Wrappers
  import opened Devices
  import opened Order

  const MAX_DEVICES := 512

  datatype Entry = Entry(
    device: Device,
    online: bool,
    lastSeen: int,
    latency: Option<u32>,
    providers: set<ProviderId>,
    identityProvider: ProviderId)

  type Store = map<DeviceId, Entry>

  datatype Capabilities = Capabilities(
    reachableLan: bool,
    reachableRemote: bool,
    requiresTailscale: bool,
    providers: seq<ProviderId>)

  datatype ManagedDevice = ManagedDevice(
    device: Device,
    online: bool,
    lastSeen: int,
    latency: Option<u32>,
    capabilities: Capabilities)

  datatype DeviceChange =
    | DeviceAdded(managed: ManagedDevice)
    | DeviceUpdated(managed: ManagedDevice)
    | StatusChanged(id: DeviceId, online: bool)
    | LatencyChanged(id: DeviceId, latency: Option<u32>)
    | DeviceRemoved(id: DeviceId)
  {
    /** The device a change is about. */
    function Subject(): DeviceId {
      if DeviceAdded? || DeviceUpdated? then managed.device.id else id
    }
  }

  /** One call on the store. `keep` is the caller's exemption from pruning. */
  datatype Op =
    | Observe(provider: ProviderId, event: DiscoveryEvent)
    | OfflineAll
    | RecordLatency(id: DeviceId, latency: Option<u32>)
    | Prune(now: int, ttl: int, keep: DeviceId -> bool)

  // ---------------------------------------------------------------- views

  predicate CrossesSubnet(caps: Caps, p: ProviderId) {
    p in caps && caps[p].crossesSubnet
  }

  /** A provider registered as local: not the same as one that is not registered. */
  predicate RegisteredLan(caps: Caps, p: ProviderId) {
    p in caps && !caps[p].crossesSubnet
  }

  predicate NeedsTailscale(caps: Caps, p: ProviderId) {
    p in caps && caps[p].requiresTailscale
  }

  /** How a set of claims makes a device reachable; unknown providers count as LAN. */
  ghost function CapabilitiesOf(caps: Caps, providers: set<ProviderId>): Capabilities {
    Capabilities(
      exists p :: p in providers && !CrossesSubnet(caps, p),
      exists p :: p in providers && CrossesSubnet(caps, p),
      providers != {} && forall p :: p in providers ==> NeedsTailscale(caps, p),
      SortedNames(providers))
  }

  ghost function ToManaged(caps: Caps, e: Entry): ManagedDevice {
    ManagedDevice(e.device, e.online, e.lastSeen, e.latency, CapabilitiesOf(caps, e.providers))
  }

  // ------------------------------------------------------- one entry's step

  function FirstSight(p: ProviderId, d: Device): Entry {
    Entry(d, true, d.lastSeen, None, {p}, p)
  }

  /** Whether a sighting by `p` may set the identity: it owns it, or the owner has dropped. */
  predicate TakesIdentity(p: ProviderId, owner: ProviderId, providers: set<ProviderId>) {
    p == owner || owner !in providers + {p}
  }

  function Resight(e: Entry, p: ProviderId, d: Device): Entry {
    var take := TakesIdentity(p, e.identityProvider, e.providers);
    Entry(Merge(e.device, d, take), true, d.lastSeen, e.latency, e.providers + {p},
          if take then p else e.identityProvider)
  }

  /** The claims left after `p` reports the device lost. */
  function Surviving(caps: Caps, providers: set<ProviderId>, p: ProviderId): set<ProviderId> {
    set q | q in providers && q != p && (RegisteredLan(caps, p) ==> CrossesSubnet(caps, q))
  }

  function Dropped(caps: Caps, e: Entry, p: ProviderId): Entry {
    var left := Surviving(caps, e.providers, p);
    e.(providers := left, online := if left == {} then false else e.online)
  }

  function Offlined(e: Entry): Entry {
    if e.online then e.(online := false, providers := {}) else e
  }

  /** Offline, unseen for longer than `ttl`, and not exempted. */
  predicate Stale(id: DeviceId, e: Entry, now: int, ttl: int, keep: DeviceId -> bool) {
    !e.online && now - e.lastSeen > ttl && !keep(id)
  }

  // ---------------------------------------------------- the table's step

  /** A known device is always admitted, a new one only while there is room. */
  predicate Admits(s: Store, id: DeviceId) {
    id in s || |s| < MAX_DEVICES
  }

  function Upsert(s: Store, p: ProviderId, d: Device): Store {
    if d.id in s then s[d.id := Resight(s[d.id], p, d)]
    else if |s| >= MAX_DEVICES then s
    else s[d.id := FirstSight(p, d)]
  }

  ghost function Next(caps: Caps, s: Store, op: Op): Store {
    match op
    case Observe(p, Lost(id)) => if id in s then s[id := Dropped(caps, s[id], p)] else s
    case Observe(p, event) => Upsert(s, p, event.device)
    case OfflineAll => map id | id in s :: Offlined(s[id])
    case RecordLatency(id, latency) => if id in s then s[id := s[id].(latency := latency)] else s
    case Prune(now, ttl, keep) => map id | id in s && !Stale(id, s[id], now, ttl, keep) :: s[id]
  }

  ghost function SightingChanges(caps: Caps, s: Store, p: ProviderId, d: Device): seq<DeviceChange> {
    if d.id in s then
      var e, e' := s[d.id], Resight(s[d.id], p, d);
      (if e.online then [] else [StatusChanged(d.id, true)]) +
      (if !SameIdentity(e.device, e'.device) || p !in e.providers
       then [DeviceUpdated(ToManaged(caps, e'))] else [])
    else if |s| >= MAX_DEVICES then []
    else [DeviceAdded(ToManaged(caps, FirstSight(p, d)))]
  }

  ghost function LostChanges(caps: Caps, s: Store, p: ProviderId, id: DeviceId): seq<DeviceChange> {
    if id !in s then []
    else
      var e' := Dropped(caps, s[id], p);
      if e'.providers == {} then [StatusChanged(id, false)] else [DeviceUpdated(ToManaged(caps, e'))]
  }

  ghost function OnlineIds(s: Store): set<DeviceId> {
    set id | id in s && s[id].online
  }

  ghost function StaleIds(s: Store, now: int, ttl: int, keep: DeviceId -> bool): set<DeviceId> {
    set id | id in s && Stale(id, s[id], now, ttl, keep)
  }

  /** One change of the given kind for each device of `ids`, in some order. */
  ghost predicate OncePer(ids: set<DeviceId>, changes: seq<DeviceChange>, kind: DeviceId -> DeviceChange) {
    && (forall i :: 0 <= i < |changes| ==>
          changes[i].Subject() in ids && changes[i] == kind(changes[i].Subject()))
    && (forall i, j :: 0 <= i < j < |changes| ==> changes[i].Subject() != changes[j].Subject())
    && (forall id :: id in ids ==> kind(id) in changes)
  }

  /** What the call reports. Only the order of bulk reports is left open (hash map order). */
  ghost predicate Reports(caps: Caps, s: Store, op: Op, changes: seq<DeviceChange>) {
    match op
    case Observe(p, Lost(id)) => changes == LostChanges(caps, s, p, id)
    case Observe(p, event) => changes == SightingChanges(caps, s, p, event.device)
    case OfflineAll => OncePer(OnlineIds(s), changes, id => StatusChanged(id, false))
    case RecordLatency(id, latency) =>
      changes == if id in s && s[id].latency != latency then [LatencyChanged(id, latency)] else []
    case Prune(now, ttl, keep) => OncePer(StaleIds(s, now, ttl, keep), changes, id => DeviceRemoved(id))
  }

  // ----------------------------------------------------------------- runs

  /** The table after a run of calls from `s`. */
  ghost function Run(caps: Caps, s: Store, ops: seq<Op>): Store
    decreases |ops|
  {
    if ops == [] then s
    else Next(caps, Run(caps, s, ops[..|ops| - 1]), ops[|ops| - 1])
  }

  /** `log[i]` is what the `i`-th call of a run from `s` reported. */
  ghost predicate Logged(caps: Caps, s: Store, ops: seq<Op>, log: seq<seq<DeviceChange>>) {
    && |log| == |ops|
    && forall i :: 0 <= i < |ops| ==> Reports(caps, Run(caps, s, ops[..i]), ops[i], log[i])
  }

  lemma RunSnoc(caps: Caps, s: Store, ops: seq<Op>, op: Op)
    ensures Run(caps, s, ops + [op]) == Next(caps, Run(caps, s, ops), op)
  {
    assert (ops + [op])[..|ops|] == ops;
  }

  lemma LoggedSnoc(caps: Caps, s: Store, ops: seq<Op>, log: seq<seq<DeviceChange>>, op: Op, changes: seq<DeviceChange>)
    requires Logged(caps, s, ops, log)
    requires Reports(caps, Run(caps, s, ops), op, changes)
    ensures Logged(caps, s, ops + [op], log + [changes])
  {
    forall i | 0 <= i < |ops| + 1
      ensures Reports(caps, Run(caps, s, (ops + [op])[..i]), (ops + [op])[i], (log + [changes])[i])
    {
      assert (ops + [op])[..i] == if i < |ops| then ops[..i] else ops;
    }
  }

  // ------------------------------------------------ one device's projection

  function Lookup(s: Store, id: DeviceId): Option<Entry> {
    if id in s then Some(s[id]) else None
  }

  /** Who currently claims `id`; nobody claims an untracked device. */
  function Claims(s: Store, id: DeviceId): set<ProviderId> {
    if id in s then s[id].providers else {}
  }

  /** What a call does to one device, knowing only that device and whether there is room. */
  ghost function EntryNext(caps: Caps, e: Option<Entry>, id: DeviceId, room: bool, op: Op): Option<Entry> {
    match op
    case Observe(p, Lost(i)) => if i == id && e.Some? then Some(Dropped(caps, e.value, p)) else e
    case Observe(p, event) =>
      if event.device.id != id then e
      else if e.Some? then Some(Resight(e.value, p, event.device))
      else if room then Some(FirstSight(p, event.device))
      else None
    case OfflineAll => if e.Some? then Some(Offlined(e.value)) else e
    case RecordLatency(i, latency) => if i == id && e.Some? then Some(e.value.(latency := latency)) else e
    case Prune(now, ttl, keep) => if e.Some? && Stale(id, e.value, now, ttl, keep) then None else e
  }

  /** Devices do not interact, except through the room left in the table. */
  lemma NextAt(caps: Caps, s: Store, op: Op, id: DeviceId)
    ensures Lookup(Next(caps, s, op), id) == EntryNext(caps, Lookup(s, id), id, |s| < MAX_DEVICES, op)
  {
  }
}
