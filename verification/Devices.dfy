/**
 The entities both discovery reducers fold over, and the merge rule they share
 (PeerBeam keeps two identical copies of it, one per reducer).

 Timestamps are integers: only their order and their differences matter.
 */
module Devices {
  import opened Wrappers

  type u16 = n: nat | n < 0x1_0000
  type u32 = n: nat | n < 0x1_0000_0000

  type DeviceId = string
  type ProviderId = string

  datatype DeviceType = Desktop | Laptop | Phone | Tablet | Server | WebBrowser

  datatype Platform = Windows | MacOS | Linux | Android | IOS | Web

  datatype Device = Device(
    id: DeviceId,
    name: string,
    deviceType: DeviceType,
    platform: Platform,
    addresses: seq<string>,
    port: u16,
    lastSeen: int)

  datatype DiscoveryCaps = DiscoveryCaps(
    canAdvertise: bool,
    canScan: bool,
    crossesSubnet: bool,
    requiresTailscale: bool)

  type Caps = map<ProviderId, DiscoveryCaps>

  datatype DiscoveryEvent =
    | Found(device: Device)
    | Updated(device: Device)
    | Lost(id: DeviceId)
  {
    predicate Sighting() { Found? || Updated? }

    /** The peer an event concerns, whatever its kind. */
    function Subject(): DeviceId {
      if Lost? then id else device.id
    }
  }

  /** Equality on everything but the volatile timestamp. */
  predicate SameIdentity(a: Device, b: Device) {
    && a.id == b.id
    && a.name == b.name
    && a.platform == b.platform
    && a.deviceType == b.deviceType
    && a.addresses == b.addresses
    && a.port == b.port
  }

  /** So a change worth reporting is a change of anything else. */
  lemma SameButForTime(a: Device, b: Device)
    ensures SameIdentity(a, b) <==> a.(lastSeen := 0) == b.(lastSeen := 0)
  {
  }

  /** The fields one provider owns on behalf of all. */
  datatype Ident = Ident(name: string, deviceType: DeviceType, platform: Platform, port: u16)

  function IdentOf(d: Device): Ident {
    Ident(d.name, d.deviceType, d.platform, d.port)
  }

  ghost function Elements<T>(q: seq<T>): set<T> {
    set x | x in q
  }

  ghost predicate Distinct<T>(q: seq<T>) {
    forall i, j :: 0 <= i < j < |q| ==> q[i] != q[j]
  }

  /** Where `x` first stands in `q`. */
  function FirstIndex<T(==)>(q: seq<T>, x: T): (i: nat)
    ensures i <= |q| && (i < |q| <==> x in q)
    ensures i < |q| ==> q[i] == x && x !in q[..i]
  {
    if q == [] || q[0] == x then 0
    else
      var i := FirstIndex(q[1..], x);
      assert x in q ==> x in q[1..];
      assert i < |q[1..]| ==> q[..i + 1] == [q[0]] + q[1..][..i];
      i + 1
  }

  /** `q` is made of entries of `extra` that `have` lacks, each in the place of its first mention. */
  ghost predicate NewInOrder(have: seq<string>, extra: seq<string>, q: seq<string>) {
    && (forall i :: 0 <= i < |q| ==> q[i] in extra && q[i] !in have)
    && (forall i, j :: 0 <= i < j < |q| ==> FirstIndex(extra, q[i]) < FirstIndex(extra, q[j]))
  }

  /** Keeps the established order and appends what is genuinely new, in the order it came. */
  function UnionAddresses(have: seq<string>, extra: seq<string>): (r: seq<string>)
    ensures have <= r
    ensures Elements(r) == Elements(have) + Elements(extra)
    ensures Distinct(have) ==> Distinct(r)
    decreases |extra|
  {
    if extra == [] then
      have
    else
      assert extra == [extra[0]] + extra[1..];
      UnionAddresses(if extra[0] in have then have else have + [extra[0]], extra[1..])
  }

  lemma {:induction false} UnionInOrder(have: seq<string>, extra: seq<string>)
    ensures NewInOrder(have, extra, UnionAddresses(have, extra)[|have|..])
    decreases |extra|
  {
    if extra != [] {
      UnionInOrder(if extra[0] in have then have else have + [extra[0]], extra[1..]);
      OrderCons(have, extra, UnionAddresses(have, extra));
    }
  }

  lemma OrderCons(have: seq<string>, extra: seq<string>, r: seq<string>)
    requires extra != []
    requires var have' := if extra[0] in have then have else have + [extra[0]];
             have' <= r && NewInOrder(have', extra[1..], r[|have'|..])
    ensures NewInOrder(have, extra, r[|have|..])
  {
    var have' := if extra[0] in have then have else have + [extra[0]];
    var q' := r[|have'|..];
    LaterMentions(have', extra, q');
    if extra[0] !in have {
      assert r[|have|..] == [extra[0]] + q';
      FirstMention(have, extra, q');
    }
  }

  lemma FirstMention(have: seq<string>, extra: seq<string>, q: seq<string>)
    requires extra != [] && extra[0] !in have
    requires NewInOrder(have + [extra[0]], extra, q) && forall i :: 0 <= i < |q| ==> q[i] != extra[0]
    ensures NewInOrder(have, extra, [extra[0]] + q)
  {
    assert forall i :: 0 <= i < |q| ==> q[i] !in have + [extra[0]] && FirstIndex(extra, q[i]) > 0;
  }

  lemma LaterMentions(have: seq<string>, extra: seq<string>, q: seq<string>)
    requires extra != [] && extra[0] in have
    requires NewInOrder(have, extra[1..], q)
    ensures NewInOrder(have, extra, q)
    ensures forall i :: 0 <= i < |q| ==> q[i] != extra[0]
  {
    forall i | 0 <= i < |q|
      ensures q[i] in extra && q[i] != extra[0] && FirstIndex(extra, q[i]) == FirstIndex(extra[1..], q[i]) + 1
    {
    }
  }

  /** A union with what is already there changes nothing. */
  lemma {:induction false} UnionAbsorbs(have: seq<string>, extra: seq<string>)
    requires Elements(extra) <= Elements(have)
    ensures UnionAddresses(have, extra) == have
    decreases |extra|
  {
    if extra != [] {
      assert extra[0] in Elements(extra);
      assert Elements(extra[1..]) <= Elements(extra);
      UnionAbsorbs(have, extra[1..]);
    }
  }

  /**
   How a re-sighting is folded into a known device. With `takeIdentity` the
   incoming identity wins except where it is blank; without it the established
   identity wins except where that is blank.
   */
  function Merge(existing: Device, incoming: Device, takeIdentity: bool): Device {
    var addresses := UnionAddresses(existing.addresses, incoming.addresses);
    if takeIdentity then
      Device(existing.id,
             if incoming.name == "" then existing.name else incoming.name,
             incoming.deviceType,
             incoming.platform,
             addresses,
             if incoming.port == 0 then existing.port else incoming.port,
             incoming.lastSeen)
    else
      Device(existing.id,
             if existing.name == "" then incoming.name else existing.name,
             existing.deviceType,
             existing.platform,
             addresses,
             if existing.port == 0 then incoming.port else existing.port,
             incoming.lastSeen)
  }

  /** The merge as both reducers run it: a loop that pushes new addresses. */
  method MergeSighting(existing: Device, incoming: Device, takeIdentity: bool) returns (d: Device)
    ensures d == Merge(existing, incoming, takeIdentity)
  {
    var addresses := existing.addresses;
    var i := 0;
    while i < |incoming.addresses|
      invariant 0 <= i <= |incoming.addresses|
      invariant UnionAddresses(existing.addresses, incoming.addresses)
             == UnionAddresses(addresses, incoming.addresses[i..])
    {
      assert incoming.addresses[i..][0] == incoming.addresses[i];
      assert incoming.addresses[i..][1..] == incoming.addresses[i + 1..];
      if incoming.addresses[i] !in addresses {
        addresses := addresses + [incoming.addresses[i]];
      }
      i := i + 1;
    }
    if takeIdentity {
      return Device(existing.id,
                    if incoming.name == "" then existing.name else incoming.name,
                    incoming.deviceType,
                    incoming.platform,
                    addresses,
                    if incoming.port == 0 then existing.port else incoming.port,
                    incoming.lastSeen);
    }
    d := Device(existing.id,
                if existing.name == "" then incoming.name else existing.name,
                existing.deviceType,
                existing.platform,
                addresses,
                if existing.port == 0 then incoming.port else existing.port,
                incoming.lastSeen);
  }

  /** Folding the same sighting in twice is folding it in once, so a repeat is silent. */
  lemma RepeatedSightingIsSilent(existing: Device, incoming: Device, takeIdentity: bool)
    ensures var once := Merge(existing, incoming, takeIdentity);
            Merge(once, incoming, takeIdentity) == once
  {
    var addresses := UnionAddresses(existing.addresses, incoming.addresses);
    UnionAbsorbs(addresses, incoming.addresses);
  }
}
