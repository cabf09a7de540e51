/**
 Providers run independently, so their events interleave arbitrarily. What the
 registry must not depend on is how.
 */
module Confluence {
  import opened Wrappers
  import opened Devices
  import opened Registry

  /** The events of one provider, in the order it sent them. */
  function StreamOf(events: seq<Tagged>, p: ProviderId): seq<DiscoveryEvent>
    decreases |events|
  {
    if events == [] then []
    else
      var rest := StreamOf(events[..|events| - 1], p);
      if events[|events| - 1].provider == p then rest + [events[|events| - 1].event] else rest
  }

  /** `events` interleaves the providers' streams, each kept in order. */
  ghost predicate Interleaves(streams: map<ProviderId, seq<DiscoveryEvent>>, events: seq<Tagged>) {
    forall p :: StreamOf(events, p) == if p in streams then streams[p] else []
  }

  /** Whether the last word of one provider's stream about `id` is a sighting. */
  predicate LastWordIsSighting(stream: seq<DiscoveryEvent>, id: DeviceId)
    decreases |stream|
  {
    stream != [] &&
    if stream[|stream| - 1].Subject() == id then stream[|stream| - 1].Sighting()
    else LastWordIsSighting(stream[..|stream| - 1], id)
  }

  lemma StreamSnoc(events: seq<Tagged>, t: Tagged, p: ProviderId)
    ensures StreamOf(events + [t], p) == StreamOf(events, p) + if t.provider == p then [t.event] else []
  {
    assert (events + [t])[..|events|] == events;
  }

  lemma LastWordSnoc(stream: seq<DiscoveryEvent>, e: DiscoveryEvent, id: DeviceId)
    ensures LastWordIsSighting(stream + [e], id)
       <==> if e.Subject() == id then e.Sighting() else LastWordIsSighting(stream, id)
  {
    assert (stream + [e])[..|stream|] == stream;
  }

  lemma FoldClaim(live: Live, t: Tagged, p: ProviderId, id: DeviceId)
    ensures p in LiveClaims(Fold(live, t), id)
       <==> if t.provider == p && t.event.Subject() == id then t.event.Sighting() else p in LiveClaims(live, id)
  {
  }

  /** A provider claims a device exactly when its own last event about it was a sighting. */
  lemma {:induction false} ClaimIsLastWord(events: seq<Tagged>, p: ProviderId, id: DeviceId)
    ensures p in LiveClaims(Folded(events), id) <==> LastWordIsSighting(StreamOf(events, p), id)
    decreases |events|
  {
    if events != [] {
      var init, t := events[..|events| - 1], events[|events| - 1];
      ClaimIsLastWord(init, p, id);
      FoldClaim(Folded(init), t, p, id);
      StreamSnoc(init, t, p);
      assert events == init + [t];
      LastWordSnoc(StreamOf(init, p), t.event, id);
    }
  }

  lemma SameStreamsSameClaims(a: seq<Tagged>, b: seq<Tagged>, id: DeviceId)
    requires forall p :: StreamOf(a, p) == StreamOf(b, p)
    ensures LiveClaims(Folded(a), id) == LiveClaims(Folded(b), id)
    ensures id in Folded(a) <==> id in Folded(b)
  {
    forall p
      ensures p in LiveClaims(Folded(a), id) <==> p in LiveClaims(Folded(b), id)
    {
      ClaimIsLastWord(a, p, id);
      ClaimIsLastWord(b, p, id);
    }
    LiveInvAlways(a);
    LiveInvAlways(b);
  }

  /** Any two interleavings of the same streams end with the same live devices and the same claims. */
  lemma InterleavingDoesNotMatter(streams: map<ProviderId, seq<DiscoveryEvent>>, a: seq<Tagged>, b: seq<Tagged>)
    requires Interleaves(streams, a) && Interleaves(streams, b)
    ensures Folded(a).Keys == Folded(b).Keys
    ensures forall id :: LiveClaims(Folded(a), id) == LiveClaims(Folded(b), id)
  {
    forall id
      ensures LiveClaims(Folded(a), id) == LiveClaims(Folded(b), id)
      ensures id in Folded(a) <==> id in Folded(b)
    {
      SameStreamsSameClaims(a, b, id);
    }
  }

  /** Nobody has reported `id` lost. */
  predicate NeverLost(events: seq<Tagged>, id: DeviceId) {
    forall i :: 0 <= i < |events| && events[i].event.Subject() == id ==> events[i].event.Sighting()
  }

  /** Somebody reported `address` for `id`. */
  ghost predicate Told(events: seq<Tagged>, id: DeviceId, address: string) {
    exists p :: ToldBy(StreamOf(events, p), id, address)
  }

  predicate ToldBy(stream: seq<DiscoveryEvent>, id: DeviceId, address: string)
    decreases |stream|
  {
    stream != [] &&
    var last := stream[|stream| - 1];
    || (last.Sighting() && last.device.id == id && address in last.device.addresses)
    || ToldBy(stream[..|stream| - 1], id, address)
  }

  lemma ToldStep(events: seq<Tagged>, t: Tagged, id: DeviceId, address: string)
    ensures Told(events + [t], id, address)
       <==> || (t.event.Sighting() && t.event.device.id == id && address in t.event.device.addresses)
            || Told(events, id, address)
  {
    assert (events + [t])[..|events|] == events;
    var p := t.provider;
    var stream := StreamOf(events, p);
    assert StreamOf(events + [t], p) == stream + [t.event];
    assert (stream + [t.event])[..|stream|] == stream;
    forall q | q != p
      ensures StreamOf(events + [t], q) == StreamOf(events, q)
    {
    }
    if q :| ToldBy(StreamOf(events, q), id, address) {
      assert ToldBy(StreamOf(events + [t], q), id, address);
    }
    if q :| ToldBy(StreamOf(events + [t], q), id, address) && q != p {
      assert ToldBy(StreamOf(events, q), id, address);
    }
  }

  /** Until a device is lost, its addresses are all that anybody reported for it. */
  lemma {:induction false} AddressesAreAllTold(events: seq<Tagged>, id: DeviceId, address: string)
    requires NeverLost(events, id)
    ensures (id in Folded(events) && address in Folded(events)[id].device.addresses) <==> Told(events, id, address)
    decreases |events|
  {
    if events == [] {
      assert forall p :: !ToldBy(StreamOf(events, p), id, address);
    } else {
      var init, t := events[..|events| - 1], events[|events| - 1];
      assert events == init + [t];
      AddressesAreAllTold(init, id, address);
      ToldStep(init, t, id, address);
      var live := Folded(init);
      if t.event.Subject() == id && id in live {
        var merged := UnionAddresses(live[id].device.addresses, t.event.device.addresses);
        assert address in Elements(merged)
          <==> address in Elements(live[id].device.addresses) || address in Elements(t.event.device.addresses);
      }
    }
  }

  /** Until a device is lost, its address set does not depend on the interleaving either. */
  lemma AddressesDoNotMatterEither(streams: map<ProviderId, seq<DiscoveryEvent>>, a: seq<Tagged>, b: seq<Tagged>,
                                   id: DeviceId)
    requires Interleaves(streams, a) && Interleaves(streams, b)
    requires NeverLost(a, id) && NeverLost(b, id)
    requires id in Folded(a)
    ensures id in Folded(b)
    ensures Elements(Folded(a)[id].device.addresses) == Elements(Folded(b)[id].device.addresses)
  {
    InterleavingDoesNotMatter(streams, a, b);
    forall address: string
      ensures Told(a, id, address) <==> Told(b, id, address)
    {
      assert forall p :: StreamOf(a, p) == StreamOf(b, p);
    }
    forall address: string
      ensures address in Folded(a)[id].device.addresses <==> address in Folded(b)[id].device.addresses
    {
      AddressesAreAllTold(a, id, address);
      AddressesAreAllTold(b, id, address);
    }
  }
}
