/** The shape of the merged stream, and that it is enough to rebuild the live set. */
module MergedOutput {
  import opened Wrappers
  import opened Devices
  import opened Registry

  type Peers = map<DeviceId, Device>

  /**
   A client that refuses anything out of place: Found only for an absent peer,
   Updated only for a present one and only with something new, Lost only for a
   present one.
   */
  ghost predicate Fits(peers: Peers, e: PeerEvent) {
    match e
    case PeerFound(d) => d.id !in peers
    case PeerUpdated(d) => d.id in peers && !SameIdentity(peers[d.id], d)
    case PeerLost(id) => id in peers
  }

  function Hear(peers: Peers, e: PeerEvent): Peers {
    match e
    case PeerFound(d) => peers[d.id := d]
    case PeerUpdated(d) => peers[d.id := d]
    case PeerLost(id) => peers - {id}
  }

  /** What the announcements add up to. */
  function Heard(out: seq<PeerEvent>): Peers
    decreases |out|
  {
    if out == [] then map[] else Hear(Heard(out[..|out| - 1]), out[|out| - 1])
  }

  /**
   Every announcement fits what came before it: for each peer the stream reads
   (Found Updated* Lost)*, with the last block possibly open.
   */
  ghost predicate WellFormed(out: seq<PeerEvent>) {
    forall i :: 0 <= i < |out| ==> Fits(Heard(out[..i]), out[i])
  }

  /** The client knows the live peers, each up to its timestamp. */
  ghost predicate Knows(live: Live, peers: Peers) {
    peers.Keys == live.Keys && forall id :: id in live ==> SameIdentity(peers[id], live[id].device)
  }

  lemma HeardSnoc(out: seq<PeerEvent>, e: PeerEvent)
    requires WellFormed(out) && Fits(Heard(out), e)
    ensures Heard(out + [e]) == Hear(Heard(out), e)
    ensures WellFormed(out + [e])
  {
    assert (out + [e])[..|out|] == out;
    forall i | 0 <= i < |out| + 1
      ensures Fits(Heard((out + [e])[..i]), (out + [e])[i])
    {
      assert i < |out| ==> (out + [e])[..i] == out[..i];
    }
  }

  /** One event: what is announced fits, and keeps the client right; silence does too. */
  lemma AnnounceStep(live: Live, peers: Peers, t: Tagged)
    requires LiveInv(live) && Knows(live, peers)
    ensures match Announce(live, t)
            case None => Knows(Fold(live, t), peers)
            case Some(e) => Fits(peers, e) && Knows(Fold(live, t), Hear(peers, e))
  {
  }

  /** For every input stream: the output obeys the grammar and replays to the live set. */
  lemma {:induction false} MergedStreamIsFaithful(events: seq<Tagged>)
    ensures WellFormed(MergedStream(events))
    ensures Knows(Folded(events), Heard(MergedStream(events)))
    decreases |events|
  {
    if events != [] {
      var init, t := events[..|events| - 1], events[|events| - 1];
      MergedStreamIsFaithful(init);
      LiveInvAlways(init);
      var live, out := Folded(init), MergedStream(init);
      AnnounceStep(live, Heard(out), t);
      if Announce(live, t).Some? {
        HeardSnoc(out, Announce(live, t).value);
      }
    }
  }

  /** The registry object, after any calls: what it has announced is what it holds. */
  lemma AnnouncementsRebuildTheRegistry(r: DiscoveryRegistry)
    requires r.Valid()
    ensures WellFormed(r.announced)
    ensures Knows(r.devices, Heard(r.announced))
  {
    MergedStreamIsFaithful(r.events);
  }

  /** The timestamp of the last sighting of `id`. */
  function LastHeard(events: seq<Tagged>, id: DeviceId): Option<int>
    decreases |events|
  {
    if events == [] then None
    else
      var e := events[|events| - 1].event;
      if e.Sighting() && e.device.id == id then Some(e.device.lastSeen) else LastHeard(events[..|events| - 1], id)
  }

  /** Whatever the stream, a live device carries the time of its last sighting. */
  lemma {:induction false} LastSeenIsLastHeard(events: seq<Tagged>, id: DeviceId)
    requires id in Folded(events)
    ensures LastHeard(events, id) == Some(Folded(events)[id].device.lastSeen)
    decreases |events|
  {
    var init := events[..|events| - 1];
    if id in Folded(init) {
      LastSeenIsLastHeard(init, id);
    }
  }

  /** What is announced is the device as it is then held, to the last field. */
  lemma AnnouncedIsHeld(events: seq<Tagged>, t: Tagged)
    ensures match Announce(Folded(events), t)
            case Some(PeerLost(id)) => id == t.event.Subject() && id !in Fold(Folded(events), t)
            case Some(e) =>
              var id := t.event.Subject();
              id in Fold(Folded(events), t) && e.device == Fold(Folded(events), t)[id].device
              && (e.PeerFound? <==> id !in Folded(events))
            case None => Fold(Folded(events), t).Keys == Folded(events).Keys
  {
    LiveInvAlways(events);
  }
}
