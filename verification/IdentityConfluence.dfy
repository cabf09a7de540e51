/**
 The registry's live set and claims do not depend on how the streams interleave.
 Whether a device's merged identity does can be read off the streams.
 */
module IdentityConfluence {
  import opened Wrappers
  import opened Devices
  import opened Registry
  import opened Confluence

  /** The last identity a stream gives `id`, if it sights it at all. */
  function LastIdent(stream: seq<DiscoveryEvent>, id: DeviceId): Option<Ident>
    decreases |stream|
  {
    if stream == [] then None
    else
      var last := stream[|stream| - 1];
      if last.Sighting() && last.device.id == id then Some(IdentOf(last.device))
      else LastIdent(stream[..|stream| - 1], id)
  }

  /** Who sighted `id` first. */
  function FirstReporter(events: seq<Tagged>, id: DeviceId): Option<ProviderId>
    decreases |events|
  {
    if events == [] then None
    else
      var before, t := FirstReporter(events[..|events| - 1], id), events[|events| - 1];
      if before.None? && t.event.Sighting() && t.event.device.id == id then Some(t.provider) else before
  }

  /** An event that, if it is about `id`, sights it with neither a blank name nor a zero port. */
  predicate Clean(e: DiscoveryEvent, id: DeviceId) {
    e.Subject() == id ==> e.Sighting() && e.device.name != "" && e.device.port != 0
  }

  predicate CleanStream(stream: seq<DiscoveryEvent>, id: DeviceId) {
    forall i :: 0 <= i < |stream| ==> Clean(stream[i], id)
  }

  predicate AllClean(events: seq<Tagged>, id: DeviceId) {
    forall i :: 0 <= i < |events| ==> Clean(events[i].event, id)
  }

  lemma LastIdentSnoc(stream: seq<DiscoveryEvent>, e: DiscoveryEvent, id: DeviceId)
    ensures LastIdent(stream + [e], id)
         == if e.Sighting() && e.device.id == id then Some(IdentOf(e.device)) else LastIdent(stream, id)
  {
    assert (stream + [e])[..|stream|] == stream;
  }

  /** A live device owned by its claimant `f`, whose identity is `ident`, with nothing blank. */
  ghost predicate OwnedAs(live: Live, id: DeviceId, f: ProviderId, ident: Ident) {
    && id in live
    && live[id].identityProvider == f && f in live[id].providers
    && IdentOf(live[id].device) == ident && ident.name != "" && ident.port != 0
  }

  lemma FoldOwned(live: Live, t: Tagged, id: DeviceId, f: ProviderId, ident: Ident)
    requires OwnedAs(live, id, f, ident) && Clean(t.event, id)
    ensures OwnedAs(Fold(live, t), id, f,
                    if t.provider == f && t.event.Subject() == id then IdentOf(t.event.device) else ident)
  {
  }

  /**
   While a device is never lost and never reported blank, its identity is the last
   one in the stream of whoever reported it first.
   */
  lemma {:induction false} FirstReporterDictates(events: seq<Tagged>, id: DeviceId)
    requires AllClean(events, id)
    ensures match FirstReporter(events, id)
            case None => id !in Folded(events)
            case Some(f) =>
              var ident := LastIdent(StreamOf(events, f), id);
              ident.Some? && OwnedAs(Folded(events), id, f, ident.value)
    decreases |events|
  {
    if events != [] {
      var init, t := events[..|events| - 1], events[|events| - 1];
      FirstReporterDictates(init, id);
      assert events == init + [t];
      match FirstReporter(init, id)
      case None =>
        StreamSnoc(init, t, t.provider);
        LastIdentSnoc(StreamOf(init, t.provider), t.event, id);
      case Some(f) =>
        StreamSnoc(init, t, f);
        LastIdentSnoc(StreamOf(init, f), t.event, id);
        FoldOwned(Folded(init), t, id, f, LastIdent(StreamOf(init, f), id).value);
    }
  }

  /** Two interleavings agree on a device's identity exactly when their first reporters' last words do. */
  lemma NamesDependOnWhoIsFirst(a: seq<Tagged>, b: seq<Tagged>, id: DeviceId)
    requires AllClean(a, id) && AllClean(b, id)
    requires forall p :: StreamOf(a, p) == StreamOf(b, p)
    requires id in Folded(a)
    ensures id in Folded(b) && FirstReporter(a, id).Some? && FirstReporter(b, id).Some?
    ensures var f, g := FirstReporter(a, id).value, FirstReporter(b, id).value;
            IdentOf(Folded(a)[id].device) == IdentOf(Folded(b)[id].device)
            <==> LastIdent(StreamOf(a, f), id) == LastIdent(StreamOf(a, g), id)
  {
    FirstReporterDictates(a, id);
    FirstReporterDictates(b, id);
    SameStreamsSameClaims(a, b, id);
  }

  // --------------------------------------- which streams cannot disagree

  /** Every provider that sights `id` gives it the same identity in the end. */
  predicate OneLastWord(streams: map<ProviderId, seq<DiscoveryEvent>>, id: DeviceId) {
    forall p, q :: p in streams && q in streams ==>
      LastIdent(streams[p], id).None? || LastIdent(streams[q], id).None? ||
      LastIdent(streams[p], id) == LastIdent(streams[q], id)
  }

  ghost predicate SameIdentities(a: seq<Tagged>, b: seq<Tagged>, id: DeviceId) {
    id in Folded(a) && id in Folded(b) ==> IdentOf(Folded(a)[id].device) == IdentOf(Folded(b)[id].device)
  }

  lemma {:induction false} EventIsInItsStream(events: seq<Tagged>, i: nat)
    requires i < |events|
    ensures events[i].event in StreamOf(events, events[i].provider)
    decreases |events|
  {
    var init := events[..|events| - 1];
    if i < |init| {
      EventIsInItsStream(init, i);
      assert init[i] == events[i];
    }
  }

  lemma CleanStreamsCleanEvents(streams: map<ProviderId, seq<DiscoveryEvent>>, events: seq<Tagged>, id: DeviceId)
    requires Interleaves(streams, events) && forall p :: p in streams ==> CleanStream(streams[p], id)
    ensures AllClean(events, id)
  {
    forall i | 0 <= i < |events|
      ensures Clean(events[i].event, id)
    {
      EventIsInItsStream(events, i);
    }
  }

  // ---------------------------------------------- every provider can be first

  function TagAll(p: ProviderId, stream: seq<DiscoveryEvent>): (events: seq<Tagged>)
    ensures |events| == |stream|
    decreases |stream|
  {
    if stream == [] then []
    else TagAll(p, stream[..|stream| - 1]) + [Tagged(p, stream[|stream| - 1])]
  }

  lemma {:induction false} StreamOfTagAll(p: ProviderId, stream: seq<DiscoveryEvent>, q: ProviderId)
    ensures StreamOf(TagAll(p, stream), q) == if q == p then stream else []
    decreases |stream|
  {
    if stream != [] {
      var init, last := stream[..|stream| - 1], stream[|stream| - 1];
      StreamOfTagAll(p, init, q);
      StreamSnoc(TagAll(p, init), Tagged(p, last), q);
      assert stream == init + [last];
    }
  }

  lemma {:induction false} StreamOfConcat(a: seq<Tagged>, b: seq<Tagged>, p: ProviderId)
    ensures StreamOf(a + b, p) == StreamOf(a, p) + StreamOf(b, p)
    decreases |b|
  {
    if b == [] {
      assert a + b == a;
    } else {
      var init, t := b[..|b| - 1], b[|b| - 1];
      StreamOfConcat(a, init, p);
      assert a + b == (a + init) + [t];
      StreamSnoc(a + init, t, p);
    }
  }

  /** The streams of `ps` one after another, in some order. */
  ghost function OneByOne(streams: map<ProviderId, seq<DiscoveryEvent>>, ps: set<ProviderId>): seq<Tagged>
    requires ps <= streams.Keys
    decreases |ps|
  {
    if ps == {} then []
    else
      var p :| p in ps;
      TagAll(p, streams[p]) + OneByOne(streams, ps - {p})
  }

  lemma {:induction false} StreamOfOneByOne(streams: map<ProviderId, seq<DiscoveryEvent>>, ps: set<ProviderId>, q: ProviderId)
    requires ps <= streams.Keys
    ensures StreamOf(OneByOne(streams, ps), q) == if q in ps then streams[q] else []
    decreases |ps|
  {
    if ps != {} {
      var p :| p in ps && OneByOne(streams, ps) == TagAll(p, streams[p]) + OneByOne(streams, ps - {p});
      StreamOfTagAll(p, streams[p], q);
      StreamOfOneByOne(streams, ps - {p}, q);
      StreamOfConcat(TagAll(p, streams[p]), OneByOne(streams, ps - {p}), q);
    }
  }

  lemma {:induction false} FirstReporterOfConcat(a: seq<Tagged>, b: seq<Tagged>, id: DeviceId)
    requires FirstReporter(a, id).Some?
    ensures FirstReporter(a + b, id) == FirstReporter(a, id)
    decreases |b|
  {
    if b == [] {
      assert a + b == a;
    } else {
      FirstReporterOfConcat(a, b[..|b| - 1], id);
      assert (a + b)[..|a + b| - 1] == a + b[..|b| - 1];
    }
  }

  lemma {:induction false} FirstReporterOfTagAll(p: ProviderId, stream: seq<DiscoveryEvent>, id: DeviceId)
    requires LastIdent(stream, id).Some?
    ensures FirstReporter(TagAll(p, stream), id) == Some(p)
    decreases |stream|
  {
    var init, last := stream[..|stream| - 1], stream[|stream| - 1];
    assert TagAll(p, stream)[..|stream| - 1] == TagAll(p, init);
    if LastIdent(init, id).Some? {
      FirstReporterOfTagAll(p, init, id);
    } else {
      NobodyReports(p, init, id);
    }
  }

  lemma {:induction false} NobodyReports(p: ProviderId, stream: seq<DiscoveryEvent>, id: DeviceId)
    requires LastIdent(stream, id).None?
    ensures FirstReporter(TagAll(p, stream), id) == None
    decreases |stream|
  {
    if stream != [] {
      NobodyReports(p, stream[..|stream| - 1], id);
      assert TagAll(p, stream)[..|stream| - 1] == TagAll(p, stream[..|stream| - 1]);
    }
  }

  /** Any provider that sights `id` is the first to do so in some interleaving. */
  lemma AnyoneCanBeFirst(streams: map<ProviderId, seq<DiscoveryEvent>>, p: ProviderId, id: DeviceId)
    returns (events: seq<Tagged>)
    requires p in streams && LastIdent(streams[p], id).Some?
    ensures Interleaves(streams, events) && FirstReporter(events, id) == Some(p)
  {
    var others := streams.Keys - {p};
    events := TagAll(p, streams[p]) + OneByOne(streams, others);
    forall q
      ensures StreamOf(events, q) == if q in streams then streams[q] else []
    {
      StreamOfConcat(TagAll(p, streams[p]), OneByOne(streams, others), q);
      StreamOfTagAll(p, streams[p], q);
      StreamOfOneByOne(streams, others, q);
    }
    FirstReporterOfTagAll(p, streams[p], id);
    FirstReporterOfConcat(TagAll(p, streams[p]), OneByOne(streams, others), id);
  }

  lemma OneLastWordAgrees(streams: map<ProviderId, seq<DiscoveryEvent>>, a: seq<Tagged>, b: seq<Tagged>, id: DeviceId)
    requires forall p :: p in streams ==> CleanStream(streams[p], id)
    requires OneLastWord(streams, id) && Interleaves(streams, a) && Interleaves(streams, b)
    ensures SameIdentities(a, b, id)
  {
    CleanStreamsCleanEvents(streams, a, id);
    CleanStreamsCleanEvents(streams, b, id);
    FirstReporterDictates(a, id);
    FirstReporterDictates(b, id);
  }

  lemma TwoLastWordsDisagree(streams: map<ProviderId, seq<DiscoveryEvent>>, id: DeviceId)
    returns (a: seq<Tagged>, b: seq<Tagged>)
    requires forall p :: p in streams ==> CleanStream(streams[p], id)
    requires !OneLastWord(streams, id)
    ensures Interleaves(streams, a) && Interleaves(streams, b) && !SameIdentities(a, b, id)
  {
    var p, q :| p in streams && q in streams && LastIdent(streams[p], id).Some? && LastIdent(streams[q], id).Some?
                && LastIdent(streams[p], id) != LastIdent(streams[q], id);
    a := AnyoneCanBeFirst(streams, p, id);
    b := AnyoneCanBeFirst(streams, q, id);
    CleanStreamsCleanEvents(streams, a, id);
    CleanStreamsCleanEvents(streams, b, id);
    FirstReporterDictates(a, id);
    FirstReporterDictates(b, id);
  }

  /**
   For streams that never lose the device nor report it blank: its identity is the
   same in every interleaving exactly when all who sight it end on the same one.
   */
  lemma IdentityIsConfluentIff(streams: map<ProviderId, seq<DiscoveryEvent>>, id: DeviceId)
    requires forall p :: p in streams ==> CleanStream(streams[p], id)
    ensures (forall a, b :: Interleaves(streams, a) && Interleaves(streams, b) ==> SameIdentities(a, b, id))
       <==> OneLastWord(streams, id)
  {
    if OneLastWord(streams, id) {
      forall a, b | Interleaves(streams, a) && Interleaves(streams, b)
        ensures SameIdentities(a, b, id)
      {
        OneLastWordAgrees(streams, a, b, id);
      }
    } else {
      var a, b := TwoLastWordsDisagree(streams, id);
    }
  }
}
