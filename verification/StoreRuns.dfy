/** What every reachable device table satisfies, and what cannot disturb a tracked device. */
module StoreRuns {
  import opened Wrappers
  import opened Devices
  import opened Order
  import opened StoreModel

  ghost predicate EntryOk(id: DeviceId, e: Entry) {
    && e.device.id == id
    && (e.online <==> e.providers != {})
    && e.lastSeen == e.device.lastSeen
  }

  ghost predicate Inv(s: Store) {
    && |s| <= MAX_DEVICES
    && forall id :: id in s ==> EntryOk(id, s[id])
  }

  /** Online is exactly reachable: somewhere on the LAN or beyond it. */
  lemma OnlineIsReachable(caps: Caps, s: Store, id: DeviceId)
    requires Inv(s) && id in s
    ensures var c := ToManaged(caps, s[id]).capabilities;
            && (s[id].online <==> c.reachableLan || c.reachableRemote)
            && (s[id].online <==> c.providers != [])
            && (c.requiresTailscale ==> s[id].online)
  {
    var e := s[id];
    if e.providers != {} {
      var p :| p in e.providers;
      assert CrossesSubnet(caps, p) || !CrossesSubnet(caps, p);
      assert p in Elements(SortedNames(e.providers));
    }
    NonemptyElements(SortedNames(e.providers));
  }

  lemma EntryOkStep(caps: Caps, e: Option<Entry>, id: DeviceId, room: bool, op: Op)
    requires e.Some? ==> EntryOk(id, e.value)
    ensures var e' := EntryNext(caps, e, id, room, op); e'.Some? ==> EntryOk(id, e'.value)
  {
  }

  lemma SizeStep(caps: Caps, s: Store, op: Op)
    requires |s| <= MAX_DEVICES
    ensures |Next(caps, s, op)| <= MAX_DEVICES
  {
    var s' := Next(caps, s, op);
    match op
    case Observe(p, event) =>
      if event.Subject() in s {
        assert s'.Keys == s.Keys;
      } else {
        assert s'.Keys <= s.Keys + {event.Subject()};
        assert |s| >= MAX_DEVICES ==> s' == s;
        SubsetSize(s'.Keys, s.Keys + {event.Subject()});
      }
    case _ =>
      assert s'.Keys <= s.Keys;
      SubsetSize(s'.Keys, s.Keys);
  }

  lemma {:induction false} SubsetSize<T>(a: set<T>, b: set<T>)
    requires a <= b
    ensures |a| <= |b|
    decreases |a|
  {
    if a != {} {
      var x :| x in a;
      SubsetSize(a - {x}, b - {x});
    }
  }

  lemma InvStep(caps: Caps, s: Store, op: Op)
    requires Inv(s)
    ensures Inv(Next(caps, s, op))
  {
    SizeStep(caps, s, op);
    var s' := Next(caps, s, op);
    forall id | id in s'
      ensures EntryOk(id, s'[id])
    {
      NextAt(caps, s, op, id);
      EntryOkStep(caps, Lookup(s, id), id, |s| < MAX_DEVICES, op);
    }
  }

  /** Every state a run reaches is well formed. */
  lemma {:induction false} InvAlways(caps: Caps, s: Store, ops: seq<Op>)
    requires Inv(s)
    ensures Inv(Run(caps, s, ops))
    decreases |ops|
  {
    if ops != [] {
      var n := |ops| - 1;
      InvAlways(caps, s, ops[..n]);
      InvStep(caps, Run(caps, s, ops[..n]), ops[n]);
    }
  }

  /** Whether a call names `id`, or sweeps the whole table. */
  predicate Touches(op: Op, id: DeviceId) {
    match op
    case Observe(_, event) => event.Subject() == id
    case RecordLatency(i, _) => i == id
    case OfflineAll => true
    case Prune(_, _, _) => true
  }

  /**
   However many other devices are announced, lost or measured, a tracked device
   keeps its whole entry, and an untracked one does not appear.
   */
  lemma {:induction false} FloodCannotDisturb(caps: Caps, s: Store, ops: seq<Op>, id: DeviceId)
    requires forall i :: 0 <= i < |ops| ==> !Touches(ops[i], id)
    ensures Lookup(Run(caps, s, ops), id) == Lookup(s, id)
    decreases |ops|
  {
    if ops != [] {
      var n := |ops| - 1;
      FloodCannotDisturb(caps, s, ops[..n], id);
      NextAt(caps, Run(caps, s, ops[..n]), ops[n], id);
    }
  }

  /** A sighting is refused exactly when the table is full of other devices. */
  lemma RefusedIffFull(caps: Caps, s: Store, p: ProviderId, event: DiscoveryEvent)
    requires Inv(s) && event.Sighting()
    ensures var s' := Next(caps, s, Observe(p, event));
            event.Subject() !in s' <==> |s| == 512 && event.Subject() !in s
  {
  }
}
