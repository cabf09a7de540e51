/** What a provider's claim means, read off the history of calls alone. */
module Claims {
  import opened Wrappers
  import opened Devices
  import opened StoreModel
  import opened StoreRuns

  predicate SightingOf(op: Op, p: ProviderId, id: DeviceId) {
    op.Observe? && op.provider == p && op.event.Sighting() && op.event.device.id == id
  }

  /**
   The calls that end `p`'s claim on `id`: its own Lost, a Lost from any provider
   registered as LAN unless `p` is registered as crossing subnets, and stopping
   discovery.
   */
  predicate Kills(caps: Caps, op: Op, p: ProviderId, id: DeviceId) {
    match op
    case OfflineAll => true
    case Observe(q, Lost(i)) =>
      i == id && (q == p || (q in caps && !caps[q].crossesSubnet && !(p in caps && caps[p].crossesSubnet)))
    case _ => false
  }

  /** Call `i` is an admitted sighting of `id` by `p` that no later call ends. */
  ghost predicate StandingSighting(caps: Caps, ops: seq<Op>, p: ProviderId, id: DeviceId, i: nat) {
    && i < |ops|
    && SightingOf(ops[i], p, id)
    && Admits(Run(caps, map[], ops[..i]), id)
    && forall j :: i < j < |ops| ==> !Kills(caps, ops[j], p, id)
  }

  /** One call's effect on one claim. */
  lemma ClaimStep(caps: Caps, s: Store, op: Op, p: ProviderId, id: DeviceId)
    requires Inv(s)
    ensures p in StoreModel.Claims(Next(caps, s, op), id)
       <==> || (SightingOf(op, p, id) && Admits(s, id))
            || (p in StoreModel.Claims(s, id) && !Kills(caps, op, p, id))
  {
    NextAt(caps, s, op, id);
  }

  /** A sighting stands after one more call if it stood before, or is that call. */
  lemma StandingStep(caps: Caps, init: seq<Op>, op: Op, p: ProviderId, id: DeviceId)
    ensures (exists i :: StandingSighting(caps, init + [op], p, id, i))
       <==> || (SightingOf(op, p, id) && Admits(Run(caps, map[], init), id))
            || ((exists i :: StandingSighting(caps, init, p, id, i)) && !Kills(caps, op, p, id))
  {
    var ops, n := init + [op], |init|;
    forall i: nat | i < n
      ensures StandingSighting(caps, ops, p, id, i)
         <==> StandingSighting(caps, init, p, id, i) && !Kills(caps, op, p, id)
    {
      assert init[..i] == ops[..i];
      assert ops[n] == op;
      assert forall j :: i < j < n ==> init[j] == ops[j];
    }
    assert ops[..n] == init;
    assert StandingSighting(caps, ops, p, id, n) <==> SightingOf(op, p, id) && Admits(Run(caps, map[], init), id);
    if i: nat :| StandingSighting(caps, init, p, id, i) {
      assert i < n;
    }
    if i: nat :| StandingSighting(caps, ops, p, id, i) {
      assert i <= n;
    }
  }

  /** The same, told one call at a time. */
  ghost predicate Stands(caps: Caps, ops: seq<Op>, p: ProviderId, id: DeviceId)
    decreases |ops|
  {
    ops != [] &&
    var init, op := ops[..|ops| - 1], ops[|ops| - 1];
    || (SightingOf(op, p, id) && Admits(Run(caps, map[], init), id))
    || (Stands(caps, init, p, id) && !Kills(caps, op, p, id))
  }

  lemma {:induction false} StandsMeansStandingSighting(caps: Caps, ops: seq<Op>, p: ProviderId, id: DeviceId)
    ensures Stands(caps, ops, p, id) <==> exists i :: StandingSighting(caps, ops, p, id, i)
    decreases |ops|
  {
    if ops != [] {
      var init, op := ops[..|ops| - 1], ops[|ops| - 1];
      StandsMeansStandingSighting(caps, init, p, id);
      StandingStep(caps, init, op, p, id);
      assert ops == init + [op];
    }
  }

  lemma {:induction false} ClaimStands(caps: Caps, ops: seq<Op>, p: ProviderId, id: DeviceId)
    ensures p in StoreModel.Claims(Run(caps, map[], ops), id) <==> Stands(caps, ops, p, id)
    decreases |ops|
  {
    if ops != [] {
      var init, op := ops[..|ops| - 1], ops[|ops| - 1];
      ClaimStands(caps, init, p, id);
      InvAlways(caps, map[], init);
      ClaimStep(caps, Run(caps, map[], init), op, p, id);
    }
  }

  /**
   After any run, `p` claims `id` exactly when one of its admitted sightings
   still stands. Pruning never ends a claim and never needs to be consulted.
   */
  lemma ClaimMeansStandingSighting(caps: Caps, ops: seq<Op>, p: ProviderId, id: DeviceId)
    ensures p in StoreModel.Claims(Run(caps, map[], ops), id)
       <==> exists i :: StandingSighting(caps, ops, p, id, i)
  {
    ClaimStands(caps, ops, p, id);
    StandsMeansStandingSighting(caps, ops, p, id);
  }

  /** Online, after any run, is having one standing sighting from somebody. */
  lemma OnlineMeansStandingSighting(caps: Caps, ops: seq<Op>, id: DeviceId)
    ensures var s := Run(caps, map[], ops);
            id in s && s[id].online <==> exists p, i :: StandingSighting(caps, ops, p, id, i)
  {
    var s := Run(caps, map[], ops);
    InvAlways(caps, map[], ops);
    if id in s && s[id].online {
      var p :| p in s[id].providers;
      ClaimMeansStandingSighting(caps, ops, p, id);
    }
    if p, i :| StandingSighting(caps, ops, p, id, i) {
      ClaimMeansStandingSighting(caps, ops, p, id);
    }
  }
}
