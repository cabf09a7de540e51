/** Who may change what a device is called: its owner, and nobody else while the owner is there. */
module Identity {
  import opened Wrappers
  import opened Devices
  import opened StoreModel
  import opened StoreRuns
  import opened Claims

  /** A sighting by anyone but the owner. */
  predicate Outsider(op: Op, owner: ProviderId) {
    op.Observe? && op.event.Sighting() && op.provider != owner
  }

  /** The run with every sighting by a provider other than `owner` erased. */
  function OwnerOnly(ops: seq<Op>, owner: ProviderId): seq<Op>
    decreases |ops|
  {
    if ops == [] then []
    else
      var rest := OwnerOnly(ops[..|ops| - 1], owner);
      if Outsider(ops[|ops| - 1], owner) then rest else rest + [ops[|ops| - 1]]
  }

  /** Tracked, owned by `owner`, who claims it, and with nothing left blank to fill. */
  ghost predicate OwnedBy(s: Store, id: DeviceId, owner: ProviderId) {
    && id in s
    && s[id].identityProvider == owner
    && owner in s[id].providers
    && s[id].device.name != ""
    && s[id].device.port != 0
  }

  /** What one sighting by the owner does to the identity: blanks never clobber. */
  function Adopt(was: Ident, d: Device): Ident {
    Ident(if d.name == "" then was.name else d.name,
          d.deviceType,
          d.platform,
          if d.port == 0 then was.port else d.port)
  }

  /** The identity the owner alone has dictated over a run. */
  function Dictated(was: Ident, ops: seq<Op>, owner: ProviderId, id: DeviceId): Ident
    decreases |ops|
  {
    if ops == [] then was
    else
      var before := Dictated(was, ops[..|ops| - 1], owner, id);
      var op := ops[|ops| - 1];
      if SightingOf(op, owner, id) then Adopt(before, op.event.device) else before
  }

  lemma OwnedStep(caps: Caps, s: Store, op: Op, id: DeviceId, owner: ProviderId)
    requires Inv(s) && OwnedBy(s, id, owner)
    requires !Kills(caps, op, owner, id)
    ensures var s' := Next(caps, s, op);
            && OwnedBy(s', id, owner)
            && IdentOf(s'[id].device)
            == if SightingOf(op, owner, id) then Adopt(IdentOf(s[id].device), op.event.device)
               else IdentOf(s[id].device)
  {
    NextAt(caps, s, op, id);
  }

  /** While the owner keeps its claim, the identity is what the owner dictated. */
  lemma {:induction false} OwnerDictates(caps: Caps, s: Store, ops: seq<Op>, id: DeviceId, owner: ProviderId)
    requires Inv(s) && OwnedBy(s, id, owner)
    requires forall i :: 0 <= i < |ops| ==> !Kills(caps, ops[i], owner, id)
    ensures var s' := Run(caps, s, ops);
            OwnedBy(s', id, owner) && IdentOf(s'[id].device) == Dictated(IdentOf(s[id].device), ops, owner, id)
    decreases |ops|
  {
    if ops != [] {
      var n := |ops| - 1;
      OwnerDictates(caps, s, ops[..n], id, owner);
      InvAlways(caps, s, ops[..n]);
      OwnedStep(caps, Run(caps, s, ops[..n]), ops[n], id, owner);
    }
  }

  lemma {:induction false} DictatedIgnoresOutsiders(caps: Caps, was: Ident, ops: seq<Op>, owner: ProviderId, id: DeviceId)
    requires forall i :: 0 <= i < |ops| ==> !Kills(caps, ops[i], owner, id)
    ensures var kept := OwnerOnly(ops, owner);
            && Dictated(was, kept, owner, id) == Dictated(was, ops, owner, id)
            && forall i :: 0 <= i < |kept| ==> !Kills(caps, kept[i], owner, id)
    decreases |ops|
  {
    if ops != [] {
      var n := |ops| - 1;
      DictatedIgnoresOutsiders(caps, was, ops[..n], owner, id);
      var rest := OwnerOnly(ops[..n], owner);
      assert (rest + [ops[n]])[..|rest|] == rest;
    }
  }

  /**
   Non-interference: over any run in which the owner keeps its claim, the
   identity ends exactly as if no other provider had reported anything.
   */
  lemma OutsidersCannotInterfere(caps: Caps, s: Store, ops: seq<Op>, id: DeviceId, owner: ProviderId)
    requires Inv(s) && OwnedBy(s, id, owner)
    requires forall i :: 0 <= i < |ops| ==> !Kills(caps, ops[i], owner, id)
    ensures var crowd, alone := Run(caps, s, ops), Run(caps, s, OwnerOnly(ops, owner));
            id in crowd && id in alone && IdentOf(crowd[id].device) == IdentOf(alone[id].device)
  {
    OwnerDictates(caps, s, ops, id, owner);
    DictatedIgnoresOutsiders(caps, IdentOf(s[id].device), ops, owner, id);
    OwnerDictates(caps, s, OwnerOnly(ops, owner), id, owner);
  }

  lemma OneSighting(caps: Caps, s: Store, owner: ProviderId, p: ProviderId, d: Device)
    requires p != owner
    ensures var ops := [Observe(p, Found(d))];
            Run(caps, s, ops) == Next(caps, s, ops[0]) && OwnerOnly(ops, owner) == []
  {
    assert [Observe(p, Found(d))][..0] == [];
  }

  /** Where the owner left the name blank, an outsider fills it, so erasing the outsider changes the outcome. */
  lemma BlankNameIsFilledByOutsider(caps: Caps, s: Store, id: DeviceId, owner: ProviderId, p: ProviderId, d: Device)
    requires id in s && s[id].identityProvider == owner && owner in s[id].providers
    requires s[id].device.name == "" && p != owner && d.id == id && d.name != ""
    ensures var ops := [Observe(p, Found(d))];
            var crowd, alone := Run(caps, s, ops), Run(caps, s, OwnerOnly(ops, owner));
            id in crowd && id in alone && crowd[id].device.name == d.name != alone[id].device.name
  {
    OneSighting(caps, s, owner, p, d);
  }

  /** And so with the port. */
  lemma ZeroPortIsFilledByOutsider(caps: Caps, s: Store, id: DeviceId, owner: ProviderId, p: ProviderId, d: Device)
    requires id in s && s[id].identityProvider == owner && owner in s[id].providers
    requires s[id].device.port == 0 && p != owner && d.id == id && d.port != 0
    ensures var ops := [Observe(p, Found(d))];
            var crowd, alone := Run(caps, s, ops), Run(caps, s, OwnerOnly(ops, owner));
            id in crowd && id in alone && crowd[id].device.port == d.port != alone[id].device.port
  {
    OneSighting(caps, s, owner, p, d);
  }

  /** Over `ops` the identity of `id` ends as if no outsider had reported anything. */
  ghost predicate FreeOfOutsiders(caps: Caps, s: Store, ops: seq<Op>, id: DeviceId, owner: ProviderId) {
    var crowd, alone := Run(caps, s, ops), Run(caps, s, OwnerOnly(ops, owner));
    id in crowd && id in alone && IdentOf(crowd[id].device) == IdentOf(alone[id].device)
  }

  predicate KeepsClaim(caps: Caps, ops: seq<Op>, id: DeviceId, owner: ProviderId) {
    forall i :: 0 <= i < |ops| ==> !Kills(caps, ops[i], owner, id)
  }

  /**
   From a state in which the owner claims the device, every run that keeps the
   claim is free of outsiders' influence exactly when nothing is left blank.
   */
  lemma ImmuneIffNothingBlank(caps: Caps, s: Store, id: DeviceId, owner: ProviderId)
    requires Inv(s) && id in s && s[id].identityProvider == owner && owner in s[id].providers
    ensures (forall ops :: KeepsClaim(caps, ops, id, owner) ==> FreeOfOutsiders(caps, s, ops, id, owner))
       <==> s[id].device.name != "" && s[id].device.port != 0
  {
    if s[id].device.name != "" && s[id].device.port != 0 {
      forall ops | KeepsClaim(caps, ops, id, owner)
        ensures FreeOfOutsiders(caps, s, ops, id, owner)
      {
        OutsidersCannotInterfere(caps, s, ops, id, owner);
      }
    } else {
      var p, d := owner + "'", Device(id, "n", Desktop, Linux, [], 1, 0);
      var ops := [Observe(p, Found(d))];
      assert KeepsClaim(caps, ops, id, owner);
      if s[id].device.name == "" {
        BlankNameIsFilledByOutsider(caps, s, id, owner, p, d);
      } else {
        ZeroPortIsFilledByOutsider(caps, s, id, owner, p, d);
      }
      assert !FreeOfOutsiders(caps, s, ops, id, owner);
    }
  }

  /** What anyone else's sighting may do to it: fill a blank. */
  function Fill(was: Ident, d: Device): Ident {
    Ident(if was.name == "" then d.name else was.name,
          was.deviceType,
          was.platform,
          if was.port == 0 then d.port else was.port)
  }

  /**
   Ownership passes to the first to report after the owner's claim has ended; until
   then a sighting by anyone else fills blanks and nothing more.
   */
  lemma TakeoverAfterDrop(caps: Caps, s: Store, id: DeviceId, p: ProviderId, event: DiscoveryEvent)
    requires Inv(s) && id in s && event.Sighting() && event.device.id == id
    ensures var e, e' := s[id], Next(caps, s, Observe(p, event))[id];
            && (e'.identityProvider == p <==> p == e.identityProvider || e.identityProvider !in e.providers)
            && (e'.identityProvider == p ==> IdentOf(e'.device) == Adopt(IdentOf(e.device), event.device))
            && (e'.identityProvider != p ==> e'.identityProvider == e.identityProvider
                                             && IdentOf(e'.device) == Fill(IdentOf(e.device), event.device))
            && e'.identityProvider in e'.providers
  {
    NextAt(caps, s, Observe(p, event), id);
  }
}
