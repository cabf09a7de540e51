/** Addresses are only ever learned, never forgotten, while a device stays tracked. */
module AddressHistory {
  import opened Wrappers
  import opened Devices
  import opened StoreModel
  import opened StoreRuns

  ghost function AddressesOf(s: Store, id: DeviceId): seq<string> {
    if id in s then s[id].device.addresses else []
  }

  /** The sighting of `id` a call carries, if it carries one. */
  predicate Sights(op: Op, id: DeviceId) {
    op.Observe? && op.event.Sighting() && op.event.device.id == id
  }

  /** Every address reported for `id` over a run, as it came. */
  function Reported(ops: seq<Op>, id: DeviceId): seq<string>
    decreases |ops|
  {
    if ops == [] then []
    else Reported(ops[..|ops| - 1], id) + ReportedBy(ops[|ops| - 1], id)
  }

  function ReportedBy(op: Op, id: DeviceId): seq<string> {
    if Sights(op, id) then op.event.device.addresses else []
  }

  /** Tracked at the start, at the end, and after every call between. */
  ghost predicate TrackedThroughout(caps: Caps, s: Store, ops: seq<Op>, id: DeviceId)
    decreases |ops|
  {
    && id in Run(caps, s, ops)
    && (ops != [] ==> TrackedThroughout(caps, s, ops[..|ops| - 1], id))
  }

  /**
   A list that has only learned `news`: what it lacked of that has been appended,
   each address where it was first mentioned, and nothing is repeated that was not.
   */
  ghost predicate Grown(was: seq<string>, now: seq<string>, news: seq<string>) {
    && was <= now
    && Elements(now) == Elements(was) + Elements(news)
    && NewInOrder(was, news, now[|was|..])
    && (Distinct(was) ==> Distinct(now))
  }

  lemma AddressStep(caps: Caps, s: Store, op: Op, id: DeviceId)
    requires id in s && id in Next(caps, s, op)
    ensures Grown(AddressesOf(s, id), AddressesOf(Next(caps, s, op), id), ReportedBy(op, id))
  {
    NextAt(caps, s, op, id);
    if Sights(op, id) {
      UnionInOrder(AddressesOf(s, id), op.event.device.addresses);
    }
  }

  /**
   From any point at which a device is tracked, its list grows as a prefix, holds
   exactly what it held plus everything reported since, and stays free of
   repeats if it was.
   */
  lemma {:induction false} AddressesOnlyGrow(caps: Caps, s: Store, ops: seq<Op>, id: DeviceId)
    requires TrackedThroughout(caps, s, ops, id)
    ensures Grown(AddressesOf(s, id), AddressesOf(Run(caps, s, ops), id), Reported(ops, id))
    decreases |ops|
  {
    if ops != [] {
      var n := |ops| - 1;
      var mid := Run(caps, s, ops[..n]);
      AddressesOnlyGrow(caps, s, ops[..n], id);
      AddressStep(caps, mid, ops[n], id);
      GrowthChains(AddressesOf(s, id), AddressesOf(mid, id), AddressesOf(Next(caps, mid, ops[n]), id),
                   Reported(ops[..n], id), ReportedBy(ops[n], id));
    }
  }

  lemma GrowthChains(was: seq<string>, mid: seq<string>, now: seq<string>, first: seq<string>, second: seq<string>)
    requires Grown(was, mid, first) && Grown(mid, now, second)
    ensures Grown(was, now, first + second)
  {
    var a, b := mid[|was|..], now[|mid|..];
    assert now[|was|..] == a + b;
    ElementsJoin(first, second);
    OrderChains(was, mid, first, second, a, b);
  }

  lemma ElementsJoin(p: seq<string>, q: seq<string>)
    ensures Elements(p + q) == Elements(p) + Elements(q)
  {
  }

  lemma {:induction false} FirstIndexOfConcat(p: seq<string>, q: seq<string>, x: string)
    ensures FirstIndex(p + q, x) == if x in p then FirstIndex(p, x) else |p| + FirstIndex(q, x)
    decreases |p|
  {
    if p == [] {
      assert p + q == q;
    } else {
      assert (p + q)[1..] == p[1..] + q;
      FirstIndexOfConcat(p[1..], q, x);
    }
  }

  lemma OrderChains(was: seq<string>, mid: seq<string>, first: seq<string>, second: seq<string>,
                    a: seq<string>, b: seq<string>)
    requires was <= mid && Elements(mid) == Elements(was) + Elements(first)
    requires NewInOrder(was, first, a) && NewInOrder(mid, second, b)
    ensures NewInOrder(was, first + second, a + b)
  {
    forall x
      ensures FirstIndex(first + second, x) == if x in first then FirstIndex(first, x) else |first| + FirstIndex(second, x)
    {
      FirstIndexOfConcat(first, second, x);
    }
    forall i | 0 <= i < |b|
      ensures b[i] !in was && b[i] !in first
    {
      assert b[i] !in Elements(mid);
      assert b[i] !in Elements(first) && b[i] !in Elements(was);
    }
  }

  /**
   Read from the moment of admission: the list is the first report, followed by
   what later reports added.
   */
  lemma AddressesSinceAdded(caps: Caps, s: Store, p: ProviderId, event: DiscoveryEvent, ops: seq<Op>)
    requires event.Sighting() && event.Subject() !in s && |s| < MAX_DEVICES
    requires TrackedThroughout(caps, Next(caps, s, Observe(p, event)), ops, event.Subject())
    ensures var id := event.Subject();
            var now := AddressesOf(Run(caps, Next(caps, s, Observe(p, event)), ops), id);
            && event.device.addresses <= now
            && Elements(now) == Elements(Reported([Observe(p, event)] + ops, id))
            && NewInOrder(event.device.addresses, Reported(ops, id), now[|event.device.addresses|..])
            && (Distinct(event.device.addresses) ==> Distinct(now))
  {
    var id, op := event.Subject(), Observe(p, event);
    var s' := Next(caps, s, op);
    NextAt(caps, s, op, id);
    AddressesOnlyGrow(caps, s', ops, id);
    ReportedCons(op, ops, id);
    ElementsJoin(ReportedBy(op, id), Reported(ops, id));
  }

  lemma {:induction false} ReportedCons(op: Op, ops: seq<Op>, id: DeviceId)
    ensures Reported([op] + ops, id) == ReportedBy(op, id) + Reported(ops, id)
    decreases |ops|
  {
    var all := [op] + ops;
    if ops == [] {
      assert all[..0] == [];
    } else {
      var n := |ops| - 1;
      ReportedCons(op, ops[..n], id);
      assert all[..n + 1] == [op] + ops[..n];
      var one, rest, last := ReportedBy(op, id), Reported(ops[..n], id), ReportedBy(ops[n], id);
      assert (one + rest) + last == one + (rest + last);
    }
  }
}
