/** Pruning composes, reports each device once, and spares what it must. */
module PruneAlgebra {
  import opened Wrappers
  import opened Devices
  import opened StoreModel
  import opened StoreRuns

  /** Prune removes the stale devices and nothing else. */
  lemma PruneRemovesExactly(caps: Caps, s: Store, now: int, ttl: int, keep: DeviceId -> bool)
    ensures var s' := Next(caps, s, Prune(now, ttl, keep));
            && s'.Keys == s.Keys - StaleIds(s, now, ttl, keep)
            && forall id :: id in s' ==> s'[id] == s[id]
  {
  }

  lemma SweepsSplit(caps: Caps, s: Store, t1: int, t2: int, ttl: int, keep: DeviceId -> bool)
    requires t1 <= t2
    ensures var a, b := StaleIds(s, t1, ttl, keep), StaleIds(Next(caps, s, Prune(t1, ttl, keep)), t2, ttl, keep);
            a + b == StaleIds(s, t2, ttl, keep) && a !! b
  {
    PruneRemovesExactly(caps, s, t1, ttl, keep);
  }

  lemma ReportsAddUp(a: set<DeviceId>, b: set<DeviceId>,
                     c1: seq<DeviceChange>, c2: seq<DeviceChange>, c: seq<DeviceChange>)
    requires a !! b
    requires OncePer(a, c1, id => DeviceRemoved(id)) && OncePer(b, c2, id => DeviceRemoved(id))
    requires OncePer(a + b, c, id => DeviceRemoved(id))
    ensures multiset(c1 + c2) == multiset(c)
  {
    forall x
      ensures multiset(c1 + c2)[x] == multiset(c)[x]
    {
      OnceCount(a, c1, x);
      OnceCount(b, c2, x);
      OnceCount(a + b, c, x);
    }
  }

  /**
   Sweeping early and then late is sweeping late: same table, and between them
   the two sweeps report each device the single one would, once.
   */
  lemma EarlyThenLateIsLate(caps: Caps, s: Store, t1: int, t2: int, ttl: int, keep: DeviceId -> bool,
                            c1: seq<DeviceChange>, c2: seq<DeviceChange>, c: seq<DeviceChange>)
    requires t1 <= t2
    requires Reports(caps, s, Prune(t1, ttl, keep), c1)
    requires Reports(caps, Next(caps, s, Prune(t1, ttl, keep)), Prune(t2, ttl, keep), c2)
    requires Reports(caps, s, Prune(t2, ttl, keep), c)
    ensures Next(caps, Next(caps, s, Prune(t1, ttl, keep)), Prune(t2, ttl, keep))
         == Next(caps, s, Prune(t2, ttl, keep))
    ensures multiset(c1 + c2) == multiset(c)
  {
    SweepsSplit(caps, s, t1, t2, ttl, keep);
    ReportsAddUp(StaleIds(s, t1, ttl, keep),
                 StaleIds(Next(caps, s, Prune(t1, ttl, keep)), t2, ttl, keep), c1, c2, c);
  }

  /** A once-per-device report holds each removal once and nothing else. */
  lemma OnceCount(ids: set<DeviceId>, changes: seq<DeviceChange>, x: DeviceChange)
    requires OncePer(ids, changes, id => DeviceRemoved(id))
    ensures multiset(changes)[x] == if x.DeviceRemoved? && x.id in ids then 1 else 0
  {
    assert x in changes <==> x.DeviceRemoved? && x.id in ids;
    assert forall i, j :: 0 <= i < j < |changes| ==> changes[i] != changes[j];
    DistinctCount(changes, x);
  }

  lemma {:induction false} DistinctCount<T>(q: seq<T>, x: T)
    requires Distinct(q)
    ensures multiset(q)[x] == if x in q then 1 else 0
    decreases |q|
  {
    if q != [] {
      var init, last := q[..|q| - 1], q[|q| - 1];
      DistinctCount(init, x);
      assert q == init + [last];
    }
  }

  /** A device that is online or exempted survives every sequence of sweeps, unchanged. */
  lemma {:induction false} SparedForever(caps: Caps, s: Store, ops: seq<Op>, id: DeviceId)
    requires id in s
    requires forall i :: 0 <= i < |ops| ==> ops[i].Prune? && (s[id].online || ops[i].keep(id))
    ensures Lookup(Run(caps, s, ops), id) == Some(s[id])
    decreases |ops|
  {
    if ops != [] {
      var n := |ops| - 1;
      SparedForever(caps, s, ops[..n], id);
      NextAt(caps, Run(caps, s, ops[..n]), ops[n], id);
    }
  }
}
