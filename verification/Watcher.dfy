/** Sending what lands in a folder, once it has stopped growing and only once. */
module Watcher {
  import opened Wrappers

  type Path = string

  newtype u32 = n: int | 0 <= n < 0x1_0000_0000

  datatype Seen = Seen(size: nat, stable: u32)

  const STABLE_SCANS: u32 := 2
  const DONE: u32 := 0xFFFF_FFFF

  /** One file reported by one scan. */
  datatype Sighting = Sighting(path: Path, size: nat)

  /** One scan's observation folded into an entry, and whether to send now. */
  function Advance(entry: Seen, size: nat): (Seen, bool) {
    if entry.stable == DONE then (entry, false)
    else if entry.size != size then (Seen(size, 1), false)
    else
      var stable := entry.stable + 1;
      if stable < STABLE_SCANS then (entry.(stable := stable), false)
      else (entry.(stable := DONE), true)
  }

  class FolderWatch {
    var seen: map<Path, Seen>

    /** What was there at the start, every observation since, and what was sent at each. */
    ghost var initial: set<Path>
    ghost var trace: seq<Sighting>
    ghost var sends: seq<bool>

    ghost predicate Valid()
      reads this
    {
      && |sends| == |trace|
      && (forall i :: 0 <= i < |trace| ==> (sends[i] <==> Settles(initial, trace, i)))
      && Remembers(initial, trace, seen)
    }

    /** Unless asked otherwise, everything already there counts as sent. */
    constructor (existing: bool, found: seq<Sighting>)
      ensures Valid() && trace == []
      ensures initial == if existing then {} else set x | x in found :: x.path
    {
      seen := map[];
      initial, trace, sends := {}, [], [];
      new;
      if !existing {
        var i := 0;
        while i < |found|
          invariant 0 <= i <= |found|
          invariant initial == set x | x in found[..i] :: x.path
          invariant seen.Keys == initial && forall p :: p in seen ==> seen[p].stable == DONE
          invariant trace == [] && sends == []
        {
          assert found[..i + 1] == found[..i] + [found[i]];
          seen := seen[found[i].path := Seen(found[i].size, DONE)];
          initial := initial + {found[i].path};
          i := i + 1;
        }
        assert found[..i] == found;
      }
      NothingYet(initial, seen);
    }

    /** One turn of the loop body: look the file up, fold the observation in. */
    method Observe(path: Path, size: nat) returns (send: bool)
      requires Valid()
      modifies this
      ensures Valid() && initial == old(initial)
      ensures trace == old(trace) + [Sighting(path, size)] && sends == old(sends) + [send]
      ensures send <==> Settles(initial, trace, |trace| - 1)
    {
      var entry := if path in seen then seen[path] else Seen(size, 0);
      StepRemembers(initial, trace, seen, Sighting(path, size));
      forall i | 0 <= i < |trace|
        ensures Settles(initial, trace + [Sighting(path, size)], i) <==> Settles(initial, trace, i)
      {
        SettlesEarlier(initial, trace, Sighting(path, size), i);
      }
      send := false;
      if entry.stable != DONE {
        if entry.size != size {
          entry := Seen(size, 1);
        } else {
          entry := entry.(stable := entry.stable + 1);
          if entry.stable >= STABLE_SCANS {
            entry := entry.(stable := DONE);
            send := true;
          }
        }
      }
      seen := seen[path := entry];
      trace := trace + [Sighting(path, size)];
      sends := sends + [send];
    }
  }

  // -------------------------------------------------------- what a trace means

  /** The last earlier observation of the same path, if there is one. */
  function Previous(trace: seq<Sighting>, i: nat): Option<nat>
    requires i < |trace|
  {
    LastOf(trace[..i], trace[i].path)
  }

  /** The size last seen for a path. */
  function LastOf(trace: seq<Sighting>, path: Path): Option<nat>
    decreases |trace|
  {
    if trace == [] then None
    else if trace[|trace| - 1].path == path then Some(trace[|trace| - 1].size)
    else LastOf(trace[..|trace| - 1], path)
  }

  /** Observation `i` repeats the size its path was last seen with. */
  predicate Repeats(trace: seq<Sighting>, i: nat)
    requires i < |trace|
  {
    Previous(trace, i) == Some(trace[i].size)
  }

  /** The first repeat of a path that was not there at the start. */
  ghost predicate Settles(initial: set<Path>, trace: seq<Sighting>, i: nat)
    requires i < |trace|
  {
    && trace[i].path !in initial
    && Repeats(trace, i)
    && forall k :: 0 <= k < i && trace[k].path == trace[i].path ==> !Repeats(trace, k)
  }

  /** Whether any observation of the path has repeated. */
  ghost predicate HasRepeated(trace: seq<Sighting>, path: Path) {
    exists k :: 0 <= k < |trace| && trace[k].path == path && Repeats(trace, k)
  }

  /** The table holds, for each path, exactly what deciding about it needs. */
  ghost predicate Remembers(initial: set<Path>, trace: seq<Sighting>, seen: map<Path, Seen>) {
    forall path :: RemembersPath(initial, trace, seen, path)
  }

  ghost predicate RemembersPath(initial: set<Path>, trace: seq<Sighting>, seen: map<Path, Seen>, path: Path) {
    if path in initial || HasRepeated(trace, path) then path in seen && seen[path].stable == DONE
    else if LastOf(trace, path).None? then path !in seen
    else path in seen && seen[path] == Seen(LastOf(trace, path).value, 1)
  }

  lemma NothingYet(initial: set<Path>, seen: map<Path, Seen>)
    requires seen.Keys == initial && forall p :: p in seen ==> seen[p].stable == DONE
    ensures Remembers(initial, [], seen)
  {
  }

  lemma RepeatsEarlier(trace: seq<Sighting>, x: Sighting, i: nat)
    requires i < |trace|
    ensures Repeats(trace + [x], i) <==> Repeats(trace, i)
  {
    assert (trace + [x])[..i] == trace[..i];
  }

  lemma SettlesEarlier(initial: set<Path>, trace: seq<Sighting>, x: Sighting, i: nat)
    requires i < |trace|
    ensures Settles(initial, trace + [x], i) <==> Settles(initial, trace, i)
  {
    RepeatsEarlier(trace, x, i);
    forall k | 0 <= k < i
      ensures Repeats(trace + [x], k) <==> Repeats(trace, k)
    {
      RepeatsEarlier(trace, x, k);
    }
  }

  lemma RepeatedSnoc(trace: seq<Sighting>, x: Sighting, path: Path)
    ensures HasRepeated(trace + [x], path)
       <==> HasRepeated(trace, path) || (x.path == path && LastOf(trace, path) == Some(x.size))
    ensures LastOf(trace + [x], path) == if x.path == path then Some(x.size) else LastOf(trace, path)
  {
    var all := trace + [x];
    assert all[..|trace|] == trace;
    forall k | 0 <= k < |trace|
      ensures Repeats(all, k) <==> Repeats(trace, k)
    {
      RepeatsEarlier(trace, x, k);
    }
    assert Repeats(all, |trace|) <==> LastOf(trace, x.path) == Some(x.size);
    if HasRepeated(trace, path) {
      var k :| 0 <= k < |trace| && trace[k].path == path && Repeats(trace, k);
      assert all[k].path == path && Repeats(all, k);
    }
    if HasRepeated(all, path) {
      var k :| 0 <= k < |all| && all[k].path == path && Repeats(all, k);
      assert k < |trace| ==> trace[k].path == path;
    }
  }

  /** Folding one observation in keeps the table right, and sends exactly when it settles. */
  lemma StepRemembers(initial: set<Path>, trace: seq<Sighting>, seen: map<Path, Seen>, x: Sighting)
    requires Remembers(initial, trace, seen)
    ensures var entry := if x.path in seen then seen[x.path] else Seen(x.size, 0);
            && Remembers(initial, trace + [x], seen[x.path := Advance(entry, x.size).0])
            && (Advance(entry, x.size).1 <==> Settles(initial, trace + [x], |trace|))
  {
    var all := trace + [x];
    var entry := if x.path in seen then seen[x.path] else Seen(x.size, 0);
    var seen' := seen[x.path := Advance(entry, x.size).0];
    assert RemembersPath(initial, trace, seen, x.path);
    forall path
      ensures RemembersPath(initial, all, seen', path)
    {
      assert RemembersPath(initial, trace, seen, path);
      RepeatedSnoc(trace, x, path);
    }
    SettlesLast(initial, trace, x);
  }

  lemma SettlesLast(initial: set<Path>, trace: seq<Sighting>, x: Sighting)
    ensures Settles(initial, trace + [x], |trace|)
       <==> x.path !in initial && LastOf(trace, x.path) == Some(x.size) && !HasRepeated(trace, x.path)
  {
    var all := trace + [x];
    assert all[..|trace|] == trace;
    forall k | 0 <= k < |trace|
      ensures Repeats(all, k) <==> Repeats(trace, k)
    {
      RepeatsEarlier(trace, x, k);
    }
  }

  /** The observations of one path. */
  function Only(trace: seq<Sighting>, path: Path): seq<Sighting>
    decreases |trace|
  {
    if trace == [] then []
    else
      var rest := Only(trace[..|trace| - 1], path);
      if trace[|trace| - 1].path == path then rest + [trace[|trace| - 1]] else rest
  }

  /** Whether the next observation of a path is sent depends on that path's own observations and nothing else. */
  lemma {:induction false} OtherPathsHaveNoEffect(initial: set<Path>, trace: seq<Sighting>, x: Sighting)
    ensures var own := Only(trace, x.path);
            Settles(initial, trace + [x], |trace|) <==> Settles(initial, own + [x], |own|)
  {
    OnlyKeepsHistory(trace, x.path);
    SettlesLast(initial, trace, x);
    SettlesLast(initial, Only(trace, x.path), x);
  }

  lemma {:induction false} OnlyKeepsHistory(trace: seq<Sighting>, path: Path)
    ensures LastOf(Only(trace, path), path) == LastOf(trace, path)
    ensures HasRepeated(Only(trace, path), path) <==> HasRepeated(trace, path)
    decreases |trace|
  {
    if trace != [] {
      var init, last := trace[..|trace| - 1], trace[|trace| - 1];
      assert trace == init + [last];
      OnlyKeepsHistory(init, path);
      RepeatedSnoc(init, last, path);
      if last.path == path {
        RepeatedSnoc(Only(init, path), last, path);
      }
    }
  }

  // ------------------------------------------------------------ whole scans

  /** A scan lists each file once. */
  ghost predicate IsScan(scan: seq<Sighting>) {
    forall i, j :: 0 <= i < j < |scan| ==> scan[i].path != scan[j].path
  }

  /** The observations of a run of scans, in order. */
  function Flatten(scans: seq<seq<Sighting>>): seq<Sighting>
    decreases |scans|
  {
    if scans == [] then [] else Flatten(scans[..|scans| - 1]) + scans[|scans| - 1]
  }

  lemma FlattenSnoc(scans: seq<seq<Sighting>>, scan: seq<Sighting>)
    ensures Flatten(scans + [scan]) == Flatten(scans) + scan
  {
    assert (scans + [scan])[..|scans|] == scans;
  }

  lemma {:induction false} LastOfConcat(a: seq<Sighting>, b: seq<Sighting>, path: Path)
    ensures LastOf(a + b, path) == if LastOf(b, path).Some? then LastOf(b, path) else LastOf(a, path)
    decreases |b|
  {
    if b == [] {
      assert a + b == a;
    } else {
      assert (a + b)[..|a + b| - 1] == a + b[..|b| - 1];
      LastOfConcat(a, b[..|b| - 1], path);
    }
  }

  lemma {:induction false} LastOfScan(scan: seq<Sighting>, path: Path)
    requires IsScan(scan)
    ensures LastOf(scan, path).None? <==> forall y :: y in scan ==> y.path != path
    ensures forall y :: y in scan && y.path == path ==> LastOf(scan, path) == Some(y.size)
    decreases |scan|
  {
    if scan != [] {
      var init, last := scan[..|scan| - 1], scan[|scan| - 1];
      LastOfScan(init, path);
      assert forall y :: y in scan <==> y in init || y == last;
    }
  }

  lemma {:induction false} FlattenPrefix(scans: seq<seq<Sighting>>, j: nat, k: nat)
    requires j < |scans| && k < |scans[j]|
    ensures var i := |Flatten(scans[..j])| + k;
            && i < |Flatten(scans)| && Flatten(scans)[i] == scans[j][k]
            && Flatten(scans)[..i] == Flatten(scans[..j]) + scans[j][..k]
    decreases |scans|
  {
    var init := scans[..|scans| - 1];
    if j < |init| {
      assert init[..j] == scans[..j];
      FlattenPrefix(init, j, k);
      var i := |Flatten(scans[..j])| + k;
      assert Flatten(scans)[..i] == Flatten(init)[..i];
    } else {
      assert init == scans[..j];
    }
  }

  /**
   The promise "unchanged across two consecutive scans" holds of a sent file
   exactly when the file was there at all in the scan before: what is compared
   is the last time it was seen, however many scans ago.
   */
  lemma ConsecutiveScansIff(initial: set<Path>, scans: seq<seq<Sighting>>, j: nat, k: nat)
    requires forall n :: 0 <= n < |scans| ==> IsScan(scans[n])
    requires 0 < j < |scans| && k < |scans[j]|
    requires |Flatten(scans[..j])| + k < |Flatten(scans)|
    requires Settles(initial, Flatten(scans), |Flatten(scans[..j])| + k)
    ensures scans[j][k] in scans[j - 1] <==> exists y :: y in scans[j - 1] && y.path == scans[j][k].path
  {
    var x, path := scans[j][k], scans[j][k].path;
    FlattenPrefix(scans, j, k);
    assert scans[..j][..j - 1] == scans[..j - 1];
    LastOfConcat(Flatten(scans[..j]), scans[j][..k], path);
    LastOfScan(scans[j][..k], path);
    LastOfConcat(Flatten(scans[..j - 1]), scans[j - 1], path);
    LastOfScan(scans[j - 1], path);
    if y :| y in scans[j - 1] && y.path == path {
      assert LastOf(scans[j - 1], path) == Some(y.size);
      assert y == x;
    }
  }

  /** So a file seen, gone for a scan, and back at the same size is sent although it was absent in between. */
  lemma AbsenceIsNotNoticed(path: Path, size: nat)
    ensures var x := Sighting(path, size);
            Flatten([[x], [], [x]]) == [x, x] && Settles({}, [x, x], 1)
  {
    var x := Sighting(path, size);
    FlattenSnoc([], [x]);
    FlattenSnoc([[x]], []);
    FlattenSnoc([[x], []], [x]);
    assert [] + [[x]] == [[x]];
    assert [[x]] + [[]] == [[x], []];
    assert [[x], []] + [[x]] == [[x], [], [x]];
    SettlesLast({}, [x], x);
    assert [x] + [x] == [x, x];
    RepeatedSnoc([], x, path);
    assert [] + [x] == [x];
    assert !HasRepeated([], path);
  }
}
