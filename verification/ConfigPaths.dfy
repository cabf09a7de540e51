/** Reading and replacing one value of a configuration tree by its dotted path. */
module ConfigPaths {
  import opened Wrappers

  datatype Json =
    | Null
    | Bool(b: bool)
    | Number(text: string)
    | String(s: string)
    | Array(items: seq<Json>)
    | Object(fields: map<string, Json>)

  /** A path is never empty: even the empty key has one, empty, part. */
  type Path = seq<string>

  /** `key.split('.')`. */
  function Split(key: string): (p: Path)
    ensures p != []
    ensures forall i :: 0 <= i < |p| ==> '.' !in p[i]
    decreases |key|
  {
    if key == "" then [""]
    else
      var rest := Split(key[1..]);
      if key[0] == '.' then [""] + rest else [[key[0]] + rest[0]] + rest[1..]
  }

  function Join(p: Path): string
    requires p != []
  {
    if |p| == 1 then p[0] else p[0] + "." + Join(p[1..])
  }

  /** Splitting loses nothing, so distinct keys are distinct paths. */
  lemma {:induction false} JoinAfterSplit(key: string)
    ensures Join(Split(key)) == key
    decreases |key|
  {
    if key != "" {
      var rest := Split(key[1..]);
      JoinAfterSplit(key[1..]);
      assert key == [key[0]] + key[1..];
      if key[0] == '.' {
        assert ([""] + rest)[1..] == rest;
      } else {
        assert Split(key)[1..] == rest[1..];
      }
    }
  }

  /** Only an object has members. */
  function Member(v: Json, part: string): Option<Json> {
    if v.Object? && part in v.fields then Some(v.fields[part]) else None
  }

  function Lookup(v: Json, p: Path): Option<Json>
    decreases |p|
  {
    if p == [] then Some(v)
    else
      match Member(v, p[0])
      case Some(child) => Lookup(child, p[1..])
      case None => None
  }

  /** `walk` goes down from `v`, each value an object holding the next under the next part of the path. */
  ghost predicate IsWalk(v: Json, p: Path, walk: seq<Json>) {
    && |walk| == |p| + 1
    && walk[0] == v
    && forall i :: 0 <= i < |p| ==> walk[i].Object? && p[i] in walk[i].fields && walk[i].fields[p[i]] == walk[i + 1]
  }

  lemma {:induction false} WalkTo(v: Json, p: Path) returns (walk: seq<Json>)
    requires Lookup(v, p).Some?
    ensures IsWalk(v, p, walk) && walk[|p|] == Lookup(v, p).value
    decreases |p|
  {
    if p == [] {
      walk := [v];
    } else {
      var rest := WalkTo(v.fields[p[0]], p[1..]);
      walk := [v] + rest;
      assert forall i :: 1 <= i < |p| ==> walk[i] == rest[i - 1] && p[i] == p[1..][i - 1];
    }
  }

  lemma {:induction false} WalkFinds(v: Json, p: Path, walk: seq<Json>)
    requires IsWalk(v, p, walk)
    ensures Lookup(v, p) == Some(walk[|p|])
    decreases |p|
  {
    if p != [] {
      WalkFinds(walk[1], p[1..], walk[1..]);
    }
  }

  /** There is a value at a path exactly when the path can be walked, through objects only, and it is where the walk ends. */
  lemma LookupIff(v: Json, p: Path, w: Json)
    ensures Lookup(v, p) == Some(w) <==> exists walk :: IsWalk(v, p, walk) && walk[|p|] == w
  {
    if Lookup(v, p) == Some(w) {
      var walk := WalkTo(v, p);
    }
    if walk :| IsWalk(v, p, walk) && walk[|p|] == w {
      WalkFinds(v, p, walk);
    }
  }

  /** The tree with the value at `p` replaced, where there is one. */
  function Replace(v: Json, p: Path, replacement: Json): Json
    decreases |p|
  {
    if p == [] then replacement
    else
      match Member(v, p[0])
      case Some(child) => Object(v.fields[p[0] := Replace(child, p[1..], replacement)])
      case None => v
  }

  /** `navigate`: a cursor that steps down, or stops. */
  method Navigate(value: Json, key: string) returns (found: Option<Json>)
    ensures found == Lookup(value, Split(key))
  {
    var parts := Split(key);
    var cur := value;
    var i := 0;
    while i < |parts|
      invariant 0 <= i <= |parts|
      invariant Lookup(value, parts) == Lookup(cur, parts[i..])
    {
      assert parts[i..][0] == parts[i] && parts[i..][1..] == parts[i + 1..];
      var child := Member(cur, parts[i]);
      if child.None? {
        return None;
      }
      cur := child.value;
      i := i + 1;
    }
    found := Some(cur);
  }

  /** A configuration being edited in place. */
  class Config {
    var root: Json

    constructor (root: Json)
      ensures this.root == root
    {
      this.root := root;
    }

    /**
     `set_path`: walks to the parent, replaces the leaf if it is already there,
     and otherwise refuses and touches nothing.
     */
    method SetPath(key: string, replacement: Json) returns (ok: bool)
      modifies this
      ensures ok <==> Lookup(old(root), Split(key)).Some?
      ensures root == if ok then Replace(old(root), Split(key), replacement) else old(root)
    {
      var parts := Split(key);
      var last := |parts| - 1;
      var cur := root;
      var above: seq<Json> := [];  // the objects walked through, outermost first
      var i := 0;
      while i < last
        invariant 0 <= i <= last && |above| == i
        invariant Lookup(root, parts) == Lookup(cur, parts[i..])
        invariant forall k :: 0 <= k < i ==> above[k].Object?
        invariant Rebuilt(above, parts[..i], Replace(cur, parts[i..], replacement)) == Replace(root, parts, replacement)
        invariant root == old(root)
      {
        assert parts[i..][0] == parts[i] && parts[i..][1..] == parts[i + 1..];
        var child := Member(cur, parts[i]);
        if child.None? {
          return false;
        }
        RebuiltSnoc(above, parts[..i], cur, parts[i], Replace(child.value, parts[i + 1..], replacement));
        assert parts[..i + 1] == parts[..i] + [parts[i]];
        above := above + [cur];
        cur := child.value;
        i := i + 1;
      }
      assert parts[last..] == [parts[last]] && parts[last..][1..] == [];
      if Member(cur, parts[last]).None? {
        return false;
      }
      assert parts[..last] + parts[last..] == parts;
      root := PutBack(above, parts[..last], Object(cur.fields[parts[last] := replacement]));
      ok := true;
    }
  }

  /** In place, each object on the way already holds its child; on values each is rebuilt, innermost first. */
  method PutBack(above: seq<Json>, p: Path, sub: Json) returns (v: Json)
    requires |above| == |p| && forall k :: 0 <= k < |above| ==> above[k].Object?
    ensures v == Rebuilt(above, p, sub)
  {
    v := sub;
    var i := |p|;
    assert above[..i] == above && p[..i] == p;
    while i > 0
      invariant 0 <= i <= |p|
      invariant Rebuilt(above[..i], p[..i], v) == Rebuilt(above, p, sub)
    {
      assert above[..i] == above[..i - 1] + [above[i - 1]];
      assert p[..i] == p[..i - 1] + [p[i - 1]];
      RebuiltSnoc(above[..i - 1], p[..i - 1], above[i - 1], p[i - 1], v);
      i := i - 1;
      v := Object(above[i].fields[p[i] := v]);
    }
  }

  /** `sub` put back at the end of the walk through `above`. */
  function Rebuilt(above: seq<Json>, p: Path, sub: Json): Json
    requires |above| == |p| && forall k :: 0 <= k < |above| ==> above[k].Object?
    decreases |p|
  {
    if p == [] then sub else Object(above[0].fields[p[0] := Rebuilt(above[1..], p[1..], sub)])
  }

  lemma {:induction false} RebuiltSnoc(above: seq<Json>, p: Path, v: Json, part: string, sub: Json)
    requires |above| == |p| && v.Object? && forall k :: 0 <= k < |above| ==> above[k].Object?
    ensures Rebuilt(above + [v], p + [part], sub) == Rebuilt(above, p, Object(v.fields[part := sub]))
    decreases |p|
  {
    if p == [] {
      assert (p + [part])[1..] == [] && (above + [v])[1..] == [];
    } else {
      assert (p + [part])[1..] == p[1..] + [part];
      assert (above + [v])[1..] == above[1..] + [v];
      RebuiltSnoc(above[1..], p[1..], v, part, sub);
    }
  }

  // ----------------------------------------------------------------- laws

  /**
   Every read after a successful set, at any path whatever: along the way down it
   is the old subtree with the set made inside it, below the leaf it is a read of
   the new value, and anywhere else it is what it was.
   */
  lemma {:induction false} ReadAfterSet(v: Json, p: Path, replacement: Json, q: Path)
    requires Lookup(v, p).Some?
    ensures q <= p ==> Lookup(v, q).Some?
    ensures Lookup(Replace(v, p, replacement), q)
         == if q <= p then Some(Replace(Lookup(v, q).value, p[|q|..], replacement))
            else if p <= q then Lookup(replacement, q[|p|..])
            else Lookup(v, q)
    decreases |p|
  {
    if p != [] && q != [] {
      var child := Member(v, p[0]).value;
      if q[0] == p[0] {
        ReadAfterSet(child, p[1..], replacement, q[1..]);
        assert q <= p <==> q[1..] <= p[1..];
        assert p <= q <==> p[1..] <= q[1..];
        assert q <= p ==> p[|q|..] == p[1..][|q| - 1..];
        assert p <= q ==> q[|p|..] == q[1..][|p| - 1..];
      }
    }
  }

  /** Get after set. */
  lemma GetAfterSet(v: Json, key: string, replacement: Json)
    requires Lookup(v, Split(key)).Some?
    ensures Lookup(Replace(v, Split(key), replacement), Split(key)) == Some(replacement)
  {
    var p := Split(key);
    ReadAfterSet(v, p, replacement, p);
    assert p[|p|..] == [];
  }

  /** Setting what is already there changes nothing. */
  lemma {:induction false} SetOfCurrentIsIdentity(v: Json, p: Path)
    requires Lookup(v, p).Some?
    ensures Replace(v, p, Lookup(v, p).value) == v
    decreases |p|
  {
    if p != [] {
      SetOfCurrentIsIdentity(Member(v, p[0]).value, p[1..]);
      assert v.fields[p[0] := v.fields[p[0]]] == v.fields;
    }
  }

  /** The last set wins. */
  lemma {:induction false} LastSetWins(v: Json, p: Path, a: Json, b: Json)
    requires Lookup(v, p).Some?
    ensures Replace(Replace(v, p, a), p, b) == Replace(v, p, b)
    decreases |p|
  {
    if p != [] {
      var child := Member(v, p[0]).value;
      LastSetWins(child, p[1..], a, b);
      var once := v.fields[p[0] := Replace(child, p[1..], a)];
      assert once[p[0] := Replace(child, p[1..], b)] == v.fields[p[0] := Replace(child, p[1..], b)];
    }
  }

  lemma SetsApartCommute(v: Json, p: Path, a: Json, q: Path, b: Json)
    requires p != [] && q != [] && p[0] != q[0]
    requires Lookup(v, p).Some? && Lookup(v, q).Some?
    ensures Replace(Replace(v, p, a), q, b) == Replace(Replace(v, q, b), p, a)
  {
    var x, y := Replace(v.fields[p[0]], p[1..], a), Replace(v.fields[q[0]], q[1..], b);
    assert Replace(Replace(v, p, a), q, b) == Object(v.fields[p[0] := x][q[0] := y]);
    assert Replace(Replace(v, q, b), p, a) == Object(v.fields[q[0] := y][p[0] := x]);
    assert v.fields[p[0] := x][q[0] := y] == v.fields[q[0] := y][p[0] := x];
  }

  lemma ReplaceTwice(v: Json, p: Path, a: Json, q: Path, b: Json)
    requires p != [] && q != [] && p[0] == q[0] && Member(v, p[0]).Some?
    ensures Replace(Replace(v, p, a), q, b)
         == Object(v.fields[p[0] := Replace(Replace(v.fields[p[0]], p[1..], a), q[1..], b)])
  {
    var x := Replace(v.fields[p[0]], p[1..], a);
    assert v.fields[p[0] := x][p[0] := Replace(x, q[1..], b)] == v.fields[p[0] := Replace(x, q[1..], b)];
  }

  /** Sets at keys neither of which extends the other commute. */
  lemma {:induction false} UnrelatedSetsCommute(v: Json, p: Path, a: Json, q: Path, b: Json)
    requires !(p <= q) && !(q <= p)
    requires Lookup(v, p).Some? && Lookup(v, q).Some?
    ensures Replace(Replace(v, p, a), q, b) == Replace(Replace(v, q, b), p, a)
    decreases |p|
  {
    if p[0] != q[0] {
      SetsApartCommute(v, p, a, q, b);
    } else {
      var child := Member(v, p[0]).value;
      assert p == [p[0]] + p[1..] && q == [p[0]] + q[1..];
      UnrelatedSetsCommute(child, p[1..], a, q[1..], b);
      ReplaceTwice(v, p, a, q, b);
      ReplaceTwice(v, q, b, p, a);
    }
  }
}
