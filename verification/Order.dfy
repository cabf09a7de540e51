/**
 Sorting, as PeerBeam's `sort_by` and `sort` calls rely on it: the ascending
 sequence over a set is unique, so a sorted listing is a function of the set it
 lists and not of the order the set was walked in.
 */
module Order {
  import opened Devices

  /** Lexicographic order on code sequences; a proper prefix comes first. */
  predicate LexLess(a: seq<int>, b: seq<int>) {
    b != [] && (a == [] || a[0] < b[0] || (a[0] == b[0] && LexLess(a[1..], b[1..])))
  }

  lemma {:induction false} LexTotal(a: seq<int>, b: seq<int>)
    ensures a == b || LexLess(a, b) || LexLess(b, a)
    ensures !LexLess(a, a)
  {
    if a != [] {
      LexTotal(a[1..], if b == [] then [] else b[1..]);
      if b != [] && a[0] == b[0] && a[1..] == b[1..] {
        assert a == [a[0]] + a[1..] == [b[0]] + b[1..] == b;
      }
    }
  }

  lemma {:induction false} LexTransitive(a: seq<int>, b: seq<int>, c: seq<int>)
    requires LexLess(a, b) && LexLess(b, c)
    ensures LexLess(a, c)
  {
    if a != [] && a[0] == b[0] == c[0] {
      LexTransitive(a[1..], b[1..], c[1..]);
    }
  }

  lemma LexAsymmetric(a: seq<int>, b: seq<int>)
    ensures !(LexLess(a, b) && LexLess(b, a))
  {
    if LexLess(a, b) && LexLess(b, a) {
      LexTransitive(a, b, a);
      LexTotal(a, a);
    }
  }

  /**
   What ascending means: up to some place the two agree, and there either the
   first has ended and the second has not, or the first has the smaller element.
   */
  ghost predicate Precedes(a: seq<int>, b: seq<int>) {
    exists k :: DecidedAt(a, b, k)
  }

  ghost predicate DecidedAt(a: seq<int>, b: seq<int>, k: nat) {
    && k <= |a| && k < |b|
    && a[..k] == b[..k]
    && (k == |a| || a[k] < b[k])
  }

  lemma {:induction false} LexLessIsPrecedes(a: seq<int>, b: seq<int>)
    ensures LexLess(a, b) <==> Precedes(a, b)
  {
    if a == [] || b == [] || a[0] != b[0] {
      if LexLess(a, b) {
        assert DecidedAt(a, b, 0);
      }
      if k: nat :| DecidedAt(a, b, k) {
        if k > 0 {
          HeadsAgree(a, b, k);
        }
      }
    } else {
      LexLessIsPrecedes(a[1..], b[1..]);
      if k: nat :| DecidedAt(a[1..], b[1..], k) {
        LaterPlace(a, b, k);
      }
      if k: nat :| DecidedAt(a, b, k) {
        LaterPlace(a, b, k - 1);
      }
    }
  }

  lemma HeadsAgree(a: seq<int>, b: seq<int>, k: nat)
    requires DecidedAt(a, b, k) && k > 0
    ensures a != [] && b != [] && a[0] == b[0]
  {
    assert a[..k][0] == b[..k][0];
  }

  lemma LaterPlace(a: seq<int>, b: seq<int>, k: nat)
    requires a != [] && b != [] && a[0] == b[0]
    ensures DecidedAt(a[1..], b[1..], k) <==> DecidedAt(a, b, k + 1)
  {
    if k <= |a| - 1 && k <= |b| - 1 {
      assert a[..k + 1] == [a[0]] + a[1..][..k];
      assert b[..k + 1] == [b[0]] + b[1..][..k];
      assert a[1..][..k] == a[..k + 1][1..];
      assert b[1..][..k] == b[..k + 1][1..];
    }
  }

  /** The same for names, character by character. */
  ghost predicate NamePrecedes(a: string, b: string) {
    exists k :: NameDecidedAt(a, b, k)
  }

  ghost predicate NameDecidedAt(a: string, b: string, k: nat) {
    && k <= |a| && k < |b|
    && a[..k] == b[..k]
    && (k == |a| || a[k] < b[k])
  }

  ghost predicate NamesAscend(names: seq<string>) {
    forall i, j :: 0 <= i < j < |names| ==> NamePrecedes(names[i], names[j])
  }

  lemma StringLessIsNamePrecedes(a: string, b: string)
    ensures StringLess(a, b) <==> NamePrecedes(a, b)
  {
    LexLessIsPrecedes(Codes(a), Codes(b));
    forall k: nat
      ensures DecidedAt(Codes(a), Codes(b), k) <==> NameDecidedAt(a, b, k)
    {
      if k <= |a| && k <= |b| {
        assert Codes(a)[..k] == Codes(a[..k]) && Codes(b)[..k] == Codes(b[..k]);
        if Codes(a[..k]) == Codes(b[..k]) {
          CodesInjective(a[..k], b[..k]);
        }
      }
    }
  }

  lemma AscendingNames(names: seq<string>)
    ensures Ascending(StringLess, names) <==> NamesAscend(names)
  {
    forall i, j | 0 <= i < j < |names|
      ensures StringLess(names[i], names[j]) <==> NamePrecedes(names[i], names[j])
    {
      StringLessIsNamePrecedes(names[i], names[j]);
    }
  }

  function Codes(s: string): (q: seq<int>) {
    seq(|s|, i requires 0 <= i < |s| => s[i] as int)
  }

  predicate StringLess(a: string, b: string) {
    LexLess(Codes(a), Codes(b))
  }

  /** `less` orders the elements of `dom` strictly and totally. */
  ghost predicate Orders<T>(less: (T, T) -> bool, dom: set<T>) {
    && (forall a :: a in dom ==> !less(a, a))
    && (forall a, b :: a in dom && b in dom ==> a == b || less(a, b) || less(b, a))
    && (forall a, b, c :: a in dom && b in dom && c in dom && less(a, b) && less(b, c) ==> less(a, c))
  }

  lemma StringLessOrders(dom: set<string>)
    ensures Orders(StringLess, dom)
  {
    forall a: string, b: string | a in dom && b in dom
      ensures a == b || StringLess(a, b) || StringLess(b, a)
      ensures !StringLess(a, a)
    {
      LexTotal(Codes(a), Codes(b));
      if Codes(a) == Codes(b) {
        CodesInjective(a, b);
      }
    }
    forall a, b, c | a in dom && b in dom && c in dom && StringLess(a, b) && StringLess(b, c)
      ensures StringLess(a, c)
    {
      LexTransitive(Codes(a), Codes(b), Codes(c));
    }
  }

  lemma CodesInjective(a: string, b: string)
    requires Codes(a) == Codes(b)
    ensures a == b
  {
    assert |a| == |b|;
    forall i | 0 <= i < |a|
      ensures a[i] == b[i]
    {
      assert Codes(a)[i] == Codes(b)[i];
    }
  }

  ghost predicate Ascending<T>(less: (T, T) -> bool, q: seq<T>) {
    forall i, j :: 0 <= i < j < |q| ==> less(q[i], q[j])
  }

  /** `q` is the sorted listing of `s`. */
  ghost predicate SortedListing<T>(less: (T, T) -> bool, s: set<T>, q: seq<T>) {
    Ascending(less, q) && Elements(q) == s
  }

  /** A set has at most one sorted listing. */
  lemma {:induction false} SortedListingIsUnique<T>(less: (T, T) -> bool, s: set<T>, p: seq<T>, q: seq<T>)
    requires Orders(less, s)
    requires SortedListing(less, s, p) && SortedListing(less, s, q)
    ensures p == q
    decreases |p|
  {
    if p == [] {
      NonemptyElements(q);
    } else {
      assert p[0] in Elements(q);
      var k :| 0 <= k < |q| && q[k] == p[0];
      assert q[0] in Elements(p);
      var l :| 0 <= l < |p| && p[l] == q[0];
      assert p[0] == q[0];
      TailListing(less, s, p);
      TailListing(less, s, q);
      SortedListingIsUnique(less, s - {p[0]}, p[1..], q[1..]);
      assert p == [p[0]] + p[1..];
      assert q == [q[0]] + q[1..];
    }
  }

  lemma NonemptyElements<T>(q: seq<T>)
    ensures q != [] ==> Elements(q) != {}
  {
    if q != [] {
      assert q[0] in Elements(q);
    }
  }

  lemma TailListing<T>(less: (T, T) -> bool, s: set<T>, q: seq<T>)
    requires Orders(less, s)
    requires SortedListing(less, s, q)
    requires q != []
    ensures SortedListing(less, s - {q[0]}, q[1..])
  {
    forall x
      ensures x in Elements(q[1..]) <==> x in s - {q[0]}
    {
      if x in s - {q[0]} {
        var i :| 0 <= i < |q| && q[i] == x;
        assert q[1..][i - 1] == x;
      }
    }
  }

  /** `less` is transitive, and nothing is less than itself: enough to sort by, ties or not. */
  ghost predicate Sorts<T(!new)>(less: (T, T) -> bool) {
    && (forall a :: !less(a, a))
    && (forall a, b, c :: less(a, b) && less(b, c) ==> less(a, c))
  }

  /** Nothing comes after something greater. */
  ghost predicate NeverDescends<T>(less: (T, T) -> bool, q: seq<T>) {
    forall i, j :: 0 <= i < j < |q| ==> !less(q[j], q[i])
  }

  /** Puts `x` where it belongs in a sorted listing: after everything it is not less than. */
  method InsertSorted<T(!new)>(less: (T, T) -> bool, q: seq<T>, x: T) returns (r: seq<T>)
    ensures |r| == |q| + 1 && Elements(r) == Elements(q) + {x}
    ensures Sorts(less) && NeverDescends(less, q) ==> NeverDescends(less, r)
    ensures Orders(less, Elements(q) + {x}) && Ascending(less, q) && x !in q ==> Ascending(less, r)
  {
    var i := 0;
    while i < |q| && !less(x, q[i])
      invariant 0 <= i <= |q|
      invariant forall k :: 0 <= k < i ==> !less(x, q[k])
    {
      i := i + 1;
    }
    r := q[..i] + [x] + q[i..];
    InsertedElements(q, x, i);
    if Sorts(less) && NeverDescends(less, q) {
      InsertedNeverDescends(less, q, x, i);
    }
    if Orders(less, Elements(q) + {x}) && Ascending(less, q) && x !in q {
      InsertedIsSorted(less, q, x, i);
    }
  }

  lemma InsertedNeverDescends<T(!new)>(less: (T, T) -> bool, q: seq<T>, x: T, i: nat)
    requires Sorts(less) && NeverDescends(less, q) && i <= |q|
    requires forall k :: 0 <= k < i ==> !less(x, q[k])
    requires i < |q| ==> less(x, q[i])
    ensures NeverDescends(less, q[..i] + [x] + q[i..])
  {
    forall k | i <= k < |q|
      ensures !less(q[k], x)
    {
      assert k > i ==> !less(q[k], q[i]);
    }
  }

  lemma InsertedElements<T>(q: seq<T>, x: T, i: nat)
    requires i <= |q|
    ensures Elements(q[..i] + [x] + q[i..]) == Elements(q) + {x}
  {
    ElementsOfConcat(q[..i], [x]);
    ElementsOfConcat(q[..i] + [x], q[i..]);
    ElementsOfConcat(q[..i], q[i..]);
    assert q == q[..i] + q[i..];
  }

  lemma InsertedIsSorted<T>(less: (T, T) -> bool, q: seq<T>, x: T, i: nat)
    requires Orders(less, Elements(q) + {x})
    requires Ascending(less, q) && x !in q && i <= |q|
    requires forall k :: 0 <= k < i ==> !less(x, q[k])
    requires i < |q| ==> less(x, q[i])
    ensures Ascending(less, q[..i] + [x] + q[i..])
  {
    forall k | 0 <= k < |q|
      ensures if k < i then less(q[k], x) else less(x, q[k])
    {
      assert q[k] in Elements(q) && (i < |q| ==> q[i] in Elements(q));
    }
  }

  /** Sorting, by insertion: under any relation the same elements, and the sorted listing of distinct ones under an order. */
  method Sort<T(!new)>(less: (T, T) -> bool, q: seq<T>) returns (r: seq<T>)
    ensures |r| == |q| && Elements(r) == Elements(q)
    ensures Sorts(less) ==> NeverDescends(less, r)
    ensures Orders(less, Elements(q)) && Distinct(q) ==> SortedListing(less, Elements(q), r)
  {
    r := [];
    var i := 0;
    while i < |q|
      invariant 0 <= i <= |q| && |r| == i
      invariant Elements(r) == Elements(q[..i])
      invariant Sorts(less) ==> NeverDescends(less, r)
      invariant Orders(less, Elements(q)) && Distinct(q) ==> Ascending(less, r)
    {
      assert q[..i + 1] == q[..i] + [q[i]];
      ElementsOfConcat(q[..i], [q[i]]);
      if Orders(less, Elements(q)) && Distinct(q) {
        OrdersPart(less, Elements(q), Elements(r) + {q[i]});
        assert q[i] !in Elements(r);
      }
      r := InsertSorted(less, r, q[i]);
      i := i + 1;
    }
    assert q[..i] == q;
  }

  lemma OrdersPart<T>(less: (T, T) -> bool, all: set<T>, part: set<T>)
    requires Orders(less, all) && part <= all
    ensures Orders(less, part)
  {
  }

  lemma ElementsOfConcat<T>(p: seq<T>, q: seq<T>)
    ensures Elements(p + q) == Elements(p) + Elements(q)
  {
  }

  /** One step further into a sequence of distinct things. */
  lemma TakeOneMore<T>(q: seq<T>, i: nat)
    requires i < |q| && Distinct(q)
    ensures Elements(q[..i + 1]) == Elements(q[..i]) + {q[i]}
    ensures q[i] !in Elements(q[..i]) && q[i] in Elements(q)
  {
    assert q[..i + 1] == q[..i] + [q[i]];
    ElementsOfConcat(q[..i], [q[i]]);
  }

  lemma AppendOne<T>(q: seq<T>, x: T)
    ensures Elements(q + [x]) == Elements(q) + {x}
    ensures Distinct(q) && x !in Elements(q) ==> Distinct(q + [x])
  {
    ElementsOfConcat(q, [x]);
  }

  /** Walks a set in whatever order it comes, as iterating a hash map does. */
  method Enumerate<T>(s: set<T>) returns (q: seq<T>)
    ensures Elements(q) == s && Distinct(q)
  {
    q := [];
    var rest := s;
    while rest != {}
      invariant rest <= s
      invariant Elements(q) == s - rest && Distinct(q)
      decreases rest
    {
      var x :| x in rest;
      assert x !in Elements(q);
      ElementsOfConcat(q, [x]);
      q := q + [x];
      rest := rest - {x};
    }
  }

  /** Every finite set has a sorted listing. */
  lemma {:induction false} SortedListingExists<T>(less: (T, T) -> bool, s: set<T>) returns (q: seq<T>)
    requires Orders(less, s)
    ensures SortedListing(less, s, q)
    decreases |s|
  {
    if s == {} {
      q := [];
    } else {
      var m := Least(less, s);
      var rest := SortedListingExists(less, s - {m});
      q := [m] + rest;
      ElementsOfConcat([m], rest);
      forall j | 0 < j < |q|
        ensures less(q[0], q[j])
      {
        assert q[j] in Elements(rest);
      }
    }
  }

  lemma {:induction false} Least<T>(less: (T, T) -> bool, s: set<T>) returns (m: T)
    requires Orders(less, s)
    requires s != {}
    ensures m in s && forall x :: x in s && x != m ==> less(m, x)
    decreases |s|
  {
    m :| m in s;
    if s != {m} {
      var m' := Least(less, s - {m});
      if less(m', m) {
        m := m';
      }
    }
  }

  lemma SortedNamesExist(s: set<string>)
    ensures exists q :: SortedListing(StringLess, s, q)
  {
    StringLessOrders(s);
    var q := SortedListingExists(StringLess, s);
  }

  /** The names of `s` in ascending order. */
  ghost function SortedNames(s: set<string>): (q: seq<string>)
    ensures SortedListing(StringLess, s, q)
  {
    SortedNamesExist(s);
    var q :| SortedListing(StringLess, s, q);
    q
  }
}
