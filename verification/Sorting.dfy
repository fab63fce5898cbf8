/** Ordering of strings and the sorted sequences the rest of the project relies on. */
module Sorting {

  /** Go's `<` on strings. Scalar values compare as their UTF-8 encodings do. */
  predicate Less(a: string, b: string) {
    |b| > 0 && (|a| == 0 || a[0] < b[0] || (a[0] == b[0] && Less(a[1..], b[1..])))
  }

  predicate AtMost(a: string, b: string) {
    !Less(b, a)
  }

  lemma {:induction false} LessTransitive(a: string, b: string, c: string)
    requires Less(a, b) && Less(b, c)
    ensures Less(a, c)
  {
    if |a| > 0 && a[0] == b[0] == c[0] {
      LessTransitive(a[1..], b[1..], c[1..]);
    }
  }

  lemma {:induction false} LessTotal(a: string, b: string)
    ensures Less(a, b) || a == b || Less(b, a)
  {
    if |a| > 0 && |b| > 0 && a[0] == b[0] {
      LessTotal(a[1..], b[1..]);
      assert a == [a[0]] + a[1..] && b == [b[0]] + b[1..];
    }
  }

  lemma {:induction false} LessAsymmetric(a: string, b: string)
    requires Less(a, b)
    ensures a != b && !Less(b, a)
  {
    if |a| > 0 && a[0] == b[0] {
      LessAsymmetric(a[1..], b[1..]);
    }
  }

  lemma {:induction false} LessIrreflexive(a: string)
    ensures !Less(a, a)
  {
    if a != "" {
      LessIrreflexive(a[1..]);
    }
  }

  lemma AtMostTransitive(a: string, b: string, c: string)
    requires AtMost(a, b) && AtMost(b, c)
    ensures AtMost(a, c)
  {
    LessTotal(a, b);
    LessTotal(b, c);
    if Less(c, a) {
      if a == b {
      } else {
        LessTransitive(c, a, b);
      }
    }
  }

  ghost predicate Ordered(s: seq<string>) {
    forall i, j :: 0 <= i < j < |s| ==> AtMost(s[i], s[j])
  }

  ghost predicate StrictlyOrdered(s: seq<string>) {
    forall i, j :: 0 <= i < j < |s| ==> Less(s[i], s[j])
  }

  /** The elements of a sequence. */
  ghost function Elements<T>(s: seq<T>): (r: set<T>) {
    set x | x in s
  }

  // ----- sort.Strings -----

  function Insert(x: string, s: seq<string>): (r: seq<string>)
    ensures multiset(r) == multiset{x} + multiset(s)
    ensures Ordered(s) ==> Ordered(r)
  {
    if s == [] then [x]
    else if AtMost(x, s[0]) then
      InsertFront(x, s);
      [x] + s
    else
      InsertLater(x, s);
      assert s == [s[0]] + s[1..];
      [s[0]] + Insert(x, s[1..])
  }

  lemma InsertFront(x: string, s: seq<string>)
    requires s != [] && AtMost(x, s[0])
    ensures Ordered(s) ==> Ordered([x] + s)
  {
    if Ordered(s) {
      forall j | 0 <= j < |s|
        ensures AtMost(x, s[j])
      {
        if j > 0 {
          AtMostTransitive(x, s[0], s[j]);
        }
      }
    }
  }

  lemma InsertLater(x: string, s: seq<string>)
    requires s != [] && !AtMost(x, s[0])
    ensures forall r: seq<string> {:trigger [s[0]] + r} ::
              Ordered(s) && Ordered(r) && multiset(r) == multiset{x} + multiset(s[1..]) ==> Ordered([s[0]] + r)
  {
    LessAsymmetric(s[0], x);
    forall r: seq<string> | Ordered(s) && Ordered(r) && multiset(r) == multiset{x} + multiset(s[1..])
      ensures Ordered([s[0]] + r)
    {
      forall j | 0 <= j < |r|
        ensures AtMost(s[0], r[j])
      {
        assert r[j] in multiset(r);
        if r[j] != x {
          assert r[j] in multiset(s[1..]);
        }
      }
    }
  }

  /** `sort.Strings`: the ordered permutation of its argument. */
  function SortStrings(s: seq<string>): (r: seq<string>)
    ensures multiset(r) == multiset(s)
    ensures Ordered(r)
  {
    if s == [] then []
    else
      assert s == [s[0]] + s[1..];
      Insert(s[0], SortStrings(s[1..]))
  }

  lemma SameLeast(a: seq<string>, b: seq<string>)
    requires Ordered(a) && Ordered(b) && a != [] && b != []
    requires a[0] in b && b[0] in a
    ensures a[0] == b[0]
  {
    var i :| 0 <= i < |b| && b[i] == a[0];
    var j :| 0 <= j < |a| && a[j] == b[0];
    LessTotal(a[0], b[0]);
  }

  lemma WithoutFirst(a: seq<string>)
    requires a != []
    ensures multiset(a[1..]) == multiset(a) - multiset{a[0]}
  {
    assert a == [a[0]] + a[1..];
  }

  /** There is only one ordered arrangement of a bag of strings. */
  lemma {:induction false} OrderedUnique(a: seq<string>, b: seq<string>)
    requires Ordered(a) && Ordered(b)
    requires multiset(a) == multiset(b)
    ensures a == b
  {
    assert |multiset(a)| == |a| && |multiset(b)| == |b|;
    if a != [] {
      assert a[0] in multiset(b) && b[0] in multiset(a);
      SameLeast(a, b);
      WithoutFirst(a);
      WithoutFirst(b);
      OrderedUnique(a[1..], b[1..]);
      assert a == [a[0]] + a[1..] && b == [b[0]] + b[1..];
    }
  }

  /** Sorting forgets the order its input came in. */
  lemma SortForgetsOrder(a: seq<string>, b: seq<string>)
    requires multiset(a) == multiset(b)
    ensures SortStrings(a) == SortStrings(b)
  {
    OrderedUnique(SortStrings(a), SortStrings(b));
  }

  // ----- the sorted listing of a set -----

  lemma {:induction false} LeastExists(ks: set<string>)
    requires ks != {}
    ensures exists k :: k in ks && forall j :: j in ks ==> AtMost(k, j)
  {
    var x :| x in ks;
    if ks == {x} {
      LessIrreflexive(x);
    } else {
      LeastExists(ks - {x});
      var y :| y in ks - {x} && forall j :: j in ks - {x} ==> AtMost(y, j);
      if AtMost(y, x) {
        assert forall j :: j in ks ==> j == x || j in ks - {x};
      } else {
        LessAsymmetric(x, y);
        forall j | j in ks
          ensures AtMost(x, j)
        {
          if j == x {
            LessIrreflexive(x);
          } else {
            AtMostTransitive(x, y, j);
          }
        }
      }
    }
  }

  ghost function LeastKey(ks: set<string>): (k: string)
    requires ks != {}
    ensures k in ks && forall j :: j in ks - {k} ==> Less(k, j)
  {
    LeastExists(ks);
    var k :| k in ks && forall j :: j in ks ==> AtMost(k, j);
    assert forall j :: j in ks - {k} ==> Less(k, j) by {
      forall j | j in ks - {k} ensures Less(k, j) { LessTotal(k, j); }
    }
    k
  }

  lemma PrependKey(k: string, rest: seq<string>)
    requires StrictlyOrdered(rest) && forall j :: j in Elements(rest) ==> Less(k, j)
    ensures StrictlyOrdered([k] + rest)
    ensures Elements([k] + rest) == {k} + Elements(rest)
  {
    var l := [k] + rest;
    forall i, j | 0 <= i < j < |l|
      ensures Less(l[i], l[j])
    {
      assert l[j] == rest[j - 1] && l[j] in Elements(rest);
    }
    assert forall x :: x in l <==> x == k || x in rest;
  }

  /** The keys of a map in sorted order. */
  ghost function SortedKeys(ks: set<string>): (l: seq<string>)
    ensures StrictlyOrdered(l)
    ensures Elements(l) == ks
    decreases |ks|
  {
    if ks == {} then []
    else
      var k := LeastKey(ks);
      PrependKey(k, SortedKeys(ks - {k}));
      [k] + SortedKeys(ks - {k})
  }

  lemma StrictlyOrderedIsOrdered(s: seq<string>)
    requires StrictlyOrdered(s)
    ensures Ordered(s)
    ensures forall i, j :: 0 <= i < j < |s| ==> s[i] != s[j]
  {
    forall i, j | 0 <= i < j < |s|
      ensures AtMost(s[i], s[j]) && s[i] != s[j]
    {
      LessAsymmetric(s[i], s[j]);
    }
  }

  ghost predicate Distinct<T>(s: seq<T>) {
    forall i, j :: 0 <= i < j < |s| ==> s[i] != s[j]
  }

  lemma {:induction false} DistinctMultiset<T>(s: seq<T>)
    requires Distinct(s)
    ensures multiset(s) == multiset(Elements(s))
  {
    if s != [] {
      DistinctMultiset(s[1..]);
      assert s == [s[0]] + s[1..];
      assert Elements(s) == {s[0]} + Elements(s[1..]);
      assert s[0] !in Elements(s[1..]);
    }
  }

  /** However the keys of a map were gathered, sorting them gives the sorted listing. */
  lemma SortingAnyListing(gathered: seq<string>)
    requires Distinct(gathered)
    ensures SortStrings(gathered) == SortedKeys(Elements(gathered))
  {
    var l := SortedKeys(Elements(gathered));
    StrictlyOrderedIsOrdered(l);
    DistinctMultiset(l);
    DistinctMultiset(gathered);
    OrderedUnique(SortStrings(gathered), l);
  }

  /** Ranging over the keys of a map: each key once, in any order. */
  method Gather(ks: set<string>) returns (keys: seq<string>)
    ensures Distinct(keys) && Elements(keys) == ks
  {
    keys := [];
    var left := ks;
    while left != {}
      invariant Distinct(keys) && Elements(keys) !! left && Elements(keys) + left == ks
      decreases |left|
    {
      var k :| k in left;
      OneMore(keys, k);
      keys := keys + [k];
      left := left - {k};
    }
  }

  lemma OneMore(keys: seq<string>, k: string)
    requires Distinct(keys) && k !in Elements(keys)
    ensures Distinct(keys + [k]) && Elements(keys + [k]) == Elements(keys) + {k}
  {
    assert forall x :: x in keys + [k] <==> x in keys || x == k;
    forall i | 0 <= i < |keys| ensures keys[i] != k {
      assert keys[i] in Elements(keys);
    }
  }
}
