/** Stable sorting of records by where they were found, as `sort.SliceStable` does it for docgen. */
module StableSorting {
  import opened Sorting

  datatype Place = Place(package: string, file: string, line: int)

  /** By package, then file, then line. */
  predicate Before(p: Place, q: Place) {
    if p.package != q.package then Less(p.package, q.package)
    else if p.file != q.file then Less(p.file, q.file)
    else p.line < q.line
  }

  lemma BeforeTotal(p: Place, q: Place)
    ensures Before(p, q) || p == q || Before(q, p)
  {
    LessTotal(p.package, q.package);
    LessTotal(p.file, q.file);
  }

  lemma BeforeAsymmetric(p: Place, q: Place)
    requires Before(p, q)
    ensures p != q && !Before(q, p)
  {
    if p.package != q.package {
      LessAsymmetric(p.package, q.package);
    } else if p.file != q.file {
      LessAsymmetric(p.file, q.file);
    }
  }

  lemma NotBeforeTransitive(p: Place, q: Place, r: Place)
    requires !Before(q, p) && !Before(r, q)
    ensures !Before(r, p)
  {
    BeforeTotal(p, q);
    BeforeTotal(q, r);
    if p != q && q != r {
      BeforeTransitive(p, q, r);
      BeforeAsymmetric(p, r);
    }
  }

  lemma BeforeTransitive(p: Place, q: Place, r: Place)
    requires Before(p, q) && Before(q, r)
    ensures Before(p, r)
  {
    if p.package != q.package && q.package != r.package {
      LessTransitive(p.package, q.package, r.package);
      LessIrreflexive(p.package);
    } else if p.package == q.package == r.package {
      if p.file != q.file && q.file != r.file {
        LessTransitive(p.file, q.file, r.file);
        LessIrreflexive(p.file);
      }
    }
    LessChainDiffers(p.package, q.package, r.package);
    LessChainDiffers(p.file, q.file, r.file);
  }

  lemma LessChainDiffers(a: string, b: string, c: string)
    ensures Less(a, b) && Less(b, c) ==> a != c
  {
    if Less(a, b) {
      LessAsymmetric(a, b);
    }
  }

  ghost predicate InOrder<T(!new)>(s: seq<T>, key: T -> Place) {
    forall i, j :: 0 <= i < j < |s| ==> !Before(key(s[j]), key(s[i]))
  }

  /** The elements found at one place, in their order. */
  ghost function At<T(!new)>(s: seq<T>, key: T -> Place, p: Place): seq<T> {
    if s == [] then [] else (if key(s[0]) == p then [s[0]] else []) + At(s[1..], key, p)
  }

  function Insert<T(!new)>(x: T, s: seq<T>, key: T -> Place): (r: seq<T>)
    ensures multiset(r) == multiset{x} + multiset(s)
  {
    if s == [] || !Before(key(s[0]), key(x)) then [x] + s
    else
      assert s == [s[0]] + s[1..];
      [s[0]] + Insert(x, s[1..], key)
  }

  function StableSort<T(!new)>(s: seq<T>, key: T -> Place): (r: seq<T>)
    ensures multiset(r) == multiset(s)
  {
    if s == [] then []
    else
      assert s == [s[0]] + s[1..];
      Insert(s[0], StableSort(s[1..], key), key)
  }

  lemma {:induction false} InsertInOrder<T(!new)>(x: T, s: seq<T>, key: T -> Place)
    requires InOrder(s, key)
    ensures InOrder(Insert(x, s, key), key)
  {
    var r := Insert(x, s, key);
    if s == [] {
    } else if !Before(key(s[0]), key(x)) {
      forall j | 0 <= j < |s| ensures !Before(key(s[j]), key(x)) {
        if j > 0 {
          NotBeforeTransitive(key(x), key(s[0]), key(s[j]));
        }
      }
    } else {
      var t := Insert(x, s[1..], key);
      InsertInOrder(x, s[1..], key);
      BeforeAsymmetric(key(s[0]), key(x));
      forall j | 0 <= j < |t| ensures !Before(key(t[j]), key(s[0])) {
        assert t[j] in multiset(t);
        if t[j] != x {
          assert t[j] in multiset(s[1..]);
        }
      }
    }
  }

  lemma {:induction false} InsertStable<T(!new)>(x: T, s: seq<T>, key: T -> Place, p: Place)
    ensures At(Insert(x, s, key), key, p) == (if key(x) == p then [x] else []) + At(s, key, p)
  {
    if s == [] || !Before(key(s[0]), key(x)) {
      assert ([x] + s)[1..] == s;
    } else {
      InsertStable(x, s[1..], key, p);
      BeforeAsymmetric(key(s[0]), key(x));
      assert Insert(x, s, key)[1..] == Insert(x, s[1..], key);
    }
  }

  /** In order, and elements of one place keep their order. */
  lemma {:induction false} SortedStably<T(!new)>(s: seq<T>, key: T -> Place)
    ensures InOrder(StableSort(s, key), key)
    ensures forall p :: At(StableSort(s, key), key, p) == At(s, key, p)
  {
    if s != [] {
      SortedStably(s[1..], key);
      var t := StableSort(s[1..], key);
      InsertInOrder(s[0], t, key);
      forall p ensures At(StableSort(s, key), key, p) == At(s, key, p) {
        InsertStable(s[0], t, key, p);
      }
    }
  }

  lemma {:induction false} AtMember<T(!new)>(s: seq<T>, key: T -> Place, i: nat)
    requires i < |s|
    ensures At(s, key, key(s[i])) != []
  {
    if i > 0 {
      AtMember(s[1..], key, i - 1);
    }
  }

  lemma {:induction false} AtIsMember<T(!new)>(s: seq<T>, key: T -> Place, p: Place)
    requires At(s, key, p) != []
    ensures exists i :: 0 <= i < |s| && key(s[i]) == p
  {
    if key(s[0]) != p {
      AtIsMember(s[1..], key, p);
      var i :| 0 <= i < |s[1..]| && key(s[1..][i]) == p;
      assert s[i + 1] == s[1..][i];
    }
  }

  ghost predicate SameGroups<T(!new)>(a: seq<T>, b: seq<T>, key: T -> Place) {
    forall p :: At(a, key, p) == At(b, key, p)
  }

  lemma SameFirst<T(!new)>(a: seq<T>, b: seq<T>, key: T -> Place)
    requires InOrder(a, key) && InOrder(b, key) && SameGroups(a, b, key) && a != []
    ensures b != [] && a[0] == b[0]
  {
    AtMember(a, key, 0);
    assert At(b, key, key(a[0])) != [];
    AtMember(b, key, 0);
    assert At(a, key, key(b[0])) != [];
    AtIsMember(a, key, key(b[0]));
    AtIsMember(b, key, key(a[0]));
    BeforeTotal(key(a[0]), key(b[0]));
    assert key(a[0]) == key(b[0]);
    assert At(a, key, key(a[0]))[0] == a[0] && At(b, key, key(a[0]))[0] == b[0];
  }

  /** Order and stability leave only one result. */
  lemma {:induction false} StableOrderUnique<T(!new)>(a: seq<T>, b: seq<T>, key: T -> Place)
    requires InOrder(a, key) && InOrder(b, key) && SameGroups(a, b, key)
    ensures a == b
  {
    if a != [] {
      SameFirst(a, b, key);
      forall p ensures At(a[1..], key, p) == At(b[1..], key, p) {
        assert At(a, key, p) == At(b, key, p);
        var first := if key(a[0]) == p then [a[0]] else [];
        assert At(a[1..], key, p) == At(a, key, p)[|first|..];
        assert At(b[1..], key, p) == At(b, key, p)[|first|..];
      }
      StableOrderUnique(a[1..], b[1..], key);
      assert a == [a[0]] + a[1..] && b == [b[0]] + b[1..];
    } else if b != [] {
      AtMember(b, key, 0);
    }
  }

  lemma StableSortOnly<T(!new)>(s: seq<T>, r: seq<T>, key: T -> Place)
    ensures r == StableSort(s, key) <==> InOrder(r, key) && SameGroups(r, s, key)
  {
    SortedStably(s, key);
    if InOrder(r, key) && SameGroups(r, s, key) {
      StableOrderUnique(r, StableSort(s, key), key);
    }
  }
}
