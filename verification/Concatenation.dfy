/** Concatenation of sequences: regrouping, and loops that append what they find. */
module Concatenation {

  lemma Assoc<T>(a: seq<T>, b: seq<T>, c: seq<T>)
    ensures a + (b + c) == (a + b) + c
  {
  }

  lemma AssocMiddle<T>(a: seq<T>, b: seq<T>, c: seq<T>, d: seq<T>)
    ensures a + (b + (c + d)) == (a + (b + c)) + d
  {
    Assoc(b, c, d);
    Assoc(a, b + c, d);
  }

  lemma Member<T>(x: T, a: seq<T>, b: seq<T>)
    ensures x in a + b <==> x in a || x in b
  {
  }

  /** A loop that appends what `f` answers for each element. */
  ghost function FlatMap<A, B>(s: seq<A>, f: A -> seq<B>): seq<B> {
    if s == [] then [] else FlatMap(s[..|s| - 1], f) + f(s[|s| - 1])
  }

  lemma {:induction false} FlatConcat<A, B>(a: seq<A>, b: seq<A>, f: A -> seq<B>)
    ensures FlatMap(a + b, f) == FlatMap(a, f) + FlatMap(b, f)
  {
    if b == [] {
      assert a + b == a;
    } else {
      assert (a + b)[..|a + b| - 1] == a + b[..|b| - 1];
      FlatConcat(a, b[..|b| - 1], f);
    }
  }

  lemma FlatOne<A, B>(x: A, f: A -> seq<B>)
    ensures FlatMap([x], f) == f(x)
  {
    assert [x][..0] == [];
  }

  lemma FlatSnoc<A, B>(s: seq<A>, x: A, f: A -> seq<B>)
    ensures FlatMap(s + [x], f) == FlatMap(s, f) + f(x)
  {
    assert (s + [x])[..|s + [x]| - 1] == s;
  }

  lemma {:induction false} FlatEmptyIff<A, B>(s: seq<A>, f: A -> seq<B>)
    ensures FlatMap(s, f) == [] <==> forall i :: 0 <= i < |s| ==> f(s[i]) == []
  {
    if s != [] {
      FlatEmptyIff(s[..|s| - 1], f);
    }
  }

  lemma {:induction false} FlatSize<A, B>(s: seq<A>, f: A -> seq<B>)
    requires forall x :: |f(x)| == 1
    ensures |FlatMap(s, f)| == |s|
  {
    if s != [] {
      FlatSize(s[..|s| - 1], f);
    }
  }

  /** What a loop has gathered was found at some element. */
  lemma {:induction false} FlatMember<A, B>(s: seq<A>, f: A -> seq<B>, x: B)
    ensures x in FlatMap(s, f) <==> exists i :: 0 <= i < |s| && x in f(s[i])
  {
    if s != [] {
      var n := |s| - 1;
      FlatMember(s[..n], f, x);
      Member(x, FlatMap(s[..n], f), f(s[n]));
      assert forall i :: 0 <= i < n ==> s[..n][i] == s[i];
    }
  }
}
