/** The files a workspace is copied from: paths, directory walks, and links between them. */
module WorkspaceFiles {
  import opened Sorting
  import opened Options

  /** A path, as the names from the root down. */
  type Path = seq<string>

  /** A link carries the path it resolves to once every link is followed; None if there is none. */
  datatype Node = Dir | File(content: string, mode: nat) | Link(to: Option<Path>)

  type Files = map<Path, Node>

  ghost predicate Under(p: Path, q: Path) {
    |p| <= |q| && q[..|p|] == p
  }

  /** A node stands in a directory, unless it is the root. */
  ghost predicate Rooted(fs: Files, p: Path) {
    p in fs && p != [] ==> p[..|p| - 1] in fs && fs[p[..|p| - 1]].Dir?
  }

  /** A link resolves to something that is not a link, or to nothing. */
  ghost predicate Resolves(fs: Files, p: Path) {
    p in fs && fs[p].Link? && fs[p].to.Some? ==> fs[p].to.value in fs && !fs[fs[p].to.value].Link?
  }

  ghost predicate WellFormed(fs: Files) {
    forall p: Path :: Rooted(fs, p) && Resolves(fs, p)
  }

  /** Everything at or below `p`, without following links. */
  ghost function Below(fs: Files, p: Path): set<Path> {
    set q | q in fs && Under(p, q)
  }

  function ChildNames(fs: Files, p: Path): set<string> {
    set q | q in fs && |q| == |p| + 1 && q[..|p|] == p :: q[|p|]
  }

  // ----- the order of a walk -----

  /** Lexical order of paths: a directory before its contents, names in byte order. */
  ghost predicate LexLess(p: Path, q: Path) {
    |q| > 0 && (|p| == 0 || Less(p[0], q[0]) || (p[0] == q[0] && LexLess(p[1..], q[1..])))
  }

  ghost predicate WalkOrdered(s: seq<Path>) {
    forall i, j :: 0 <= i < j < |s| ==> LexLess(s[i], s[j])
  }

  lemma {:induction false} LexIrreflexive(p: Path)
    ensures !LexLess(p, p)
  {
    if p != [] {
      LessIrreflexive(p[0]);
      LexIrreflexive(p[1..]);
    }
  }

  lemma {:induction false} LexAsymmetric(p: Path, q: Path)
    requires LexLess(p, q)
    ensures !LexLess(q, p) && p != q
  {
    if |p| > 0 {
      if Less(p[0], q[0]) {
        LessAsymmetric(p[0], q[0]);
      } else {
        LexAsymmetric(p[1..], q[1..]);
        LessIrreflexive(p[0]);
      }
    }
  }

  lemma {:induction false} LexTransitive(p: Path, q: Path, r: Path)
    requires LexLess(p, q) && LexLess(q, r)
    ensures LexLess(p, r)
  {
    if |p| > 0 {
      if Less(p[0], q[0]) && Less(q[0], r[0]) {
        LessTransitive(p[0], q[0], r[0]);
      } else if p[0] == q[0] == r[0] {
        if !Less(p[0], q[0]) && !Less(q[0], r[0]) {
          LexTransitive(p[1..], q[1..], r[1..]);
        }
      }
    }
  }

  /** A set of paths has a lexically first one. */
  lemma {:induction false} LexFirst(ps: set<Path>) returns (p: Path)
    requires ps != {}
    ensures p in ps && forall q :: q in ps ==> !LexLess(q, p)
    decreases ps
  {
    p :| p in ps;
    LexIrreflexive(p);
    if ps != {p} {
      var r := LexFirst(ps - {p});
      if LexLess(r, p) {
        forall q | q in ps
          ensures !LexLess(q, r)
        {
          if q == p {
            LexAsymmetric(r, p);
          }
        }
        p := r;
      } else {
        forall q | q in ps
          ensures !LexLess(q, p)
        {
          if q in ps - {p} && LexLess(q, p) {
            LexTotal(q, r);
            if LexLess(r, q) {
              LexTransitive(r, q, p);
            }
          }
        }
      }
    }
  }

  lemma {:induction false} LexTotal(p: Path, q: Path)
    ensures LexLess(p, q) || p == q || LexLess(q, p)
  {
    if p != [] && q != [] {
      LessTotal(p[0], q[0]);
      LexTotal(p[1..], q[1..]);
      assert p == [p[0]] + p[1..] && q == [q[0]] + q[1..];
    }
  }

  lemma {:induction false} LexBelow(p: Path, q: Path)
    requires Under(p, q) && p != q
    ensures LexLess(p, q)
  {
    if p != [] {
      assert p[0] == q[0] && q[1..][..|p| - 1] == p[1..];
      assert p[1..] != q[1..] by { assert p == [p[0]] + p[1..] && q == [q[0]] + q[1..]; }
      LexBelow(p[1..], q[1..]);
    }
  }

  /** Whole subtrees are ordered by the names they hang from. */
  lemma {:induction false} LexSiblings(p: Path, m: string, n: string, a: Path, b: Path)
    requires Less(m, n) && Under(p + [m], a) && Under(p + [n], b)
    ensures LexLess(a, b)
    decreases |p|
  {
    if p == [] {
      assert a[0] == (p + [m])[0] && b[0] == (p + [n])[0];
    } else {
      assert a[0] == (p + [m])[0] == p[0] && b[0] == (p + [n])[0] == p[0];
      assert (p + [m])[1..] == p[1..] + [m] && (p + [n])[1..] == p[1..] + [n];
      assert a[1..][..|p|] == a[..|p| + 1][1..] && b[1..][..|p|] == b[..|p| + 1][1..];
      LexSiblings(p[1..], m, n, a[1..], b[1..]);
    }
  }

  lemma UnderTransitive(p: Path, q: Path, r: Path)
    requires Under(p, q) && Under(q, r)
    ensures Under(p, r)
  {
    assert r[..|p|] == r[..|q|][..|p|];
  }

  lemma Comparable(a: Path, b: Path, q: Path)
    requires Under(a, q) && Under(b, q)
    ensures Under(a, b) || Under(b, a)
  {
    if |a| <= |b| {
      assert b[..|a|] == q[..|b|][..|a|] == q[..|a|];
    } else {
      assert a[..|b|] == q[..|a|][..|b|] == q[..|b|];
    }
  }

  lemma SameTail(a: Path, r: Path, s: Path)
    ensures a + r == a + s <==> r == s
  {
    assert r == (a + r)[|a|..] && s == (a + s)[|a|..];
  }

  lemma UnderTail(a: Path, r: Path, s: Path)
    ensures Under(a + r, a + s) <==> Under(r, s)
    ensures Under(r, s) ==> s == r + s[|r|..]
  {
    if |r| <= |s| {
      assert (a + s)[..|a + r|] == a + s[..|r|];
      SameTail(a, r, s[..|r|]);
    }
  }

  // ----- filepath.WalkDir -----

  ghost function Names(fs: Files, p: Path): seq<string> {
    SortedKeys(ChildNames(fs, p))
  }

  ghost predicate AreChildren(fs: Files, p: Path, names: seq<string>) {
    forall i :: 0 <= i < |names| ==> names[i] in ChildNames(fs, p)
  }

  lemma NamesAreChildren(fs: Files, p: Path)
    ensures AreChildren(fs, p, Names(fs, p)) && StrictlyOrdered(Names(fs, p))
    ensures forall n :: n in ChildNames(fs, p) ==> n in Names(fs, p)
  {
    var names := Names(fs, p);
    assert forall i :: 0 <= i < |names| ==> names[i] in Elements(names);
    assert forall n :: n in Elements(names) ==> n in names;
  }

  lemma ChildIn(fs: Files, p: Path, n: string)
    requires p in fs && n in ChildNames(fs, p)
    ensures p + [n] in fs && Under(p, p + [n]) && Below(fs, p + [n]) < Below(fs, p)
  {
    var q :| q in fs && |q| == |p| + 1 && q[..|p|] == p && q[|p|] == n;
    assert q == p + [n];
    forall r | r in Below(fs, q)
      ensures r in Below(fs, p)
    {
      UnderTransitive(p, q, r);
    }
    assert p in Below(fs, p) && p !in Below(fs, q);
  }

  /** The paths filepath.WalkDir visits from `p`, in order: a directory, then its entries by name. */
  ghost function Walk(fs: Files, p: Path): seq<Path>
    requires p in fs
    decreases Below(fs, p), 1, 0
  {
    NamesAreChildren(fs, p);
    [p] + if fs[p].Dir? then WalkEntries(fs, p, Names(fs, p)) else []
  }

  ghost function WalkEntries(fs: Files, p: Path, names: seq<string>): seq<Path>
    requires p in fs && AreChildren(fs, p, names)
    decreases Below(fs, p), 0, |names|
  {
    if names == [] then []
    else
      ChildIn(fs, p, names[0]);
      Walk(fs, p + [names[0]]) + WalkEntries(fs, p, names[1..])
  }

  /** A path strictly below `p` that starts with one of the names. */
  ghost predicate Through(fs: Files, p: Path, names: seq<string>, q: Path) {
    q in fs && |q| > |p| && q[..|p|] == p && q[|p|] in names
  }

  /** A walk visits everything below its root. */
  lemma {:induction false} WalkVisits(fs: Files, p: Path, q: Path)
    requires WellFormed(fs) && p in fs
    ensures q in Walk(fs, p) <==> q in fs && Under(p, q)
    decreases Below(fs, p), 1, 0
  {
    NamesAreChildren(fs, p);
    if fs[p].Dir? {
      EntriesVisit(fs, p, Names(fs, p), q);
    }
    if q in fs && Under(p, q) && q != p {
      NodesAbove(fs, q, |p| + 1);
      NodesAbove(fs, q, |p|);
      assert q[..|p| + 1][..|p|] == p;
      assert q[|p|] in ChildNames(fs, p) by { assert q[..|p| + 1] in fs; }
      assert q[..|p| + 1][..|q[..|p| + 1]| - 1] == p;
    }
  }

  lemma {:induction false} EntriesVisit(fs: Files, p: Path, names: seq<string>, q: Path)
    requires WellFormed(fs) && p in fs && AreChildren(fs, p, names)
    ensures q in WalkEntries(fs, p, names) <==> Through(fs, p, names, q)
    decreases Below(fs, p), 0, |names|
  {
    if names != [] {
      var c := p + [names[0]];
      ChildIn(fs, p, names[0]);
      WalkVisits(fs, c, q);
      EntriesVisit(fs, p, names[1..], q);
      if |q| > |p| {
        assert q[..|p| + 1] == q[..|p|] + [q[|p|]];
        assert c[..|p|] == p && c[|p|] == names[0];
      }
    }
  }

  /** Everything above a node is there. */
  lemma {:induction false} NodesAbove(fs: Files, q: Path, n: nat)
    requires WellFormed(fs) && q in fs && n <= |q|
    ensures q[..n] in fs && (n < |q| ==> fs[q[..n]].Dir?)
    decreases |q| - n
  {
    if n < |q| {
      NodesAbove(fs, q, n + 1);
      assert Rooted(fs, q[..n + 1]);
      assert q[..n + 1][..n] == q[..n];
    } else {
      assert q[..n] == q;
    }
  }

  /** A walk goes through the paths in lexical order. */
  lemma {:induction false} WalkInOrder(fs: Files, p: Path)
    requires WellFormed(fs) && p in fs
    ensures WalkOrdered(Walk(fs, p))
    decreases Below(fs, p), 1, 0
  {
    NamesAreChildren(fs, p);
    if fs[p].Dir? {
      var names := Names(fs, p);
      EntriesInOrder(fs, p, names);
      var rest := WalkEntries(fs, p, names);
      forall j | 0 <= j < |rest|
        ensures LexLess(p, rest[j])
      {
        EntriesVisit(fs, p, names, rest[j]);
        LexBelow(p, rest[j]);
      }
    }
  }

  lemma {:induction false} EntriesInOrder(fs: Files, p: Path, names: seq<string>)
    requires WellFormed(fs) && p in fs && AreChildren(fs, p, names) && StrictlyOrdered(names)
    ensures WalkOrdered(WalkEntries(fs, p, names))
    decreases Below(fs, p), 0, |names|
  {
    if names != [] {
      var c := p + [names[0]];
      ChildIn(fs, p, names[0]);
      WalkInOrder(fs, c);
      EntriesInOrder(fs, p, names[1..]);
      var first, rest := Walk(fs, c), WalkEntries(fs, p, names[1..]);
      forall i, j | 0 <= i < |first| && 0 <= j < |rest|
        ensures LexLess(first[i], rest[j])
      {
        WalkVisits(fs, c, first[i]);
        EntriesVisit(fs, p, names[1..], rest[j]);
        assert rest[j][..|p| + 1] == p + [rest[j][|p|]];
        LexSiblings(p, names[0], rest[j][|p|], first[i], rest[j]);
      }
      WalkOrderedAppend(first, rest);
    }
  }

  lemma WalkOrderedAppend(a: seq<Path>, b: seq<Path>)
    requires WalkOrdered(a) && WalkOrdered(b)
    requires forall i, j :: 0 <= i < |a| && 0 <= j < |b| ==> LexLess(a[i], b[j])
    ensures WalkOrdered(a + b)
  {
    var s := a + b;
    forall i, j | 0 <= i < j < |s|
      ensures LexLess(s[i], s[j])
    {
      if j >= |a| {
        assert s[j] == b[j - |a|];
        if i >= |a| {
          assert s[i] == b[i - |a|];
        }
      }
    }
  }
}
