/** Copying a module directory: `copyTree`, `copySymlink` and `copyFile` of tf/workspace.go. */
module Workspace {
  import opened Sorting
  import opened WorkspaceFiles
  import opened Options

  // ----- which links lead back -----

  /** Walking `w` meets a link to the directory `t`. */
  ghost predicate LeadsTo(fs: Files, w: Path, t: Path) {
    t in fs && fs[t].Dir? && exists q :: q in Below(fs, w) && fs[q] == Link(Some(t))
  }

  /** Roots of nested walks, outermost first. */
  ghost predicate Chain(fs: Files, ws: seq<Path>) {
    forall i :: 0 <= i < |ws| - 1 ==> LeadsTo(fs, ws[i], ws[i + 1])
  }

  /** No directory link met on the way from `src` leads back to a directory being expanded. */
  ghost predicate Acyclic(fs: Files, src: Path) {
    forall ws: seq<Path> :: Chain(fs, ws) && ws != [] && ws[0] == src ==> Distinct(ws)
  }

  /** `ws` are the walks in progress. */
  ghost predicate Expanding(fs: Files, ws: seq<Path>) {
    ws != [] && Chain(fs, ws) && Acyclic(fs, ws[0])
  }

  ghost function Directories(fs: Files): set<Path> {
    set p | p in fs && fs[p].Dir?
  }

  /** The measure that makes copying terminate: directories not being expanded. */
  ghost function Remaining(fs: Files, ws: seq<Path>): nat {
    |Directories(fs) - Elements(ws)|
  }

  lemma Expand(fs: Files, ws: seq<Path>, t: Path)
    requires Expanding(fs, ws) && LeadsTo(fs, ws[|ws| - 1], t)
    ensures Expanding(fs, ws + [t]) && Remaining(fs, ws + [t]) < Remaining(fs, ws)
  {
    var vs := ws + [t];
    forall i | 0 <= i < |vs| - 1
      ensures LeadsTo(fs, vs[i], vs[i + 1])
    {
    }
    assert Chain(fs, vs) && vs[0] == ws[0];
    assert Distinct(vs);
    assert forall i :: 0 <= i < |ws| ==> vs[i] == ws[i] && vs[i] != vs[|ws|];
    assert t in Directories(fs) - Elements(ws);
    assert Elements(vs) == Elements(ws) + {t};
    Smaller(Directories(fs) - Elements(ws), Directories(fs) - Elements(vs), t);
  }

  lemma Smaller(a: set<Path>, b: set<Path>, t: Path)
    requires b == a - {t} && t in a
    ensures |b| < |a|
  {
  }

  /** In the walk of `w` no lexically earlier link has the target of `p`. */
  ghost predicate First(fs: Files, w: Path, p: Path) {
    p in fs && forall q :: q in Below(fs, w) && fs[q] == fs[p] ==> !LexLess(q, p)
  }

  // ----- where copying ends -----

  /** Walks nest at most `n` deep. */
  ghost predicate DepthAtMost(fs: Files, src: Path, n: nat) {
    forall ws: seq<Path> :: Chain(fs, ws) && ws != [] && ws[0] == src ==> |ws| <= n
  }

  lemma {:induction false} DistinctFits(ws: seq<Path>, all: set<Path>)
    requires Distinct(ws) && forall i :: 0 <= i < |ws| ==> ws[i] in all
    ensures |ws| <= |all|
  {
    if ws != [] {
      var n := |ws| - 1;
      DistinctFits(ws[..n], all - {ws[n]});
    }
  }

  lemma ChainInDirectories(fs: Files, ws: seq<Path>)
    requires Chain(fs, ws) && ws != [] && Distinct(ws)
    ensures |ws| <= |Directories(fs)| + 1
  {
    forall i | 0 <= i < |ws[1..]|
      ensures ws[1..][i] in Directories(fs)
    {
      assert LeadsTo(fs, ws[i], ws[i + 1]);
    }
    DistinctFits(ws[1..], Directories(fs));
  }

  /** The way round once more. */
  lemma RoundAgain(fs: Files, ws: seq<Path>, i: nat, j: nat) returns (vs: seq<Path>)
    requires Chain(fs, ws) && i < j < |ws| && ws[i] == ws[j]
    ensures Chain(fs, vs) && |vs| > |ws| && vs[0] == ws[0] && vs[i] == vs[j] == ws[i]
  {
    vs := ws[..j] + ws[i..];
    forall k | 0 <= k < |vs| - 1
      ensures LeadsTo(fs, vs[k], vs[k + 1])
    {
      if k < j - 1 {
        assert LeadsTo(fs, ws[k], ws[k + 1]);
      } else if k == j - 1 {
        assert LeadsTo(fs, ws[j - 1], ws[j]);
      } else {
        assert LeadsTo(fs, ws[i + (k - j)], ws[i + (k - j) + 1]);
      }
    }
  }

  lemma {:induction false} EverLonger(fs: Files, ws: seq<Path>, i: nat, j: nat, n: nat) returns (vs: seq<Path>)
    requires Chain(fs, ws) && i < j < |ws| && ws[i] == ws[j]
    ensures Chain(fs, vs) && |vs| > n && vs[0] == ws[0]
    decreases n - |ws|
  {
    if |ws| > n {
      vs := ws;
    } else {
      vs := RoundAgain(fs, ws, i, j);
      vs := EverLonger(fs, vs, i, j, n);
    }
  }

  lemma AcyclicIff(fs: Files, src: Path)
    ensures Acyclic(fs, src) <==> exists n: nat :: DepthAtMost(fs, src, n)
  {
    if Acyclic(fs, src) {
      forall ws: seq<Path> | Chain(fs, ws) && ws != [] && ws[0] == src
        ensures |ws| <= |Directories(fs)| + 1
      {
        ChainInDirectories(fs, ws);
      }
      assert DepthAtMost(fs, src, |Directories(fs)| + 1);
    }
    forall n: nat, ws: seq<Path>, i: nat, j: nat |
      DepthAtMost(fs, src, n) && Chain(fs, ws) && i < j < |ws| && ws[0] == src
      ensures ws[i] != ws[j]
    {
      if ws[i] == ws[j] {
        var vs := EverLonger(fs, ws, i, j, n);
      }
    }
  }

  /** The walk of `w` follows a link to the directory `t`: copyTree calls itself on `t`. */
  ghost predicate Follows(fs: Files, w: Path, t: Path) {
    t in fs && fs[t].Dir? && exists q :: q in Below(fs, w) && fs[q] == Link(Some(t)) && First(fs, w, q)
  }

  /** Of the links to one directory a walk meets, it follows one. */
  lemma {:induction false} FollowsIff(fs: Files, w: Path, t: Path)
    ensures Follows(fs, w, t) <==> LeadsTo(fs, w, t)
  {
    if LeadsTo(fs, w, t) {
      var links := set q | q in Below(fs, w) && fs[q] == Link(Some(t));
      var some :| some in Below(fs, w) && fs[some] == Link(Some(t));
      assert some in links;
      var q := LexFirst(links);
      assert First(fs, w, q);
    }
  }

  /** A copy of `w` in which nothing fails returns with at most `n` calls of copyTree nested. */
  ghost predicate Ends(fs: Files, w: Path, n: nat)
    decreases n
  {
    n > 0 && forall t :: Follows(fs, w, t) ==> Ends(fs, t, n - 1)
  }

  lemma {:induction false} EndsMeansShort(fs: Files, ws: seq<Path>, n: nat)
    requires ws != [] && Chain(fs, ws) && Ends(fs, ws[0], n)
    ensures |ws| <= n
  {
    if |ws| > 1 {
      assert LeadsTo(fs, ws[0], ws[1]);
      FollowsIff(fs, ws[0], ws[1]);
      forall i | 0 <= i < |ws[1..]| - 1
        ensures LeadsTo(fs, ws[1..][i], ws[1..][i + 1])
      {
        assert LeadsTo(fs, ws[i + 1], ws[i + 2]);
      }
      EndsMeansShort(fs, ws[1..], n - 1);
    }
  }

  lemma {:induction false} OneDeeper(fs: Files, w: Path, t: Path, n: nat)
    requires DepthAtMost(fs, w, n) && LeadsTo(fs, w, t)
    ensures n > 0 && DepthAtMost(fs, t, n - 1)
  {
    assert Chain(fs, [w]);
    forall ws: seq<Path> | Chain(fs, ws) && ws != [] && ws[0] == t
      ensures |ws| <= n - 1
    {
      var vs := [w] + ws;
      forall i | 0 <= i < |vs| - 1
        ensures LeadsTo(fs, vs[i], vs[i + 1])
      {
        assert i > 0 ==> LeadsTo(fs, ws[i - 1], ws[i]);
      }
      assert Chain(fs, vs);
    }
  }

  lemma {:induction false} ShortMeansEnds(fs: Files, w: Path, n: nat)
    requires DepthAtMost(fs, w, n)
    ensures Ends(fs, w, n)
    decreases n
  {
    assert Chain(fs, [w]);
    forall t | Follows(fs, w, t)
      ensures Ends(fs, t, n - 1)
    {
      FollowsIff(fs, w, t);
      OneDeeper(fs, w, t, n);
      ShortMeansEnds(fs, t, n - 1);
    }
  }

  lemma EndsIff(fs: Files, src: Path, n: nat)
    ensures Ends(fs, src, n) <==> DepthAtMost(fs, src, n)
  {
    if Ends(fs, src, n) {
      forall ws: seq<Path> | Chain(fs, ws) && ws != [] && ws[0] == src
        ensures |ws| <= n
      {
        EndsMeansShort(fs, ws, n);
      }
    }
    if DepthAtMost(fs, src, n) {
      ShortMeansEnds(fs, src, n);
    }
  }

  /** copyTree returns, unless something fails first, exactly when no directory link leads back. */
  lemma CopyEndsIff(fs: Files, src: Path)
    ensures Acyclic(fs, src) <==> exists n: nat :: Ends(fs, src, n)
  {
    AcyclicIff(fs, src);
    if Acyclic(fs, src) {
      var n: nat :| DepthAtMost(fs, src, n);
      EndsIff(fs, src, n);
    }
    forall n: nat | Ends(fs, src, n)
      ensures DepthAtMost(fs, src, n)
    {
      EndsIff(fs, src, n);
    }
  }

  /** A module holding a link to itself. */
  ghost function SelfLinked(): Files {
    map[[] := Dir, ["m"] := Dir, ["m", "self"] := Link(Some(["m"]))]
  }

  /** Such a link is not rejected: however many calls are allowed to nest, copying wants one more. */
  lemma SelfLinkNeverEnds(n: nat)
    ensures WellFormed(SelfLinked()) && !Ends(SelfLinked(), ["m"], n)
  {
    var fs := SelfLinked();
    assert ["m"] in fs && ["m", "self"] in fs && fs[["m", "self"]] == Link(Some(["m"]));
    assert ["m", "self"][..1] == ["m"] && ["m"][..0] == [];
    assert Under(["m"], ["m", "self"]);
    assert LeadsTo(fs, ["m"], ["m"]);
    var ws := [["m"], ["m"]];
    assert Chain(fs, ws);
    var vs := EverLonger(fs, ws, 0, 1, n);
    if Ends(fs, ["m"], n) {
      EndsMeansShort(fs, vs, n);
    }
  }

  // ----- what the copy holds -----

  /**
   What stands at `rel` below the image of `p`, for the walk `ws[|ws| - 1]`: directories and
   files as they are, and of the links to one target only the first, replaced by what it
   leads to, a directory by its own unfolding.
   */
  ghost function Image(fs: Files, ws: seq<Path>, p: Path, rel: Path): Option<Node>
    requires Expanding(fs, ws) && WellFormed(fs) && Under(ws[|ws| - 1], p)
    decreases Remaining(fs, ws), |rel|
  {
    var w := ws[|ws| - 1];
    if p !in fs then None
    else
      assert Resolves(fs, p);
      match fs[p]
      case Link(None) => None
      case Link(Some(t)) =>
        if !First(fs, w, p) then None
        else if fs[t].Dir? then
          assert p in Below(fs, w);
          Expand(fs, ws, t);
          Image(fs, ws + [t], t, rel)
        else if rel == [] then Some(fs[t])
        else None
      case node =>
        if rel == [] then Some(node) else Image(fs, ws, p + [rel[0]], rel[1..])
  }

  /** What a copy of `src` holds at `rel`. */
  ghost function Unfolding(fs: Files, src: Path, rel: Path): Option<Node>
    requires WellFormed(fs) && Acyclic(fs, src)
  {
    assert Chain(fs, [src]);
    Image(fs, [src], src, rel)
  }

  /** The copy has no links, and everything in it is some source node, byte for byte. */
  lemma {:induction false} ImageIsSource(fs: Files, ws: seq<Path>, p: Path, rel: Path)
    requires Expanding(fs, ws) && WellFormed(fs) && Under(ws[|ws| - 1], p)
    ensures var n := Image(fs, ws, p, rel);
            n.Some? ==> !n.value.Link? && exists q :: q in fs && fs[q] == n.value
    decreases Remaining(fs, ws), |rel|
  {
    if p in fs {
      assert Resolves(fs, p);
      match fs[p] {
        case Link(None) =>
        case Link(Some(t)) =>
          if First(fs, ws[|ws| - 1], p) && fs[t].Dir? {
            assert p in Below(fs, ws[|ws| - 1]);
            Expand(fs, ws, t);
            ImageIsSource(fs, ws + [t], t, rel);
          }
        case _ =>
          if rel != [] {
            ImageIsSource(fs, ws, p + [rel[0]], rel[1..]);
          }
      }
    }
  }

  // ----- whether copying succeeds -----

  /** Everything a walk would open can be opened, and its links resolve. `denied` cannot be read. */
  ghost predicate Copyable(fs: Files, ws: seq<Path>, denied: set<Path>)
    requires Expanding(fs, ws) && WellFormed(fs)
    decreases Remaining(fs, ws), 1
  {
    forall p :: p in Below(fs, ws[|ws| - 1]) ==> Step(fs, ws, denied, p)
  }

  ghost predicate Step(fs: Files, ws: seq<Path>, denied: set<Path>, p: Path)
    requires Expanding(fs, ws) && WellFormed(fs) && p in Below(fs, ws[|ws| - 1])
    decreases Remaining(fs, ws), 0
  {
    assert Resolves(fs, p);
    match fs[p]
    case Link(None) => false
    case Link(Some(t)) =>
      First(fs, ws[|ws| - 1], p) ==>
        if fs[t].Dir? then
          Expand(fs, ws, t);
          Copyable(fs, ws + [t], denied)
        else t !in denied
    case _ => p !in denied
  }

  // ----- resolving a relative path in a walk -----

  /** The node of the walk that decides what stands at `rel` below the image of `p`. */
  ghost function Owner(fs: Files, p: Path, rel: Path): Path
    decreases |rel|
  {
    if rel == [] || p !in fs || fs[p].Link? then p else Owner(fs, p + [rel[0]], rel[1..])
  }

  lemma {:induction false} OwnerBelow(fs: Files, p: Path, rel: Path)
    ensures var q := Owner(fs, p, rel);
            && Under(p, q) && Under(q, p + rel)
            && (q in fs && !fs[q].Link? ==> q == p + rel)
    decreases |rel|
  {
    if rel == [] || p !in fs || fs[p].Link? {
      assert (p + rel)[..|p|] == p;
    } else {
      OwnerBelow(fs, p + [rel[0]], rel[1..]);
      assert p + [rel[0]] + rel[1..] == p + rel;
      UnderTransitive(p, p + [rel[0]], Owner(fs, p, rel));
    }
  }

  /** Resolution passes through every node of the walk on the way. */
  lemma {:induction false} ResolveThrough(fs: Files, ws: seq<Path>, p: Path, q: Path, rel: Path)
    requires Expanding(fs, ws) && WellFormed(fs) && Under(ws[|ws| - 1], p)
    requires q in fs && Under(p, q)
    ensures Under(ws[|ws| - 1], q)
    ensures Owner(fs, p, q[|p|..] + rel) == Owner(fs, q, rel)
    ensures Image(fs, ws, p, q[|p|..] + rel) == Image(fs, ws, q, rel)
    decreases |q| - |p|
  {
    UnderTransitive(ws[|ws| - 1], p, q);
    if p == q {
      assert q[|p|..] + rel == rel;
    } else {
      NodesAbove(fs, q, |p|);
      var n := q[|p|];
      assert q[..|p| + 1] == p + [n];
      var whole := q[|p|..] + rel;
      assert whole[0] == n && whole[1..] == q[|p| + 1..] + rel;
      UnderTransitive(ws[|ws| - 1], p, p + [n]);
      ResolveThrough(fs, ws, p + [n], q, rel);
    }
  }

  // ----- copying -----

  ghost function Lookup(fs: Files, p: Path): Option<Node> {
    if p in fs then Some(fs[p]) else None
  }

  /** Nothing outside `top` differs. */
  ghost predicate SameOutside(fs: Files, now: Files, top: Path) {
    forall q :: !Under(top, q) ==> Lookup(now, q) == Lookup(fs, q)
  }

  /** The destination holds nothing yet, and no walk from `src` goes over it. */
  ghost predicate Disjoint(fs: Files, src: Path, top: Path) {
    && (forall q :: q in fs ==> !Under(top, q))
    && (forall ws: seq<Path> :: Chain(fs, ws) && ws != [] && ws[0] == src ==> !Under(ws[|ws| - 1], top))
  }

  /** The source as it was, the walks in progress, and the destination of the outermost copy. */
  datatype Context = Context(fs: Files, ws: seq<Path>, top: Path)

  ghost predicate Copying(x: Context, now: Files) {
    && WellFormed(x.fs) && Expanding(x.fs, x.ws) && Disjoint(x.fs, x.ws[0], x.top)
    && SameOutside(x.fs, now, x.top)
  }

  /** `dst` can be created: its parent is there and it is not. */
  ghost predicate Vacant(now: Files, dst: Path) {
    && dst != [] && dst[..|dst| - 1] in now && now[dst[..|dst| - 1]].Dir?
    && forall q :: q in now ==> !Under(dst, q)
  }

  /** What stands at `rel` once the nodes in `done` have been copied. */
  ghost function Expected(x: Context, done: set<Path>, rel: Path): Option<Node>
    requires WellFormed(x.fs) && Expanding(x.fs, x.ws)
  {
    var w := x.ws[|x.ws| - 1];
    if Owner(x.fs, w, rel) in done then Image(x.fs, x.ws, w, rel) else None
  }

  /** The part of the copy that the nodes in `done` decide is there, and nothing else. */
  ghost predicate Built(x: Context, now: Files, dst: Path, done: set<Path>)
    requires WellFormed(x.fs) && Expanding(x.fs, x.ws)
  {
    forall rel: Path :: Lookup(now, dst + rel) == Expected(x, done, rel)
  }

  /** A walk of the source stays clear of the destination. */
  lemma SourceApart(x: Context, q: Path)
    requires WellFormed(x.fs) && Expanding(x.fs, x.ws) && Disjoint(x.fs, x.ws[0], x.top)
    requires x.ws[|x.ws| - 1] in x.fs && Under(x.ws[|x.ws| - 1], q)
    ensures !Under(x.top, q)
  {
    var w := x.ws[|x.ws| - 1];
    assert !Under(w, x.top) && !Under(x.top, w);
    if Under(x.top, q) {
      Comparable(w, x.top, q);
    }
  }

  /** The links in `done` lead to exactly the targets in `seen`. */
  ghost predicate SeenBy(fs: Files, done: set<Path>, seen: set<Path>) {
    forall t: Path :: t in seen <==> exists r :: r in done && r in fs && fs[r] == Link(Some(t))
  }

  /** `done` are the nodes of the walk before `q`. */
  ghost predicate DoneBefore(x: Context, q: Path, done: set<Path>)
    requires x.ws != []
  {
    && q in Below(x.fs, x.ws[|x.ws| - 1]) && q !in done
    && forall r :: r in done <==> r in Below(x.fs, x.ws[|x.ws| - 1]) && LexLess(r, q)
  }

  lemma SeenMeansNotFirst(x: Context, q: Path, done: set<Path>, seen: set<Path>)
    requires x.ws != [] && DoneBefore(x, q, done) && SeenBy(x.fs, done, seen)
    requires x.fs[q].Link? && x.fs[q].to.Some?
    ensures First(x.fs, x.ws[|x.ws| - 1], q) <==> x.fs[q].to.value !in seen
  {
    var t := x.fs[q].to.value;
    if t in seen {
      var r :| r in done && r in x.fs && x.fs[r] == Link(Some(t));
      assert r in Below(x.fs, x.ws[|x.ws| - 1]) && LexLess(r, q);
    } else {
      forall r | r in Below(x.fs, x.ws[|x.ws| - 1]) && x.fs[r] == x.fs[q]
        ensures !LexLess(r, q)
      {
      }
    }
  }

  ghost predicate InProgress(x: Context, now: Files, dst: Path, q: Path, done: set<Path>) {
    && Copying(x, now) && x.ws[|x.ws| - 1] in x.fs && Under(x.top, dst)
    && dst != [] && dst[..|dst| - 1] in now && now[dst[..|dst| - 1]].Dir?
    && DoneBefore(x, q, done) && Built(x, now, dst, done)
  }

  /** Where the image of `q` goes. */
  ghost function Target(x: Context, dst: Path, q: Path): Path
    requires x.ws != [] && Under(x.ws[|x.ws| - 1], q)
  {
    dst + q[|x.ws[|x.ws| - 1]|..]
  }

  lemma TargetParent(w: Path, dst: Path, q: Path)
    requires Under(w, q) && q != w
    ensures var up := q[..|q| - 1];
            var target := dst + q[|w|..];
            && Under(w, up) && Under(up, q) && target[..|target| - 1] == dst + up[|w|..]
  {
    assert q[..|q| - 1][..|w|] == q[..|w|];
  }

  lemma ParentDone(x: Context, q: Path, done: set<Path>)
    requires WellFormed(x.fs) && x.ws != [] && DoneBefore(x, q, done) && q != x.ws[|x.ws| - 1]
    ensures var up := q[..|q| - 1]; up in done && up in x.fs && x.fs[up].Dir?
  {
    TargetParent(x.ws[|x.ws| - 1], [], q);
    NodesAbove(x.fs, q, |q| - 1);
    LexBelow(q[..|q| - 1], q);
  }

  /** The parent of the next target has been made. */
  lemma ParentMade(x: Context, now: Files, dst: Path, q: Path, done: set<Path>)
    requires WellFormed(x.fs) && Expanding(x.fs, x.ws) && Built(x, now, dst, done)
    requires dst != [] && dst[..|dst| - 1] in now && now[dst[..|dst| - 1]].Dir?
    requires DoneBefore(x, q, done)
    ensures var target := Target(x, dst, q);
            target != [] && target[..|target| - 1] in now && now[target[..|target| - 1]].Dir?
  {
    var w := x.ws[|x.ws| - 1];
    if q == w {
      assert Target(x, dst, q) == dst;
    } else {
      TargetParent(w, dst, q);
      ParentDone(x, q, done);
      NodeThere(x, now, dst, q[..|q| - 1], done);
    }
  }

  /** A directory or file whose turn has come is there. */
  lemma NodeThere(x: Context, now: Files, dst: Path, q: Path, done: set<Path>)
    requires WellFormed(x.fs) && Expanding(x.fs, x.ws) && Built(x, now, dst, done)
    requires q in x.fs && Under(x.ws[|x.ws| - 1], q) && q in done && !x.fs[q].Link?
    ensures Lookup(now, Target(x, dst, q)) == Some(x.fs[q])
  {
    var w := x.ws[|x.ws| - 1];
    var rel := q[|w|..];
    ResolveThrough(x.fs, x.ws, w, q, []);
    assert rel + [] == rel;
    assert Lookup(now, dst + rel) == Expected(x, done, rel);
  }

  /** Before a node's turn there is nothing at or below its target, unless its own children could be. */
  lemma TargetVacant(x: Context, now: Files, dst: Path, q: Path, done: set<Path>, rel: Path)
    requires WellFormed(x.fs) && Expanding(x.fs, x.ws) && Built(x, now, dst, done)
    requires q in x.fs && Under(x.ws[|x.ws| - 1], q) && q !in done
    requires rel == [] || x.fs[q].Link?
    ensures Lookup(now, Target(x, dst, q) + rel) == None
  {
    var w := x.ws[|x.ws| - 1];
    ResolveThrough(x.fs, x.ws, w, q, rel);
    assert Target(x, dst, q) + rel == dst + (q[|w|..] + rel);
    assert Owner(x.fs, w, q[|w|..] + rel) == q;
  }

  /** A directory or file of the walk put in its place. */
  lemma BuiltNode(x: Context, before: Files, now: Files, dst: Path, q: Path, done: set<Path>)
    requires WellFormed(x.fs) && Expanding(x.fs, x.ws) && Built(x, before, dst, done)
    requires q in x.fs && Under(x.ws[|x.ws| - 1], q) && q !in done && !x.fs[q].Link?
    requires now == before[Target(x, dst, q) := x.fs[q]]
    ensures Built(x, now, dst, done + {q})
  {
    var w := x.ws[|x.ws| - 1];
    var r := q[|w|..];
    ResolveThrough(x.fs, x.ws, w, q, []);
    assert r + [] == r && w + r == q;
    forall rel: Path
      ensures Lookup(now, dst + rel) == Expected(x, done + {q}, rel)
    {
      OwnerBelow(x.fs, w, rel);
      SameTail(w, rel, r);
      SameTail(dst, rel, r);
      assert Lookup(before, dst + rel) == Expected(x, done, rel);
      assert Owner(x.fs, w, rel) == q <==> rel == r;
    }
  }

  /** A link of the walk replaced by the image of its target, or left out. */
  lemma {:induction false} BuiltLink(x: Context, before: Files, now: Files, dst: Path, q: Path, done: set<Path>)
    requires WellFormed(x.fs) && Expanding(x.fs, x.ws) && Built(x, before, dst, done)
    requires q in x.fs && Under(x.ws[|x.ws| - 1], q) && q !in done && x.fs[q].Link?
    requires SameOutside(before, now, Target(x, dst, q))
    requires forall rel: Path :: Lookup(now, Target(x, dst, q) + rel) == Image(x.fs, x.ws, q, rel)
    ensures Built(x, now, dst, done + {q})
  {
    var w := x.ws[|x.ws| - 1];
    var r := q[|w|..];
    assert w + r == q;
    forall rel: Path
      ensures Lookup(now, dst + rel) == Expected(x, done + {q}, rel)
    {
      OwnerBelow(x.fs, w, rel);
      UnderTail(w, r, rel);
      UnderTail(dst, r, rel);
      assert Lookup(before, dst + rel) == Expected(x, done, rel);
      if Under(r, rel) {
        var more := rel[|r|..];
        ResolveThrough(x.fs, x.ws, w, q, more);
        assert dst + rel == Target(x, dst, q) + more;
      }
    }
  }

  /** Writing below the destination keeps everything outside it. */
  lemma OutsideKept(fs: Files, before: Files, now: Files, top: Path, dst: Path)
    requires SameOutside(fs, before, top) && SameOutside(before, now, dst) && Under(top, dst)
    ensures SameOutside(fs, now, top)
  {
    forall q | !Under(top, q)
      ensures Lookup(now, q) == Lookup(fs, q)
    {
      if Under(dst, q) {
        UnderTransitive(top, dst, q);
      }
    }
  }

  /** The source is read as it was. */
  lemma ReadsSource(x: Context, now: Files, q: Path)
    requires Copying(x, now) && q in x.fs
    ensures q in now && now[q] == x.fs[q]
  {
    assert Lookup(now, q) == Lookup(x.fs, q);
  }

  lemma LinkVacant(x: Context, now: Files, dst: Path, q: Path, done: set<Path>)
    requires InProgress(x, now, dst, q, done) && x.fs[q].Link?
    ensures Vacant(now, Target(x, dst, q))
  {
    ParentMade(x, now, dst, q, done);
    var target := Target(x, dst, q);
    forall p | Under(target, p)
      ensures p !in now
    {
      TargetVacant(x, now, dst, q, done, p[|target|..]);
      assert target + p[|target|..] == p;
    }
  }

  /** The walk of the files as they are now is the walk of the source. */
  lemma {:induction false} SameWalk(x: Context, now: Files, p: Path)
    requires Copying(x, now) && x.ws[|x.ws| - 1] in x.fs && Under(x.ws[|x.ws| - 1], p) && p in x.fs && p in now
    ensures Walk(now, p) == Walk(x.fs, p)
    decreases Below(x.fs, p), 1, 0
  {
    SourceApart(x, p);
    assert Lookup(now, p) == Lookup(x.fs, p);
    SameChildren(x, now, p);
    NamesAreChildren(x.fs, p);
    NamesAreChildren(now, p);
    if x.fs[p].Dir? {
      SameEntries(x, now, p, Names(x.fs, p));
    }
  }

  lemma SameChildren(x: Context, now: Files, p: Path)
    requires Copying(x, now) && x.ws[|x.ws| - 1] in x.fs && Under(x.ws[|x.ws| - 1], p)
    ensures ChildNames(now, p) == ChildNames(x.fs, p)
  {
    forall q: Path | |q| == |p| + 1 && q[..|p|] == p
      ensures q in now <==> q in x.fs
    {
      UnderTransitive(x.ws[|x.ws| - 1], p, q);
      SourceApart(x, q);
      assert Lookup(now, q) == Lookup(x.fs, q);
    }
  }

  lemma {:induction false} SameEntries(x: Context, now: Files, p: Path, names: seq<string>)
    requires Copying(x, now) && x.ws[|x.ws| - 1] in x.fs && Under(x.ws[|x.ws| - 1], p) && p in x.fs && p in now
    requires AreChildren(x.fs, p, names) && AreChildren(now, p, names)
    ensures WalkEntries(now, p, names) == WalkEntries(x.fs, p, names)
    decreases Below(x.fs, p), 0, |names|
  {
    if names != [] {
      var c := p + [names[0]];
      ChildIn(x.fs, p, names[0]);
      ChildIn(now, p, names[0]);
      UnderTransitive(x.ws[|x.ws| - 1], p, c);
      SameWalk(x, now, c);
      SameEntries(x, now, p, names[1..]);
    }
  }

  /** The nodes before position `i` of a walk are the lexically smaller ones. */
  lemma WalkDone(x: Context, i: nat)
    requires WellFormed(x.fs) && x.ws != [] && x.ws[|x.ws| - 1] in x.fs && i < |Walk(x.fs, x.ws[|x.ws| - 1])|
    ensures var l := Walk(x.fs, x.ws[|x.ws| - 1]);
            DoneBefore(x, l[i], Elements(l[..i])) && Elements(l[..i + 1]) == Elements(l[..i]) + {l[i]}
  {
    var w := x.ws[|x.ws| - 1];
    var l := Walk(x.fs, w);
    WalkInOrder(x.fs, w);
    WalkVisits(x.fs, w, l[i]);
    LexIrreflexive(l[i]);
    assert l[..i + 1] == l[..i] + [l[i]];
    forall r: Path
      ensures r in Elements(l[..i]) <==> r in Below(x.fs, w) && LexLess(r, l[i])
    {
      WalkVisits(x.fs, w, r);
      if r in Below(x.fs, w) && LexLess(r, l[i]) {
        var j :| 0 <= j < |l| && l[j] == r;
        if j > i {
          LexAsymmetric(l[i], l[j]);
        }
        assert j < i && l[..i][j] == r;
      }
      if r in Elements(l[..i]) {
        var j :| 0 <= j < i && l[j] == r;
      }
    }
  }

  lemma NextEntry(fs: Files, p: Path, names: seq<string>, i: nat, l: seq<Path>)
    requires p in fs && i < |names| && AreChildren(fs, p, names[i..])
    ensures AreChildren(fs, p, names[i + 1..])
    ensures p + [names[i]] in fs && Below(fs, p + [names[i]]) < Below(fs, p)
    ensures l + WalkEntries(fs, p, names[i..]) == (l + Walk(fs, p + [names[i]])) + WalkEntries(fs, p, names[i + 1..])
  {
    var now := names[i..];
    assert now[0] == names[i] && now[1..] == names[i + 1..];
    assert AreChildren(fs, p, now[1..]);
    ChildIn(fs, p, now[0]);
    assert l + (Walk(fs, p + [now[0]]) + WalkEntries(fs, p, now[1..]))
        == (l + Walk(fs, p + [now[0]])) + WalkEntries(fs, p, now[1..]);
  }

  lemma NothingThere(now: Files, target: Path)
    requires Vacant(now, target)
    ensures forall rel: Path :: Lookup(now, target + rel) == None
  {
    forall rel: Path
      ensures Lookup(now, target + rel) == None
    {
      assert (target + rel)[..|target|] == target;
    }
  }

  lemma OneFile(before: Files, target: Path, node: Node)
    requires forall rel: Path :: Lookup(before, target + rel) == None
    ensures var now := before[target := node];
            && SameOutside(before, now, target)
            && forall rel: Path :: Lookup(now, target + rel) == if rel == [] then Some(node) else None
  {
    var now := before[target := node];
    assert Under(target, target);
    forall rel: Path
      ensures Lookup(now, target + rel) == if rel == [] then Some(node) else None
    {
      SameTail(target, rel, []);
      assert target + [] == target;
      assert Lookup(before, target + rel) == None;
    }
  }

  /** A link whose target an earlier link has leaves nothing, and cannot fail. */
  lemma LinkSkipped(x: Context, q: Path)
    requires WellFormed(x.fs) && Expanding(x.fs, x.ws) && q in Below(x.fs, x.ws[|x.ws| - 1])
    requires x.fs[q].Link? && x.fs[q].to.Some? && !First(x.fs, x.ws[|x.ws| - 1], q)
    ensures forall denied :: Step(x.fs, x.ws, denied, q)
    ensures forall rel: Path :: Image(x.fs, x.ws, q, rel) == None
  {
  }

  lemma LinkToDir(x: Context, denied: set<Path>, q: Path, t: Path)
    requires WellFormed(x.fs) && Expanding(x.fs, x.ws) && q in Below(x.fs, x.ws[|x.ws| - 1])
    requires x.fs[q] == Link(Some(t)) && First(x.fs, x.ws[|x.ws| - 1], q) && t in x.fs && x.fs[t].Dir?
    ensures LeadsTo(x.fs, x.ws[|x.ws| - 1], t) && Expanding(x.fs, x.ws + [t])
    ensures Step(x.fs, x.ws, denied, q) <==> Copyable(x.fs, x.ws + [t], denied)
    ensures forall rel: Path :: Image(x.fs, x.ws, q, rel) == Image(x.fs, x.ws + [t], t, rel)
  {
    assert Resolves(x.fs, q);
    Expand(x.fs, x.ws, t);
  }

  lemma LinkToFile(x: Context, denied: set<Path>, q: Path, t: Path)
    requires WellFormed(x.fs) && Expanding(x.fs, x.ws) && q in Below(x.fs, x.ws[|x.ws| - 1])
    requires x.fs[q] == Link(Some(t)) && First(x.fs, x.ws[|x.ws| - 1], q) && t in x.fs && !x.fs[t].Dir?
    ensures Step(x.fs, x.ws, denied, q) <==> t !in denied
    ensures forall rel: Path :: Image(x.fs, x.ws, q, rel) == if rel == [] then Some(x.fs[t]) else None
  {
    assert Resolves(x.fs, q);
  }

  /** A link that is followed stands for its target. */
  lemma LinkFollowed(x: Context, denied: set<Path>, q: Path)
    requires WellFormed(x.fs) && Expanding(x.fs, x.ws) && q in Below(x.fs, x.ws[|x.ws| - 1])
    requires x.fs[q].Link? && x.fs[q].to.Some? && First(x.fs, x.ws[|x.ws| - 1], q)
    ensures var t := x.fs[q].to.value;
            && t in x.fs && !x.fs[t].Link?
            && (if x.fs[t].Dir? then
                  && LeadsTo(x.fs, x.ws[|x.ws| - 1], t) && Expanding(x.fs, x.ws + [t])
                  && (Step(x.fs, x.ws, denied, q) <==> Copyable(x.fs, x.ws + [t], denied))
                  && forall rel: Path :: Image(x.fs, x.ws, q, rel) == Image(x.fs, x.ws + [t], t, rel)
                else
                  && (Step(x.fs, x.ws, denied, q) <==> t !in denied)
                  && forall rel: Path :: Image(x.fs, x.ws, q, rel) == if rel == [] then Some(x.fs[t]) else None)
  {
    assert Resolves(x.fs, q);
    var t := x.fs[q].to.value;
    if x.fs[t].Dir? {
      LinkToDir(x, denied, q, t);
    } else {
      LinkToFile(x, denied, q, t);
    }
  }

  /** How far copying has got: the first `i` nodes of the walk are copied. */
  ghost predicate Halfway(x: Context, denied: set<Path>, start: Files, now: Files, dst: Path, i: nat, seen: set<Path>) {
    && Copying(x, now) && x.ws[|x.ws| - 1] in x.fs && Under(x.top, dst)
    && dst != [] && dst[..|dst| - 1] in now && now[dst[..|dst| - 1]].Dir?
    && SameOutside(start, now, dst)
    && var w := x.ws[|x.ws| - 1];
       var walk := Walk(x.fs, w);
       && i <= |walk|
       && Built(x, now, dst, Elements(walk[..i])) && SeenBy(x.fs, Elements(walk[..i]), seen)
       && forall j :: 0 <= j < i ==> walk[j] in Below(x.fs, w) && Step(x.fs, x.ws, denied, walk[j])
  }

  lemma StartHalfway(x: Context, denied: set<Path>, now: Files, dst: Path)
    requires Copying(x, now) && x.ws[|x.ws| - 1] in x.fs && Under(x.top, dst) && Vacant(now, dst)
    ensures Halfway(x, denied, now, now, dst, 0, {})
  {
    StartBuilt(x, now, dst);
    assert Walk(x.fs, x.ws[|x.ws| - 1])[..0] == [];
  }

  lemma ReadyToVisit(x: Context, denied: set<Path>, start: Files, now: Files, dst: Path, i: nat, seen: set<Path>)
    requires Halfway(x, denied, start, now, dst, i, seen) && i < |Walk(x.fs, x.ws[|x.ws| - 1])|
    ensures var walk := Walk(x.fs, x.ws[|x.ws| - 1]); InProgress(x, now, dst, walk[i], Elements(walk[..i]))
  {
    WalkDone(x, i);
  }

  lemma Advance(x: Context, denied: set<Path>, start: Files, before: Files, now: Files,
                                   dst: Path, i: nat, seen: set<Path>, seen': set<Path>)
    requires Halfway(x, denied, start, before, dst, i, seen) && i < |Walk(x.fs, x.ws[|x.ws| - 1])|
    requires SameOutside(before, now, dst)
    requires var walk := Walk(x.fs, x.ws[|x.ws| - 1]);
             && walk[i] in Below(x.fs, x.ws[|x.ws| - 1]) && Step(x.fs, x.ws, denied, walk[i])
             && Built(x, now, dst, Elements(walk[..i]) + {walk[i]})
             && SeenBy(x.fs, Elements(walk[..i]) + {walk[i]}, seen')
    ensures Halfway(x, denied, start, now, dst, i + 1, seen')
  {
    WalkDone(x, i);
    OutsideTwice(start, before, now, dst);
    OutsideKept(x.fs, before, now, x.top, dst);
    assert Lookup(now, dst[..|dst| - 1]) == Lookup(before, dst[..|dst| - 1]);
  }

  lemma AllVisited(x: Context, denied: set<Path>, start: Files, now: Files, dst: Path, seen: set<Path>)
    requires var w := x.ws;
             w != [] && w[|w| - 1] in x.fs && Halfway(x, denied, start, now, dst, |Walk(x.fs, w[|w| - 1])|, seen)
    ensures Copyable(x.fs, x.ws, denied)
    ensures forall rel: Path :: Lookup(now, dst + rel) == Image(x.fs, x.ws, x.ws[|x.ws| - 1], rel)
  {
    var w := x.ws[|x.ws| - 1];
    var walk := Walk(x.fs, w);
    assert walk[..|walk|] == walk;
    forall p | p in Below(x.fs, w)
      ensures Step(x.fs, x.ws, denied, p)
    {
      WalkVisits(x.fs, w, p);
    }
    AllBuilt(x, now, dst);
  }

  // ----- the file system and copyTree -----

  class FileSystem {
    var entries: Files
    const denied: set<Path>

    constructor (entries: Files, denied: set<Path>)
      ensures this.entries == entries && this.denied == denied
    {
      this.entries, this.denied := entries, denied;
    }

    /** os.ReadDir: the names in a directory, sorted. */
    method ReadDir(p: Path) returns (names: seq<string>)
      ensures names == Names(entries, p)
    {
      var gathered := Gather(ChildNames(entries, p));
      names := SortStrings(gathered);
      SortingAnyListing(gathered);
    }

    /** filepath.WalkDir: the paths its callback is given, in order. */
    method WalkDir(p: Path) returns (l: seq<Path>)
      requires p in entries
      ensures l == Walk(entries, p)
      decreases Below(entries, p)
    {
      l := [p];
      NamesAreChildren(entries, p);
      if entries[p].Dir? {
        var names := ReadDir(p);
        assert names[0..] == names;
        for i := 0 to |names|
          invariant AreChildren(entries, p, names[i..])
          invariant l + WalkEntries(entries, p, names[i..]) == Walk(entries, p)
        {
          NextEntry(entries, p, names, i, l);
          var sub := WalkDir(p + [names[i]]);
          l := l + sub;
        }
      }
    }

    /** os.MkdirAll */
    method MkdirAll(p: Path) returns (ok: bool)
      modifies this
      ensures p in old(entries) ==> entries == old(entries) && ok == old(entries[p].Dir?)
      ensures p !in old(entries) && p != [] && p[..|p| - 1] in old(entries) && old(entries)[p[..|p| - 1]].Dir?
              ==> ok && entries == old(entries)[p := Dir]
      decreases |p|
    {
      if p in entries {
        return entries[p].Dir?;
      }
      if p == [] {
        return false;
      }
      ok := MkdirAll(p[..|p| - 1]);
      if ok {
        entries := entries[p := Dir];
      }
    }

    method CopyFile(src: Path, dst: Path) returns (ok: bool)
      requires src in entries && entries[src].File?
      requires dst != [] && dst[..|dst| - 1] in entries && entries[dst[..|dst| - 1]].Dir?
      modifies this
      ensures ok <==> src !in denied
      ensures entries == if ok then old(entries)[dst := old(entries)[src]] else old(entries)
    {
      if src in denied {
        return false;
      }
      ok := MkdirAll(dst[..|dst| - 1]);
      entries := entries[dst := entries[src]];
    }

    method CopySymlink(ghost x: Context, q: Path, target: Path, seen: set<Path>) returns (ok: bool, seen': set<Path>)
      requires Copying(x, entries) && x.ws[|x.ws| - 1] in x.fs && q in Below(x.fs, x.ws[|x.ws| - 1]) && x.fs[q].Link?
      requires x.fs[q].to.Some? ==> (First(x.fs, x.ws[|x.ws| - 1], q) <==> x.fs[q].to.value !in seen)
      requires Under(x.top, target) && Vacant(entries, target)
      modifies this
      ensures SameOutside(old(entries), entries, target)
      ensures ok <==> Step(x.fs, x.ws, denied, q)
      ensures ok ==> x.fs[q].to.Some? && seen' == seen + {x.fs[q].to.value}
      ensures ok ==> forall rel: Path :: Lookup(entries, target + rel) == Image(x.fs, x.ws, q, rel)
      decreases Remaining(x.fs, x.ws), 1
    {
      ReadsSource(x, entries, q);
      NothingThere(entries, target);
      var link := entries[q];
      seen' := seen;
      if link.to.None? {
        return false, seen';
      }
      var resolved := link.to.value;
      if resolved in seen {
        LinkSkipped(x, q);
        assert seen + {resolved} == seen;
        return true, seen';
      }
      seen' := seen + {resolved};
      ok := CopyResolved(x, q, resolved, target);
    }

    /** The part of copySymlink after the seen check. */
    method CopyResolved(ghost x: Context, ghost q: Path, resolved: Path, target: Path) returns (ok: bool)
      requires Copying(x, entries) && x.ws[|x.ws| - 1] in x.fs && q in Below(x.fs, x.ws[|x.ws| - 1])
      requires x.fs[q] == Link(Some(resolved)) && First(x.fs, x.ws[|x.ws| - 1], q)
      requires Under(x.top, target) && Vacant(entries, target)
      modifies this
      ensures SameOutside(old(entries), entries, target)
      ensures ok <==> Step(x.fs, x.ws, denied, q)
      ensures ok ==> forall rel: Path :: Lookup(entries, target + rel) == Image(x.fs, x.ws, q, rel)
      decreases Remaining(x.fs, x.ws), 0
    {
      LinkFollowed(x, denied, q);
      ReadsSource(x, entries, resolved);
      NothingThere(entries, target);
      if entries[resolved].Dir? {
        Expand(x.fs, x.ws, resolved);
        ok := CopyTree(Context(x.fs, x.ws + [resolved], x.top), resolved, target);
      } else {
        ok := CopyFile(resolved, target);
        if ok {
          OneFile(old(entries), target, x.fs[resolved]);
        }
      }
    }

    /** The callback copyTree gives to the walk. */
    method Visit(ghost x: Context, src: Path, q: Path, dst: Path, seen: set<Path>, ghost done: set<Path>)
      returns (ok: bool, seen': set<Path>)
      requires InProgress(x, entries, dst, q, done) && SeenBy(x.fs, done, seen) && src == x.ws[|x.ws| - 1]
      modifies this
      ensures SameOutside(old(entries), entries, dst)
      ensures ok <==> Step(x.fs, x.ws, denied, q)
      ensures ok ==> Built(x, entries, dst, done + {q}) && SeenBy(x.fs, done + {q}, seen')
      decreases Remaining(x.fs, x.ws), 3
    {
      ReadsSource(x, entries, q);
      if entries[q].Link? {
        ok, seen' := VisitLink(x, src, q, dst, seen, done);
      } else {
        ok := VisitNode(x, src, q, dst, done);
        seen' := seen;
      }
    }

    method VisitNode(ghost x: Context, src: Path, q: Path, dst: Path, ghost done: set<Path>) returns (ok: bool)
      requires InProgress(x, entries, dst, q, done) && src == x.ws[|x.ws| - 1] && !x.fs[q].Link?
      modifies this
      ensures SameOutside(old(entries), entries, dst)
      ensures ok <==> q !in denied
      ensures ok ==> Built(x, entries, dst, done + {q})
    {
      var target := dst + q[|src|..];
      assert target[..|dst|] == dst;
      ReadsSource(x, entries, q);
      ParentMade(x, entries, dst, q, done);
      TargetVacant(x, entries, dst, q, done, []);
      assert target + [] == target;
      if entries[q].Dir? {
        ok := MkdirAll(target);
        ok := q !in denied;
      } else {
        ok := CopyFile(q, target);
      }
      if ok {
        BuiltNode(x, old(entries), entries, dst, q, done);
      }
    }

    method VisitLink(ghost x: Context, src: Path, q: Path, dst: Path, seen: set<Path>, ghost done: set<Path>)
      returns (ok: bool, seen': set<Path>)
      requires InProgress(x, entries, dst, q, done) && SeenBy(x.fs, done, seen) && src == x.ws[|x.ws| - 1]
      requires x.fs[q].Link?
      modifies this
      ensures SameOutside(old(entries), entries, dst)
      ensures ok <==> Step(x.fs, x.ws, denied, q)
      ensures ok ==> Built(x, entries, dst, done + {q}) && SeenBy(x.fs, done + {q}, seen')
      decreases Remaining(x.fs, x.ws), 2
    {
      var target := dst + q[|src|..];
      assert Under(dst, target) by { assert target[..|dst|] == dst; }
      LinkVacant(x, entries, dst, q, done);
      UnderTransitive(x.top, dst, target);
      if x.fs[q].to.Some? {
        SeenMeansNotFirst(x, q, done, seen);
      }
      ok, seen' := CopySymlink(x, q, target, seen);
      if ok {
        BuiltLink(x, old(entries), entries, dst, q, done);
      }
      OutsideNarrower(old(entries), entries, dst, target);
    }

    method CopyTree(ghost x: Context, src: Path, dst: Path) returns (ok: bool)
      requires Copying(x, entries) && src == x.ws[|x.ws| - 1] && src in x.fs
      requires Under(x.top, dst) && Vacant(entries, dst)
      modifies this
      ensures SameOutside(old(entries), entries, dst)
      ensures ok <==> Copyable(x.fs, x.ws, denied)
      ensures ok ==> forall rel: Path :: Lookup(entries, dst + rel) == Image(x.fs, x.ws, src, rel)
      decreases Remaining(x.fs, x.ws), 4
    {
      var seen: set<Path> := {};
      ReadsSource(x, entries, src);
      SameWalk(x, entries, src);
      var walk := WalkDir(src);
      StartHalfway(x, denied, entries, dst);
      for i := 0 to |walk|
        invariant Halfway(x, denied, old(entries), entries, dst, i, seen)
      {
        ReadyToVisit(x, denied, old(entries), entries, dst, i, seen);
        ghost var before, seenBefore := entries, seen;
        ok, seen := Visit(x, src, walk[i], dst, seen, Elements(walk[..i]));
        if !ok {
          OutsideTwice(old(entries), before, entries, dst);
          return false;
        }
        Advance(x, denied, old(entries), before, entries, dst, i, seenBefore, seen);
      }
      ok := true;
      AllVisited(x, denied, old(entries), entries, dst, seen);
    }

    /**
     NewWorkspace's use of copyTree: a module copied to a fresh directory. It ends whenever no
     directory link leads back, fails only if something cannot be read or resolved, and leaves
     the source alone.
     */
    method CopyModule(src: Path, dst: Path) returns (ok: bool)
      requires WellFormed(entries) && Acyclic(entries, src) && Disjoint(entries, src, dst)
      requires dst != [] && dst[..|dst| - 1] in entries && entries[dst[..|dst| - 1]].Dir?
      modifies this
      ensures SameOutside(old(entries), entries, dst)
      ensures Expanding(old(entries), [src])
      ensures ok <==> src in old(entries) && Copyable(old(entries), [src], denied)
      ensures ok ==> forall rel: Path :: Lookup(entries, dst + rel) == Unfolding(old(entries), src, rel)
    {
      assert Chain(entries, [src]);
      if src !in entries {
        return false;
      }
      assert dst[..|dst|] == dst;
      ok := CopyTree(Context(entries, [src], dst), src, dst);
    }
  }

  /** Directories and files of the walk are copied as they are. */
  lemma NodesCopied(fs: Files, src: Path, q: Path)
    requires WellFormed(fs) && Acyclic(fs, src) && q in fs && Under(src, q) && !fs[q].Link?
    ensures Unfolding(fs, src, q[|src|..]) == Some(fs[q])
  {
    assert Chain(fs, [src]);
    ResolveThrough(fs, [src], src, q, []);
    assert q[|src|..] + [] == q[|src|..];
  }

  /**
   A link is copied exactly when no lexically earlier link of the walk leads to the same
   place. "Followed once" therefore drops the second of two links to one file.
   */
  lemma LinkCopiedIff(fs: Files, src: Path, q: Path)
    requires WellFormed(fs) && Acyclic(fs, src) && q in fs && Under(src, q) && fs[q].Link? && fs[q].to.Some?
    ensures Unfolding(fs, src, q[|src|..]).Some? <==> First(fs, src, q)
    ensures First(fs, src, q) ==>
            fs[q].to.value in fs && Unfolding(fs, src, q[|src|..]) == Some(fs[fs[q].to.value])
    ensures !First(fs, src, q) ==> forall rel: Path :: Unfolding(fs, src, q[|src|..] + rel) == None
  {
    assert Chain(fs, [src]);
    assert Resolves(fs, q);
    ResolveThrough(fs, [src], src, q, []);
    assert q[|src|..] + [] == q[|src|..];
    if First(fs, src, q) {
      var t := fs[q].to.value;
      if fs[t].Dir? {
        assert q in Below(fs, src);
        Expand(fs, [src], t);
        assert Image(fs, [src] + [t], t, []) == Some(fs[t]);
      }
    } else {
      forall rel: Path
        ensures Unfolding(fs, src, q[|src|..] + rel) == None
      {
        ResolveThrough(fs, [src], src, q, rel);
      }
    }
  }

  /** A module with two links to one file. */
  ghost function TwiceLinked(content: string): Files {
    map[[] := Dir, ["f"] := File(content, 0), ["m"] := Dir,
        ["m", "a"] := Link(Some(["f"])), ["m", "b"] := Link(Some(["f"]))]
  }

  lemma LongChainLeads(fs: Files, ws: seq<Path>)
    requires Chain(fs, ws) && |ws| > 1
    ensures exists w, t :: LeadsTo(fs, w, t)
  {
    assert LeadsTo(fs, ws[0], ws[1]);
  }

  lemma NoDirectoryLinks(content: string)
    ensures WellFormed(TwiceLinked(content)) && Acyclic(TwiceLinked(content), ["m"])
  {
    var fs := TwiceLinked(content);
    assert ["m", "a"][..1] == ["m"] && ["m", "b"][..1] == ["m"] && ["m"][..0] == [] && ["f"][..0] == [];
    forall w, t ensures !LeadsTo(fs, w, t) {}
    forall ws: seq<Path> | Chain(fs, ws) && ws != []
      ensures Distinct(ws)
    {
      if |ws| > 1 {
        LongChainLeads(fs, ws);
      }
    }
  }

  /** The first of the two is copied and the second is missing from the copy, though there is no cycle. */
  lemma SecondLinkDropped(content: string)
    ensures WellFormed(TwiceLinked(content)) && Acyclic(TwiceLinked(content), ["m"])
    ensures Unfolding(TwiceLinked(content), ["m"], ["a"]) == Some(File(content, 0))
    ensures Unfolding(TwiceLinked(content), ["m"], ["b"]) == None
  {
    var fs := TwiceLinked(content);
    NoDirectoryLinks(content);
    var a, b: Path := ["m", "a"], ["m", "b"];
    assert a[|["m"]|..] == ["a"] && b[|["m"]|..] == ["b"];
    assert Under(["m"], a) && Under(["m"], b);
    assert a in Below(fs, ["m"]) && fs[a] == fs[b];
    assert LexLess(a, b) by {
      assert a[1..] == ["a"] && b[1..] == ["b"];
      assert Less("a", "b");
    }
    LexAsymmetric(a, b);
    LexIrreflexive(a);
    assert forall q :: q in fs && fs[q] == fs[a] ==> q == a || q == b;
    LinkCopiedIff(fs, ["m"], a);
    LinkCopiedIff(fs, ["m"], b);
  }

  // ----- walks inside the walk -----

  lemma ImageOfLink(fs: Files, ws: seq<Path>, p: Path, t: Path, rel: Path)
    requires WellFormed(fs) && Expanding(fs, ws) && p in Below(fs, ws[|ws| - 1])
    requires fs[p] == Link(Some(t)) && First(fs, ws[|ws| - 1], p) && t in fs && fs[t].Dir?
    ensures Expanding(fs, ws + [t]) && Remaining(fs, ws + [t]) < Remaining(fs, ws)
    ensures Image(fs, ws, p, rel) == Image(fs, ws + [t], t, rel)
  {
    assert Resolves(fs, p);
    Expand(fs, ws, t);
  }

  lemma ImageOfNode(fs: Files, ws: seq<Path>, p: Path, rel: Path)
    requires WellFormed(fs) && Expanding(fs, ws) && Under(ws[|ws| - 1], p)
    requires p in fs && !fs[p].Link? && rel != []
    ensures Image(fs, ws, p, rel) == Image(fs, ws, p + [rel[0]], rel[1..])
  {
  }

  /** The walk `w` goes on below `p`, in `p` itself or through the link it is. */
  ghost predicate GoesOn(fs: Files, w: Path, p: Path, rel: Path)
    requires WellFormed(fs)
  {
    p in fs &&
    match fs[p]
    case Link(None) => false
    case Link(Some(t)) => First(fs, w, p) && Resolves(fs, p) && fs[t].Dir?
    case _ => rel != []
  }

  lemma ImageStops(fs: Files, vs: seq<Path>, ws: seq<Path>, p: Path, rel: Path)
    requires WellFormed(fs) && Expanding(fs, vs) && Expanding(fs, ws) && vs[|vs| - 1] == ws[|ws| - 1]
    requires Under(ws[|ws| - 1], p) && !GoesOn(fs, ws[|ws| - 1], p, rel)
    ensures Image(fs, vs, p, rel) == Image(fs, ws, p, rel)
  {
    assert Resolves(fs, p);
  }

  /** Below a directory nothing but the innermost walk in progress matters. */
  lemma {:induction false} ImageInnermost(fs: Files, vs: seq<Path>, ws: seq<Path>, p: Path, rel: Path)
    requires WellFormed(fs) && Expanding(fs, vs) && Expanding(fs, ws) && vs[|vs| - 1] == ws[|ws| - 1]
    requires Under(ws[|ws| - 1], p)
    ensures Image(fs, vs, p, rel) == Image(fs, ws, p, rel)
    decreases Remaining(fs, ws), |rel|
  {
    if !GoesOn(fs, ws[|ws| - 1], p, rel) {
      ImageStops(fs, vs, ws, p, rel);
    } else if fs[p].Link? {
      InnermostThroughLink(fs, vs, ws, p, fs[p].to.value, rel);
    } else {
      ImageOfNode(fs, vs, p, rel);
      ImageOfNode(fs, ws, p, rel);
      ImageInnermost(fs, vs, ws, p + [rel[0]], rel[1..]);
    }
  }

  lemma {:induction false} InnermostThroughLink(fs: Files, vs: seq<Path>, ws: seq<Path>, p: Path, t: Path, rel: Path)
    requires WellFormed(fs) && Expanding(fs, vs) && Expanding(fs, ws) && vs[|vs| - 1] == ws[|ws| - 1]
    requires p in Below(fs, ws[|ws| - 1])
    requires fs[p] == Link(Some(t)) && First(fs, ws[|ws| - 1], p) && t in fs && fs[t].Dir?
    ensures Image(fs, vs, p, rel) == Image(fs, ws, p, rel)
    decreases Remaining(fs, ws), |rel|, 0
  {
    ImageOfLink(fs, vs, p, t, rel);
    ImageOfLink(fs, ws, p, t, rel);
    ImageInnermost(fs, vs + [t], ws + [t], t, rel);
  }

  lemma AcyclicBelow(fs: Files, src: Path, t: Path)
    requires Acyclic(fs, src) && LeadsTo(fs, src, t)
    ensures Acyclic(fs, t)
  {
    forall ws: seq<Path> | Chain(fs, ws) && ws != [] && ws[0] == t
      ensures Distinct(ws)
    {
      var vs := [src] + ws;
      forall i | 0 <= i < |vs| - 1
        ensures LeadsTo(fs, vs[i], vs[i + 1])
      {
        assert i > 0 ==> LeadsTo(fs, ws[i - 1], ws[i]);
      }
      assert Chain(fs, vs) && Distinct(vs);
      assert forall i :: 0 <= i < |ws| ==> ws[i] == vs[i + 1];
    }
  }

  /**
   At the place of a followed directory link stands a copy of its target in its own right, with a
   table of targets of its own. What holds of copies therefore holds in them, at every depth.
   */
  lemma LinkUnfolds(fs: Files, src: Path, q: Path, t: Path, rel: Path)
    requires WellFormed(fs) && Acyclic(fs, src) && q in Below(fs, src) && fs[q] == Link(Some(t))
    requires First(fs, src, q) && t in fs && fs[t].Dir?
    ensures Acyclic(fs, t) && Unfolding(fs, src, q[|src|..] + rel) == Unfolding(fs, t, rel)
  {
    assert LeadsTo(fs, src, t);
    AcyclicBelow(fs, src, t);
    assert Chain(fs, [src]) && Chain(fs, [t]);
    ResolveThrough(fs, [src], src, q, rel);
    Expand(fs, [src], t);
    ImageInnermost(fs, [src] + [t], [t], t, rel);
  }

  /** A copy has no links in it, and every entry is some source node, byte for byte. */
  lemma CopyHasNoLinks(fs: Files, src: Path, rel: Path)
    requires WellFormed(fs) && Acyclic(fs, src) && Unfolding(fs, src, rel).Some?
    ensures var n := Unfolding(fs, src, rel).value; !n.Link? && exists q :: q in fs && fs[q] == n
  {
    assert Chain(fs, [src]);
    ImageIsSource(fs, [src], src, rel);
  }

  lemma OutsideNarrower(before: Files, now: Files, dst: Path, target: Path)
    requires SameOutside(before, now, target) && Under(dst, target)
    ensures SameOutside(before, now, dst)
  {
    OutsideKept(before, before, now, dst, target);
  }

  lemma OutsideTwice(a: Files, b: Files, c: Files, dst: Path)
    requires SameOutside(a, b, dst) && SameOutside(b, c, dst)
    ensures SameOutside(a, c, dst)
  {
  }

  lemma StartBuilt(x: Context, now: Files, dst: Path)
    requires WellFormed(x.fs) && Expanding(x.fs, x.ws) && Vacant(now, dst)
    ensures Built(x, now, dst, {})
  {
    forall rel: Path
      ensures Lookup(now, dst + rel) == None
    {
      assert (dst + rel)[..|dst|] == dst;
    }
  }

  /** When every node of the walk has been copied the whole image is there. */
  lemma AllBuilt(x: Context, now: Files, dst: Path)
    requires WellFormed(x.fs) && Expanding(x.fs, x.ws) && x.ws[|x.ws| - 1] in x.fs
    requires Built(x, now, dst, Elements(Walk(x.fs, x.ws[|x.ws| - 1])))
    ensures forall rel: Path :: Lookup(now, dst + rel) == Image(x.fs, x.ws, x.ws[|x.ws| - 1], rel)
  {
    var w := x.ws[|x.ws| - 1];
    forall rel: Path
      ensures Lookup(now, dst + rel) == Image(x.fs, x.ws, w, rel)
    {
      var q := Owner(x.fs, w, rel);
      assert Lookup(now, dst + rel) == Expected(x, Elements(Walk(x.fs, w)), rel);
      OwnerBelow(x.fs, w, rel);
      WalkVisits(x.fs, w, q);
      if q !in x.fs {
        NoOwnerNoImage(x.fs, x.ws, w, rel);
      }
    }
  }

  lemma {:induction false} NoOwnerNoImage(fs: Files, ws: seq<Path>, p: Path, rel: Path)
    requires Expanding(fs, ws) && WellFormed(fs) && Under(ws[|ws| - 1], p)
    requires Owner(fs, p, rel) !in fs
    ensures Image(fs, ws, p, rel) == None
    decreases |rel|
  {
    if p in fs {
      UnderTransitive(ws[|ws| - 1], p, p + [rel[0]]);
      NoOwnerNoImage(fs, ws, p + [rel[0]], rel[1..]);
    }
  }
}
