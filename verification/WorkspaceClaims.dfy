/** When a module can be copied, said of the files it reaches. */
module WorkspaceClaims {
  import opened Sorting
  import opened WorkspaceFiles
  import opened Workspace
  import opened Options

  /** A node can be opened: no dangling link, nothing that cannot be read, no link to such a file. */
  ghost predicate Opens(fs: Files, denied: set<Path>, p: Path) {
    p in fs &&
    match fs[p]
    case Link(None) => false
    case Link(Some(t)) => t in fs && (fs[t].Dir? || t !in denied)
    case _ => p !in denied
  }

  ghost predicate AllOpen(fs: Files, denied: set<Path>, w: Path) {
    forall p :: p in Below(fs, w) ==> Opens(fs, denied, p)
  }

  /** Directory links lead from `w` to `t`, through any number of walks; `w` reaches itself. */
  ghost predicate Reaches(fs: Files, w: Path, t: Path) {
    exists ws: seq<Path> :: Chain(fs, ws) && ws != [] && ws[0] == w && ws[|ws| - 1] == t
  }

  lemma ReachesItself(fs: Files, w: Path)
    ensures Reaches(fs, w, w)
  {
    assert Chain(fs, [w]);
  }

  lemma ChainRest(fs: Files, ws: seq<Path>)
    requires Chain(fs, ws) && |ws| > 1
    ensures Chain(fs, ws[1..]) && LeadsTo(fs, ws[0], ws[1])
  {
    forall i | 0 <= i < |ws[1..]| - 1 ensures LeadsTo(fs, ws[1..][i], ws[1..][i + 1]) {
      assert LeadsTo(fs, ws[i + 1], ws[i + 2]);
    }
  }

  lemma ReachesFurther(fs: Files, w: Path, t: Path, u: Path)
    requires LeadsTo(fs, w, t) && Reaches(fs, t, u)
    ensures Reaches(fs, w, u)
  {
    var ws: seq<Path> :| Chain(fs, ws) && ws != [] && ws[0] == t && ws[|ws| - 1] == u;
    var vs := [w] + ws;
    forall i | 0 <= i < |vs| - 1 ensures LeadsTo(fs, vs[i], vs[i + 1]) {
      assert i > 0 ==> LeadsTo(fs, ws[i - 1], ws[i]);
    }
    assert Chain(fs, vs);
  }

  /** Of the links to one file a walk follows one. */
  lemma SomeFirst(fs: Files, w: Path, p: Path) returns (q: Path)
    requires p in Below(fs, w)
    ensures q in Below(fs, w) && fs[q] == fs[p] && First(fs, w, q)
  {
    var same := set q | q in Below(fs, w) && fs[q] == fs[p];
    assert p in same;
    q := LexFirst(same);
  }

  lemma CopyableOpens(fs: Files, ws: seq<Path>, denied: set<Path>)
    requires Expanding(fs, ws) && WellFormed(fs) && Copyable(fs, ws, denied)
    ensures AllOpen(fs, denied, ws[|ws| - 1])
  {
    var w := ws[|ws| - 1];
    forall p | p in Below(fs, w) ensures Opens(fs, denied, p) {
      assert Step(fs, ws, denied, p) && Resolves(fs, p);
      if fs[p].Link? {
        var q := SomeFirst(fs, w, p);
        assert Step(fs, ws, denied, q);
      }
    }
  }

  lemma CopyableFurther(fs: Files, ws: seq<Path>, denied: set<Path>, t: Path)
    requires Expanding(fs, ws) && WellFormed(fs) && Copyable(fs, ws, denied) && LeadsTo(fs, ws[|ws| - 1], t)
    ensures Expanding(fs, ws + [t]) && Copyable(fs, ws + [t], denied)
  {
    Expand(fs, ws, t);
    FollowsIff(fs, ws[|ws| - 1], t);
    var q :| q in Below(fs, ws[|ws| - 1]) && fs[q] == Link(Some(t)) && First(fs, ws[|ws| - 1], q);
    assert Step(fs, ws, denied, q);
  }

  /** Where copying succeeds, all that is reached opens. */
  lemma {:induction false} CopyableReaches(fs: Files, ws: seq<Path>, denied: set<Path>, vs: seq<Path>)
    requires Expanding(fs, ws) && WellFormed(fs) && Copyable(fs, ws, denied)
    requires vs != [] && Chain(fs, vs) && vs[0] == ws[|ws| - 1]
    ensures AllOpen(fs, denied, vs[|vs| - 1])
    decreases |vs|
  {
    if |vs| == 1 {
      CopyableOpens(fs, ws, denied);
    } else {
      ChainRest(fs, vs);
      CopyableFurther(fs, ws, denied, vs[1]);
      CopyableReaches(fs, ws + [vs[1]], denied, vs[1..]);
    }
  }

  /** Where all that is reached opens, copying succeeds. */
  lemma {:induction false} OpenCopies(fs: Files, ws: seq<Path>, denied: set<Path>)
    requires Expanding(fs, ws) && WellFormed(fs)
    requires forall t :: Reaches(fs, ws[|ws| - 1], t) ==> AllOpen(fs, denied, t)
    ensures Copyable(fs, ws, denied)
    decreases Remaining(fs, ws)
  {
    var w := ws[|ws| - 1];
    ReachesItself(fs, w);
    assert AllOpen(fs, denied, w);
    forall p | p in Below(fs, w) ensures Step(fs, ws, denied, p) {
      assert Opens(fs, denied, p) && Resolves(fs, p);
      if fs[p].Link? && First(fs, w, p) && fs[fs[p].to.value].Dir? {
        var t := fs[p].to.value;
        Expand(fs, ws, t);
        forall u | Reaches(fs, t, u) ensures AllOpen(fs, denied, u) {
          ReachesFurther(fs, w, t, u);
        }
        OpenCopies(fs, ws + [t], denied);
      }
    }
  }

  /**
   A module without links leading back is copied exactly if every node of it, and of the directories
   its links lead to at any depth, opens: one dangling link or unreadable file anywhere fails the copy,
   even where the link would be skipped.
   */
  lemma CopyableIff(fs: Files, src: Path, denied: set<Path>)
    requires WellFormed(fs) && Acyclic(fs, src)
    ensures Expanding(fs, [src])
    ensures Copyable(fs, [src], denied) <==> forall t, p :: Reaches(fs, src, t) && p in Below(fs, t) ==> Opens(fs, denied, p)
  {
    assert Chain(fs, [src]);
    if Copyable(fs, [src], denied) {
      forall t, p | Reaches(fs, src, t) && p in Below(fs, t) ensures Opens(fs, denied, p) {
        var vs: seq<Path> :| Chain(fs, vs) && vs != [] && vs[0] == src && vs[|vs| - 1] == t;
        CopyableReaches(fs, [src], denied, vs);
      }
    }
    if forall t, p :: Reaches(fs, src, t) && p in Below(fs, t) ==> Opens(fs, denied, p) {
      OpenCopies(fs, [src], denied);
    }
  }
}
