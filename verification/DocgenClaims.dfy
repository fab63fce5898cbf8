/**
 The answers of `check` and `scan`, field by field: which function or comment each element comes
 from, how often it is there, and in which order.
 */
module DocgenClaims {
  import opened Concatenation
  import opened Options
  import opened Sorting
  import opened Markers
  import opened DocgenSource
  import opened StableSorting
  import opened Docgen

  // ----- fields -----

  ghost predicate EndsIn(path: string, suffix: string) {
    exists stem: string :: stem + suffix == path
  }

  lemma HasSuffixMeans(s: string, suffix: string)
    ensures HasSuffix(s, suffix) <==> EndsIn(s, suffix)
  {
    if HasSuffix(s, suffix) {
      assert s[..|s| - |suffix|] + suffix == s;
    }
    forall stem: string | stem + suffix == s ensures HasSuffix(s, suffix) {
      assert |stem| == |s| - |suffix| && s[|stem|..] == suffix;
    }
  }

  /** `d` is a method on `t` or on `*t`. */
  predicate MethodOn(d: Decl, t: string)
    requires d.Func?
  {
    d.recv != [] && (d.recv[0] == TypeName(t) || d.recv[0] == Star(TypeName(t)))
  }

  /** The receiver reported for a function: its type without the star, or nothing. */
  ghost predicate Receives(d: Decl, receiver: string)
    requires d.Func?
  {
    if exists t :: MethodOn(d, t) then MethodOn(d, receiver) else receiver == ""
  }

  lemma ReceiverRead(d: Decl, receiver: string)
    requires d.Func?
    ensures Receives(d, receiver) <==> receiver == ReceiverType(d)
  {
    if d.recv != [] {
      match d.recv[0] {
        case TypeName(t) => assert MethodOn(d, t);
        case Star(TypeName(t)) => assert MethodOn(d, t);
        case _ =>
      }
    }
  }

  /** `v` names the function `d` of `f` and the place of its declaration. */
  ghost predicate Reports(f: File, d: Decl, v: Violation)
    requires d.Func?
  {
    v.name == d.name && Receives(d, v.receiver) && v.package == f.package && v.file == f.path && v.line == d.line
  }

  /** `e` names the function `d` of `f`, what its comment `k` says, and the place of that comment. */
  ghost predicate Lists(f: File, d: Decl, k: nat, e: Entry)
    requires d.Func?
  {
    && e.name == d.name && Receives(d, e.receiver) && e.package == f.package && e.file == f.path
    && d.doc.Some? && k < |d.doc.value| && e.line == d.doc.value[k].line
    && MarkerOf(d.doc.value[k].text) == Some(Marker(e.tags, e.reason))
  }

  /** A Go file that is not a test. */
  ghost predicate Shipped(f: File) {
    EndsIn(f.path, ".go") && !EndsIn(f.path, "_test.go")
  }

  /** Function `j` of file `i` calls RequirePro and no line of its comment is a marker. */
  ghost predicate Offends(files: seq<File>, i: nat, j: nat) {
    && i < |files| && Shipped(files[i]) && j < |files[i].decls| && files[i].decls[j].Func?
    && CallsPro(files[i].decls[j]) && !Marked(files[i].decls[j])
  }

  lemma OffendsIsFaulty(files: seq<File>, i: nat, j: nat)
    ensures Offends(files, i, j) <==> FaultyAt(files, i, j)
  {
    if i < |files| {
      HasSuffixMeans(files[i].path, ".go");
      HasSuffixMeans(files[i].path, "_test.go");
    }
  }

  lemma ReportsOnlyOne(f: File, d: Decl, v: Violation)
    requires d.Func?
    ensures Reports(f, d, v) <==> v == ViolationOf(f, d)
  {
    ReceiverRead(d, v.receiver);
  }

  lemma ListsOnlyOne(f: File, d: Decl, k: nat, e: Entry)
    requires d.Func?
    ensures Lists(f, d, k, e) <==> MarkerAt(d, k) && e == EntryOf(f, d, k)
  {
    ReceiverRead(d, e.receiver);
  }

  /** `check` answers the violations of the offending functions, each named and placed rightly. */
  lemma ViolationFields(files: seq<File>, v: Violation)
    ensures v in CheckResult(files)
            <==> exists i: nat, j: nat :: Offends(files, i, j) && Reports(files[i], files[i].decls[j], v)
  {
    ReportedIff(files, v);
    if v in CheckResult(files) {
      var q: (nat, nat) :| FaultyAt(files, q.0, q.1) && v == ReportAt(files, q);
      OffendsIsFaulty(files, q.0, q.1);
      ReportsOnlyOne(files[q.0], files[q.0].decls[q.1], v);
    }
    forall i: nat, j: nat | Offends(files, i, j) && Reports(files[i], files[i].decls[j], v)
      ensures v in CheckResult(files)
    {
      OffendsIsFaulty(files, i, j);
      ReportsOnlyOne(files[i], files[i].decls[j], v);
      var q: (nat, nat) := (i, j);
      assert FaultyAt(files, q.0, q.1) && v == ReportAt(files, q);
    }
  }

  /** Comment `k` of function `j` of file `i`, a Go file, is what `e` says. */
  ghost predicate ListedAt(files: seq<File>, e: Entry, i: nat, j: nat, k: nat) {
    && i < |files| && EndsIn(files[i].path, ".go") && j < |files[i].decls| && files[i].decls[j].Func?
    && Lists(files[i], files[i].decls[j], k, e)
  }

  lemma ListedIsFrom(files: seq<File>, e: Entry, i: nat, j: nat, k: nat)
    ensures ListedAt(files, e, i, j, k) <==> EntryFrom(files, e, i, j, k)
  {
    if i < |files| {
      HasSuffixMeans(files[i].path, ".go");
      if j < |files[i].decls| && files[i].decls[j].Func? {
        ListsOnlyOne(files[i], files[i].decls[j], k, e);
      }
    }
  }

  /** `scan` answers the entries of the marker comments, each named, read and placed rightly. */
  lemma EntryFields(files: seq<File>, e: Entry)
    ensures e in ScanResult(files) <==> exists i: nat, j: nat, k: nat :: ListedAt(files, e, i, j, k)
  {
    ScanIsExact(files, e);
    if e in ScanResult(files) {
      var i: nat, j: nat, k: nat :| EntryFrom(files, e, i, j, k);
      ListedIsFrom(files, e, i, j, k);
    }
    forall i: nat, j: nat, k: nat | ListedAt(files, e, i, j, k) ensures e in ScanResult(files) {
      ListedIsFrom(files, e, i, j, k);
    }
  }

  // ----- order -----

  /** Violations are ordered by file and then by line. */
  lemma CheckInOrder(files: seq<File>)
    ensures var vs := CheckResult(files);
            forall k, l :: 0 <= k < l < |vs| ==>
              !Less(vs[l].file, vs[k].file) && (vs[k].file == vs[l].file ==> vs[k].line <= vs[l].line)
  {
    SortedStably(AllReports(files, |files|), ViolationPlace);
    var vs := CheckResult(files);
    forall k, l | 0 <= k < l < |vs|
      ensures !Less(vs[l].file, vs[k].file) && (vs[k].file == vs[l].file ==> vs[k].line <= vs[l].line)
    {
      assert !Before(ViolationPlace(vs[l]), ViolationPlace(vs[k]));
      LessIrreflexive(vs[k].file);
    }
  }

  /** Entries are ordered by package, then by file, then by line. */
  lemma ScanInOrder(files: seq<File>)
    ensures var es := ScanResult(files);
            forall k, l :: 0 <= k < l < |es| ==>
              && !Less(es[l].package, es[k].package)
              && (es[k].package == es[l].package ==>
                    && !Less(es[l].file, es[k].file)
                    && (es[k].file == es[l].file ==> es[k].line <= es[l].line))
  {
    SortedStably(AllEntries(files), EntryPlace);
    var es := ScanResult(files);
    forall k, l | 0 <= k < l < |es|
      ensures !Less(es[l].package, es[k].package)
      ensures es[k].package == es[l].package ==>
                && !Less(es[l].file, es[k].file)
                && (es[k].file == es[l].file ==> es[k].line <= es[l].line)
    {
      assert !Before(EntryPlace(es[l]), EntryPlace(es[k]));
      LessIrreflexive(es[k].package);
      LessIrreflexive(es[k].file);
    }
  }

  // ----- one entry for each marker comment -----

  predicate Precedes(p: (nat, nat, nat), q: (nat, nat, nat)) {
    p.0 < q.0 || (p.0 == q.0 && (p.1 < q.1 || (p.1 == q.1 && p.2 < q.2)))
  }

  /** How many comment lines `scan` looks at for declaration `j`. */
  function Comments(f: File, j: nat): nat {
    if j < |f.decls| && f.decls[j].Func? && f.decls[j].doc.Some? then |f.decls[j].doc.value| else 0
  }

  ghost predicate MarkAt(files: seq<File>, q: (nat, nat, nat)) {
    && q.0 < |files| && Scanned(files[q.0]) && q.1 < |files[q.0].decls| && files[q.0].decls[q.1].Func?
    && MarkerAt(files[q.0].decls[q.1], q.2)
  }

  /** The marker comments before comment `k` of declaration `j` of file `i`. */
  ghost function Marks(files: seq<File>, i: nat, j: nat, k: nat): seq<(nat, nat, nat)>
    requires i < |files| && j <= |files[i].decls| && k <= Comments(files[i], j)
    decreases i, j, k
  {
    if k > 0 then Marks(files, i, j, k - 1) + if MarkAt(files, (i, j, k - 1)) then [(i, j, k - 1)] else []
    else if j > 0 then Marks(files, i, j - 1, Comments(files[i], j - 1))
    else if i > 0 then Marks(files, i - 1, |files[i - 1].decls|, 0)
    else []
  }

  ghost predicate InSourceOrder(p: seq<(nat, nat, nat)>) {
    forall l, m :: 0 <= l < m < |p| ==> Precedes(p[l], p[m])
  }

  ghost predicate AllPrecede(p: seq<(nat, nat, nat)>, q: (nat, nat, nat)) {
    forall l :: 0 <= l < |p| ==> Precedes(p[l], q)
  }

  lemma PrecedeLater(p: seq<(nat, nat, nat)>, q: (nat, nat, nat), r: (nat, nat, nat))
    requires AllPrecede(p, q) && (Precedes(q, r) || (q.0 == r.0 && q.1 == r.1 && q.2 == r.2))
    ensures AllPrecede(p, r)
  {
  }

  lemma {:induction false} MarksIncrease(files: seq<File>, i: nat, j: nat, k: nat)
    requires i < |files| && j <= |files[i].decls| && k <= Comments(files[i], j)
    ensures InSourceOrder(Marks(files, i, j, k)) && AllPrecede(Marks(files, i, j, k), (i, j, k))
    decreases i, j, k
  {
    if k > 0 {
      MarksIncrease(files, i, j, k - 1);
      PrecedeLater(Marks(files, i, j, k - 1), (i, j, k - 1), (i, j, k));
    } else if j > 0 {
      var c := Comments(files[i], j - 1);
      MarksIncrease(files, i, j - 1, c);
      PrecedeLater(Marks(files, i, j - 1, c), (i, j - 1, c), (i, j, 0));
    } else if i > 0 {
      var d := |files[i - 1].decls|;
      MarksIncrease(files, i - 1, d, 0);
      PrecedeLater(Marks(files, i - 1, d, 0), (i - 1, d, 0), (i, 0, 0));
    }
  }

  lemma {:induction false} MarksExact(files: seq<File>, i: nat, j: nat, k: nat, q: (nat, nat, nat))
    requires i < |files| && j <= |files[i].decls| && k <= Comments(files[i], j)
    ensures q in Marks(files, i, j, k) <==> MarkAt(files, q) && Precedes(q, (i, j, k))
    decreases i, j, k
  {
    if k > 0 {
      MarksExact(files, i, j, k - 1, q);
      assert q == (i, j, k - 1) <==> q.0 == i && q.1 == j && q.2 == k - 1;
    } else if j > 0 {
      MarksExact(files, i, j - 1, Comments(files[i], j - 1), q);
    } else if i > 0 {
      MarksExact(files, i - 1, |files[i - 1].decls|, 0, q);
    }
  }

  ghost predicate OnePerMark(files: seq<File>, es: seq<Entry>, p: seq<(nat, nat, nat)>) {
    |es| == |p| && forall l :: 0 <= l < |p| ==> MarkAt(files, p[l]) && es[l] == MarkEntry(files, p[l])
  }

  ghost function MarkEntry(files: seq<File>, q: (nat, nat, nat)): Entry
    requires MarkAt(files, q)
  {
    EntryOf(files[q.0], files[q.0].decls[q.1], q.2)
  }

  lemma OneMoreMark(files: seq<File>, q: (nat, nat, nat), es: seq<Entry>, p: seq<(nat, nat, nat)>)
    requires OnePerMark(files, es, p) && MarkAt(files, q)
    ensures OnePerMark(files, es + [MarkEntry(files, q)], p + [q])
  {
  }

  /** What the scan has gathered before comment `k` of declaration `j` of file `i`. */
  ghost function Found(files: seq<File>, i: nat, j: nat, k: nat): seq<Entry>
    requires i < |files| && j <= |files[i].decls| && k <= Comments(files[i], j)
  {
    if !Scanned(files[i]) then AllEntries(files[..i])
    else
      AllEntries(files[..i]) + (FileEntries(files[i], j) + if k > 0 then DocEntries(files[i], files[i].decls[j], k) else [])
  }

  lemma FoundComment(files: seq<File>, i: nat, j: nat, k: nat)
    requires i < |files| && j <= |files[i].decls| && 0 < k <= Comments(files[i], j)
    ensures Found(files, i, j, k)
            == Found(files, i, j, k - 1) + if MarkAt(files, (i, j, k - 1)) then [MarkEntry(files, (i, j, k - 1))] else []
  {
    var f := files[i];
    if Scanned(f) {
      var before := if k > 1 then DocEntries(f, f.decls[j], k - 1) else [];
      var one := if MarkAt(files, (i, j, k - 1)) then [MarkEntry(files, (i, j, k - 1))] else [];
      assert DocEntries(f, f.decls[j], k) == before + one;
      AssocMiddle(AllEntries(files[..i]), FileEntries(f, j), before, one);
    }
  }

  lemma FoundDeclaration(files: seq<File>, i: nat, j: nat)
    requires i < |files| && 0 < j <= |files[i].decls|
    ensures Found(files, i, j, 0) == Found(files, i, j - 1, Comments(files[i], j - 1))
  {
    if Scanned(files[i]) {
      assert FileEntries(files[i], j) + [] == FileEntries(files[i], j);
    }
  }

  lemma FoundFile(files: seq<File>, i: nat)
    requires i < |files|
    ensures AllEntries(files[..i + 1]) == Found(files, i, |files[i].decls|, 0)
  {
    assert files[..i + 1] == files[..i] + [files[i]];
    FlatSnoc(files[..i], files[i], ByFile());
    assert FileEntries(files[i], |files[i].decls|) + [] == FileEntries(files[i], |files[i].decls|);
  }

  lemma {:induction false} FoundFollowMarks(files: seq<File>, i: nat, j: nat, k: nat)
    requires i < |files| && j <= |files[i].decls| && k <= Comments(files[i], j)
    ensures OnePerMark(files, Found(files, i, j, k), Marks(files, i, j, k))
    decreases i, j, k
  {
    if k > 0 {
      FoundFollowMarks(files, i, j, k - 1);
      FoundComment(files, i, j, k);
      if MarkAt(files, (i, j, k - 1)) {
        OneMoreMark(files, (i, j, k - 1), Found(files, i, j, k - 1), Marks(files, i, j, k - 1));
      }
    } else if j > 0 {
      FoundFollowMarks(files, i, j - 1, Comments(files[i], j - 1));
      FoundDeclaration(files, i, j);
    } else if i > 0 {
      FoundFollowMarks(files, i - 1, |files[i - 1].decls|, 0);
      FoundFile(files, i - 1);
    }
  }

  /** `scan` answers exactly one entry for each marker comment. */
  lemma OneEntryPerMarker(files: seq<File>) returns (p: seq<(nat, nat, nat)>, es: seq<Entry>)
    ensures OnePerMark(files, es, p)
    ensures forall l, m :: 0 <= l < m < |p| ==> p[l] != p[m]
    ensures forall q :: q in p <==> MarkAt(files, q)
    ensures multiset(ScanResult(files)) == multiset(es)
  {
    es := AllEntries(files);
    if files == [] {
      p := [];
    } else {
      var i := |files| - 1;
      var j := |files[i].decls|;
      p := Marks(files, i, j, 0);
      MarksIncrease(files, i, j, 0);
      forall l, m | 0 <= l < m < |p| ensures p[l] != p[m] {
        assert Precedes(p[l], p[m]);
      }
      forall q ensures q in p <==> MarkAt(files, q) {
        MarksExact(files, i, j, 0, q);
      }
      FoundFollowMarks(files, i, j, 0);
      FoundFile(files, i);
      assert files[..i + 1] == files;
    }
  }
}
