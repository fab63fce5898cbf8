/** docgen's `check` and `scan` over the files of a repository, and their agreement. */
module Docgen {
  import Concatenation
  import opened Options
  import opened Markers
  import opened DocgenSource
  import opened StableSorting

  datatype Violation = Violation(name: string, receiver: string, package: string, file: string, line: int)

  datatype Entry = Entry(name: string, receiver: string, package: string, tags: seq<string>, reason: string,
                         file: string, line: int)

  predicate HasSuffix(s: string, suffix: string) {
    |suffix| <= |s| && s[|s| - |suffix|..] == suffix
  }

  predicate Scanned(f: File) {
    HasSuffix(f.path, ".go")
  }

  predicate Checked(f: File) {
    HasSuffix(f.path, ".go") && !HasSuffix(f.path, "_test.go")
  }

  /** sort keys: check orders by file and line, scan by package first */
  function ViolationPlace(v: Violation): Place {
    Place("", v.file, v.line)
  }

  function EntryPlace(e: Entry): Place {
    Place(e.package, e.file, e.line)
  }

  // ----- one declaration at a time -----

  ghost predicate Faulty(f: File, j: nat) {
    j < |f.decls| && f.decls[j].Func? && CallsPro(f.decls[j]) && !Marked(f.decls[j])
  }

  function ViolationOf(f: File, d: Decl): Violation
    requires d.Func?
  {
    Violation(d.name, ReceiverType(d), f.package, f.path, d.line)
  }

  function EntryOf(f: File, d: Decl, k: nat): Entry
    requires d.Func? && MarkerAt(d, k)
  {
    var m := MarkerOf(d.doc.value[k].text).value;
    Entry(d.name, ReceiverType(d), f.package, m.tags, m.reason, f.path, d.doc.value[k].line)
  }

  // ----- what the loops gather -----

  ghost function Reports(f: File, n: nat): seq<Violation>
    requires n <= |f.decls|
  {
    if n == 0 then []
    else Reports(f, n - 1) + if Faulty(f, n - 1) then [ViolationOf(f, f.decls[n - 1])] else []
  }

  ghost function AllReports(files: seq<File>, n: nat): seq<Violation>
    requires n <= |files|
  {
    if n == 0 then []
    else AllReports(files, n - 1) + if Checked(files[n - 1]) then Reports(files[n - 1], |files[n - 1].decls|) else []
  }

  ghost function DocEntries(f: File, d: Decl, n: nat): seq<Entry>
    requires d.Func? && d.doc.Some? && n <= |d.doc.value|
  {
    if n == 0 then []
    else DocEntries(f, d, n - 1) + if MarkerAt(d, n - 1) then [EntryOf(f, d, n - 1)] else []
  }

  ghost function DeclEntries(f: File, d: Decl): seq<Entry> {
    if d.Func? && d.doc.Some? then DocEntries(f, d, |d.doc.value|) else []
  }

  ghost function FileEntries(f: File, n: nat): seq<Entry>
    requires n <= |f.decls|
  {
    if n == 0 then [] else FileEntries(f, n - 1) + DeclEntries(f, f.decls[n - 1])
  }

  /** What a file adds to the scan. */
  ghost function Contribution(f: File): seq<Entry> {
    if Scanned(f) then FileEntries(f, |f.decls|) else []
  }

  ghost function ByFile(): File -> seq<Entry> {
    f => Contribution(f)
  }

  ghost function AllEntries(files: seq<File>): seq<Entry> {
    Concatenation.FlatMap(files, ByFile())
  }

  ghost function CheckResult(files: seq<File>): seq<Violation> {
    StableSort(AllReports(files, |files|), ViolationPlace)
  }

  ghost function ScanResult(files: seq<File>): seq<Entry> {
    StableSort(AllEntries(files), EntryPlace)
  }

  // ----- check -----

  method CheckFile(f: File) returns (out: seq<Violation>)
    ensures out == Reports(f, |f.decls|)
  {
    out := [];
    for j := 0 to |f.decls|
      invariant out == Reports(f, j)
    {
      var d := f.decls[j];
      if !d.Func? {
        continue;
      }
      var calls := CallsRequirePro(d);
      if !calls {
        continue;
      }
      var marked := HasMarker(d);
      if marked {
        continue;
      }
      out := out + [ViolationOf(f, d)];
    }
  }

  method Check(files: seq<File>) returns (violations: seq<Violation>)
    ensures violations == CheckResult(files)
  {
    violations := [];
    for i := 0 to |files|
      invariant violations == AllReports(files, i)
    {
      if !HasSuffix(files[i].path, ".go") || HasSuffix(files[i].path, "_test.go") {
        continue;
      }
      var out := CheckFile(files[i]);
      violations := violations + out;
    }
    violations := StableSort(violations, ViolationPlace);
  }

  // ----- scan -----

  method ScanFile(f: File) returns (out: seq<Entry>)
    ensures out == FileEntries(f, |f.decls|)
  {
    out := [];
    for j := 0 to |f.decls|
      invariant out == FileEntries(f, j)
    {
      var d := f.decls[j];
      if !d.Func? || d.doc.None? {
        continue;
      }
      ghost var before := out;
      for k := 0 to |d.doc.value|
        invariant out == before + DocEntries(f, d, k)
      {
        var m := ParseMarker(d.doc.value[k].text);
        if m.None? {
          continue;
        }
        out := out + [Entry(d.name, ReceiverType(d), f.package, m.value.tags, m.value.reason, f.path, d.doc.value[k].line)];
      }
    }
  }

  method Scan(files: seq<File>) returns (markers: seq<Entry>)
    ensures markers == ScanResult(files)
  {
    markers := [];
    for i := 0 to |files|
      invariant markers == AllEntries(files[..i])
    {
      assert files[..i + 1] == files[..i] + [files[i]];
      Concatenation.FlatSnoc(files[..i], files[i], ByFile());
      if !HasSuffix(files[i].path, ".go") {
        continue;
      }
      var out := ScanFile(files[i]);
      markers := markers + out;
    }
    assert files[..|files|] == files;
    markers := StableSort(markers, EntryPlace);
  }

  // ----- exactly one violation per faulty function -----

  /** The faulty functions before declaration `j` of file `i`. */
  ghost function Faults(files: seq<File>, i: nat, j: nat): (p: seq<(nat, nat)>)
    requires i < |files| && j <= |files[i].decls|
    decreases i, j
  {
    if j > 0 then Faults(files, i, j - 1) + if FaultyAt(files, i, j - 1) then [(i, j - 1)] else []
    else if i > 0 then Faults(files, i - 1, |files[i - 1].decls|)
    else []
  }

  ghost predicate FaultyAt(files: seq<File>, i: nat, j: nat) {
    i < |files| && Checked(files[i]) && Faulty(files[i], j)
  }

  predicate Earlier(p: (nat, nat), q: (nat, nat)) {
    p.0 < q.0 || (p.0 == q.0 && p.1 < q.1)
  }

  ghost predicate Increasing(p: seq<(nat, nat)>) {
    forall k, l :: 0 <= k < l < |p| ==> Earlier(p[k], p[l])
  }

  lemma {:induction false} FaultsIncrease(files: seq<File>, i: nat, j: nat)
    requires i < |files| && j <= |files[i].decls|
    ensures Increasing(Faults(files, i, j))
    ensures forall k :: 0 <= k < |Faults(files, i, j)| ==> Earlier(Faults(files, i, j)[k], (i, j))
    decreases i, j
  {
    if j > 0 {
      FaultsIncrease(files, i, j - 1);
    } else if i > 0 {
      FaultsIncrease(files, i - 1, |files[i - 1].decls|);
    }
  }

  lemma {:induction false} FaultsExact(files: seq<File>, i: nat, j: nat, q: (nat, nat))
    requires i < |files| && j <= |files[i].decls|
    ensures q in Faults(files, i, j) <==> FaultyAt(files, q.0, q.1) && Earlier(q, (i, j))
    decreases i, j
  {
    if j > 0 {
      FaultsExact(files, i, j - 1, q);
      assert q == (i, j - 1) <==> q.0 == i && q.1 == j - 1;
    } else if i > 0 {
      FaultsExact(files, i - 1, |files[i - 1].decls|, q);
    }
  }

  ghost function ReportAt(files: seq<File>, q: (nat, nat)): Violation
    requires FaultyAt(files, q.0, q.1)
  {
    ViolationOf(files[q.0], files[q.0].decls[q.1])
  }

  ghost predicate OnePerFault(files: seq<File>, vs: seq<Violation>, p: seq<(nat, nat)>) {
    |vs| == |p| && forall k :: 0 <= k < |p| ==> FaultyAt(files, p[k].0, p[k].1) && vs[k] == ReportAt(files, p[k])
  }

  lemma OneMoreDeclaration(files: seq<File>, i: nat, j: nat, vs: seq<Violation>, p: seq<(nat, nat)>,
                                              vs': seq<Violation>, p': seq<(nat, nat)>)
    requires OnePerFault(files, vs, p)
    requires vs' == vs + if FaultyAt(files, i, j) then [ReportAt(files, (i, j))] else []
    requires p' == p + if FaultyAt(files, i, j) then [(i, j)] else []
    ensures OnePerFault(files, vs', p')
  {
  }

  /** What has been gathered before declaration `j` of file `i`. */
  ghost function Gathered(files: seq<File>, i: nat, j: nat): seq<Violation>
    requires i < |files| && j <= |files[i].decls|
  {
    if Checked(files[i]) then AllReports(files, i) + Reports(files[i], j) else AllReports(files, i)
  }

  lemma GatheredStep(files: seq<File>, i: nat, j: nat)
    requires i < |files| && 0 < j <= |files[i].decls|
    ensures Gathered(files, i, j)
            == Gathered(files, i, j - 1) + if FaultyAt(files, i, j - 1) then [ReportAt(files, (i, j - 1))] else []
  {
    if FaultyAt(files, i, j - 1) {
      Concatenation.Assoc(AllReports(files, i), Reports(files[i], j - 1), [ReportAt(files, (i, j - 1))]);
    }
  }

  lemma {:induction false} ReportsFollowFaults(files: seq<File>, i: nat, j: nat)
    requires i < |files| && j <= |files[i].decls|
    ensures OnePerFault(files, Gathered(files, i, j), Faults(files, i, j))
    decreases i, j
  {
    if j > 0 {
      ReportsFollowFaults(files, i, j - 1);
      GatheredStep(files, i, j);
      OneMoreDeclaration(files, i, j - 1, Gathered(files, i, j - 1), Faults(files, i, j - 1),
                         Gathered(files, i, j), Faults(files, i, j));
    } else if i > 0 {
      ReportsFollowFaults(files, i - 1, |files[i - 1].decls|);
      NextFile(files, i);
    }
  }

  lemma NextFile(files: seq<File>, i: nat)
    requires 0 < i < |files|
    ensures Gathered(files, i, 0) == Gathered(files, i - 1, |files[i - 1].decls|)
  {
  }

  /** `check` answers exactly one violation for each faulty function, and nothing else. */
  lemma CheckIsExact(files: seq<File>) returns (p: seq<(nat, nat)>, vs: seq<Violation>)
    ensures OnePerFault(files, vs, p)
    ensures forall k, l :: 0 <= k < l < |p| ==> p[k] != p[l]
    ensures forall q :: q in p <==> FaultyAt(files, q.0, q.1)
    ensures multiset(CheckResult(files)) == multiset(vs)
  {
    vs := AllReports(files, |files|);
    if files == [] {
      p := [];
    } else {
      var i := |files| - 1;
      var j := |files[i].decls|;
      p := Faults(files, i, j);
      FaultsIncrease(files, i, j);
      forall k, l | 0 <= k < l < |p| ensures p[k] != p[l] {
        assert Earlier(p[k], p[l]);
      }
      forall q ensures q in p <==> FaultyAt(files, q.0, q.1) {
        FaultsExact(files, i, j, q);
      }
      ReportsFollowFaults(files, i, j);
    }
  }

  // ----- check and scan agree -----

  ghost predicate Gated(files: seq<File>, i: nat, j: nat) {
    i < |files| && Checked(files[i]) && j < |files[i].decls| && files[i].decls[j].Func? && CallsPro(files[i].decls[j])
  }

  ghost predicate EntryFrom(files: seq<File>, e: Entry, i: nat, j: nat, k: nat) {
    i < |files| && Scanned(files[i]) && j < |files[i].decls| && files[i].decls[j].Func? && MarkerAt(files[i].decls[j], k)
    && e == EntryOf(files[i], files[i].decls[j], k)
  }

  lemma {:induction false} DocEntryFound(f: File, d: Decl, n: nat, e: Entry) returns (k: nat)
    requires d.Func? && d.doc.Some? && n <= |d.doc.value| && e in DocEntries(f, d, n)
    ensures MarkerAt(d, k) && e == EntryOf(f, d, k)
  {
    if MarkerAt(d, n - 1) && e == EntryOf(f, d, n - 1) {
      k := n - 1;
    } else {
      k := DocEntryFound(f, d, n - 1, e);
    }
  }

  lemma {:induction false} DocEntryKept(f: File, d: Decl, n: nat, k: nat)
    requires d.Func? && d.doc.Some? && k < n <= |d.doc.value| && MarkerAt(d, k)
    ensures EntryOf(f, d, k) in DocEntries(f, d, n)
  {
    if k < n - 1 {
      DocEntryKept(f, d, n - 1, k);
    }
  }

  ghost predicate DeclEntry(f: File, e: Entry, j: nat, k: nat) {
    j < |f.decls| && f.decls[j].Func? && MarkerAt(f.decls[j], k) && e == EntryOf(f, f.decls[j], k)
  }

  lemma DeclEntryFound(f: File, j: nat, e: Entry) returns (k: nat)
    requires j < |f.decls| && e in DeclEntries(f, f.decls[j])
    ensures DeclEntry(f, e, j, k)
  {
    var d := f.decls[j];
    k := DocEntryFound(f, d, |d.doc.value|, e);
  }

  lemma {:induction false} FileEntryFound(f: File, n: nat, e: Entry) returns (j: nat)
    requires n <= |f.decls| && e in FileEntries(f, n)
    ensures j < n && e in DeclEntries(f, f.decls[j])
  {
    Concatenation.Member(e, FileEntries(f, n - 1), DeclEntries(f, f.decls[n - 1]));
    if e in FileEntries(f, n - 1) {
      j := FileEntryFound(f, n - 1, e);
    } else {
      j := n - 1;
    }
  }

  lemma DeclEntryKept(f: File, e: Entry, j: nat, k: nat)
    requires DeclEntry(f, e, j, k)
    ensures e in DeclEntries(f, f.decls[j])
  {
    DocEntryKept(f, f.decls[j], |f.decls[j].doc.value|, k);
  }

  lemma {:induction false} FileEntryKept(f: File, n: nat, e: Entry, j: nat)
    requires j < n <= |f.decls| && e in DeclEntries(f, f.decls[j])
    ensures e in FileEntries(f, n)
  {
    Concatenation.Member(e, FileEntries(f, n - 1), DeclEntries(f, f.decls[n - 1]));
    if j < n - 1 {
      FileEntryKept(f, n - 1, e, j);
    }
  }

  lemma EntryFound(files: seq<File>, e: Entry) returns (i: nat, j: nat, k: nat)
    requires e in AllEntries(files)
    ensures EntryFrom(files, e, i, j, k)
  {
    Concatenation.FlatMember(files, ByFile(), e);
    i :| 0 <= i < |files| && e in ByFile()(files[i]);
    j := FileEntryFound(files[i], |files[i].decls|, e);
    k := DeclEntryFound(files[i], j, e);
  }

  lemma EntryKept(files: seq<File>, e: Entry, i: nat, j: nat, k: nat)
    requires EntryFrom(files, e, i, j, k)
    ensures e in AllEntries(files)
  {
    DeclEntryKept(files[i], e, j, k);
    FileEntryKept(files[i], |files[i].decls|, e, j);
    Concatenation.FlatMember(files, ByFile(), e);
    assert e in ByFile()(files[i]);
  }

  lemma SortKeepsMembers<T(!new)>(s: seq<T>, key: T -> Place, x: T)
    ensures x in StableSort(s, key) <==> x in s
  {
    assert x in StableSort(s, key) <==> x in multiset(StableSort(s, key));
    assert x in s <==> x in multiset(s);
  }

  /** `scan` answers exactly the entries of the marker lines. */
  lemma ScanIsExact(files: seq<File>, e: Entry)
    ensures e in ScanResult(files)
            <==> exists i: nat, j: nat, k: nat :: EntryFrom(files, e, i, j, k)
  {
    SortKeepsMembers(AllEntries(files), EntryPlace, e);
    if e in AllEntries(files) {
      var i, j, k := EntryFound(files, e);
    }
    forall i: nat, j: nat, k: nat | EntryFrom(files, e, i, j, k)
      ensures e in AllEntries(files)
    {
      EntryKept(files, e, i, j, k);
    }
  }

  lemma NoReportNoFault(files: seq<File>, i: nat, j: nat)
    requires CheckResult(files) == []
    ensures !FaultyAt(files, i, j)
  {
    var p, vs := CheckIsExact(files);
    assert |multiset(vs)| == |vs|;
    assert (i, j) !in p;
  }

  lemma ReportedIff(files: seq<File>, v: Violation)
    ensures v in CheckResult(files) <==> exists q: (nat, nat) :: FaultyAt(files, q.0, q.1) && v == ReportAt(files, q)
  {
    var p, vs := CheckIsExact(files);
    SortKeepsMembers(AllReports(files, |files|), ViolationPlace, v);
    assert v in multiset(CheckResult(files)) <==> v in multiset(vs);
    assert v in CheckResult(files) <==> v in multiset(CheckResult(files));
    assert v in vs <==> v in multiset(vs);
    forall q: (nat, nat) | FaultyAt(files, q.0, q.1) && v == ReportAt(files, q)
      ensures v in vs
    {
      assert q in p;
      var k :| 0 <= k < |p| && p[k] == q;
      assert vs[k] == v;
    }
    if v in vs {
      var k :| 0 <= k < |vs| && vs[k] == v;
      assert FaultyAt(files, p[k].0, p[k].1) && v == ReportAt(files, p[k]);
    }
  }

  /** The entry names this function. */
  predicate NamedBy(f: File, d: Decl, e: Entry)
    requires d.Func?
  {
    e.file == f.path && e.package == f.package && e.name == d.name && e.receiver == ReceiverType(d)
  }

  ghost predicate PathsDiffer(files: seq<File>) {
    forall i, k :: 0 <= i < k < |files| ==> files[i].path != files[k].path
  }

  /** Functions of one file start on different lines. */
  ghost predicate LinesDiffer(f: File) {
    forall j, l :: 0 <= j < l < |f.decls| && f.decls[j].Func? && f.decls[l].Func? ==> f.decls[j].line != f.decls[l].line
  }

  /** Declaration `l` is a function of the name and receiver of `d`. */
  predicate Namesake(f: File, d: Decl, l: nat)
    requires d.Func?
  {
    l < |f.decls| && f.decls[l].Func? && f.decls[l].name == d.name && ReceiverType(f.decls[l]) == ReceiverType(d)
  }

  ghost predicate SomeNamesakeMarked(f: File, d: Decl)
    requires d.Func?
  {
    exists l: nat :: Namesake(f, d, l) && Marked(f.decls[l])
  }

  lemma ReportedMeansUnmarked(files: seq<File>, i: nat, j: nat)
    requires PathsDiffer(files) && Gated(files, i, j) && LinesDiffer(files[i])
    ensures ViolationOf(files[i], files[i].decls[j]) in CheckResult(files) <==> !Marked(files[i].decls[j])
  {
    var v := ViolationOf(files[i], files[i].decls[j]);
    ReportedIff(files, v);
    if v in CheckResult(files) {
      var q: (nat, nat) :| FaultyAt(files, q.0, q.1) && v == ReportAt(files, q);
      assert q.0 == i;
      assert q.1 == j;
    }
    if !Marked(files[i].decls[j]) {
      var q: (nat, nat) := (i, j);
      assert FaultyAt(files, q.0, q.1) && v == ReportAt(files, q);
    }
  }

  lemma ScannedMeansMarked(files: seq<File>, i: nat, j: nat)
    requires PathsDiffer(files) && Gated(files, i, j)
    ensures (exists e :: e in ScanResult(files) && NamedBy(files[i], files[i].decls[j], e))
            <==> SomeNamesakeMarked(files[i], files[i].decls[j])
  {
    var f, d := files[i], files[i].decls[j];
    forall e | e in ScanResult(files) && NamedBy(f, d, e)
      ensures SomeNamesakeMarked(f, d)
    {
      ScanIsExact(files, e);
      var i': nat, l: nat, k: nat :| EntryFrom(files, e, i', l, k);
      assert i' == i;
      assert Namesake(f, d, l) && Marked(f.decls[l]);
    }
    if SomeNamesakeMarked(f, d) {
      var l: nat :| Namesake(f, d, l) && Marked(f.decls[l]);
      var k: nat :| MarkerAt(f.decls[l], k);
      var e := EntryOf(f, f.decls[l], k);
      assert EntryFrom(files, e, i, l, k);
      ScanIsExact(files, e);
    }
  }

  ghost predicate Agree(files: seq<File>, i: nat, j: nat)
    requires Gated(files, i, j)
  {
    ViolationOf(files[i], files[i].decls[j]) in CheckResult(files)
    <==> forall e :: e in ScanResult(files) ==> !NamedBy(files[i], files[i].decls[j], e)
  }

  /**
   For a function that calls RequirePro, "`check` reports it exactly when `scan` has no entry of its
   name" holds exactly when it has a marker itself or none of its namesakes in the file has.
   */
  lemma AgreeIff(files: seq<File>, i: nat, j: nat)
    requires PathsDiffer(files) && Gated(files, i, j) && LinesDiffer(files[i])
    ensures Agree(files, i, j)
            <==> Marked(files[i].decls[j]) || !SomeNamesakeMarked(files[i], files[i].decls[j])
  {
    ReportedMeansUnmarked(files, i, j);
    ScannedMeansMarked(files, i, j);
    if Marked(files[i].decls[j]) {
      assert Namesake(files[i], files[i].decls[j], j);
    }
  }

  /** A function without namesakes is reported exactly when the scan does not name it. */
  lemma NoNamesakeAgrees(files: seq<File>, i: nat, j: nat)
    requires PathsDiffer(files) && Gated(files, i, j) && LinesDiffer(files[i])
    requires forall l: nat :: Namesake(files[i], files[i].decls[j], l) ==> l == j
    ensures Agree(files, i, j)
  {
    AgreeIff(files, i, j);
  }

  /** It does fail: of two `init` functions one can be reported and the other's marker scanned. */
  lemma NamesakesDiffer(files: seq<File>, i: nat, j: nat, l: nat, k: nat) returns (e: Entry)
    requires FaultyAt(files, i, l) && j < |files[i].decls| && files[i].decls[j].Func? && MarkerAt(files[i].decls[j], k)
    requires var d, f := files[i].decls[j], files[i].decls[l]; d.name == f.name && ReceiverType(d) == ReceiverType(f)
    ensures ViolationOf(files[i], files[i].decls[l]) in CheckResult(files)
    ensures e in ScanResult(files) && NamedBy(files[i], files[i].decls[l], e)
  {
    var q: (nat, nat) := (i, l);
    assert FaultyAt(files, q.0, q.1) && ViolationOf(files[i], files[i].decls[l]) == ReportAt(files, q);
    ReportedIff(files, ViolationOf(files[i], files[i].decls[l]));
    e := EntryOf(files[i], files[i].decls[j], k);
    assert EntryFrom(files, e, i, j, k);
    ScanIsExact(files, e);
  }

  /** After a clean check, every function that needs the marker is in the scan under its own name. */
  lemma CleanCheckIsScanned(files: seq<File>, i: nat, j: nat) returns (k: nat, e: Entry)
    requires CheckResult(files) == []
    requires Gated(files, i, j)
    ensures EntryFrom(files, e, i, j, k)
    ensures e in ScanResult(files)
    ensures e.file == files[i].path && e.package == files[i].package
            && e.name == files[i].decls[j].name && e.receiver == ReceiverType(files[i].decls[j])
  {
    NoReportNoFault(files, i, j);
    var d := files[i].decls[j];
    k :| MarkerAt(d, k);
    e := EntryOf(files[i], d, k);
    SortKeepsMembers(AllEntries(files), EntryPlace, e);
    EntryKept(files, e, i, j, k);
  }
}
