/** The snapshot protocol of assert/snapshot: `compareSnapshot`, `writeSnapshot`, `shortDiffHint`. */
module Snapshot {
  import opened JsonSyntax
  import opened JsonParser
  import opened JsonComplete
  import opened Canonical
  import opened Utf8

  // ----- shortDiffHint -----

  datatype Hint =
    | DiffAt(i: nat, want: Bytes, got: Bytes)
    | LengthDiffers(want_len: nat, got_len: nat)
    | NoDiff

  function Min(a: int, b: int): int { if a < b then a else b }
  function Max(a: int, b: int): int { if a > b then a else b }

  /** Length of the longest common prefix. */
  ghost function Agreement(a: Bytes, b: Bytes): (n: nat)
    ensures n <= |a| && n <= |b|
  {
    if a == [] || b == [] || a[0] != b[0] then 0 else 1 + Agreement(a[1..], b[1..])
  }

  lemma {:induction false} AgreementIsLeast(a: Bytes, b: Bytes)
    ensures var n := Agreement(a, b);
            && a[..n] == b[..n]
            && (n < |a| && n < |b| ==> a[n] != b[n])
  {
    if a != [] && b != [] && a[0] == b[0] {
      AgreementIsLeast(a[1..], b[1..]);
      var n := Agreement(a[1..], b[1..]);
      assert a[..n + 1] == [a[0]] + a[1..][..n] && b[..n + 1] == [b[0]] + b[1..][..n];
    }
  }

  lemma {:induction false} AgreementUnique(a: Bytes, b: Bytes, n: nat)
    requires n <= |a| && n <= |b| && a[..n] == b[..n]
    requires n < |a| && n < |b| ==> a[n] != b[n]
    ensures Agreement(a, b) == n
  {
    if n > 0 {
      assert a[0] == a[..n][0] && b[0] == b[..n][0];
      assert a[1..][..n - 1] == a[..n][1..] && b[1..][..n - 1] == b[..n][1..];
      AgreementUnique(a[1..], b[1..], n - 1);
    }
  }

  ghost function HintOf(want: Bytes, got: Bytes): Hint {
    var i := Agreement(want, got);
    if i < |want| && i < |got| then
      var start := Max(i - 20, 0);
      DiffAt(i, want[start..Min(i + 20, |want|)], got[start..Min(i + 20, |got|)])
    else if |want| != |got| then LengthDiffers(|want|, |got|)
    else NoDiff
  }

  method ShortDiffHint(want: Bytes, got: Bytes) returns (h: Hint)
    ensures h == HintOf(want, got)
  {
    var limit := Min(|want|, |got|);
    for i := 0 to limit
      invariant want[..i] == got[..i]
    {
      if want[i] != got[i] {
        AgreementUnique(want, got, i);
        var start := Max(i - 20, 0);
        var endW := Min(i + 20, |want|);
        var endG := Min(i + 20, |got|);
        return DiffAt(i, want[start..endW], got[start..endG]);
      }
      assert want[..i + 1] == want[..i] + [want[i]] && got[..i + 1] == got[..i] + [got[i]];
    }
    AgreementUnique(want, got, limit);
    if |want| != |got| {
      return LengthDiffers(|want|, |got|);
    }
    return NoDiff;
  }

  /**
   What a hint says about two texts: the least byte at which they differ, with up to twenty bytes
   before and after it of each, or else their two lengths; the fallback is for equal texts.
   */
  ghost predicate Shows(h: Hint, want: Bytes, got: Bytes) {
    match h
    case DiffAt(i, w, g) =>
      && i < |want| && i < |got| && want[..i] == got[..i] && want[i] != got[i]
      && w == want[Max(i - 20, 0)..Min(i + 20, |want|)]
      && g == got[Max(i - 20, 0)..Min(i + 20, |got|)]
      && (var at := i - Max(i - 20, 0); at < |w| && at < |g| && w[at] == want[i] && g[at] == got[i])
    case LengthDiffers(m, n) => m == |want| && n == |got| && m != n && want[..Min(m, n)] == got[..Min(m, n)]
    case NoDiff => want == got
  }

  /** The hint is faithful, and the fallback is reached only on equal texts. */
  lemma HintIsFaithful(want: Bytes, got: Bytes)
    ensures Shows(HintOf(want, got), want, got)
    ensures want == got ==> HintOf(want, got).NoDiff?
  {
    AgreementIsLeast(want, got);
    if HintOf(want, got).NoDiff? {
      assert want == want[..|want|] && got == got[..|got|];
    }
    if want == got {
      AgreementUnique(want, got, |want|);
    }
  }

  // ----- the file store -----

  /**
   The files a test run sees. A path may be unreadable, its directory may be impossible to
   create, or the file impossible to write; none of the modelled calls changes that.
   */
  datatype Store = Store(files: map<string, string>, unreadable: set<string>, noDir: set<string>, unwritable: set<string>)

  datatype Call = Call(actual: string, path: string, structural: bool)

  datatype Failure =
    | BadActual
    | Missing
    | Unreadable
    | BadStored
    | Mismatch(hint: Hint)
    | NoDirectory
    | NotWritten

  /** What a test sees of one call; `Outside` is a document this model does not represent. */
  datatype Outcome = Passed | Failed(why: Failure) | Outside

  /** What is compared: the text itself, or its normal form. */
  ghost function Form(text: string, structural: bool): Normalized {
    if structural then NormalForm(text) else Normal(text)
  }

  ghost function WriteStep(st: Store, path: string, text: string): (Store, Outcome) {
    if path in st.noDir then (st, Failed(NoDirectory))
    else if path in st.unwritable then (st, Failed(NotWritten))
    else (st.(files := st.files[path := text]), Passed)
  }

  ghost function Step(st: Store, update: bool, c: Call): (Store, Outcome) {
    match Form(c.actual, c.structural)
    case Rejected => (st, Failed(BadActual))
    case Unmodelled => (st, Outside)
    case Normal(got) =>
      if c.path in st.unreadable then (st, Failed(Unreadable))
      else if c.path !in st.files then
        if update then WriteStep(st, c.path, got) else (st, Failed(Missing))
      else
        match Form(st.files[c.path], c.structural)
        case Rejected => (st, Failed(BadStored))
        case Unmodelled => (st, Outside)
        case Normal(want) =>
          if got == want then (st, Passed)
          else if update then WriteStep(st, c.path, got)
          else (st, Failed(Mismatch(HintOf(Encode(want), Encode(got)))))
  }

  /** The file system as `os.ReadFile`, `os.MkdirAll` and `os.WriteFile` see it. */
  class Disk {
    var files: map<string, string>
    const unreadable: set<string>
    const noDir: set<string>
    const unwritable: set<string>

    ghost function State(): Store
      reads this
    {
      Store(files, unreadable, noDir, unwritable)
    }

    constructor (st: Store)
      ensures State() == st
    {
      files, unreadable, noDir, unwritable := st.files, st.unreadable, st.noDir, st.unwritable;
    }
  }

  /** The part of testing.TB the helpers use. */
  class Test {
    var failed: bool

    constructor ()
      ensures !failed
    {
      failed := false;
    }
  }

  method WriteSnapshot(tb: Test, disk: Disk, path: string, content: string) returns (r: Outcome)
    modifies tb, disk
    ensures (disk.State(), r) == WriteStep(old(disk.State()), path, content)
    ensures tb.failed == (old(tb.failed) || r.Failed?)
  {
    if path in disk.noDir {
      tb.failed := true;
      return Failed(NoDirectory);
    }
    if path in disk.unwritable {
      tb.failed := true;
      return Failed(NotWritten);
    }
    disk.files := disk.files[path := content];
    return Passed;
  }

  method Normalize(text: string, structural: bool) returns (n: Normalized)
    ensures n == Form(text, structural)
  {
    n := Normal(text);
    if structural {
      n := NormalizeJSON(text);
    }
  }

  method CompareSnapshot(tb: Test, disk: Disk, update: bool, c: Call) returns (r: Outcome)
    modifies tb, disk
    ensures (disk.State(), r) == Step(old(disk.State()), update, c)
    ensures tb.failed == (old(tb.failed) || r.Failed?)
  {
    var normalizedActual := Normalize(c.actual, c.structural);
    if normalizedActual.Rejected? {
      tb.failed := true;
      return Failed(BadActual);
    } else if normalizedActual.Unmodelled? {
      return Outside;
    }
    if c.path in disk.unreadable {
      tb.failed := true;
      return Failed(Unreadable);
    } else if c.path !in disk.files {
      if !update {
        tb.failed := true;
        return Failed(Missing);
      }
      r := WriteSnapshot(tb, disk, c.path, normalizedActual.text);
      return;
    }
    var want := Normalize(disk.files[c.path], c.structural);
    if want.Rejected? {
      tb.failed := true;
      return Failed(BadStored);
    } else if want.Unmodelled? {
      return Outside;
    }
    if normalizedActual.text == want.text {
      return Passed;
    }
    if update {
      r := WriteSnapshot(tb, disk, c.path, normalizedActual.text);
      return;
    }
    var hint := ShortDiffHint(Encode(want.text), Encode(normalizedActual.text));
    tb.failed := true;
    return Failed(Mismatch(hint));
  }

  // ----- one call -----

  /** What a passing call without update mode says about the file. */
  ghost predicate Satisfied(files: map<string, string>, c: Call) {
    && c.path in files
    && Form(c.actual, c.structural).Normal?
    && Form(files[c.path], c.structural) == Form(c.actual, c.structural)
  }

  lemma CheckPassesIff(st: Store, c: Call)
    ensures Step(st, false, c).1.Passed? <==> c.path !in st.unreadable && Satisfied(st.files, c)
    ensures Step(st, false, c).0 == st
  {
  }

  /**
   JSONStructural outside update mode, on two texts that each denote a value: it passes
   exactly when the values are equal, and otherwise reports a real difference.
   */
  lemma StructuralDecides(st: Store, c: Call, v: Json, w: Json)
    requires c.structural && c.path !in st.unreadable && c.path in st.files
    requires Denotes(c.actual, v) && Denotes(st.files[c.path], w)
    ensures Step(st, false, c).1.Passed? <==> v == w
    ensures v != w ==> Step(st, false, c).1.Failed? && Step(st, false, c).1.why.Mismatch?
                       && !Step(st, false, c).1.why.hint.NoDiff?
  {
    NormalFormDecides(c.actual, st.files[c.path], v, w);
    var got, want := NormalForm(c.actual).text, NormalForm(st.files[c.path]).text;
    HintIsFaithful(Encode(want), Encode(got));
    EncodeInjective(want, got);
  }

  /** No failing call ever shows the fallback hint. */
  lemma FallbackUnreachable(st: Store, update: bool, c: Call)
    ensures Step(st, update, c).1 != Failed(Mismatch(NoDiff))
  {
    var r := Step(st, update, c).1;
    if r.Failed? && r.why.Mismatch? {
      var got, want := Form(c.actual, c.structural).text, Form(st.files[c.path], c.structural).text;
      assert got != want && r.why.hint == HintOf(Encode(want), Encode(got));
      HintIsFaithful(Encode(want), Encode(got));
      EncodeInjective(want, got);
    }
  }

  lemma MismatchHint(st: Store, update: bool, c: Call, hint: Hint)
    requires Step(st, update, c).1 == Failed(Mismatch(hint))
    ensures c.path in st.files && Form(c.actual, c.structural).Normal? && Form(st.files[c.path], c.structural).Normal?
    ensures var stored, actual := Form(st.files[c.path], c.structural).text, Form(c.actual, c.structural).text;
            stored != actual && hint == HintOf(Encode(stored), Encode(actual))
  {
  }

  /**
   The hint of a failing call is about the form of the stored file, as wanted, and that of the
   actual payload, as got.
   */
  lemma MismatchTells(st: Store, update: bool, c: Call, hint: Hint)
    requires Step(st, update, c).1 == Failed(Mismatch(hint))
    ensures c.path in st.files && Form(c.actual, c.structural).Normal? && Form(st.files[c.path], c.structural).Normal?
    ensures Shows(hint, Encode(Form(st.files[c.path], c.structural).text), Encode(Form(c.actual, c.structural).text))
    ensures !hint.NoDiff?
  {
    MismatchHint(st, update, c, hint);
    var stored, actual := Form(st.files[c.path], c.structural).text, Form(c.actual, c.structural).text;
    HintIsFaithful(Encode(stored), Encode(actual));
    FallbackUnreachable(st, update, c);
  }

  ghost predicate BothRead(st: Store, c: Call) {
    Form(c.actual, c.structural).Normal? && c.path !in st.unreadable && c.path in st.files
  }

  /** Both sides are well formed and the file does not agree. */
  ghost predicate WantsWrite(st: Store, c: Call) {
    && Form(c.actual, c.structural).Normal?
    && c.path !in st.unreadable
    && (c.path in st.files ==> Form(st.files[c.path], c.structural).Normal?)
    && !Satisfied(st.files, c)
  }

  /** Each way a call can fail has its own cause. */
  lemma {:induction false} FailuresTold(st: Store, update: bool, c: Call)
    ensures var r := Step(st, update, c).1;
            && (r == Failed(BadActual) <==> c.structural && Unmarshal(c.actual).Malformed?)
            && (r == Failed(Unreadable) <==> Form(c.actual, c.structural).Normal? && c.path in st.unreadable)
            && (r == Failed(Missing) <==>
                  Form(c.actual, c.structural).Normal? && c.path !in st.unreadable && c.path !in st.files && !update)
            && (r == Failed(BadStored) <==> BothRead(st, c) && c.structural && Unmarshal(st.files[c.path]).Malformed?)
            && (r.Failed? && r.why.Mismatch? <==>
                  BothRead(st, c) && Form(st.files[c.path], c.structural).Normal? && !Satisfied(st.files, c) && !update)
            && (r == Failed(NoDirectory) <==> update && WantsWrite(st, c) && c.path in st.noDir)
            && (r == Failed(NotWritten) <==>
                  update && WantsWrite(st, c) && c.path !in st.noDir && c.path in st.unwritable)
  {
  }

  ghost predicate Writable(st: Store, path: string) {
    path !in st.noDir && path !in st.unwritable
  }

  /** What the file of a writing call holds afterwards. */
  ghost predicate Recorded(st: Store, c: Call) {
    && c.path in st.files
    && Form(c.actual, c.structural) == Normal(st.files[c.path])
  }

  /**
   Update mode passes exactly when both sides are well formed and the file either already
   agrees or can be written. A stored file that is not JSON is therefore never repaired by
   a structural update, although the package promises that mismatches are overwritten.
   */
  lemma {:induction false} UpdatePassesIff(st: Store, c: Call)
    ensures Step(st, true, c).1.Passed? <==>
            && Form(c.actual, c.structural).Normal?
            && c.path !in st.unreadable
            && (c.path in st.files ==> Form(st.files[c.path], c.structural).Normal?)
            && (Satisfied(st.files, c) || Writable(st, c.path))
    ensures var (after, r) := Step(st, true, c);
            if r.Passed? && !Satisfied(st.files, c) then
              Recorded(after, c) && after == st.(files := st.files[c.path := after.files[c.path]])
            else after == st
  {
  }

  /** Neither mode touches a stored file that is not JSON, an empty one for instance. */
  lemma CorruptSnapshotNotRepaired(st: Store, update: bool, c: Call)
    requires c.structural && c.path !in st.unreadable && c.path in st.files
    ensures NormalForm("").Rejected?
    ensures NormalForm(c.actual).Normal? && NormalForm(st.files[c.path]).Rejected?
            ==> Step(st, update, c) == (st, Failed(BadStored))
  {
  }

  // ----- runs -----

  ghost function Run(st: Store, update: bool, calls: seq<Call>): (Store, seq<Outcome>)
    decreases |calls|
  {
    if calls == [] then (st, [])
    else
      var (mid, first) := Step(st, update, calls[0]);
      var (end, rest) := Run(mid, update, calls[1..]);
      (end, [first] + rest)
  }

  ghost predicate AllPassed(outcomes: seq<Outcome>) {
    forall i :: 0 <= i < |outcomes| ==> outcomes[i].Passed?
  }

  /** Without update mode a run changes nothing, and passes exactly when every call is satisfied. */
  lemma {:induction false} CheckRun(st: Store, calls: seq<Call>)
    ensures Run(st, false, calls).0 == st
    ensures AllPassed(Run(st, false, calls).1) <==>
            forall i :: 0 <= i < |calls| ==> calls[i].path !in st.unreadable && Satisfied(st.files, calls[i])
    decreases |calls|
  {
    if calls != [] {
      CheckPassesIff(st, calls[0]);
      CheckRun(st, calls[1..]);
      var first, rest := Step(st, false, calls[0]).1, Run(st, false, calls[1..]).1;
      AllPassedCons(first, rest);
      assert calls == [calls[0]] + calls[1..];
      assert forall i :: 0 < i < |calls| ==> calls[i] == calls[1..][i - 1];
    }
  }

  lemma AllPassedCons(first: Outcome, rest: seq<Outcome>)
    ensures AllPassed([first] + rest) <==> first.Passed? && AllPassed(rest)
  {
    var all := [first] + rest;
    assert all[0] == first && forall i :: 0 <= i < |rest| ==> all[i + 1] == rest[i];
  }

  /** Two calls on one path that one file can satisfy at once. */
  ghost predicate Compatible(c: Call, d: Call) {
    c.path != d.path
    || (if !c.structural && !d.structural then c.actual == d.actual
        else NormalForm(c.actual) == NormalForm(d.actual))
  }

  ghost predicate AllCompatible(calls: seq<Call>) {
    forall i, j :: 0 <= i < |calls| && 0 <= j < |calls| ==> Compatible(calls[i], calls[j])
  }

  /** A passing update call leaves its own assertion satisfied, and keeps every compatible one so. */
  lemma UpdateKeeps(st: Store, c: Call, done: Call)
    requires Step(st, true, c).1.Passed?
    requires Satisfied(st.files, done) && Compatible(done, c)
    ensures Satisfied(Step(st, true, c).0.files, done)
  {
    UpdatePassesIff(st, c);
    if c.structural {
      NormalFormIdempotent(c.actual);
    }
  }

  lemma UpdateSatisfies(st: Store, c: Call)
    requires Step(st, true, c).1.Passed?
    ensures Satisfied(Step(st, true, c).0.files, c) && c.path !in st.unreadable
    ensures Step(st, true, c).0.unreadable == st.unreadable
  {
    UpdatePassesIff(st, c);
    if c.structural {
      NormalFormIdempotent(c.actual);
    }
  }

  /** All of `done` and `calls` are satisfied once `calls` have been run in update mode. */
  lemma {:induction false} UpdateRun(st: Store, done: seq<Call>, calls: seq<Call>)
    requires AllPassed(Run(st, true, calls).1)
    requires AllCompatible(done + calls)
    requires forall i :: 0 <= i < |done| ==> done[i].path !in st.unreadable && Satisfied(st.files, done[i])
    ensures var end := Run(st, true, calls).0;
            && end.unreadable == st.unreadable
            && forall i :: 0 <= i < |done + calls| ==>
                 (done + calls)[i].path !in end.unreadable && Satisfied(end.files, (done + calls)[i])
    decreases |calls|
  {
    if calls == [] {
      assert done + calls == done;
    } else {
      var c := calls[0];
      var mid := Step(st, true, c).0;
      AllPassedCons(Step(st, true, c).1, Run(mid, true, calls[1..]).1);
      UpdateSatisfies(st, c);
      assert c == (done + calls)[|done|];
      forall i | 0 <= i < |done|
        ensures Satisfied(mid.files, done[i])
      {
        assert done[i] == (done + calls)[i];
        UpdateKeeps(st, c, done[i]);
      }
      assert (done + [c]) + calls[1..] == done + calls;
      UpdateRun(mid, done + [c], calls[1..]);
    }
  }

  lemma SatisfiedTogether(files: map<string, string>, c: Call, d: Call)
    requires Satisfied(files, c) && Satisfied(files, d)
    ensures Compatible(c, d)
  {
  }

  /**
   Update, then check. After a passing update run, the same calls rerun without update
   mode all pass exactly when calls on one path are compatible, and write nothing.
   */
  lemma UpdateThenCheck(st: Store, calls: seq<Call>)
    requires AllPassed(Run(st, true, calls).1)
    ensures var end := Run(st, true, calls).0;
            && (AllPassed(Run(end, false, calls).1) <==> AllCompatible(calls))
            && Run(end, false, calls).0 == end
  {
    var end := Run(st, true, calls).0;
    CheckRun(end, calls);
    if AllCompatible(calls) {
      assert [] + calls == calls;
      UpdateRun(st, [], calls);
    }
    if AllPassed(Run(end, false, calls).1) {
      forall i, j | 0 <= i < |calls| && 0 <= j < |calls|
        ensures Compatible(calls[i], calls[j])
      {
        SatisfiedTogether(end.files, calls[i], calls[j]);
      }
    }
  }

  /** An incompatible pair: two strict calls with different payloads. The update run passes, the rerun does not. */
  lemma RerunCanFail(st: Store, path: string, a: string, b: string)
    requires path !in st.files && path !in st.unreadable && Writable(st, path) && a != b
    ensures var calls := [Call(a, path, false), Call(b, path, false)];
            AllPassed(Run(st, true, calls).1) && !AllPassed(Run(Run(st, true, calls).0, false, calls).1)
  {
    var c, d := Call(a, path, false), Call(b, path, false);
    var calls := [c, d];
    var mid := Step(st, true, c).0;
    assert calls[1..] == [d] && [d][1..] == [];
    assert Run(mid, true, [d]).1 == [Passed];
    assert Run(st, true, calls).1 == [Passed, Passed];
    assert !Compatible(calls[0], calls[1]);
    UpdateThenCheck(st, calls);
  }

  /** In particular strict and structural calls may share a path if they share the payload. */
  lemma SharedActualThenCheck(st: Store, calls: seq<Call>)
    requires AllPassed(Run(st, true, calls).1)
    requires forall i, j :: 0 <= i < |calls| && 0 <= j < |calls| && calls[i].path == calls[j].path ==>
                              calls[i].actual == calls[j].actual
    ensures var end := Run(st, true, calls).0;
            AllPassed(Run(end, false, calls).1) && Run(end, false, calls).0 == end
  {
    forall i, j | 0 <= i < |calls| && 0 <= j < |calls|
      ensures Compatible(calls[i], calls[j])
    {
    }
    UpdateThenCheck(st, calls);
  }

  // ----- how often a path is written -----

  ghost function Writes(st: Store, calls: seq<Call>): nat
    decreases |calls|
  {
    if calls == [] then 0
    else
      var mid := Step(st, true, calls[0]).0;
      (if mid == st then 0 else 1) + Writes(mid, calls[1..])
  }

  /** Counting changes counts the writes: a call that writes always changes the file. */
  lemma EveryWriteChanges(st: Store, c: Call)
    ensures Step(st, true, c).0 != st <==> Step(st, true, c).1.Passed? && !Satisfied(st.files, c)
  {
    UpdatePassesIff(st, c);
    if c.structural && NormalForm(c.actual).Normal? {
      NormalFormIdempotent(c.actual);
    }
  }

  ghost predicate OnePayload(calls: seq<Call>, actual: string, path: string) {
    forall i :: 0 <= i < |calls| ==> calls[i].actual == actual && calls[i].path == path
  }

  /** Once the file is the payload itself nothing is written any more. */
  lemma {:induction false} SettledExactly(st: Store, calls: seq<Call>, actual: string, path: string)
    requires OnePayload(calls, actual, path)
    requires path in st.files && st.files[path] == actual
    ensures Writes(st, calls) == 0
    decreases |calls|
  {
    if calls != [] {
      SettledExactly(Step(st, true, calls[0]).0, calls[1..], actual, path);
    }
  }

  ghost predicate OneMode(calls: seq<Call>, structural: bool) {
    forall i :: 0 <= i < |calls| ==> calls[i].structural == structural
  }

  lemma {:induction false} OnlyStrictWrites(st: Store, c: Call)
    requires c.path in st.files && NormalForm(st.files[c.path]) == NormalForm(c.actual)
    requires Step(st, true, c).0 != st
    ensures !c.structural && c.path in Step(st, true, c).0.files && Step(st, true, c).0.files[c.path] == c.actual
  {
    UpdatePassesIff(st, c);
  }

  /** Once the file normalizes like the payload only a strict call can still write, once. */
  lemma {:induction false} SettledStructurally(st: Store, calls: seq<Call>, actual: string, path: string)
    requires OnePayload(calls, actual, path)
    requires path in st.files && NormalForm(st.files[path]) == NormalForm(actual)
    ensures Writes(st, calls) <= 1
    ensures OneMode(calls, true) ==> Writes(st, calls) == 0
    decreases |calls|
  {
    if calls != [] {
      var mid := Step(st, true, calls[0]).0;
      if mid == st {
        SettledStructurally(st, calls[1..], actual, path);
      } else {
        OnlyStrictWrites(st, calls[0]);
        SettledExactly(mid, calls[1..], actual, path);
      }
    }
  }

  lemma WriteSettles(st: Store, c: Call)
    requires Step(st, true, c).0 != st
    ensures var files := Step(st, true, c).0.files;
            && c.path in files
            && (if c.structural then NormalForm(files[c.path]) == NormalForm(c.actual) else files[c.path] == c.actual)
  {
    UpdatePassesIff(st, c);
    if c.structural {
      NormalFormIdempotent(c.actual);
    }
  }

  /**
   Any sequence of update calls with one payload on one path writes it at most twice, and
   at most once when all calls use the same mode.
   */
  lemma {:induction false} Convergence(st: Store, calls: seq<Call>, actual: string, path: string)
    requires OnePayload(calls, actual, path)
    ensures Writes(st, calls) <= 2
    ensures OneMode(calls, true) || OneMode(calls, false) ==> Writes(st, calls) <= 1
    decreases |calls|
  {
    if calls != [] {
      var mid := Step(st, true, calls[0]).0;
      if mid == st {
        Convergence(st, calls[1..], actual, path);
      } else {
        WriteSettles(st, calls[0]);
        if calls[0].structural {
          SettledStructurally(mid, calls[1..], actual, path);
        } else {
          SettledExactly(mid, calls[1..], actual, path);
        }
      }
    }
  }

  /** Two writes do happen: structural, then strict, for any payload that is not its own normal form. */
  lemma TwoWritesHappen(st: Store, actual: string, path: string)
    requires path !in st.files && path !in st.unreadable && Writable(st, path)
    ensures NormalForm(actual).Normal? && NormalForm(actual).text != actual
            ==> Writes(st, [Call(actual, path, true), Call(actual, path, false)]) == 2
  {
    if NormalForm(actual).Normal? && NormalForm(actual).text != actual {
      var c, d := Call(actual, path, true), Call(actual, path, false);
      var mid := Step(st, true, c).0;
      assert [c, d][1..] == [d] && [d][1..] == [];
      assert mid.files[path] == NormalForm(actual).text;
      assert mid != st;
      var end := Step(mid, true, d).0;
      assert end.files[path] == actual;
      assert Writes(mid, [d]) == 1 + Writes(end, []);
    }
  }

  /** Every value has such a payload. */
  lemma PaddedWritesTwice(st: Store, v: Json, path: string)
    requires path !in st.files && path !in st.unreadable && Writable(st, path)
    ensures var actual := " " + CanonicalText(v);
            Writes(st, [Call(actual, path, true), Call(actual, path, false)]) == 2
  {
    PaddedIsNotNormal(v);
    assert |" " + CanonicalText(v)| == 1 + |CanonicalText(v)|;
    TwoWritesHappen(st, " " + CanonicalText(v), path);
  }
}
