/**
 Whole runs: any number of tests side by side, on containers of their own or on the one the
 harness shares, with every choice of failures and interleavings. The harness boots before
 its suite and stops everything after it, as `Harness.RunLog` says.
 */
module LifecycleRuns {
  import opened Lifecycle
  import H = Harness
  import opened Options

  /** Where the harness is; NoHarness is a package without a TestMain. */
  datatype Stage =
    | NoHarness
    | NotStarted
    | Booting(k: nat)
    | Suite
    | Stopping(left: nat, live: bool)
    | Exited

  datatype Global =
    | HarnessDid(c: Cid, he: H.Event)
    | TestStarted(t: Tid, c: Cid)
    | Did(t: Tid, stack: Option<Cid>, e: Event)

  /** `container` and `starts` are what the harness's Start calls return. */
  datatype Sys = Sys(
    container: Option<string>, starts: seq<Option<string>>,
    stage: Stage, shared: Option<Cid>, next: Cid, tests: map<Tid, Test>, trace: seq<Global>)

  datatype Move =
    | HarnessStep
    | Begin(t: Tid, persist: bool, started: bool)
    | NewReturns(t: Tid)
    | NewAborts(t: Tid)
    | SeedObject(t: Tid, ok: bool)
    | FailTest(t: Tid, fatal: bool)
    | EndBody(t: Tid)
    | RunCallback(t: Tid, ok: bool)
    | EndTest(t: Tid)

  ghost function Initial(harness: bool, container: Option<string>, starts: seq<Option<string>>): Sys {
    Sys(container, starts, if harness then NotStarted else NoHarness, None, 0, map[], [])
  }

  predicate Idle(t: Test) {
    t.phase.Finished?
  }

  ghost predicate AllFinished(s: Sys) {
    forall t :: t in s.tests ==> Idle(s.tests[t])
  }

  ghost predicate Enabled(s: Sys, m: Move) {
    match m
    case HarnessStep =>
      !s.stage.NoHarness? && !s.stage.Exited? && (s.stage.Suite? ==> AllFinished(s))
    case Begin(t, _, _) => t !in s.tests && (s.stage.NoHarness? || s.stage.Suite?)
    case NewReturns(t) => t in s.tests && s.tests[t].phase.Setup?
    case NewAborts(t) => t in s.tests && s.tests[t].phase.Setup?
    case SeedObject(t, _) => t in s.tests && s.tests[t].phase.Body?
    case FailTest(t, _) => t in s.tests && s.tests[t].phase.Body?
    case EndBody(t) => t in s.tests && s.tests[t].phase.Body?
    case RunCallback(t, _) => t in s.tests && s.tests[t].phase.Cleanup? && s.tests[t].callbacks != []
    case EndTest(t) => t in s.tests && s.tests[t].phase.Cleanup? && s.tests[t].callbacks == []
  }

  /** A test moves on; whatever it recorded goes to the trace. */
  ghost function Update(s: Sys, t: Tid, now: Test): Sys
    requires t in s.tests
  {
    s.(tests := s.tests[t := now], trace := s.trace + Emitted(t, s.tests[t], now))
  }

  ghost function Emitted(t: Tid, before: Test, now: Test): seq<Global> {
    if now.log == before.log || now.log == [] then [] else [Did(t, now.stack, now.log[|now.log| - 1])]
  }

  ghost function Apply(s: Sys, m: Move): Sys
    requires Enabled(s, m)
  {
    match m
    case HarnessStep => HarnessMove(s)
    case Begin(t, persist, started) => BeginTest(s, t, persist, started)
    case NewReturns(t) => Update(s, t, Register(s.tests[t]))
    case NewAborts(t) => Update(s, t, Fail(s.tests[t], true))
    case SeedObject(t, ok) => Update(s, t, Seed(s.tests[t], ok))
    case FailTest(t, fatal) => Update(s, t, Fail(s.tests[t], fatal))
    case EndBody(t) => Update(s, t, s.tests[t].(phase := Cleanup))
    case RunCallback(t, ok) => Update(s, t, PopOne(s.tests[t], ok))
    case EndTest(t) => Update(s, t, s.tests[t].(phase := Finished))
  }

  /** resolveContainer: the harness's container if there is one, else a new one, which may not start. */
  ghost function BeginTest(s: Sys, t: Tid, persist: bool, started: bool): Sys {
    if s.shared.Some? then
      s.(tests := s.tests[t := Test(Setup, s.shared, false, persist, false, false, [], [])])
    else if started then
      s.(tests := s.tests[t := Test(Setup, Some(s.next), true, persist, false, false, [], [])],
         next := s.next + 1, trace := s.trace + [TestStarted(t, s.next)])
    else
      s.(tests := s.tests[t := Test(Cleanup, None, false, persist, true, false, [], [Failed])],
         trace := s.trace + [Did(t, None, Failed)])
  }

  ghost function Note(s: Sys, he: H.Event): Sys
    requires s.shared.Some?
  {
    s.(trace := s.trace + [HarnessDid(s.shared.value, he)])
  }

  /** One step of harness.Run. */
  ghost function HarnessMove(s: Sys): Sys
  {
    var n := |s.starts|;
    match s.stage
    case NotStarted =>
      if s.container.None? then s.(stage := Exited)
      else Note(s.(stage := Booting(0), shared := Some(s.next), next := s.next + 1), H.ContainerStarted)
    case Booting(k) =>
      if s.shared.None? || k > n then s
      else if k < n && s.starts[k].None? then Note(s.(stage := Stopping(k, true)), H.SidecarFailed(k))
      else if k < n then Note(s.(stage := Booting(k + 1)), H.SidecarStarted(k))
      else Note(s.(stage := Suite), H.SuiteRun(SuiteURL(s)))
    case Suite => s.(stage := Stopping(n, false))
    case Stopping(left, live) =>
      if s.shared.None? then s
      else if left == 0 then Note(s.(stage := Exited), H.ContainerStopped(live))
      else Note(s.(stage := Stopping(left - 1, live)), H.SidecarStopped(left - 1, live))
    case _ => s
  }

  ghost function SuiteURL(s: Sys): string {
    var n := |s.starts|;
    if n > 0 && s.starts[n - 1].Some? then s.starts[n - 1].value else if s.container.Some? then s.container.value else ""
  }

  ghost function Run(init: Sys, moves: seq<Move>): Option<Sys>
    decreases |moves|
  {
    if moves == [] then Some(init)
    else
      var before := Run(init, moves[..|moves| - 1]);
      if before.Some? && Enabled(before.value, moves[|moves| - 1]) then Some(Apply(before.value, moves[|moves| - 1]))
      else None
  }

  // ----- what must not happen -----

  /** The container an event stops. */
  function Stops(g: Global): Option<Cid> {
    match g
    case HarnessDid(c, he) => if he.ContainerStopped? then Some(c) else None
    case TestStarted(_, _) => None
    case Did(_, stack, e) => if e.Stopped? then stack else None
  }

  /** The container an event needs to be running. */
  function Needs(g: Global): Option<Cid> {
    match g
    case HarnessDid(c, he) => if he.ContainerStarted? then None else Some(c)
    case TestStarted(_, _) => None
    case Did(_, stack, e) => if e.Deleted? || e.Destroyed? || e.Stopped? then stack else None
  }

  ghost predicate Apart(earlier: Global, later: Global) {
    Stops(earlier).Some? ==> Needs(later) != Stops(earlier)
  }

  /** Nothing needs a container after it was stopped. */
  ghost predicate Safe(trace: seq<Global>) {
    forall i, j :: 0 <= i < j < |trace| ==> Apart(trace[i], trace[j])
  }

  // ----- the invariant -----

  predicate Active(t: Test) {
    t.phase.Setup? || t.phase.Body? || t.callbacks != []
  }

  ghost predicate InUse(s: Sys, c: Cid) {
    || (exists t :: t in s.tests && Active(s.tests[t]) && s.tests[t].stack == Some(c))
    || (s.shared == Some(c) && !s.stage.Exited?)
  }

  ghost predicate StackOk(s: Sys, t: Test) {
    && (t.own ==> t.stack.Some? && t.stack.value < s.next && t.stack != s.shared)
    && (!t.own && Active(t) ==> t.stack == s.shared && s.shared.Some?)
  }

  ghost predicate NotBoth(t: Test, u: Test) {
    t.own && u.own ==> t.stack != u.stack
  }

  /** Containers: allocated before `next`, owned by one test each, the shared one by none. */
  ghost predicate Owners(s: Sys) {
    && (forall t :: t in s.tests ==> StackOk(s, s.tests[t]))
    && (forall t, u :: t in s.tests && u in s.tests && t != u ==> NotBoth(s.tests[t], s.tests[u]))
    && (s.shared.Some? ==> s.shared.value < s.next)
  }

  ghost predicate Stages(s: Sys) {
    && (s.stage.NoHarness? || s.stage.NotStarted? ==> s.shared.None?)
    && (s.stage.Booting? || s.stage.Suite? || s.stage.Stopping? ==> s.shared.Some? && s.container.Some?)
    && (!s.stage.NoHarness? && !s.stage.Suite? ==> AllFinished(s))
  }

  /** A container whose stop is in the trace is no longer in use. */
  ghost predicate StoppedIsIdle(s: Sys) {
    forall g :: g in s.trace ==> Retired(s, g)
  }

  ghost predicate Retired(s: Sys, g: Global) {
    Stops(g).Some? ==> Stops(g).value < s.next && !InUse(s, Stops(g).value)
  }

  ghost predicate StartedBy(t: Tid, stack: Option<Cid>, trace: seq<Global>) {
    stack.Some? && TestStarted(t, stack.value) in trace
  }

  /** Tests stop only containers they started. */
  ghost predicate OwnStopsOnly(s: Sys) {
    && (forall t :: t in s.tests && s.tests[t].own ==> StartedBy(t, s.tests[t].stack, s.trace))
    && (forall i :: 0 <= i < |s.trace| && s.trace[i].Did? && s.trace[i].e.Stopped? ==>
                      StartedBy(s.trace[i].t, s.trace[i].stack, s.trace[..i]))
  }

  ghost predicate Inv(s: Sys) {
    && (forall t :: t in s.tests ==> TestInv(s.tests[t]))
    && Owners(s) && Stages(s) && StoppedIsIdle(s) && Safe(s.trace) && OwnStopsOnly(s)
  }

  // ----- the invariant is kept -----

  /** One more event on the trace. */
  lemma SafeSnoc(trace: seq<Global>, g: Global)
    requires Safe(trace) && forall h :: h in trace ==> Apart(h, g)
    ensures Safe(trace + [g])
  {
    var all := trace + [g];
    forall i, j | 0 <= i < j < |all|
      ensures Apart(all[i], all[j])
    {
      assert all[i] == trace[i];
      if j < |trace| {
        assert all[j] == trace[j];
      }
    }
  }

  lemma OwnStopsSnoc(s: Sys, u: Sys, g: Global)
    requires OwnStopsOnly(s) && u.trace == s.trace + [g]
    requires g.Did? && g.e.Stopped? ==> StartedBy(g.t, g.stack, s.trace)
    requires forall t :: t in u.tests && u.tests[t].own ==> StartedBy(t, u.tests[t].stack, u.trace)
    ensures OwnStopsOnly(u)
  {
    forall i | 0 <= i < |u.trace| && u.trace[i].Did? && u.trace[i].e.Stopped?
      ensures StartedBy(u.trace[i].t, u.trace[i].stack, u.trace[..i])
    {
      if i < |s.trace| {
        assert u.trace[i] == s.trace[i] && u.trace[..i] == s.trace[..i];
      } else {
        assert u.trace[..i] == s.trace;
      }
    }
  }

  /** `u` is `s` with test `t` moved on, no more active than it was, on the same container. */
  ghost predicate Moved(s: Sys, u: Sys, t: Tid) {
    && t in s.tests && t in u.tests && u.tests == s.tests[t := u.tests[t]]
    && u.stage == s.stage && u.shared == s.shared && u.next == s.next && u.container == s.container && u.starts == s.starts
    && u.tests[t].stack == s.tests[t].stack && u.tests[t].own == s.tests[t].own
    && (Active(u.tests[t]) ==> Active(s.tests[t]))
  }

  lemma InUseKept(s: Sys, u: Sys, t: Tid, c: Cid)
    requires Moved(s, u, t) && InUse(u, c)
    ensures InUse(s, c)
  {
    if !(u.shared == Some(c) && !u.stage.Exited?) {
      var d :| d in u.tests && Active(u.tests[d]) && u.tests[d].stack == Some(c);
      assert d != t ==> u.tests[d] == s.tests[d];
      assert Active(s.tests[d]) && s.tests[d].stack == Some(c);
    }
  }

  /** Nobody else uses a container a test owns. */
  lemma OwnerAlone(s: Sys, t: Tid, c: Cid)
    requires Owners(s) && t in s.tests && s.tests[t].own && s.tests[t].stack == Some(c) && !Active(s.tests[t])
    ensures c < s.next && !InUse(s, c)
  {
    assert StackOk(s, s.tests[t]);
    forall d | d in s.tests && Active(s.tests[d])
      ensures s.tests[d].stack != Some(c)
    {
      assert StackOk(s, s.tests[d]);
      assert d != t ==> NotBoth(s.tests[d], s.tests[t]);
    }
  }

  lemma OwnersKept(s: Sys, u: Sys, t: Tid)
    requires Owners(s) && Moved(s, u, t)
    ensures Owners(u)
  {
    forall d | d in u.tests
      ensures StackOk(u, u.tests[d])
    {
      assert StackOk(s, s.tests[d]);
    }
    forall d, e | d in u.tests && e in u.tests && d != e
      ensures NotBoth(u.tests[d], u.tests[e])
    {
      assert NotBoth(s.tests[d], s.tests[e]);
    }
  }

  lemma RetiredKept(s: Sys, u: Sys, t: Tid)
    requires Moved(s, u, t) && StoppedIsIdle(s)
    ensures forall g :: g in s.trace ==> Retired(u, g)
  {
    forall g | g in s.trace
      ensures Retired(u, g)
    {
      assert Retired(s, g);
      if Stops(g).Some? && InUse(u, Stops(g).value) {
        InUseKept(s, u, t, Stops(g).value);
      }
    }
  }

  lemma TestsKept(s: Sys, u: Sys, t: Tid)
    requires Moved(s, u, t) && TestInv(u.tests[t])
    requires forall d :: d in s.tests ==> TestInv(s.tests[d])
    ensures forall d :: d in u.tests ==> TestInv(u.tests[d])
  {
  }

  /** A step of a test that records nothing. */
  lemma QuietStep(s: Sys, u: Sys, t: Tid)
    requires Inv(s) && Moved(s, u, t) && u.trace == s.trace && TestInv(u.tests[t])
    requires s.stage.NoHarness? || s.stage.Suite?
    ensures Inv(u)
  {
    OwnersKept(s, u, t);
    RetiredKept(s, u, t);
    TestsKept(s, u, t);
    StillStarted(s, u);
  }

  /** A step of an active test that records one event. */
  lemma LoudTrace(s: Sys, u: Sys, t: Tid, e: Event)
    requires Inv(s) && Moved(s, u, t) && TestInv(u.tests[t])
    requires u.trace == s.trace + [Did(t, s.tests[t].stack, e)]
    requires Active(s.tests[t])
    requires e.Stopped? ==> s.tests[t].own && !Active(u.tests[t])
    requires s.stage.NoHarness? || s.stage.Suite?
    ensures Safe(u.trace) && OwnStopsOnly(u)
  {
    var g := Did(t, s.tests[t].stack, e);
    ActiveIsApart(s, t, e);
    SafeSnoc(s.trace, g);
    StillStarted(s, u);
    OwnStopsSnoc(s, u, g);
  }

  lemma LoudRetired(s: Sys, u: Sys, t: Tid, e: Event)
    requires Inv(s) && Moved(s, u, t) && TestInv(u.tests[t])
    requires u.trace == s.trace + [Did(t, s.tests[t].stack, e)]
    requires Active(s.tests[t])
    requires e.Stopped? ==> s.tests[t].own && !Active(u.tests[t])
    requires s.stage.NoHarness? || s.stage.Suite?
    ensures StoppedIsIdle(u)
  {
    OwnersKept(s, u, t);
    RetiredKept(s, u, t);
    if e.Stopped? {
      assert StackOk(s, s.tests[t]);
      OwnerAlone(u, t, s.tests[t].stack.value);
    }
    assert Retired(u, Did(t, s.tests[t].stack, e));
  }

  lemma LoudStep(s: Sys, u: Sys, t: Tid, e: Event)
    requires Inv(s) && Moved(s, u, t) && TestInv(u.tests[t])
    requires u.trace == s.trace + [Did(t, s.tests[t].stack, e)]
    requires Active(s.tests[t])
    requires e.Stopped? ==> s.tests[t].own && !Active(u.tests[t])
    requires s.stage.NoHarness? || s.stage.Suite?
    ensures Inv(u)
  {
    OwnersKept(s, u, t);
    TestsKept(s, u, t);
    LoudTrace(s, u, t, e);
    LoudRetired(s, u, t, e);
  }

  /** No container an active test uses has been stopped. */
  lemma ActiveIsApart(s: Sys, t: Tid, e: Event)
    requires StoppedIsIdle(s) && t in s.tests && Active(s.tests[t])
    ensures forall h :: h in s.trace ==> Apart(h, Did(t, s.tests[t].stack, e))
  {
    forall h | h in s.trace
      ensures Apart(h, Did(t, s.tests[t].stack, e))
    {
      assert Retired(s, h);
    }
  }

  lemma StillStarted(s: Sys, u: Sys)
    requires OwnStopsOnly(s) && s.trace <= u.trace
    requires forall t :: t in u.tests && u.tests[t].own ==> t in s.tests && s.tests[t].own && s.tests[t].stack == u.tests[t].stack
    ensures forall t :: t in u.tests && u.tests[t].own ==> StartedBy(t, u.tests[t].stack, u.trace)
  {
    forall t | t in u.tests && u.tests[t].own
      ensures StartedBy(t, u.tests[t].stack, u.trace)
    {
      assert StartedBy(t, s.tests[t].stack, s.trace);
    }
  }

  /** A test moving by one of its own steps, with what it records emitted. */
  lemma UpdateKeeps(s: Sys, t: Tid, now: Test)
    requires Inv(s) && t in s.tests && TestInv(now)
    requires s.stage.NoHarness? || s.stage.Suite?
    requires now.stack == s.tests[t].stack && now.own == s.tests[t].own && (Active(now) ==> Active(s.tests[t]))
    requires now.log == s.tests[t].log
             || (exists e :: now.log == s.tests[t].log + [e]
                             && Active(s.tests[t]) && (e.Stopped? ==> now.own && !Active(now)))
    ensures Inv(Update(s, t, now))
  {
    var u := Update(s, t, now);
    assert Moved(s, u, t);
    if now.log == s.tests[t].log {
      assert u.trace == s.trace;
      QuietStep(s, u, t);
    } else {
      var e :| now.log == s.tests[t].log + [e] && Active(s.tests[t]) && (e.Stopped? ==> now.own && !Active(now));
      LoudStep(s, u, t, e);
    }
  }

  lemma UnfinishedMeansRunning(s: Sys, t: Tid)
    requires Stages(s) && t in s.tests && !Idle(s.tests[t])
    ensures s.stage.NoHarness? || s.stage.Suite?
  {
  }

  /** A stop is the last thing a test does. */
  lemma StopIsLast(t: Test, ok: bool)
    requires TestInv(t) && t.phase.Cleanup? && t.callbacks != []
    ensures var u := PopOne(t, ok);
            && (u.log == t.log || exists e :: u.log == t.log + [e] && (e.Stopped? ==> u.own && !Active(u)))
  {
    TopCallback(t);
    var u := PopOne(t, ok);
    if u.log != t.log {
      var e := u.log[|t.log|];
      assert u.log == t.log + [e];
    }
  }

  lemma KeepFail(s: Sys, t: Tid, fatal: bool)
    requires Inv(s) && t in s.tests && (s.tests[t].phase.Setup? || s.tests[t].phase.Body?)
    ensures Inv(Update(s, t, Fail(s.tests[t], fatal)))
  {
    var test := s.tests[t];
    UnfinishedMeansRunning(s, t);
    FailKeeps(test, fatal);
    assert Fail(test, fatal).log == test.log + [Failed];
    UpdateKeeps(s, t, Fail(test, fatal));
  }

  lemma KeepSeed(s: Sys, t: Tid, ok: bool)
    requires Inv(s) && t in s.tests && s.tests[t].phase.Body?
    ensures Inv(Update(s, t, Seed(s.tests[t], ok)))
  {
    var test := s.tests[t];
    UnfinishedMeansRunning(s, t);
    SeedKeeps(test, ok);
    assert !ok ==> Seed(test, ok).log == test.log + [Failed];
    UpdateKeeps(s, t, Seed(test, ok));
  }

  lemma CallbackEvent(t: Test, ok: bool) returns (e: Event)
    requires t.callbacks != []
    ensures var u := PopOne(t, ok); u.log == t.log || u.log == t.log + [e]
  {
    match t.callbacks[|t.callbacks| - 1]
    case Delete => e := Deleted(ok);
    case Dump => e := Dumped;
    case Destroy => e := Destroyed(ok);
    case StopStack => e := Stopped(ok);
  }

  lemma CallbackFacts(t: Test, ok: bool)
    requires TestInv(t) && t.phase.Cleanup? && t.callbacks != []
    ensures var u := PopOne(t, ok);
            && TestInv(u) && u.stack == t.stack && u.own == t.own && Active(t)
            && (u.log == t.log || exists e :: u.log == t.log + [e] && (e.Stopped? ==> u.own && !Active(u)))
  {
    PopKeeps(t, ok);
    var e := CallbackEvent(t, ok);
    StopIsLast(t, ok);
  }

  lemma KeepCallback(s: Sys, t: Tid, ok: bool)
    requires Inv(s) && t in s.tests && s.tests[t].phase.Cleanup? && s.tests[t].callbacks != []
    ensures Inv(Update(s, t, PopOne(s.tests[t], ok)))
  {
    UnfinishedMeansRunning(s, t);
    CallbackFacts(s.tests[t], ok);
    UpdateKeeps(s, t, PopOne(s.tests[t], ok));
  }

  lemma {:induction false} KeepTestMove(s: Sys, m: Move)
    requires Inv(s) && Enabled(s, m) && !m.HarnessStep? && !m.Begin?
    ensures Inv(Apply(s, m))
  {
    match m {
      case NewReturns(t) =>
        UnfinishedMeansRunning(s, t);
        RegisterKeeps(s.tests[t]);
        UpdateKeeps(s, t, Register(s.tests[t]));
      case NewAborts(t) => KeepFail(s, t, true);
      case SeedObject(t, ok) => KeepSeed(s, t, ok);
      case FailTest(t, fatal) => KeepFail(s, t, fatal);
      case EndBody(t) =>
        UnfinishedMeansRunning(s, t);
        UpdateKeeps(s, t, s.tests[t].(phase := Cleanup));
      case RunCallback(t, ok) => KeepCallback(s, t, ok);
      case EndTest(t) =>
        UnfinishedMeansRunning(s, t);
        UpdateKeeps(s, t, s.tests[t].(phase := Finished));
    }
  }

  // ----- tests beginning -----

  /** It neither needs nor stops a container. */
  predicate Quiet(g: Global) {
    Needs(g).None? && Stops(g).None? && (g.Did? ==> !g.e.Stopped?)
  }

  /** `u` is `s` with a new test on it, and with what its start records. */
  ghost predicate Begun(s: Sys, u: Sys, t: Tid) {
    && t !in s.tests && t in u.tests && u.tests == s.tests[t := u.tests[t]]
    && u.shared == s.shared && u.stage == s.stage && u.container == s.container && s.next <= u.next && !s.stage.Exited?
    && var test := u.tests[t];
       && test.callbacks == [] && !test.registered && !test.phase.Body? && !test.phase.Finished?
       && ((test.log == [] && !test.failed) || (test.log == [Failed] && test.failed))
       && StackOk(u, test) && (test.own ==> test.stack == Some(s.next))
       && (test.stack == None || test.stack == Some(s.next) || test.stack == s.shared)
       && (test.own ==> StartedBy(t, test.stack, u.trace))
       && (u.trace == s.trace
           || (|u.trace| == |s.trace| + 1 && u.trace[..|s.trace|] == s.trace
               && Quiet(u.trace[|s.trace|])))
  }

  lemma BeginShape(s: Sys, t: Tid, persist: bool, started: bool)
    requires Inv(s) && Enabled(s, Begin(t, persist, started))
    ensures Begun(s, BeginTest(s, t, persist, started), t) && Stages(BeginTest(s, t, persist, started))
  {
    var u := BeginTest(s, t, persist, started);
    if u.trace != s.trace {
      var g := u.trace[|s.trace|];
      assert u.trace == s.trace + [g];
      assert u.tests[t].own ==> g in u.trace;
    }
  }

  lemma BegunTrace(s: Sys, u: Sys, t: Tid)
    requires Inv(s) && Begun(s, u, t)
    ensures Safe(u.trace) && OwnStopsOnly(u) && StoppedIsIdle(u)
  {
    BeginRetired(s, u, t);
    BeginStarted(s, u, t);
    if u.trace != s.trace {
      var g := u.trace[|s.trace|];
      assert u.trace == s.trace + [g];
      SafeSnoc(s.trace, g);
      OwnStopsSnoc(s, u, g);
      assert Retired(u, g);
    }
  }

  lemma KeepBegin(s: Sys, t: Tid, persist: bool, started: bool)
    requires Inv(s) && Enabled(s, Begin(t, persist, started))
    ensures Inv(BeginTest(s, t, persist, started))
  {
    var u := BeginTest(s, t, persist, started);
    BeginShape(s, t, persist, started);
    NewTestOk(u.tests[t]);
    BeginOwners(s, u, t);
    BegunTrace(s, u, t);
  }

  lemma NewTestOk(t: Test)
    requires t.callbacks == [] && !t.registered && !t.phase.Body? && !t.phase.Finished?
    requires (t.log == [] && !t.failed) || (t.log == [Failed] && t.failed)
    ensures TestInv(t)
  {
    CountSnoc([], Failed);
    assert [] + [Failed] == [Failed];
    if t.log != [] {
      assert Bad(t.log[0]);
    }
  }

  lemma BeginOwners(s: Sys, u: Sys, t: Tid)
    requires Owners(s) && t !in s.tests && t in u.tests && u.tests == s.tests[t := u.tests[t]]
    requires u.shared == s.shared && s.next <= u.next
    requires StackOk(u, u.tests[t]) && (u.tests[t].own ==> u.tests[t].stack == Some(s.next))
    ensures Owners(u)
  {
    forall d | d in u.tests
      ensures StackOk(u, u.tests[d])
    {
      if d != t {
        assert StackOk(s, s.tests[d]);
      }
    }
    forall d, e | d in u.tests && e in u.tests && d != e
      ensures NotBoth(u.tests[d], u.tests[e])
    {
      if d != t {
        assert StackOk(s, s.tests[d]);
      }
      if e != t {
        assert StackOk(s, s.tests[e]);
      }
      if d != t && e != t {
        assert NotBoth(s.tests[d], s.tests[e]);
      }
    }
  }

  lemma BeginRetired(s: Sys, u: Sys, t: Tid)
    requires StoppedIsIdle(s) && t !in s.tests && t in u.tests && u.tests == s.tests[t := u.tests[t]]
    requires u.shared == s.shared && u.stage == s.stage && s.next <= u.next && !s.stage.Exited?
    requires var c := u.tests[t].stack; c == None || c == Some(s.next) || c == s.shared
    ensures forall g :: g in s.trace ==> Retired(u, g)
  {
    forall g | g in s.trace
      ensures Retired(u, g)
    {
      assert Retired(s, g);
    }
  }

  lemma BeginStarted(s: Sys, u: Sys, t: Tid)
    requires OwnStopsOnly(s) && s.trace <= u.trace && t in u.tests && u.tests == s.tests[t := u.tests[t]]
    requires u.tests[t].own ==> StartedBy(t, u.tests[t].stack, u.trace)
    ensures forall d :: d in u.tests && u.tests[d].own ==> StartedBy(d, u.tests[d].stack, u.trace)
  {
    forall d | d in u.tests && u.tests[d].own
      ensures StartedBy(d, u.tests[d].stack, u.trace)
    {
      if d != t {
        assert StartedBy(d, s.tests[d].stack, s.trace);
      }
    }
  }

  // ----- the harness moving -----

  /** `u` is `s` after a step of the harness that recorded `he`, with the tests as they were. */
  ghost predicate HarnessMoved(s: Sys, u: Sys, he: H.Event) {
    && u.tests == s.tests && u.shared.Some? && u.trace == s.trace + [HarnessDid(u.shared.value, he)]
    && AllFinished(s) && s.next <= u.next && !s.stage.Exited?
    && (u.shared == s.shared || (s.shared.None? && u.shared == Some(s.next) && u.next == s.next + 1))
    && (he.ContainerStopped? ==> u.stage.Exited?) && (he.ContainerStarted? <==> s.shared.None?)
  }

  lemma FinishedIsInactive(s: Sys)
    requires AllFinished(s) && forall t :: t in s.tests ==> TestInv(s.tests[t])
    ensures forall t :: t in s.tests ==> !Active(s.tests[t])
  {
    forall t | t in s.tests
      ensures !Active(s.tests[t])
    {
      assert TestInv(s.tests[t]);
    }
  }

  lemma HarnessKeeps(s: Sys, u: Sys, he: H.Event)
    requires Inv(s) && HarnessMoved(s, u, he) && Stages(u)
    ensures Inv(u)
  {
    FinishedIsInactive(s);
    var c := u.shared.value;
    var g := HarnessDid(c, he);
    forall t | t in u.tests
      ensures StackOk(u, u.tests[t])
    {
      assert StackOk(s, s.tests[t]);
    }
    forall h | h in s.trace
      ensures Retired(u, h) && Apart(h, g)
    {
      assert Retired(s, h);
    }
    SafeSnoc(s.trace, g);
    StillStarted(s, u);
    OwnStopsSnoc(s, u, g);
    assert Retired(u, g);
  }

  /** A harness step records one event, or only changes the stage. */
  lemma HarnessShape(s: Sys)
    requires Stages(s) && Enabled(s, HarnessStep)
    ensures var u := HarnessMove(s);
            Stages(u) && if u.trace != s.trace then |u.trace| > |s.trace| && u.trace[|s.trace|].HarnessDid?
                                                    && HarnessMoved(s, u, u.trace[|s.trace|].he)
                         else u.tests == s.tests && u.shared == s.shared && u.next == s.next
                              && (s.stage.Exited? ==> u.stage.Exited?)
  {
    var u := HarnessMove(s);
    if u.trace != s.trace {
      assert u.trace == s.trace + [u.trace[|s.trace|]];
    }
  }

  lemma KeepHarness(s: Sys)
    requires Inv(s) && Enabled(s, HarnessStep)
    ensures Inv(HarnessMove(s))
  {
    var u := HarnessMove(s);
    HarnessShape(s);
    if u.trace != s.trace {
      HarnessKeeps(s, u, u.trace[|s.trace|].he);
    } else {
      HarnessQuiet(s, u);
    }
  }

  lemma HarnessQuiet(s: Sys, u: Sys)
    requires Inv(s) && Stages(u)
    requires u.tests == s.tests && u.shared == s.shared && u.next == s.next && u.trace == s.trace
    requires s.stage.Exited? ==> u.stage.Exited?
    ensures Inv(u)
  {
    forall t | t in u.tests
      ensures StackOk(u, u.tests[t])
    {
      assert StackOk(s, s.tests[t]);
    }
    forall g | g in u.trace
      ensures Retired(u, g)
    {
      assert Retired(s, g);
    }
    StillStarted(s, u);
  }

  lemma KeepStep(s: Sys, m: Move)
    requires Inv(s) && Enabled(s, m)
    ensures Inv(Apply(s, m))
  {
    match m {
      case HarnessStep => KeepHarness(s);
      case Begin(t, persist, started) => KeepBegin(s, t, persist, started);
      case _ => KeepTestMove(s, m);
    }
  }

  lemma {:induction false} KeepRun(harness: bool, container: Option<string>, starts: seq<Option<string>>, moves: seq<Move>)
    requires Run(Initial(harness, container, starts), moves).Some?
    ensures Inv(Run(Initial(harness, container, starts), moves).value)
    decreases |moves|
  {
    if moves != [] {
      KeepRun(harness, container, starts, moves[..|moves| - 1]);
      KeepStep(Run(Initial(harness, container, starts), moves[..|moves| - 1]).value, moves[|moves| - 1]);
    }
  }
}
