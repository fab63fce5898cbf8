/** What holds in every run of tests and harness: the claims about the lifecycle, and a run they speak of. */
module LifecycleClaims {
  import opened Options
  import opened Lifecycle
  import opened LifecycleRuns
  import H = Harness

  // ----- the harness's part of a run is Harness.RunLog -----

  ghost function HarnessLog(trace: seq<Global>): seq<H.Event> {
    if trace == [] then []
    else
      var g := trace[|trace| - 1];
      HarnessLog(trace[..|trace| - 1]) + if g.HarnessDid? then [g.he] else []
  }

  lemma HarnessLogSnoc(trace: seq<Global>, g: Global)
    ensures HarnessLog(trace + [g]) == HarnessLog(trace) + if g.HarnessDid? then [g.he] else []
  {
    assert (trace + [g])[..|trace|] == trace;
  }

  /** What the harness has done so far, with what it will still do, is `Harness.RunLog`. */
  ghost predicate Story(s: Sys) {
    var log, k, n := HarnessLog(s.trace), H.StartedCount(s.starts), |s.starts|;
    match s.stage
    case NoHarness => log == []
    case NotStarted => log == []
    case Booting(i) => s.shared.Some? && s.container.Some? && i <= k && log == [H.ContainerStarted] + H.Starts(i)
    case Suite => s.shared.Some? && log + H.Stops(n, false) == H.RunLog(s.container, s.starts)
    case Stopping(left, live) => s.shared.Some? && log + H.Stops(left, live) == H.RunLog(s.container, s.starts)
    case Exited => log == H.RunLog(s.container, s.starts)
  }

  lemma StoryNote(s: Sys, u: Sys, he: H.Event)
    requires s.shared.Some? && u.trace == Note(s, he).trace
    ensures HarnessLog(u.trace) == HarnessLog(s.trace) + [he]
  {
    HarnessLogSnoc(s.trace, HarnessDid(s.shared.value, he));
  }

  lemma StoryBooting(s: Sys)
    requires Story(s) && s.stage.Booting?
    ensures Story(HarnessMove(s))
  {
    var i, n, k := s.stage.k, |s.starts|, H.StartedCount(s.starts);
    var u := HarnessMove(s);
    var log := HarnessLog(s.trace);
    if i < n && s.starts[i].None? {
      assert i == k;
      StoryNote(s, u, H.SidecarFailed(k));
      assert (log + [H.SidecarFailed(k)]) + H.Stops(k, true) == log + ([H.SidecarFailed(k)] + H.Stops(k, true));
    } else if i < n {
      StoryNote(s, u, H.SidecarStarted(i));
      assert H.Starts(i + 1) == H.Starts(i) + [H.SidecarStarted(i)];
    } else {
      assert i == k == n;
      StoryNote(s, u, H.SuiteRun(SuiteURL(s)));
      var suite := H.SuiteRun(SuiteURL(s));
      assert (log + [suite]) + H.Stops(n, false) == log + ([suite] + H.Stops(n, false));
    }
  }

  /** One stop moves from what is left to the log. */
  lemma OneStop(log: seq<H.Event>, left: nat, live: bool)
    ensures log + H.Stops(left, live) ==
            if left == 0 then log + [H.ContainerStopped(live)]
            else (log + [H.SidecarStopped(left - 1, live)]) + H.Stops(left - 1, live)
  {
    if left > 0 {
      var e := H.SidecarStopped(left - 1, live);
      assert H.Stops(left, live) == [e] + H.Stops(left - 1, live);
    }
  }

  lemma StoryStopLast(s: Sys)
    requires Story(s) && s.stage.Stopping? && s.stage.left == 0
    ensures Story(HarnessMove(s))
  {
    OneStop(HarnessLog(s.trace), 0, s.stage.live);
    StoryNote(s, HarnessMove(s), H.ContainerStopped(s.stage.live));
  }

  /** One more stop in the log, one less to come. */
  lemma StopMoved(s: Sys, u: Sys, stop: H.Event)
    requires Story(s) && s.stage.Stopping? && s.stage.left > 0 && stop == H.SidecarStopped(s.stage.left - 1, s.stage.live)
    requires HarnessLog(u.trace) == HarnessLog(s.trace) + [stop]
    requires u.stage == Stopping(s.stage.left - 1, s.stage.live)
    requires u.shared == s.shared && u.container == s.container && u.starts == s.starts
    ensures Story(u)
  {
    OneStop(HarnessLog(s.trace), s.stage.left, s.stage.live);
  }

  lemma StoryStopNext(s: Sys)
    requires Story(s) && s.stage.Stopping? && s.stage.left > 0
    ensures Story(HarnessMove(s))
  {
    var stop := H.SidecarStopped(s.stage.left - 1, s.stage.live);
    StoryNote(s, HarnessMove(s), stop);
    StopMoved(s, HarnessMove(s), stop);
  }

  lemma StoryStopping(s: Sys)
    requires Story(s) && s.stage.Stopping?
    ensures Story(HarnessMove(s))
  {
    if s.stage.left == 0 {
      StoryStopLast(s);
    } else {
      StoryStopNext(s);
    }
  }

  lemma StoryHarness(s: Sys)
    requires Story(s)
    ensures Story(HarnessMove(s))
  {
    match s.stage {
      case NotStarted =>
        if s.container.Some? {
          HarnessLogSnoc(s.trace, HarnessDid(s.next, H.ContainerStarted));
          assert H.Starts(0) == [];
        }
      case Booting(_) => StoryBooting(s);
      case Stopping(_, _) => StoryStopping(s);
      case _ =>
    }
  }

  /** Tests leave the harness where it is. */
  lemma TestsLeaveHarness(s: Sys, m: Move)
    requires Enabled(s, m) && !m.HarnessStep?
    ensures var u := Apply(s, m);
            && u.stage == s.stage && u.shared == s.shared && u.starts == s.starts && u.container == s.container
            && (u.trace == s.trace || exists g :: u.trace == s.trace + [g] && !g.HarnessDid?)
  {
    var u := Apply(s, m);
    if u.trace != s.trace {
      var g := u.trace[|s.trace|];
      assert u.trace == s.trace + [g] && !g.HarnessDid?;
    }
  }

  lemma StoryStep(s: Sys, m: Move)
    requires Story(s) && Enabled(s, m)
    ensures Story(Apply(s, m)) && Apply(s, m).starts == s.starts && Apply(s, m).container == s.container
  {
    if m.HarnessStep? {
      StoryHarness(s);
    } else {
      TestsLeaveHarness(s, m);
      var u := Apply(s, m);
      if u.trace != s.trace {
        var g :| u.trace == s.trace + [g] && !g.HarnessDid?;
        HarnessLogSnoc(s.trace, g);
      }
      StorySame(s, u);
    }
  }

  lemma StorySame(s: Sys, u: Sys)
    requires Story(s) && HarnessLog(u.trace) == HarnessLog(s.trace)
    requires u.stage == s.stage && u.shared == s.shared && u.starts == s.starts && u.container == s.container
    ensures Story(u)
  {
  }

  // ----- main results -----

  /**
   In every run nothing uses a container after it was stopped: no fixture delete, no terraform
   destroy, no second stop. It holds for containers tests own and for the shared one.
   */
  lemma NothingAfterStop(harness: bool, container: Option<string>, starts: seq<Option<string>>,
      moves: seq<Move>)
    ensures var r := Run(Initial(harness, container, starts), moves);
            r.Some? ==> forall i, j, c :: 0 <= i < j < |r.value.trace| && Stops(r.value.trace[i]) == Some(c)
                                          ==> Needs(r.value.trace[j]) != Some(c)
  {
    var r := Run(Initial(harness, container, starts), moves);
    if r.Some? {
      KeepRun(harness, container, starts, moves);
      var trace := r.value.trace;
      forall i, j, c | 0 <= i < j < |trace| && Stops(trace[i]) == Some(c)
        ensures Needs(trace[j]) != Some(c)
      {
        assert Apart(trace[i], trace[j]);
      }
    }
  }

  /** Event `i` does not stop a container, or its test started that container before. */
  ghost predicate StopsOwn(trace: seq<Global>, i: nat)
    requires i < |trace|
  {
    trace[i].Did? && trace[i].e.Stopped? ==>
      trace[i].stack.Some? && exists j :: 0 <= j < i && trace[j] == TestStarted(trace[i].t, trace[i].stack.value)
  }

  /** A TestCase only ever stops a container it started itself, earlier in the run. */
  lemma StopsOwnOnly(harness: bool, container: Option<string>, starts: seq<Option<string>>,
      moves: seq<Move>)
    ensures var r := Run(Initial(harness, container, starts), moves);
            r.Some? ==> forall i :: 0 <= i < |r.value.trace| ==> StopsOwn(r.value.trace, i)
  {
    var r := Run(Initial(harness, container, starts), moves);
    if r.Some? {
      KeepRun(harness, container, starts, moves);
      var trace := r.value.trace;
      forall i | 0 <= i < |trace| && trace[i].Did? && trace[i].e.Stopped?
        ensures StopsOwn(trace, i)
      {
        assert StartedBy(trace[i].t, trace[i].stack, trace[..i]);
        var j :| 0 <= j < i && trace[..i][j] == TestStarted(trace[i].t, trace[i].stack.value);
        assert trace[j] == trace[..i][j];
      }
    }
  }

  /** Every stop of the owned container follows a clean run: no failure, a successful destroy, no dump. */
  ghost predicate StopsAfterCleanRun(log: seq<Event>) {
    forall n :: 0 <= n < |log| && log[n].Stopped? ==>
                  && NoBad(log[..n]) && Destroyed(true) in log[..n]
                  && forall i :: 0 <= i < n ==> !log[i].Dumped?
  }

  /** Done once; or not at all, after a failure under PersistOnFailure. */
  ghost predicate OnceUnlessKept(test: Test, count: nat) {
    count == 1 || (test.persist && test.failed && count == 0)
  }

  /** Destroys and owned stops attempted by a finished test. */
  ghost predicate Attempts(test: Test) {
    && OnceUnlessKept(test, DestroyCount(test.log))
    && (if test.own then OnceUnlessKept(test, StopCount(test.log)) else StopCount(test.log) == 0)
  }

  lemma BadMeans(log: seq<Event>)
    ensures NoBad(log) <==>
            Failed !in log && Deleted(false) !in log && Destroyed(false) !in log && Stopped(false) !in log
  {
  }

  /**
   The cleanup contract of every test of every run. Under PersistOnFailure a stop of the owned
   container means that nothing had failed, destroy had succeeded and nothing was dumped.
   Without it a finished test has attempted destroy once and the stop of its own container once;
   with it, once or, after a failure, not at all. The failed flag is set by failures alone.
   */
  lemma CleanupContract(harness: bool, container: Option<string>, starts: seq<Option<string>>,
      moves: seq<Move>, t: Tid)
    ensures var r := Run(Initial(harness, container, starts), moves);
            r.Some? && t in r.value.tests ==>
              var test := r.value.tests[t];
              && (test.persist ==> StopsAfterCleanRun(test.log))
              && (test.registered && test.phase.Finished? ==> Attempts(test))
              && (test.failed <==>
                    || Failed in test.log || Deleted(false) in test.log
                    || Destroyed(false) in test.log || Stopped(false) in test.log)
  {
    var r := Run(Initial(harness, container, starts), moves);
    if r.Some? && t in r.value.tests {
      KeepRun(harness, container, starts, moves);
      var test := r.value.tests[t];
      assert TestInv(test);
      BadMeans(test.log);
      if test.persist {
        forall n | 0 <= n < |test.log| && test.log[n].Stopped?
          ensures NoBad(test.log[..n]) && Destroyed(true) in test.log[..n] && forall i :: 0 <= i < n ==> !test.log[i].Dumped?
        {
          PersistentStopIsClean(test, n);
        }
      }
    }
  }

  /** Interleaved with any tests, the harness's own steps are those of `Harness.Run`, in that order. */
  lemma {:induction false} HarnessStepsAreRun(container: Option<string>, starts: seq<Option<string>>, moves: seq<Move>)
    ensures var r := Run(Initial(true, container, starts), moves);
            r.Some? ==>
              && r.value.container == container && r.value.starts == starts && Story(r.value)
              && (r.value.stage.Exited? ==> HarnessLog(r.value.trace) == H.RunLog(container, starts))
    decreases |moves|
  {
    if moves != [] && Run(Initial(true, container, starts), moves).Some? {
      HarnessStepsAreRun(container, starts, moves[..|moves| - 1]);
      StoryStep(Run(Initial(true, container, starts), moves[..|moves| - 1]).value, moves[|moves| - 1]);
    }
  }

  // ----- such runs exist -----

  lemma Extend(init: Sys, moves: seq<Move>, m: Move, s: Sys)
    requires Run(init, moves) == Some(s) && Enabled(s, m)
    ensures Run(init, moves + [m]) == Some(Apply(s, m))
  {
    assert (moves + [m])[..|moves|] == moves;
  }

  lemma SetUp() returns (moves: seq<Move>, s: Sys, test: Test)
    ensures Run(Initial(false, None, []), moves) == Some(s)
    ensures test == Test(Body, Some(0), true, false, false, true, [StopStack, Destroy, Dump], [])
    ensures s == Sys(None, [], NoHarness, None, 1, map[0 := test], [TestStarted(0, 0)])
  {
    var init := Initial(false, None, []);
    moves, s := [], init;
    Extend(init, moves, Begin(0, false, true), s);
    moves, s := moves + [Begin(0, false, true)], Apply(s, Begin(0, false, true));
    test := Test(Setup, Some(0), true, false, false, false, [], []);
    assert s == Sys(None, [], NoHarness, None, 1, map[0 := test], [TestStarted(0, 0)]);
    Extend(init, moves, NewReturns(0), s);
    moves, s := moves + [NewReturns(0)], Apply(s, NewReturns(0));
    test := Register(test);
    assert test.callbacks == [StopStack, Destroy, Dump];
  }

  ghost function Alone(test: Test, trace: seq<Global>): Sys {
    Sys(None, [], NoHarness, None, 1, map[0 := test], trace)
  }

  lemma OneMove(init: Sys, before: seq<Move>, m: Move, test: Test, now: Test,
                                   trace: seq<Global>, after: seq<Global>) returns (moves: seq<Move>)
    requires Run(init, before) == Some(Alone(test, trace)) && Enabled(Alone(test, trace), m)
    requires Apply(Alone(test, trace), m) == Update(Alone(test, trace), 0, now)
    requires after == trace + Emitted(0, test, now)
    ensures Run(init, moves) == Some(Alone(now, after))
  {
    Extend(init, before, m, Alone(test, trace));
    moves := before + [m];
    assert map[0 := test][0 := now] == map[0 := now];
  }

  lemma OneCallback(init: Sys, before: seq<Move>, test: Test, now: Test,
                                       trace: seq<Global>, after: seq<Global>) returns (moves: seq<Move>)
    requires Run(init, before) == Some(Alone(test, trace)) && test.phase.Cleanup? && test.callbacks != []
    requires now == PopOne(test, true) && after == trace + Emitted(0, test, now)
    ensures Run(init, moves) == Some(Alone(now, after))
  {
    moves := OneMove(init, before, RunCallback(0, true), test, now, trace, after);
  }

  lemma CleanUp(init: Sys, before: seq<Move>, test: Test) returns (moves: seq<Move>, now: Test)
    requires test == Test(Cleanup, Some(0), true, false, false, true, [StopStack, Destroy, Dump, Delete], [])
    requires Run(init, before) == Some(Alone(test, [TestStarted(0, 0)]))
    ensures Run(init, moves) == Some(Alone(now, [TestStarted(0, 0), Did(0, Some(0), Deleted(true)),
                                                 Did(0, Some(0), Destroyed(true)), Did(0, Some(0), Stopped(true))]))
  {
    var a, b, c := Did(0, Some(0), Deleted(true)), Did(0, Some(0), Destroyed(true)), Did(0, Some(0), Stopped(true));
    var t1 := test.(callbacks := [StopStack, Destroy, Dump], log := [Deleted(true)]);
    moves := OneCallback(init, before, test, t1, [TestStarted(0, 0)], [TestStarted(0, 0), a]);
    var t2 := t1.(callbacks := [StopStack, Destroy]);
    moves := OneCallback(init, moves, t1, t2, [TestStarted(0, 0), a], [TestStarted(0, 0), a]);
    var t3 := t2.(callbacks := [StopStack], log := [Deleted(true), Destroyed(true)]);
    moves := OneCallback(init, moves, t2, t3, [TestStarted(0, 0), a], [TestStarted(0, 0), a, b]);
    now := t3.(callbacks := [], log := [Deleted(true), Destroyed(true), Stopped(true)]);
    moves := OneCallback(init, moves, t3, now, [TestStarted(0, 0), a, b], [TestStarted(0, 0), a, b, c]);
  }

  /** A test of its own: it seeds an object, and its cleanup deletes, destroys and stops in that order. */
  lemma StopsHappen() returns (moves: seq<Move>)
    ensures var r := Run(Initial(false, None, []), moves);
            r.Some? && r.value.trace == [TestStarted(0, 0), Did(0, Some(0), Deleted(true)), Did(0, Some(0), Destroyed(true)),
                                         Did(0, Some(0), Stopped(true))]
  {
    var s, t0;
    moves, s, t0 := SetUp();
    var init, trace := Initial(false, None, []), [TestStarted(0, 0)];
    var t1 := t0.(callbacks := [StopStack, Destroy, Dump, Delete]);
    assert t0.callbacks + [Delete] == t1.callbacks && Seed(t0, true) == t1;
    moves := OneMove(init, moves, SeedObject(0, true), t0, t1, trace, trace);
    var t2 := t1.(phase := Cleanup);
    moves := OneMove(init, moves, EndBody(0), t1, t2, trace, trace);
    var t3;
    moves, t3 := CleanUp(init, moves, t2);
  }
}
