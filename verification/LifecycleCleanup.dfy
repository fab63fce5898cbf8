/**
 Exactly what a test's cleanup does: one deletion for each seeded object, the dump, terraform
 destroy and the container's stop, each present or absent for a stated reason.
 */
module LifecycleCleanup {
  import opened Options
  import opened Lifecycle
  import opened LifecycleRuns

  /** The parts of a test's log, in order. */
  datatype Course = Course(body: seq<Event>, deletes: seq<Event>, dump: seq<Event>, destroy: seq<Event>, stop: seq<Event>)

  function Before(c: Course): seq<Event> { c.body + c.deletes }

  function Until(c: Course): seq<Event> { Before(c) + c.dump + c.destroy }

  function All(c: Course): seq<Event> { Until(c) + c.stop }

  /** The artifacts are dumped exactly if the test had failed. */
  ghost predicate DumpOk(c: Course) {
    c.dump == if NoBad(Before(c)) then [] else [Dumped]
  }

  /** Terraform destroy is attempted once, unless the test had failed and is kept. */
  ghost predicate DestroyOk(persist: bool, c: Course) {
    if persist && !NoBad(Before(c)) then c.destroy == [] else |c.destroy| == 1 && c.destroy[0].Destroyed?
  }

  /** So is the stop of a container of its own, unless the test had failed by then and is kept. */
  ghost predicate StopOk(own: bool, persist: bool, c: Course) {
    if !own || (persist && !NoBad(Until(c))) then c.stop == [] else |c.stop| == 1 && c.stop[0].Stopped?
  }

  ghost predicate BodyOk(n: nat, c: Course) {
    && (forall i :: 0 <= i < |c.body| ==> c.body[i] == Failed)
    && |c.deletes| == n && (forall i :: 0 <= i < n ==> c.deletes[i].Deleted?)
  }

  /** `c` is what a test that seeded `n` objects has done once its cleanup is over. */
  ghost predicate Complete(t: Test, n: nat, c: Course) {
    && t.log == All(c) && BodyOk(n, c) && DumpOk(c) && DestroyOk(t.persist, c) && StopOk(t.own, t.persist, c)
  }

  // ----- on the way there -----

  /** What is left to run of the callbacks New registered. */
  function Base(t: Test): nat {
    if t.own then 3 else 2
  }

  /** `c` is what a test that seeded `n` objects has done so far. */
  ghost predicate Follows(t: Test, n: nat, c: Course) {
    var k := |t.callbacks|;
    && t.log == All(c)
    && (t.failed <==> !NoBad(t.log))
    && (if !t.registered then n == 0 && BodyOk(0, c)
        else if k >= Base(t) then n >= k - Base(t) && BodyOk(n - (k - Base(t)), c)
        else BodyOk(n, c))
    && (t.registered && t.phase.Body? ==> k == n + Base(t))
    && (if t.registered && k < Base(t) then DumpOk(c) else c.dump == [])
    && (if t.registered && k < Base(t) - 1 then DestroyOk(t.persist, c) else c.destroy == [])
    && (if t.registered && k < Base(t) - 2 then StopOk(t.own, t.persist, c) else c.stop == [])
  }

  /** In the body of a test nothing has been deleted yet. */
  lemma BodyOnly(t: Test, n: nat, c: Course)
    requires Follows(t, n, c) && (t.registered ==> t.phase.Body? && |t.callbacks| == n + Base(t))
    ensures c.deletes == [] && c.dump == [] && c.destroy == [] && c.stop == [] && All(c) == c.body
  {
  }

  lemma FollowsFail(t: Test, n: nat, c: Course, phase: Phase)
    requires Follows(t, n, c) && (t.registered ==> t.phase.Body? && |t.callbacks| == n + Base(t))
    ensures Follows(Record(t, Failed).(phase := phase), n, c.(body := c.body + [Failed]))
  {
    var d := c.(body := c.body + [Failed]);
    BodyOnly(t, n, c);
    NoBadSnoc(t.log, Failed);
    assert All(d) == t.log + [Failed];
  }

  lemma FollowsSeed(t: Test, n: nat, c: Course)
    requires Follows(t, n, c) && t.registered && t.phase.Body?
    ensures Follows(Seed(t, true), n + 1, c)
  {
  }

  lemma FollowsRegister(t: Test, n: nat, c: Course)
    requires Follows(t, n, c) && !t.registered && t.callbacks == []
    ensures Follows(Register(t), n, c)
  {
  }

  lemma FollowsPhase(t: Test, n: nat, c: Course, phase: Phase)
    requires Follows(t, n, c) && !phase.Body?
    ensures Follows(t.(phase := phase), n, c)
  {
  }

  // ----- one callback -----

  /** The stack without its top. */
  function Popped(t: Test): Test
    requires t.callbacks != []
  {
    t.(callbacks := t.callbacks[..|t.callbacks| - 1])
  }

  /** A test in cleanup whose callback `cb` is on top, `left` of its callbacks being left. */
  ghost predicate AtCallback(t: Test, cb: Callback, left: nat) {
    && t.registered && t.phase.Cleanup? && t.callbacks != [] && t.callbacks[|t.callbacks| - 1] == cb
    && |t.callbacks| == left
  }

  lemma CallbacksLeft(t: Test, cb: Callback)
    requires OnTop(t, cb)
    ensures AtCallback(t, cb, |t.callbacks|)
    ensures cb == Delete ==> |t.callbacks| > Base(t)
    ensures cb == Dump ==> |t.callbacks| == Base(t)
    ensures cb == Destroy ==> |t.callbacks| == Base(t) - 1
    ensures cb == StopStack ==> |t.callbacks| == Base(t) - 2 && t.own
  {
    TopCallback(t);
    var n, base := |t.callbacks| - 1, |Registered(t.own)|;
    if n >= base {
      assert cb == Delete;
    } else if n == base - 1 {
      assert cb == Dump;
    } else if n == base - 2 {
      assert cb == Destroy;
    } else {
      assert cb == StopStack;
    }
  }

  lemma FollowsDelete(t: Test, n: nat, c: Course, ok: bool)
    requires Follows(t, n, c) && AtCallback(t, Delete, |t.callbacks|) && |t.callbacks| > Base(t)
    ensures Follows(PopOne(t, ok), n, c.(deletes := c.deletes + [Deleted(ok)]))
  {
    var d := c.(deletes := c.deletes + [Deleted(ok)]);
    NoBadSnoc(t.log, Deleted(ok));
    assert PopOne(t, ok) == Record(Popped(t), Deleted(ok));
    assert All(d) == t.log + [Deleted(ok)];
  }

  lemma FollowsDump(t: Test, n: nat, c: Course, ok: bool)
    requires Follows(t, n, c) && AtCallback(t, Dump, Base(t))
    ensures Follows(PopOne(t, ok), n, c.(dump := if t.failed then [Dumped] else []))
  {
    var d := c.(dump := if t.failed then [Dumped] else []);
    assert t.log == Before(c);
    if t.failed {
      NoBadSnoc(t.log, Dumped);
      assert PopOne(t, ok) == Record(Popped(t), Dumped);
    }
    assert All(d) == t.log + d.dump;
  }

  /** A dump does not count as a failure. */
  lemma FailedBefore(c: Course)
    requires DumpOk(c)
    ensures NoBad(Before(c) + c.dump) <==> NoBad(Before(c))
  {
    NoBadSnoc(Before(c), Dumped);
    assert Before(c) + [] == Before(c);
  }

  lemma KeptNotDestroyed(t: Test, n: nat, c: Course, ok: bool)
    requires Follows(t, n, c) && AtCallback(t, Destroy, Base(t) - 1) && t.persist && t.failed
    ensures Follows(PopOne(t, ok), n, c)
  {
    FailedBefore(c);
    assert t.log == Before(c) + c.dump;
  }

  lemma FollowsDestroy(t: Test, n: nat, c: Course, ok: bool)
    requires Follows(t, n, c) && AtCallback(t, Destroy, Base(t) - 1) && !(t.persist && t.failed)
    ensures Follows(PopOne(t, ok), n, c.(destroy := [Destroyed(ok)]))
  {
    FailedBefore(c);
    var d := c.(destroy := [Destroyed(ok)]);
    assert t.log == Before(c) + c.dump;
    NoBadSnoc(t.log, Destroyed(ok));
    assert PopOne(t, ok) == Record(Popped(t), Destroyed(ok));
    assert All(d) == t.log + d.destroy;
  }

  lemma FollowsStop(t: Test, n: nat, c: Course, ok: bool)
    requires Follows(t, n, c) && AtCallback(t, StopStack, Base(t) - 2) && t.own
    ensures Follows(PopOne(t, ok), n, c.(stop := if t.persist && t.failed then [] else [Stopped(ok)]))
  {
    var d := c.(stop := if t.persist && t.failed then [] else [Stopped(ok)]);
    assert t.log == Until(c);
    if !(t.persist && t.failed) {
      NoBadSnoc(t.log, Stopped(ok));
      assert PopOne(t, ok) == Record(Popped(t), Stopped(ok));
    }
    assert All(d) == t.log + d.stop;
  }

  lemma FollowsPop(t: Test, n: nat, c: Course, ok: bool) returns (d: Course)
    requires TestInv(t) && t.phase.Cleanup? && t.callbacks != [] && Follows(t, n, c)
    ensures Follows(PopOne(t, ok), n, d)
  {
    CallbacksLeft(t, t.callbacks[|t.callbacks| - 1]);
    match t.callbacks[|t.callbacks| - 1] {
      case Delete =>
        FollowsDelete(t, n, c, ok);
        d := c.(deletes := c.deletes + [Deleted(ok)]);
      case Dump =>
        FollowsDump(t, n, c, ok);
        d := c.(dump := if t.failed then [Dumped] else []);
      case Destroy =>
        if t.persist && t.failed {
          KeptNotDestroyed(t, n, c, ok);
          d := c;
        } else {
          FollowsDestroy(t, n, c, ok);
          d := c.(destroy := [Destroyed(ok)]);
        }
      case StopStack =>
        FollowsStop(t, n, c, ok);
        d := c.(stop := if t.persist && t.failed then [] else [Stopped(ok)]);
    }
  }

  /** A callback that makes a call notes whether it succeeded, and fails the test if it did not. */
  lemma CallNoted(t: Test, ok: bool)
    requires t.callbacks != []
    ensures var u := PopOne(t, ok);
            if u.log == t.log || u.log == t.log + [Dumped] then u.failed == t.failed
            else
              && u.log in {t.log + [Deleted(ok)], t.log + [Destroyed(ok)], t.log + [Stopped(ok)]}
              && u.failed == (t.failed || !ok)
  {
    var n := |t.log|;
    assert PopOne(t, ok).log != t.log ==> |PopOne(t, ok).log| == n + 1;
    assert (t.log + [Dumped])[n] == Dumped;
  }

  /** With nothing left to run the course is complete. */
  lemma FollowsToTheEnd(t: Test, n: nat, c: Course)
    requires Follows(t, n, c) && t.registered && t.callbacks == []
    ensures Complete(t, n, c)
  {
  }

  /** Running the stack down completes the course. */
  lemma {:induction false} DrainCompletes(t: Test, n: nat, c: Course, outcomes: seq<bool>) returns (d: Course)
    requires TestInv(t) && t.phase.Cleanup? && t.registered && |outcomes| >= |t.callbacks| && Follows(t, n, c)
    ensures Complete(Drain(t, outcomes), n, d)
    decreases |t.callbacks|
  {
    if t.callbacks == [] {
      FollowsToTheEnd(t, n, c);
      d := c;
    } else {
      PopKeeps(t, outcomes[0]);
      PopShortens(t, outcomes[0]);
      d := FollowsPop(t, n, c, outcomes[0]);
      d := DrainCompletes(PopOne(t, outcomes[0]), n, d, outcomes[1..]);
    }
  }

  // ----- every test of every run -----

  /** How many objects test `t` has seeded. */
  ghost function Seeded(moves: seq<Move>, t: Tid): nat {
    if moves == [] then 0
    else Seeded(moves[..|moves| - 1], t) + if moves[|moves| - 1] == SeedObject(t, true) then 1 else 0
  }

  ghost predicate OnCourse(s: Sys, t: Tid, n: nat) {
    if t in s.tests then exists c :: Follows(s.tests[t], n, c) else n == 0
  }

  lemma BeginsOnCourse(s: Sys, t: Tid, persist: bool, started: bool)
    requires Enabled(s, Begin(t, persist, started))
    ensures OnCourse(BeginTest(s, t, persist, started), t, 0)
  {
    var now := BeginTest(s, t, persist, started).tests[t];
    var c := Course(now.log, [], [], [], []);
    assert now.log != [] ==> Bad(now.log[0]);
    assert All(c) == now.log;
    assert Follows(now, 0, c);
  }

  /** The test a move is about. */
  function Mover(m: Move): Option<Tid> {
    match m
    case HarnessStep => None
    case Begin(t, _, _) => Some(t)
    case NewReturns(t) => Some(t)
    case NewAborts(t) => Some(t)
    case SeedObject(t, _) => Some(t)
    case FailTest(t, _) => Some(t)
    case EndBody(t) => Some(t)
    case RunCallback(t, _) => Some(t)
    case EndTest(t) => Some(t)
  }

  lemma OthersStay(s: Sys, m: Move, t: Tid)
    requires Enabled(s, m) && Mover(m) != Some(t)
    ensures var u := Apply(s, m); (t in u.tests <==> t in s.tests) && (t in s.tests ==> u.tests[t] == s.tests[t])
  {
    if m.HarnessStep? {
      assert HarnessMove(s).tests == s.tests;
    }
  }

  /** What a move makes of the test it is about. */
  function MovedOn(m: Move, test: Test): Test
    requires m.RunCallback? ==> test.callbacks != []
  {
    match m
    case NewReturns(_) => Register(test)
    case NewAborts(_) => Fail(test, true)
    case SeedObject(_, ok) => Seed(test, ok)
    case FailTest(_, fatal) => Fail(test, fatal)
    case EndBody(_) => test.(phase := Cleanup)
    case RunCallback(_, ok) => PopOne(test, ok)
    case EndTest(_) => test.(phase := Finished)
    case _ => test
  }

  /** When a test may make the move. */
  predicate MayMove(m: Move, test: Test) {
    match m
    case NewReturns(_) => test.phase.Setup?
    case NewAborts(_) => test.phase.Setup?
    case SeedObject(_, _) => test.phase.Body?
    case FailTest(_, _) => test.phase.Body?
    case EndBody(_) => test.phase.Body?
    case RunCallback(_, _) => test.phase.Cleanup? && test.callbacks != []
    case EndTest(_) => test.phase.Cleanup? && test.callbacks == []
    case _ => false
  }

  lemma MoverMoves(s: Sys, m: Move, t: Tid)
    requires Enabled(s, m) && Mover(m) == Some(t) && !m.Begin?
    ensures t in s.tests && MayMove(m, s.tests[t])
    ensures t in Apply(s, m).tests && Apply(s, m).tests[t] == MovedOn(m, s.tests[t])
  {
  }

  lemma BeforeCleanup(t: Test, n: nat, c: Course)
    requires TestInv(t) && (t.phase.Setup? || t.phase.Body?) && Follows(t, n, c)
    ensures t.registered <==> t.phase.Body?
    ensures if t.registered then |t.callbacks| == n + Base(t) else t.callbacks == []
  {
  }

  /** A test moving on stays on a course. */
  lemma MoverOnCourse(m: Move, test: Test, n: nat, c: Course) returns (d: Course)
    requires MayMove(m, test) && TestInv(test) && Follows(test, n, c)
    ensures Follows(MovedOn(m, test), n + if m.SeedObject? && m.ok then 1 else 0, d)
  {
    var now := MovedOn(m, test);
    d := c;
    if test.phase.Setup? || test.phase.Body? {
      BeforeCleanup(test, n, c);
    }
    match m {
      case NewReturns(_) => FollowsRegister(test, n, c);
      case EndBody(_) => FollowsPhase(test, n, c, Cleanup);
      case EndTest(_) => FollowsPhase(test, n, c, Finished);
      case RunCallback(_, ok) => d := FollowsPop(test, n, c, ok);
      case SeedObject(_, true) => FollowsSeed(test, n, c);
      case _ =>
        FollowsFail(test, n, c, now.phase);
        d := c.(body := c.body + [Failed]);
    }
  }

  lemma MoverStays(s: Sys, m: Move, t: Tid, n: nat)
    requires Enabled(s, m) && Mover(m) == Some(t) && !m.Begin? && OnCourse(s, t, n)
    requires t in s.tests ==> TestInv(s.tests[t])
    ensures OnCourse(Apply(s, m), t, n + if m == SeedObject(t, true) then 1 else 0)
  {
    MoverMoves(s, m, t);
    var c :| Follows(s.tests[t], n, c);
    var d := MoverOnCourse(m, s.tests[t], n, c);
    assert m == SeedObject(t, true) <==> m.SeedObject? && m.ok;
  }

  lemma OthersOnCourse(s: Sys, m: Move, t: Tid, n: nat)
    requires Enabled(s, m) && Mover(m) != Some(t) && OnCourse(s, t, n)
    ensures OnCourse(Apply(s, m), t, n)
  {
    OthersStay(s, m, t);
  }

  lemma MovesOnCourse(s: Sys, m: Move, t: Tid, n: nat)
    requires Enabled(s, m) && OnCourse(s, t, n) && (t in s.tests ==> TestInv(s.tests[t]))
    ensures OnCourse(Apply(s, m), t, n + if m == SeedObject(t, true) then 1 else 0)
  {
    if Mover(m) != Some(t) {
      OthersOnCourse(s, m, t, n);
    } else if m.Begin? {
      BeginsOnCourse(s, t, m.persist, m.started);
    } else {
      MoverStays(s, m, t, n);
    }
  }

  lemma TestsKeepInv(harness: bool, container: Option<string>, starts: seq<Option<string>>, moves: seq<Move>, t: Tid)
    requires Run(Initial(harness, container, starts), moves).Some?
    ensures var s := Run(Initial(harness, container, starts), moves).value; t in s.tests ==> TestInv(s.tests[t])
  {
    KeepRun(harness, container, starts, moves);
  }

  lemma {:induction false} RunsOnCourse(harness: bool, container: Option<string>, starts: seq<Option<string>>,
      moves: seq<Move>, t: Tid)
    requires Run(Initial(harness, container, starts), moves).Some?
    ensures OnCourse(Run(Initial(harness, container, starts), moves).value, t, Seeded(moves, t))
    decreases |moves|
  {
    if moves != [] {
      var before, m := moves[..|moves| - 1], moves[|moves| - 1];
      var s := Run(Initial(harness, container, starts), before).value;
      TestsKeepInv(harness, container, starts, before, t);
      RunsOnCourse(harness, container, starts, before, t);
      MovesOnCourse(s, m, t, Seeded(before, t));
      assert Run(Initial(harness, container, starts), moves) == Some(Apply(s, m));
    }
  }

  /**
   A finished test has deleted each object it seeded, once; it has dumped its artifacts if it had
   failed by then and not otherwise; it has run terraform destroy once, unless it had failed and
   persists; and stopped its own container once, unless it had failed by then and persists. That is
   all it has done since its body ended, in that order.
   */
  lemma CleanupIsExact(harness: bool, container: Option<string>, starts: seq<Option<string>>, moves: seq<Move>, t: Tid)
    ensures var r := Run(Initial(harness, container, starts), moves);
            r.Some? && t in r.value.tests && r.value.tests[t].registered && r.value.tests[t].phase.Finished? ==>
              exists c :: Complete(r.value.tests[t], Seeded(moves, t), c)
  {
    var r := Run(Initial(harness, container, starts), moves);
    if r.Some? && t in r.value.tests && r.value.tests[t].registered && r.value.tests[t].phase.Finished? {
      KeepRun(harness, container, starts, moves);
      RunsOnCourse(harness, container, starts, moves, t);
      var test := r.value.tests[t];
      assert TestInv(test);
      var c :| Follows(test, Seeded(moves, t), c);
      FollowsToTheEnd(test, Seeded(moves, t), c);
    }
  }

  /** At any moment of any run: under PersistOnFailure nothing is destroyed or stopped after a failure. */
  lemma KeptAfterFailure(harness: bool, container: Option<string>, starts: seq<Option<string>>, moves: seq<Move>,
      t: Tid, i: nat, j: nat)
    requires var r := Run(Initial(harness, container, starts), moves);
             r.Some? && t in r.value.tests && r.value.tests[t].persist && i < j < |r.value.tests[t].log|
    ensures var log := Run(Initial(harness, container, starts), moves).value.tests[t].log;
            Bad(log[i]) ==> !log[j].Destroyed? && !log[j].Stopped?
  {
    RunsOnCourse(harness, container, starts, moves, t);
    var test := Run(Initial(harness, container, starts), moves).value.tests[t];
    var c :| Follows(test, Seeded(moves, t), c);
    if Bad(test.log[i]) {
      KeptOnCourse(test, Seeded(moves, t), c, i, j);
    }
  }

  lemma KeptOnCourse(t: Test, n: nat, c: Course, i: nat, j: nat)
    requires Follows(t, n, c) && t.persist && i < j < |t.log| && Bad(t.log[i])
    ensures !t.log[j].Destroyed? && !t.log[j].Stopped?
  {
    assert t.log[..j][i] == t.log[i];
    if t.log[j].Destroyed? {
      DestroyedAt(t, n, c, j);
    }
    if t.log[j].Stopped? {
      StoppedAt(t, n, c, j);
    }
  }

  lemma DestroyedAt(t: Test, n: nat, c: Course, j: nat)
    requires Follows(t, n, c) && j < |t.log| && t.log[j].Destroyed?
    ensures t.persist ==> NoBad(t.log[..j])
  {
    assert j == |Before(c) + c.dump| && c.destroy != [];
    if t.persist {
      assert c.dump == [] && t.log[..j] == Before(c);
    }
  }

  lemma StoppedAt(t: Test, n: nat, c: Course, j: nat)
    requires Follows(t, n, c) && j < |t.log| && t.log[j].Stopped?
    ensures t.persist ==> NoBad(t.log[..j])
  {
    assert j == |Until(c)| && c.stop != [];
    assert t.log[..j] == Until(c);
  }
}
