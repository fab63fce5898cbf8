/**
 The life of a test: `New`, the cleanup stack of `TestCase`, fixtures, and many tests running
 side by side with the harness. Based on libtftest.go and harness/testmain.go.
 */
module Lifecycle {
  import opened Options

  type Cid = nat
  type Tid = nat

  // ----- one test -----

  datatype Callback = StopStack | Destroy | Dump | Delete

  datatype Phase = Setup | Body | Cleanup | Finished

  /** What a test does; `ok` says whether the foreign call succeeded. */
  datatype Event =
    | Failed
    | Deleted(ok: bool)
    | Dumped
    | Destroyed(ok: bool)
    | Stopped(ok: bool)

  /**
   `callbacks` is the stack of testing.TB, last registered last. `registered` says whether
   New has returned.
   */
  datatype Test = Test(
    phase: Phase, stack: Option<Cid>, own: bool, persist: bool, failed: bool, registered: bool,
    callbacks: seq<Callback>, log: seq<Event>)

  /** What registerCleanup pushes, first to last. */
  function Registered(own: bool): seq<Callback> {
    (if own then [StopStack] else []) + [Destroy, Dump]
  }

  /** Does an event set the failed flag? */
  predicate Bad(e: Event) {
    e.Failed? || (e.Deleted? && !e.ok) || (e.Destroyed? && !e.ok) || (e.Stopped? && !e.ok)
  }

  function Record(t: Test, e: Event): Test {
    t.(log := t.log + [e], failed := t.failed || Bad(e))
  }

  /** One cleanup callback; `ok` is the outcome of the call it makes, if it makes one. */
  function Execute(t: Test, cb: Callback, ok: bool): Test {
    match cb
    case StopStack => if t.persist && t.failed then t else Record(t, Stopped(ok))
    case Destroy => if t.persist && t.failed then t else Record(t, Destroyed(ok))
    case Dump => if t.failed then Record(t, Dumped) else t
    case Delete => Record(t, Deleted(ok))
  }

  /** testing.TB runs the callback registered last. */
  function PopOne(t: Test, ok: bool): Test
    requires t.callbacks != []
  {
    var n := |t.callbacks| - 1;
    Execute(t.(callbacks := t.callbacks[..n]), t.callbacks[n], ok)
  }

  function Register(t: Test): Test {
    t.(phase := Body, registered := true, callbacks := t.callbacks + Registered(t.own))
  }

  function Seed(t: Test, ok: bool): Test {
    if ok then t.(callbacks := t.callbacks + [Delete]) else Record(t, Failed).(phase := Cleanup)
  }

  // ----- the same as an object -----

  /** testing.TB and the TestCase on it, with the fields the lifecycle uses. */
  class TestCase {
    var failed: bool
    var callbacks: seq<Callback>
    var log: seq<Event>
    const stack: Option<Cid>
    const ownStack: bool
    const persistOnFailure: bool
    ghost var phase: Phase
    ghost var registered: bool

    ghost function View(): Test
      reads this
    {
      Test(phase, stack, ownStack, persistOnFailure, failed, registered, callbacks, log)
    }

    /** resolveContainer: the container to reuse, else the shared one, else one of its own. */
    constructor (reuse: Option<Cid>, shared: Option<Cid>, started: Cid, persist: bool)
      ensures View() == Test(Setup, if reuse.Some? then reuse else if shared.Some? then shared else Some(started),
                             reuse.None? && shared.None?, persist, false, false, [], [])
    {
      failed, callbacks, log := false, [], [];
      persistOnFailure := persist;
      phase, registered := Setup, false;
      if reuse.Some? {
        stack, ownStack := reuse, false;
      } else if shared.Some? {
        stack, ownStack := shared, false;
      } else {
        stack, ownStack := Some(started), true;
      }
    }

    method AddCleanup(cb: Callback)
      modifies this`callbacks
      ensures callbacks == old(callbacks) + [cb]
    {
      callbacks := callbacks + [cb];
    }

    method RegisterCleanup()
      modifies this
      ensures View() == Register(old(View()))
    {
      if ownStack {
        AddCleanup(StopStack);
      }
      AddCleanup(Destroy);
      AddCleanup(Dump);
      phase, registered := Body, true;
    }

    /** A fixture seeding an object and registering its deletion. */
    method SeedObject(ok: bool)
      modifies this
      ensures View() == Seed(old(View()), ok)
    {
      if ok {
        AddCleanup(Delete);
      } else {
        Errorf(Failed);
        phase := Cleanup;
      }
    }

    /** A foreign call and, if it failed, tb.Errorf. */
    method Errorf(e: Event)
      modifies this`log, this`failed
      ensures View() == Record(old(View()), e)
    {
      log := log + [e];
      if Bad(e) {
        failed := true;
      }
    }

    method RunOne(ok: bool)
      requires callbacks != []
      modifies this`callbacks, this`log, this`failed
      ensures View() == PopOne(old(View()), ok)
    {
      var n := |callbacks| - 1;
      var cb := callbacks[n];
      callbacks := callbacks[..n];
      match cb {
        case StopStack =>
          if !(persistOnFailure && failed) {
            Errorf(Stopped(ok));
          }
        case Destroy =>
          if !(persistOnFailure && failed) {
            Errorf(Destroyed(ok));
          }
        case Dump =>
          if failed {
            Errorf(Dumped);
          }
        case Delete => Errorf(Deleted(ok));
      }
    }

    /** Run the stack of callbacks down to nothing, the calls succeeding or not as `outcomes` says. */
    method RunCleanups(outcomes: seq<bool>)
      requires |outcomes| >= |callbacks|
      modifies this
      ensures View() == Drain(old(View()), outcomes)
    {
      ghost var start := View();
      var i := 0;
      assert outcomes[0..] == outcomes;
      while callbacks != []
        invariant i <= |outcomes| && |outcomes| - i >= |callbacks|
        invariant Drain(View(), outcomes[i..]) == Drain(start, outcomes)
        decreases |callbacks|
      {
        assert outcomes[i..][0] == outcomes[i] && outcomes[i..][1..] == outcomes[i + 1..];
        RunOne(outcomes[i]);
        i := i + 1;
      }
    }
  }

  ghost function Drain(t: Test, outcomes: seq<bool>): Test
    requires |outcomes| >= |t.callbacks|
    decreases |t.callbacks|
  {
    if t.callbacks == [] then t else Drain(PopOne(t, outcomes[0]), outcomes[1..])
  }

  // ----- what every test's log satisfies -----

  ghost predicate NoBad(log: seq<Event>) {
    forall i :: 0 <= i < |log| ==> !Bad(log[i])
  }

  /** How often terraform destroy was attempted. */
  ghost function DestroyCount(log: seq<Event>): nat {
    if log == [] then 0
    else DestroyCount(log[..|log| - 1]) + if log[|log| - 1].Destroyed? then 1 else 0
  }

  /** How often a container stop was attempted. */
  ghost function StopCount(log: seq<Event>): nat {
    if log == [] then 0
    else StopCount(log[..|log| - 1]) + if log[|log| - 1].Stopped? then 1 else 0
  }

  lemma CountSnoc(log: seq<Event>, e: Event)
    ensures StopCount(log + [e]) == StopCount(log) + if e.Stopped? then 1 else 0
    ensures DestroyCount(log + [e]) == DestroyCount(log) + if e.Destroyed? then 1 else 0
  {
    assert (log + [e])[..|log|] == log;
  }

  /** Before an owned container is stopped nothing failed, nothing was dumped, and destroy succeeded. */
  ghost predicate CleanUntil(log: seq<Event>, n: nat)
    requires n <= |log|
  {
    && (forall i :: 0 <= i < n ==> !Bad(log[i]) && !log[i].Dumped?)
    && exists i :: 0 <= i < n && log[i] == Destroyed(true)
  }

  ghost predicate StopsAreClean(t: Test) {
    t.persist ==> forall n :: 0 <= n < |t.log| && t.log[n].Stopped? ==> CleanUntil(t.log, n)
  }

  /** How many of the registered callbacks are still to run; deletes run before all of them. */
  ghost predicate Shape(t: Test) {
    var base := Registered(t.own);
    var n := |t.callbacks|;
    if t.registered then
      && (n >= |base| ==> t.callbacks[..|base|] == base && forall i :: |base| <= i < n ==> t.callbacks[i] == Delete)
      && (n < |base| ==> t.callbacks == base[..n] && (t.phase.Cleanup? || t.phase.Finished?))
      && !t.phase.Setup?
    else t.callbacks == [] && !t.phase.Body?
  }

  /** Has the Destroy callback run, has the stop? */
  ghost predicate PastDestroy(t: Test) {
    t.registered && |t.callbacks| <= |Registered(t.own)| - 2
  }

  ghost predicate PastStop(t: Test) {
    t.registered && t.own && t.callbacks == []
  }

  ghost predicate TestInv(t: Test) {
    && Shape(t) && StopsAreClean(t)
    && (t.failed <==> !NoBad(t.log))
    && ((exists i :: 0 <= i < |t.log| && t.log[i].Dumped?) ==> t.failed)
    && (if PastDestroy(t) then DestroyCount(t.log) == 1 || (t.persist && t.failed && DestroyCount(t.log) == 0)
        else DestroyCount(t.log) == 0)
    && (if PastStop(t) then StopCount(t.log) == 1 || (t.persist && t.failed && StopCount(t.log) == 0)
        else StopCount(t.log) == 0)
    && (t.phase.Finished? ==> t.callbacks == [])
  }

  lemma NoBadSnoc(log: seq<Event>, e: Event)
    ensures NoBad(log + [e]) <==> NoBad(log) && !Bad(e)
  {
    var l := log + [e];
    assert l[|log|] == e;
    assert forall i :: 0 <= i < |log| ==> l[i] == log[i];
  }

  /** What recording one event does to each part of the invariant. */
  lemma RecordKeeps(t: Test, e: Event)
    requires t.failed <==> !NoBad(t.log)
    requires (exists i :: 0 <= i < |t.log| && t.log[i].Dumped?) ==> t.failed
    requires StopsAreClean(t) && (e.Dumped? ==> t.failed)
    requires e.Stopped? && t.persist ==> !t.failed && Destroyed(true) in t.log
    ensures var r := Record(t, e);
            && (r.failed <==> !NoBad(r.log))
            && ((exists i :: 0 <= i < |r.log| && r.log[i].Dumped?) ==> r.failed)
            && StopsAreClean(r)
            && StopCount(r.log) == StopCount(t.log) + (if e.Stopped? then 1 else 0)
            && DestroyCount(r.log) == DestroyCount(t.log) + (if e.Destroyed? then 1 else 0)
  {
    var r := Record(t, e);
    NoBadSnoc(t.log, e);
    CountSnoc(t.log, e);
    if t.persist {
      forall n | 0 <= n < |r.log| && r.log[n].Stopped?
        ensures CleanUntil(r.log, n)
      {
        assert forall i :: 0 <= i < |t.log| ==> r.log[i] == t.log[i];
        if n < |t.log| {
          assert CleanUntil(t.log, n);
          var i :| 0 <= i < n && t.log[i] == Destroyed(true);
          assert r.log[i] == Destroyed(true);
        } else {
          var i :| 0 <= i < |t.log| && t.log[i] == Destroyed(true);
          assert r.log[i] == Destroyed(true);
        }
      }
    }
  }

  lemma {:induction false} DestroyCounted(log: seq<Event>)
    requires DestroyCount(log) > 0
    ensures exists i :: 0 <= i < |log| && log[i].Destroyed?
  {
    var n := |log| - 1;
    if !log[n].Destroyed? {
      DestroyCounted(log[..n]);
    }
  }

  /** How many base callbacks there are, and which one is on top. */
  lemma TopCallback(t: Test)
    requires Shape(t) && t.callbacks != []
    ensures t.registered && |Registered(t.own)| == if t.own then 3 else 2
    ensures var n := |t.callbacks| - 1;
            var base := Registered(t.own);
            && (n >= |base| ==> t.callbacks[n] == Delete)
            && (n < |base| ==> t.callbacks[n] == base[n] && t.callbacks[..n] == base[..n])
            && (n == |base| - 1 ==> t.callbacks[n] == Dump)
            && (n == |base| - 2 ==> t.callbacks[n] == Destroy)
            && (n < |base| - 2 ==> n == 0 && t.own && t.callbacks[n] == StopStack)
  {
    var n := |t.callbacks| - 1;
    var base := Registered(t.own);
    if n == |base| - 1 {
      assert t.callbacks[..|base|] == t.callbacks;
    }
    if n < |base| - 1 {
      assert t.callbacks == base[..n + 1];
    }
  }

  lemma ShapePop(t: Test)
    requires Shape(t) && t.callbacks != [] && t.phase.Cleanup?
    ensures Shape(t.(callbacks := t.callbacks[..|t.callbacks| - 1]))
  {
    TopCallback(t);
    var n := |t.callbacks| - 1;
    var base := Registered(t.own);
    if n >= |base| {
      assert t.callbacks[..n][..|base|] == t.callbacks[..|base|];
    }
  }

  /** A test about to run its last registered callback. */
  ghost predicate OnTop(t: Test, cb: Callback) {
    TestInv(t) && t.phase.Cleanup? && t.callbacks != [] && t.callbacks[|t.callbacks| - 1] == cb
  }

  lemma PopDelete(t: Test, ok: bool)
    requires OnTop(t, Delete)
    ensures TestInv(PopOne(t, ok))
  {
    TopCallback(t);
    ShapePop(t);
    RecordKeeps(t.(callbacks := t.callbacks[..|t.callbacks| - 1]), Deleted(ok));
  }

  lemma PopDump(t: Test, ok: bool)
    requires OnTop(t, Dump)
    ensures TestInv(PopOne(t, ok))
  {
    TopCallback(t);
    ShapePop(t);
    if t.failed {
      RecordKeeps(t.(callbacks := t.callbacks[..|t.callbacks| - 1]), Dumped);
    }
  }

  lemma {:induction false} PopDestroy(t: Test, ok: bool)
    requires OnTop(t, Destroy)
    ensures TestInv(PopOne(t, ok))
  {
    TopCallback(t);
    ShapePop(t);
    if !(t.persist && t.failed) {
      RecordKeeps(t.(callbacks := t.callbacks[..|t.callbacks| - 1]), Destroyed(ok));
    }
  }

  lemma PopStop(t: Test, ok: bool)
    requires OnTop(t, StopStack)
    ensures TestInv(PopOne(t, ok))
  {
    TopCallback(t);
    ShapePop(t);
    if !(t.persist && t.failed) {
      if t.persist {
        DestroyWasClean(t);
      }
      RecordKeeps(t.(callbacks := t.callbacks[..|t.callbacks| - 1]), Stopped(ok));
    }
  }

  /** Running a callback keeps the invariant, whatever its outcome. */
  lemma PopKeeps(t: Test, ok: bool)
    requires TestInv(t) && t.phase.Cleanup? && t.callbacks != []
    ensures TestInv(PopOne(t, ok)) && PopOne(t, ok).phase.Cleanup?
  {
    match t.callbacks[|t.callbacks| - 1] {
      case Delete => PopDelete(t, ok);
      case Dump => PopDump(t, ok);
      case Destroy => PopDestroy(t, ok);
      case StopStack => PopStop(t, ok);
    }
  }

  lemma DestroyWasClean(t: Test)
    requires DestroyCount(t.log) == 1 && NoBad(t.log)
    ensures Destroyed(true) in t.log
  {
    DestroyCounted(t.log);
    var i :| 0 <= i < |t.log| && t.log[i].Destroyed?;
    assert !Bad(t.log[i]);
  }

  /** Under PersistOnFailure a stop of the owned container implies a clean run up to it. */
  lemma PersistentStopIsClean(t: Test, n: nat)
    requires TestInv(t) && t.persist && n < |t.log| && t.log[n].Stopped?
    ensures NoBad(t.log[..n]) && Destroyed(true) in t.log[..n]
    ensures forall i :: 0 <= i < n ==> !t.log[i].Dumped?
  {
    assert CleanUntil(t.log, n);
    var i :| 0 <= i < n && t.log[i] == Destroyed(true);
    assert t.log[..n][i] == Destroyed(true);
  }

  /** New returning: the callbacks are registered. */
  lemma RegisterKeeps(t: Test)
    requires TestInv(t) && !t.registered && t.phase.Setup?
    ensures TestInv(Register(t))
  {
    var base := Registered(t.own);
    assert base[..|base|] == base;
  }

  lemma SeedKeeps(t: Test, ok: bool)
    requires TestInv(t) && t.phase.Body? && t.registered
    ensures TestInv(Seed(t, ok))
  {
    if ok {
      var base := Registered(t.own);
      assert (t.callbacks + [Delete])[..|base|] == t.callbacks[..|base|];
    } else {
      RecordKeeps(t, Failed);
    }
  }

  /** A test failing by itself, perhaps for good. */
  function Fail(t: Test, fatal: bool): Test {
    Record(t, Failed).(phase := if fatal then Cleanup else t.phase)
  }

  lemma FailKeeps(t: Test, fatal: bool)
    requires TestInv(t) && (t.phase.Body? || t.phase.Setup?)
    ensures TestInv(Fail(t, fatal))
  {
    RecordKeeps(t, Failed);
  }

  lemma PopShortens(t: Test, ok: bool)
    requires t.callbacks != []
    ensures |PopOne(t, ok).callbacks| == |t.callbacks| - 1
  {
  }

  /** Draining the stack keeps the invariant and leaves nothing registered. */
  lemma {:induction false} DrainKeeps(t: Test, outcomes: seq<bool>)
    requires TestInv(t) && t.phase.Cleanup? && |outcomes| >= |t.callbacks|
    ensures var d := Drain(t, outcomes); TestInv(d) && d.phase.Cleanup? && d.callbacks == []
    decreases |t.callbacks|
  {
    if t.callbacks != [] {
      var u := PopOne(t, outcomes[0]);
      PopKeeps(t, outcomes[0]);
      PopShortens(t, outcomes[0]);
      DrainKeeps(u, outcomes[1..]);
      assert Drain(t, outcomes) == Drain(u, outcomes[1..]);
    }
  }


}
