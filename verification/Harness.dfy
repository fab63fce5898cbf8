/** The shared-container harness: `Run` and `stopAll` of harness/testmain.go. */
module Harness {
  import Concatenation
  import opened Options

  /** What a run does to the outside world. A stop notes whether its context was still live. */
  datatype Event =
    | ContainerStarted
    | SidecarStarted(i: nat)
    | SidecarFailed(i: nat)
    | SuiteRun(url: string)
    | SidecarStopped(i: nat, live: bool)
    | ContainerStopped(live: bool)

  /** The sidecars that start before the first one that does not. */
  ghost function StartedCount(starts: seq<Option<string>>): (k: nat)
    ensures k <= |starts|
    ensures forall i :: 0 <= i < k ==> starts[i].Some?
    ensures k < |starts| ==> starts[k].None?
  {
    if starts == [] || starts[0].None? then 0 else 1 + StartedCount(starts[1..])
  }

  ghost function Starts(k: nat): (l: seq<Event>) {
    seq(k, i requires 0 <= i < k => SidecarStarted(i))
  }

  /** Sidecars k-1 down to 0, then the container. */
  ghost function Stops(k: nat, live: bool): seq<Event> {
    if k == 0 then [ContainerStopped(live)] else [SidecarStopped(k - 1, live)] + Stops(k - 1, live)
  }

  /** The URL tests are given: the last sidecar's, or the container's. */
  ghost function EdgeURL(url: string, starts: seq<Option<string>>, k: nat): string
    requires k <= |starts| && forall i :: 0 <= i < k ==> starts[i].Some?
  {
    if k == 0 then url else starts[k - 1].value
  }

  /** Everything a run does, given the container's URL and what each sidecar's Start returns. */
  ghost function RunLog(container: Option<string>, starts: seq<Option<string>>): seq<Event> {
    if container.None? then []
    else
      var k := StartedCount(starts);
      [ContainerStarted] + Starts(k)
      + if k < |starts| then [SidecarFailed(k)] + Stops(k, true)
        else [SuiteRun(EdgeURL(container.value, starts, k))] + Stops(k, false)
  }

  class Harness {
    var shared: bool
    var edgeURL: string
    var log: seq<Event>

    constructor ()
      ensures !shared && edgeURL == "" && log == []
    {
      shared, edgeURL, log := false, "", [];
    }

    method StopAll(sidecars: nat, live: bool)
      modifies this`log
      ensures log == old(log) + Stops(sidecars, live)
    {
      var i := sidecars;
      while i > 0
        invariant log + Stops(i, live) == old(log) + Stops(sidecars, live)
      {
        i := i - 1;
        assert log + ([SidecarStopped(i, live)] + Stops(i, live)) == (log + [SidecarStopped(i, live)]) + Stops(i, live);
        log := log + [SidecarStopped(i, live)];
      }
      log := log + [ContainerStopped(live)];
    }

    /** The result is the exit code; `suite` is what m.Run returns. */
    method Run(container: Option<string>, starts: seq<Option<string>>, suite: int) returns (code: int)
      requires !shared && log == []
      modifies this
      ensures log == RunLog(container, starts)
      ensures code == if container.Some? && StartedCount(starts) == |starts| then suite else 1
      ensures container.Some? && StartedCount(starts) == |starts| ==> !shared && edgeURL == ""
    {
      if container.None? {
        return 1;
      }
      shared, edgeURL := true, container.value;
      log := log + [ContainerStarted];
      var active := 0;
      ghost var k := StartedCount(starts);
      while active < |starts|
        invariant active <= k
        invariant edgeURL == EdgeURL(container.value, starts, active)
        invariant log == [ContainerStarted] + Starts(active)
      {
        if starts[active].None? {
          log := log + [SidecarFailed(active)];
          StopAll(active, true);
          assert log == [ContainerStarted] + Starts(k) + ([SidecarFailed(k)] + Stops(k, true));
          return 1;
        }
        assert Starts(active + 1) == Starts(active) + [SidecarStarted(active)];
        log := log + [SidecarStarted(active)];
        edgeURL := starts[active].value;
        active := active + 1;
      }
      // The start-up context is cancelled here, before the suite, and is the one stopAll gets.
      log := log + [SuiteRun(edgeURL)];
      StopAll(active, false);
      shared, edgeURL := false, "";
      return suite;
    }
  }

  // ----- what the log says -----

  /** The sidecars a log starts, in order. */
  ghost function Started(log: seq<Event>): seq<nat> {
    if log == [] then []
    else (if log[0].SidecarStarted? then [log[0].i] else []) + Started(log[1..])
  }

  /** The sidecars a log stops, in order. */
  ghost function Stopped(log: seq<Event>): seq<nat> {
    if log == [] then []
    else (if log[0].SidecarStopped? then [log[0].i] else []) + Stopped(log[1..])
  }

  ghost function Reverse(s: seq<nat>): (r: seq<nat>)
    ensures |r| == |s| && forall i :: 0 <= i < |s| ==> r[i] == s[|s| - 1 - i]
  {
    if s == [] then [] else Reverse(s[1..]) + [s[0]]
  }

  ghost function UpTo(k: nat): seq<nat> {
    seq(k, i requires 0 <= i < k => i)
  }

  lemma {:induction false} StartedAppend(a: seq<Event>, b: seq<Event>)
    ensures Started(a + b) == Started(a) + Started(b)
  {
    if a == [] {
      assert a + b == b;
    } else {
      assert (a + b)[1..] == a[1..] + b;
      StartedAppend(a[1..], b);
      Concatenation.Assoc(if a[0].SidecarStarted? then [a[0].i] else [], Started(a[1..]), Started(b));
    }
  }

  lemma {:induction false} StoppedAppend(a: seq<Event>, b: seq<Event>)
    ensures Stopped(a + b) == Stopped(a) + Stopped(b)
  {
    if a == [] {
      assert a + b == b;
    } else {
      assert (a + b)[1..] == a[1..] + b;
      StoppedAppend(a[1..], b);
      Concatenation.Assoc(if a[0].SidecarStopped? then [a[0].i] else [], Stopped(a[1..]), Stopped(b));
    }
  }

  lemma {:induction false} StartsStarted(k: nat)
    ensures Started(Starts(k)) == UpTo(k) && Stopped(Starts(k)) == []
  {
    if k > 0 {
      assert Starts(k) == Starts(k - 1) + [SidecarStarted(k - 1)];
      StartsStarted(k - 1);
      StartedAppend(Starts(k - 1), [SidecarStarted(k - 1)]);
      StoppedAppend(Starts(k - 1), [SidecarStarted(k - 1)]);
      assert Started([SidecarStarted(k - 1)]) == [k - 1];
    }
  }

  lemma {:induction false} StopsAt(k: nat, live: bool)
    ensures |Stops(k, live)| == k + 1 && Stops(k, live)[k] == ContainerStopped(live)
    ensures forall i :: 0 <= i < k ==> Stops(k, live)[i] == SidecarStopped(k - 1 - i, live)
  {
    if k > 0 {
      StopsAt(k - 1, live);
    }
  }

  lemma {:induction false} StopsStopped(k: nat, live: bool)
    ensures Stopped(Stops(k, live)) == Reverse(UpTo(k)) && Started(Stops(k, live)) == []
  {
    if k > 0 {
      StopsStopped(k - 1, live);
      assert Stops(k, live)[1..] == Stops(k - 1, live);
      ReverseUpTo(k);
    }
  }

  lemma ReverseUpTo(k: nat)
    requires k > 0
    ensures Reverse(UpTo(k)) == [k - 1] + Reverse(UpTo(k - 1))
  {
    var r, s := Reverse(UpTo(k)), [k - 1] + Reverse(UpTo(k - 1));
    assert |r| == |s|;
    forall i | 0 <= i < |r|
      ensures r[i] == s[i]
    {
      assert r[i] == UpTo(k)[k - 1 - i];
    }
  }

  lemma RunSplits(container: Option<string>, starts: seq<Option<string>>)
    requires container.Some?
    ensures var log, k := RunLog(container, starts), StartedCount(starts);
            Started(log) == UpTo(k) && Stopped(log) == Reverse(UpTo(k))
  {
    var k := StartedCount(starts);
    var middle := if k < |starts| then SidecarFailed(k) else SuiteRun(EdgeURL(container.value, starts, k));
    var live := k < |starts|;
    StartsStarted(k);
    StopsStopped(k, live);
    StartedAppend([ContainerStarted], Starts(k));
    StoppedAppend([ContainerStarted], Starts(k));
    StartedAppend([middle], Stops(k, live));
    StoppedAppend([middle], Stops(k, live));
    StartedAppend([ContainerStarted] + Starts(k), [middle] + Stops(k, live));
    StoppedAppend([ContainerStarted] + Starts(k), [middle] + Stops(k, live));
    assert Started([ContainerStarted]) == [] && Stopped([ContainerStarted]) == [];
    assert Started([middle]) == [] && Stopped([middle]) == [];
  }

  /**
   Whatever fails, a run stops exactly the sidecars it started, once each, in reverse order.
   The suite runs exactly when all of them started.
   */
  lemma StopsWhatItStarted(container: Option<string>, starts: seq<Option<string>>)
    ensures var log := RunLog(container, starts);
            && Stopped(log) == Reverse(Started(log))
            && (forall i, j :: 0 <= i < j < |Started(log)| ==> Started(log)[i] != Started(log)[j])
            && ((exists n :: 0 <= n < |log| && log[n].SuiteRun?) <==>
                container.Some? && forall i :: 0 <= i < |starts| ==> starts[i].Some?)
  {
    if container.Some? {
      RunSplits(container, starts);
      RunPositions(container, starts);
      var log, k := RunLog(container, starts), StartedCount(starts);
      if k == |starts| {
        assert log[k + 1].SuiteRun?;
      }
    }
  }

  /** Where everything stands in a run's log: the container first and last, stops after the suite. */
  lemma RunPositions(container: Option<string>, starts: seq<Option<string>>)
    requires container.Some?
    ensures var log, k := RunLog(container, starts), StartedCount(starts);
            var live := k < |starts|;
            && |log| == 2 * k + 3
            && log[0] == ContainerStarted
            && (forall n :: 1 <= n <= k ==> log[n] == SidecarStarted(n - 1))
            && log[k + 1] == (if live then SidecarFailed(k) else SuiteRun(EdgeURL(container.value, starts, k)))
            && (forall n :: k + 2 <= n < 2 * k + 2 ==> log[n] == SidecarStopped(2 * k + 1 - n, live))
            && log[2 * k + 2] == ContainerStopped(live)
  {
    StopsAt(StartedCount(starts), StartedCount(starts) < |starts|);
  }

  /** The suite runs with the URL the last sidecar answered, or the container's if there is no sidecar. */
  lemma SuiteGetsLastURL(container: Option<string>, starts: seq<Option<string>>, url: string)
    ensures SuiteRun(url) in RunLog(container, starts)
            <==> && container.Some? && (forall i :: 0 <= i < |starts| ==> starts[i].Some?)
                 && Some(url) == (if starts == [] then container else starts[|starts| - 1])
  {
    if container.Some? {
      RunPositions(container, starts);
      var log, k := RunLog(container, starts), StartedCount(starts);
      assert forall n :: 0 <= n < |log| && n != k + 1 ==> !log[n].SuiteRun?;
      assert k == |starts| ==> log[k + 1].SuiteRun?;
    }
  }

  /**
   On the normal path every stop is given the start-up context, which was cancelled before
   the suite ran; only after a failed start is it given a live one.
   */
  lemma NormalStopsAreCancelled(container: Option<string>, starts: seq<Option<string>>, n: nat)
    requires container.Some? && n < |RunLog(container, starts)|
    requires var e := RunLog(container, starts)[n]; e.SidecarStopped? || e.ContainerStopped?
    ensures RunLog(container, starts)[n].live <==> exists i :: 0 <= i < |starts| && starts[i].None?
  {
    RunPositions(container, starts);
    var k := StartedCount(starts);
    if k < |starts| {
      assert starts[k].None?;
    }
  }
}
