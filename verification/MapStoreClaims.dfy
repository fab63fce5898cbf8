/** What holds in every run of the store's threads: linearizability, progress, order in time. */
module MapStoreClaims {
  import opened Sorting
  import opened MapStore
  import opened MapStoreThreads
  import opened Options

  /**
   Linearizability. In every run the recorded effects are a legal sequence of atomic calls
   on the flat store, and the events of each call are its invocation, then its effect with
   the same operation, then its response with the same answer, each once.
   */
  lemma {:induction false} Linearizable<T>(moves: seq<Move<T>>)
    requires Run(moves).Some?
    ensures var s := Run(moves).value;
            && Legal(s.trace)
            && (forall c :: c in s.calls ==> Events(s.trace, c) == Story(c, s.calls[c]))
            && (forall c: CallId :: c !in s.calls ==> Events(s.trace, c) == [])
  {
    KeepRun(moves);
  }

  /** Only a step of a critical section records an effect. */
  lemma {:induction false} OnlyWorkTakesEffect<T>(s: Sys<T>, m: Move<T>, c: CallId, op: Op<T>, ret: Ret<T>)
    requires Enabled(s, m) && Apply(s, m).trace == s.trace + [Effect(c, op, ret)]
    ensures m.Work? && m.c == c && s.calls[c].op == op
    ensures Apply(s, m).calls[c] == Frame(op, Leaving(ret))
    ensures Apply(s, m).writer == s.writer && Apply(s, m).readers == s.readers
  {
    var e := Effect(c, op, ret);
    var t := Apply(s, m);
    assert t.trace[|s.trace|] == e;
    assert m.Acquire? || m.Release? ==> t.trace == s.trace;
    assert |t.trace| == |s.trace| + 1;
  }

  /** A call takes effect inside its critical section, a writer alone in there. */
  lemma EffectUnderLock<T>(moves: seq<Move<T>>, m: Move<T>, c: CallId, op: Op<T>, ret: Ret<T>)
    requires Run(moves).Some? && Enabled(Run(moves).value, m)
    requires var s := Run(moves).value; Apply(s, m).trace == s.trace + [Effect(c, op, ret)]
    ensures var s, t := Run(moves).value, Apply(Run(moves).value, m);
            && c in s.calls && s.calls[c].op == op && HoldsLock(s.calls[c].pc) && t.calls[c].pc == Leaving(ret)
            && t.writer == s.writer && t.readers == s.readers
            && (if IsWrite(op) then s.writer == Some(c) else c in s.readers && s.writer.None?)
            && (IsWrite(op) ==> forall d :: d in s.calls && d != c ==> !HoldsLock(s.calls[d].pc))
  {
    KeepRun(moves);
    var s := Run(moves).value;
    OnlyWorkTakesEffect(s, m, c, op, ret);
    if IsWrite(op) {
      WriterAlone(s, c);
    } else {
      ReaderExcludesWriter(s, c);
    }
  }

  /** Inside the critical section a call is never stuck. */
  lemma {:induction false} Progress<T>(moves: seq<Move<T>>, c: CallId)
    requires Run(moves).Some? && c in Run(moves).value.calls && InBody(Run(moves).value.calls[c].pc)
    ensures exists pick: string, ref: Ref :: Enabled(Run(moves).value, Work(c, pick, ref))
  {
    KeepRun(moves);
    var s := Run(moves).value;
    var f := s.calls[c];
    assert Locals(s, f);
    var ref := Unused(s.heap.Keys);
    var pick := "";
    if f.pc.Bucket? && Elements(f.pc.seen) != s.heap[f.pc.r].Keys {
      var seen, ids := Elements(f.pc.seen), s.heap[f.pc.r].Keys;
      assert seen <= ids;
      assert !(ids <= seen);
      pick :| pick in ids && pick !in seen;
    }
    assert Enabled(s, Work(c, pick, ref));
  }

  ghost predicate Above(n: nat, refs: set<Ref>) {
    forall x :: x in refs ==> x < n
  }

  /** Some reference is always free. */
  ghost function Unused(refs: set<Ref>): (r: Ref)
    ensures r !in refs
  {
    UpperBound(refs);
    var n: nat :| Above(n, refs);
    n
  }

  lemma {:induction false} UpperBound(refs: set<Ref>)
    ensures exists n: nat :: Above(n, refs)
    decreases |refs|
  {
    if refs == {} {
      assert Above(0, refs);
    } else {
      var y :| y in refs;
      UpperBound(refs - {y});
      var n: nat :| Above(n, refs - {y});
      var m := if y < n then n else y + 1;
      assert forall x :: x in refs ==> x == y || x in refs - {y};
      assert Above(m, refs);
    }
  }

  // ----- order in time -----

  lemma {:induction false} EventsPrefix<T>(trace: seq<Event<T>>, c: CallId, n: nat)
    requires n <= |trace|
    ensures Events(trace[..n], c) <= Events(trace, c)
    decreases |trace| - n
  {
    if n == |trace| {
      assert trace[..n] == trace;
    } else {
      assert trace[..n + 1] == trace[..n] + [trace[n]];
      TraceSnoc(trace[..n], trace[n]);
      EventsPrefix(trace, c, n + 1);
    }
  }

  lemma {:induction false} EventAt<T>(trace: seq<Event<T>>, n: nat)
    requires n < |trace|
    ensures var c := trace[n].c; Events(trace[..n], c) + [trace[n]] <= Events(trace, c)
  {
    assert trace[..n + 1] == trace[..n] + [trace[n]];
    TraceSnoc(trace[..n], trace[n]);
    EventsPrefix(trace, trace[n].c, n + 1);
  }

  /** An event of a call's history stands somewhere in the trace. */
  lemma {:induction false} EventFound<T>(trace: seq<Event<T>>, c: CallId, e: Event<T>) returns (p: nat)
    requires e in Events(trace, c)
    ensures p < |trace| && trace[p] == e
    decreases |trace|
  {
    var n := |trace| - 1;
    if e == trace[n] {
      p := n;
    } else {
      p := EventFound(trace[..n], c, e);
    }
  }

  /** What a call has done before one of its events. */
  ghost predicate Precedes<T>(before: seq<Event<T>>, e: Event<T>) {
    match e
    case Invoked(_, _) => before == []
    case Effect(c, op, _) => before == [Invoked(c, op)]
    case Responded(c, ret) => |before| == 2 && before[1].Effect? && before[1].c == c && before[1].ret == ret
  }

  lemma StoryOrder<T>(c: CallId, f: Frame<T>, before: seq<Event<T>>, e: Event<T>)
    requires before + [e] <= Story(c, f)
    ensures Precedes(before, e)
  {
    var story := Story(c, f);
    var n := |before|;
    assert e == story[n];
    assert before == (before + [e])[..n] == story[..n];
  }

  lemma StoryShape<T>(moves: seq<Move<T>>, n: nat)
    requires Run(moves).Some? && n < |Run(moves).value.trace|
    ensures var trace := Run(moves).value.trace; Precedes(Events(trace[..n], trace[n].c), trace[n])
  {
    Linearizable(moves);
    var s := Run(moves).value;
    var c := s.trace[n].c;
    EventAt(s.trace, n);
    assert c in s.calls;
    StoryOrder(c, s.calls[c], Events(s.trace[..n], c), s.trace[n]);
  }

  /** A call that has not yet been invoked has no event. */
  lemma NoEvents<T>(trace: seq<Event<T>>, c: CallId, q: nat)
    requires Events(trace, c) == [] && q < |trace|
    ensures trace[q].c != c
  {
    EventAt(trace, q);
  }

  lemma EffectBeforeReturn<T>(moves: seq<Move<T>>, i: nat) returns (p: nat)
    requires Run(moves).Some? && i < |Run(moves).value.trace| && Run(moves).value.trace[i].Responded?
    ensures var trace := Run(moves).value.trace;
            p < i && trace[p].Effect? && trace[p].c == trace[i].c && trace[p].ret == trace[i].ret
  {
    var trace := Run(moves).value.trace;
    StoryShape(moves, i);
    p := EventFound(trace[..i], trace[i].c, Events(trace[..i], trace[i].c)[1]);
  }

  lemma EffectAfterInvoke<T>(moves: seq<Move<T>>, j: nat, q: nat)
    requires Run(moves).Some? && j < |Run(moves).value.trace| && q < |Run(moves).value.trace|
    requires var trace := Run(moves).value.trace; trace[j].Invoked? && trace[q].Effect? && trace[q].c == trace[j].c
    ensures j < q
  {
    var trace := Run(moves).value.trace;
    StoryShape(moves, j);
    if q < j {
      NoEvents(trace[..j], trace[j].c, q);
    }
  }

  /** Calls take effect in an order that respects time: one that returned before another was invoked comes first. */
  lemma RealTimeOrder<T>(moves: seq<Move<T>>, i: nat, j: nat) returns (p: nat)
    requires Run(moves).Some? && i < j < |Run(moves).value.trace|
    requires Run(moves).value.trace[i].Responded? && Run(moves).value.trace[j].Invoked?
    ensures var trace := Run(moves).value.trace;
            && p < i && trace[p].Effect? && trace[p].c == trace[i].c && trace[p].ret == trace[i].ret
            && forall q :: 0 <= q < |trace| && trace[q].Effect? && trace[q].c == trace[j].c ==> p < i < j < q
  {
    var trace := Run(moves).value.trace;
    p := EffectBeforeReturn(moves, i);
    forall q | 0 <= q < |trace| && trace[q].Effect? && trace[q].c == trace[j].c
      ensures j < q
    {
      EffectAfterInvoke(moves, j, q);
    }
  }

  lemma {:induction false} LegalAt<T>(trace: seq<Event<T>>, n: nat)
    requires Legal(trace) && n < |trace|
    ensures trace[n].Effect? ==> Answers(Replay(trace[..n]), trace[n].op, trace[n].ret)
    decreases |trace|
  {
    if n < |trace| - 1 {
      var init := trace[..|trace| - 1];
      LegalAt(init, n);
      assert init[..n] == trace[..n];
    }
  }

  // ----- what the answers mean -----

  /** The event puts or deletes the object (k, i). */
  ghost predicate Writes<T>(e: Event<T>, k: string, i: string) {
    e.Effect? && (e.op.Put? || e.op.Delete?) && e.op.kind == k && e.op.id == i
  }

  ghost predicate LastWrite<T>(trace: seq<Event<T>>, n: int, k: string, i: string) {
    0 <= n < |trace| && Writes(trace[n], k, i) && forall m :: n < m < |trace| ==> !Writes(trace[m], k, i)
  }

  /** The last write of (k, i) put `x` there. */
  ghost predicate Stored<T>(trace: seq<Event<T>>, k: string, i: string, x: T) {
    exists n :: LastWrite(trace, n, k, i) && trace[n].op.Put? && trace[n].op.obj == x
  }

  /** The last write of (k, i) put something there. */
  ghost predicate Present<T>(trace: seq<Event<T>>, k: string, i: string) {
    exists n :: LastWrite(trace, n, k, i) && trace[n].op.Put?
  }

  lemma PresentIsStored<T>(trace: seq<Event<T>>, k: string, i: string)
    ensures Present(trace, k, i) <==> exists x :: Stored(trace, k, i, x)
  {
    if n :| LastWrite(trace, n, k, i) && trace[n].op.Put? {
      assert Stored(trace, k, i, trace[n].op.obj);
    }
  }

  ghost predicate KindPut<T>(trace: seq<Event<T>>, k: string) {
    exists n :: 0 <= n < |trace| && trace[n].Effect? && trace[n].op.Put? && trace[n].op.kind == k
  }

  lemma LastWriteSnoc<T>(trace: seq<Event<T>>, e: Event<T>, k: string, i: string)
    ensures Writes(e, k, i) ==> forall n :: LastWrite(trace + [e], n, k, i) <==> n == |trace|
    ensures !Writes(e, k, i) ==> forall n :: LastWrite(trace + [e], n, k, i) <==> LastWrite(trace, n, k, i)
  {
    var all := trace + [e];
    assert all[|trace|] == e && forall n :: 0 <= n < |trace| ==> all[n] == trace[n];
    if !Writes(e, k, i) {
      forall n | LastWrite(trace, n, k, i) ensures LastWrite(all, n, k, i) {
        assert forall m :: n < m < |all| ==> m == |trace| || all[m] == trace[m];
      }
    }
  }

  /** The flat store holds the object last put and not deleted since, and the kinds ever put. */
  lemma {:induction false} LastWriteWins<T>(trace: seq<Event<T>>, k: string, i: string)
    ensures forall x :: (k, i) in Replay(trace).objects && Replay(trace).objects[(k, i)] == x <==> Stored(trace, k, i, x)
    decreases |trace|
  {
    if trace != [] {
      var n := |trace| - 1;
      var init, e := trace[..n], trace[n];
      assert trace == init + [e];
      LastWriteWins(init, k, i);
      LastWriteSnoc(init, e, k, i);
      forall x ensures (k, i) in Replay(trace).objects && Replay(trace).objects[(k, i)] == x <==> Stored(trace, k, i, x) {
        if Writes(e, k, i) {
          assert LastWrite(trace, n, k, i);
        } else {
          assert Stored(trace, k, i, x) <==> Stored(init, k, i, x);
        }
      }
    }
  }

  lemma {:induction false} KindsPut<T>(trace: seq<Event<T>>, k: string)
    ensures k in Replay(trace).kinds <==> KindPut(trace, k)
    decreases |trace|
  {
    if trace != [] {
      var n := |trace| - 1;
      KindsPut(trace[..n], k);
      if KindPut(trace[..n], k) {
        var m :| 0 <= m < n && trace[..n][m].Effect? && trace[..n][m].op.Put? && trace[..n][m].op.kind == k;
        assert trace[m] == trace[..n][m];
      }
      if m :| 0 <= m < |trace| && trace[m].Effect? && trace[m].op.Put? && trace[m].op.kind == k {
        assert m < n ==> trace[..n][m] == trace[m];
      }
    }
  }

  /** `objs` are the objects of kind `k`, each once. */
  ghost predicate AllPut<T>(trace: seq<Event<T>>, k: string, ids: seq<string>, objs: seq<T>) {
    && Distinct(ids) && |ids| == |objs|
    && (forall n :: 0 <= n < |ids| ==> Stored(trace, k, ids[n], objs[n]))
    && (forall i :: Present(trace, k, i) ==> i in Elements(ids))
  }

  /** What an answer says about the calls that took effect before. */
  ghost predicate Reads<T>(before: seq<Event<T>>, op: Op<T>, ret: Ret<T>) {
    match op
    case Put(_, _, _) => ret.Done?
    case Get(k, i) => if ret.Object? then Stored(before, k, i, ret.obj) else ret.NotFound? && !Present(before, k, i)
    case Delete(k, i) => if ret.Done? then Present(before, k, i) else ret.NotFound? && !Present(before, k, i)
    case List(k) =>
      if KindPut(before, k) then ret.Objects? && exists ids :: AllPut(before, k, ids, ret.objs) else ret.NilList?
  }

  lemma ListReads<T>(before: seq<Event<T>>, k: string, ids: seq<string>, objs: seq<T>)
    requires Listing(Replay(before), k, ids, objs)
    ensures AllPut(before, k, ids, objs)
  {
    forall n | 0 <= n < |ids| ensures Stored(before, k, ids[n], objs[n]) {
      LastWriteWins(before, k, ids[n]);
    }
    forall i | Present(before, k, i) ensures i in Elements(ids) {
      LastWriteWins(before, k, i);
      PresentIsStored(before, k, i);
    }
  }

  lemma AnswersRead<T>(before: seq<Event<T>>, op: Op<T>, ret: Ret<T>)
    requires Answers(Replay(before), op, ret)
    ensures Reads(before, op, ret)
  {
    match op {
      case Put(_, _, _) =>
      case Get(k, i) =>
        LastWriteWins(before, k, i);
        PresentIsStored(before, k, i);
      case Delete(k, i) =>
        LastWriteWins(before, k, i);
        PresentIsStored(before, k, i);
        if ret.Done? {
          assert Stored(before, k, i, Replay(before).objects[(k, i)]);
        }
      case List(k) =>
        KindsPut(before, k);
        if KindPut(before, k) {
          var ids: seq<string> :| Listing(Replay(before), k, ids, ret.objs);
          ListReads(before, k, ids, ret.objs);
        }
    }
  }

  /**
   In every run a Get answers the object last put under its key and not deleted since, and a List
   those of its kind, in the order in which the calls took effect.
   */
  lemma ReadsLastWrite<T>(moves: seq<Move<T>>, q: nat)
    requires Run(moves).Some? && q < |Run(moves).value.trace| && Run(moves).value.trace[q].Effect?
    ensures var trace := Run(moves).value.trace; Reads(trace[..q], trace[q].op, trace[q].ret)
  {
    Linearizable(moves);
    var trace := Run(moves).value.trace;
    LegalAt(trace, q);
    AnswersRead(trace[..q], trace[q].op, trace[q].ret);
  }

  /** Once a Put of a kind has taken effect every List of it is non-nil, whatever is deleted. */
  lemma ListStaysNonNil<T>(moves: seq<Move<T>>, p: nat, q: nat)
    requires Run(moves).Some? && p < q < |Run(moves).value.trace|
    requires var trace := Run(moves).value.trace;
             && trace[p].Effect? && trace[p].op.Put? && trace[q].Effect? && trace[q].op.List?
             && trace[p].op.kind == trace[q].op.kind
    ensures Run(moves).value.trace[q].ret.Objects?
  {
    ReadsLastWrite(moves, q);
    var trace := Run(moves).value.trace;
    assert trace[..q][p] == trace[p];
    assert KindPut(trace[..q], trace[q].op.kind);
  }
}
