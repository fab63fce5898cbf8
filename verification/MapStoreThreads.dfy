/**
 The store of sneakystack under concurrency: any number of calls run step by step under a
 reader-writer lock, in any interleaving. Buckets are shared objects reached by reference.
 Every run is linearizable to the flat store of module `MapStore`.
 */
module MapStoreThreads {
  import opened Sorting
  import opened MapStore
  import opened Options

  type CallId = nat
  type Ref = nat

  /** Where a call is, with the local variables that are live there. */
  datatype Pc<T> =
    | Waiting                                                // before Lock or RLock
    | Entered                                                // lock held, nothing read
    | Bucket(r: Ref, seen: seq<string>, result: seq<T>)      // bucket in hand; List: visited so far
    | Present(r: Ref)                                        // Delete: the id was there
    | Leaving(ret: Ret<T>)                                   // answer fixed, lock held
    | Left(ret: Ret<T>)                                      // lock released
    | Returned(ret: Ret<T>)

  datatype Frame<T> = Frame(op: Op<T>, pc: Pc<T>)

  /** The observable history, with the point at which each call takes effect. */
  datatype Event<T> =
    | Invoked(c: CallId, op: Op<T>)
    | Effect(c: CallId, op: Op<T>, ret: Ret<T>)
    | Responded(c: CallId, ret: Ret<T>)

  datatype Sys<T> = Sys(
    data: map<string, Ref>,
    heap: map<Ref, map<string, T>>,
    writer: Option<CallId>,
    readers: set<CallId>,
    calls: map<CallId, Frame<T>>,
    trace: seq<Event<T>>)

  datatype Move<T> =
    | Invoke(c: CallId, op: Op<T>)
    | Acquire(c: CallId)
    | Work(c: CallId, pick: string, fresh_ref: Ref)
    | Release(c: CallId)
    | Return(c: CallId)

  predicate InBody<T>(pc: Pc<T>) {
    pc.Entered? || pc.Bucket? || pc.Present?
  }

  predicate HoldsLock<T>(pc: Pc<T>) {
    InBody(pc) || pc.Leaving?
  }

  function Init<T>(): Sys<T> {
    Sys(map[], map[], None, {}, map[], [])
  }

  // ----- the steps -----

  ghost predicate Enabled<T>(s: Sys<T>, m: Move<T>) {
    match m
    case Invoke(c, _) => c !in s.calls
    case Acquire(c) =>
      && c in s.calls && s.calls[c].pc.Waiting? && s.writer.None?
      && (IsWrite(s.calls[c].op) ==> s.readers == {})
    case Work(c, pick, fresh_ref) =>
      && c in s.calls && InBody(s.calls[c].pc)
      && WorkEnabled(s, s.calls[c].op, s.calls[c].pc, pick, fresh_ref)
    case Release(c) => c in s.calls && s.calls[c].pc.Leaving?
    case Return(c) => c in s.calls && s.calls[c].pc.Left?
  }

  ghost predicate WorkEnabled<T>(s: Sys<T>, op: Op<T>, pc: Pc<T>, pick: string, fresh_ref: Ref) {
    match pc
    case Entered => op.Put? && op.kind !in s.data ==> fresh_ref !in s.heap
    case Bucket(r, seen, _) =>
      && r in s.heap
      && (op.List? ==> (pick in s.heap[r] && pick !in Elements(seen)) || Elements(seen) == s.heap[r].Keys)
    case Present(r) => r in s.heap && op.Delete?
    case _ => false
  }

  ghost function At<T>(s: Sys<T>, c: CallId, pc: Pc<T>): Sys<T>
    requires c in s.calls
  {
    s.(calls := s.calls[c := s.calls[c].(pc := pc)])
  }

  /** The call takes effect and its answer is fixed. */
  ghost function Finish<T>(s: Sys<T>, c: CallId, ret: Ret<T>): Sys<T>
    requires c in s.calls
  {
    At(s, c, Leaving(ret)).(trace := s.trace + [Effect(c, s.calls[c].op, ret)])
  }

  ghost function Apply<T>(s: Sys<T>, m: Move<T>): Sys<T>
    requires Enabled(s, m)
  {
    match m
    case Invoke(c, op) => s.(calls := s.calls[c := Frame(op, Waiting)], trace := s.trace + [Invoked(c, op)])
    case Acquire(c) =>
      var s1 := At(s, c, Entered);
      if IsWrite(s.calls[c].op) then s1.(writer := Some(c)) else s1.(readers := s.readers + {c})
    case Work(c, pick, fresh_ref) =>
      match s.calls[c].op {
        case Put(_, _, _) => PutWork(s, c, fresh_ref)
        case Get(_, _) => GetWork(s, c)
        case List(_) => ListWork(s, c, pick)
        case Delete(_, _) => DeleteWork(s, c)
      }
    case Release(c) =>
      var s1 := At(s, c, Left(s.calls[c].pc.ret));
      if IsWrite(s.calls[c].op) then s1.(writer := None) else s1.(readers := s.readers - {c})
    case Return(c) =>
      var ret := s.calls[c].pc.ret;
      At(s, c, Returned(ret)).(trace := s.trace + [Responded(c, ret)])
  }

  ghost function PutWork<T>(s: Sys<T>, c: CallId, fresh_ref: Ref): Sys<T>
    requires c in s.calls && s.calls[c].op.Put? && InBody(s.calls[c].pc)
    requires WorkEnabled(s, s.calls[c].op, s.calls[c].pc, "", fresh_ref)
  {
    var op := s.calls[c].op;
    match s.calls[c].pc
    case Entered =>
      if op.kind in s.data then At(s, c, Bucket(s.data[op.kind], [], []))
      else
        At(s, c, Bucket(fresh_ref, [], [])).(data := s.data[op.kind := fresh_ref], heap := s.heap[fresh_ref := map[]])
    case Bucket(r, _, _) => Finish(s, c, Done).(heap := s.heap[r := s.heap[r][op.id := op.obj]])
    case _ => s
  }

  ghost function GetWork<T>(s: Sys<T>, c: CallId): Sys<T>
    requires c in s.calls && s.calls[c].op.Get? && InBody(s.calls[c].pc)
    requires s.calls[c].pc.Bucket? ==> s.calls[c].pc.r in s.heap
  {
    var op := s.calls[c].op;
    match s.calls[c].pc
    case Entered => if op.kind in s.data then At(s, c, Bucket(s.data[op.kind], [], [])) else Finish(s, c, NotFound)
    case Bucket(r, _, _) => Finish(s, c, if op.id in s.heap[r] then Object(s.heap[r][op.id]) else NotFound)
    case _ => s
  }

  ghost function ListWork<T>(s: Sys<T>, c: CallId, pick: string): Sys<T>
    requires c in s.calls && s.calls[c].op.List? && InBody(s.calls[c].pc)
    requires s.calls[c].pc.Bucket? ==> s.calls[c].pc.r in s.heap
  {
    var op := s.calls[c].op;
    match s.calls[c].pc
    case Entered => if op.kind in s.data then At(s, c, Bucket(s.data[op.kind], [], [])) else Finish(s, c, NilList)
    case Bucket(r, seen, result) =>
      if pick in s.heap[r] && pick !in Elements(seen) then
        At(s, c, Bucket(r, seen + [pick], result + [s.heap[r][pick]]))
      else Finish(s, c, Objects(result))
    case _ => s
  }

  ghost function DeleteWork<T>(s: Sys<T>, c: CallId): Sys<T>
    requires c in s.calls && s.calls[c].op.Delete? && InBody(s.calls[c].pc)
    requires s.calls[c].pc.Bucket? || s.calls[c].pc.Present? ==> s.calls[c].pc.r in s.heap
  {
    var op := s.calls[c].op;
    match s.calls[c].pc
    case Entered => if op.kind in s.data then At(s, c, Bucket(s.data[op.kind], [], [])) else Finish(s, c, NotFound)
    case Bucket(r, _, _) => if op.id in s.heap[r] then At(s, c, Present(r)) else Finish(s, c, NotFound)
    case Present(r) => Finish(s, c, Done).(heap := s.heap[r := s.heap[r] - {op.id}])
    case _ => s
  }

  /** The state after a run of moves, each enabled when it is made; None if one is not. */
  ghost function Run<T>(moves: seq<Move<T>>): Option<Sys<T>>
    decreases |moves|
  {
    if moves == [] then Some(Init())
    else
      var before := Run(moves[..|moves| - 1]);
      if before.Some? && Enabled(before.value, moves[|moves| - 1]) then Some(Apply(before.value, moves[|moves| - 1]))
      else None
  }

  // ----- the sequential witness -----

  /** The flat store after the effects recorded in a trace. */
  ghost function Replay<T>(trace: seq<Event<T>>): Flat<T> {
    if trace == [] then Flat({}, map[])
    else
      var f := Replay(trace[..|trace| - 1]);
      var e := trace[|trace| - 1];
      if e.Effect? then Next(f, e.op) else f
  }

  /** Every recorded answer is one the flat store gives at that point. */
  ghost predicate Legal<T>(trace: seq<Event<T>>) {
    trace == [] || (
      var e := trace[|trace| - 1];
      Legal(trace[..|trace| - 1]) && (e.Effect? ==> Answers(Replay(trace[..|trace| - 1]), e.op, e.ret)))
  }

  /** The events of one call, in order. */
  ghost function Events<T>(trace: seq<Event<T>>, c: CallId): seq<Event<T>> {
    if trace == [] then []
    else
      var e := trace[|trace| - 1];
      Events(trace[..|trace| - 1], c) + (if e.c == c then [e] else [])
  }

  /** The events a call must have produced by the time it is at `f`: invocation, effect, response, in that order. */
  ghost function Story<T>(c: CallId, f: Frame<T>): seq<Event<T>> {
    match f.pc
    case Leaving(ret) => [Invoked(c, f.op), Effect(c, f.op, ret)]
    case Left(ret) => [Invoked(c, f.op), Effect(c, f.op, ret)]
    case Returned(ret) => [Invoked(c, f.op), Effect(c, f.op, ret), Responded(c, ret)]
    case _ => [Invoked(c, f.op)]
  }

  lemma TraceSnoc<T>(trace: seq<Event<T>>, e: Event<T>)
    ensures Replay(trace + [e]) == if e.Effect? then Next(Replay(trace), e.op) else Replay(trace)
    ensures forall c :: Events(trace + [e], c) == Events(trace, c) + if e.c == c then [e] else []
  {
    assert (trace + [e])[..|trace|] == trace;
  }

  lemma LegalSnoc<T>(trace: seq<Event<T>>, e: Event<T>)
    ensures Legal(trace + [e]) <==> Legal(trace) && (e.Effect? ==> Answers(Replay(trace), e.op, e.ret))
  {
    assert (trace + [e])[..|trace|] == trace;
  }

  // ----- the invariant -----

  /** The lock is held by exactly the calls inside their critical sections. */
  ghost predicate Locking<T>(s: Sys<T>) {
    && (forall c :: c in s.calls && HoldsLock(s.calls[c].pc) ==>
                      if IsWrite(s.calls[c].op) then s.writer == Some(c) else c in s.readers)
    && (s.writer.Some? ==> s.readers == {})
    && (forall c :: c in s.readers ==> c in s.calls && HoldsLock(s.calls[c].pc) && !IsWrite(s.calls[c].op))
    && (s.writer.Some? ==> s.writer.value in s.calls && HoldsLock(s.calls[s.writer.value].pc)
                           && IsWrite(s.calls[s.writer.value].op))
  }

  /** Distinct kinds have distinct buckets. */
  ghost predicate Buckets<T>(s: Sys<T>) {
    && (forall k :: k in s.data ==> s.data[k] in s.heap)
    && (forall k, l :: k in s.data && l in s.data && s.data[k] == s.data[l] ==> k == l)
  }

  /** Local variables still mean what they meant when they were read. */
  ghost predicate Locals<T>(s: Sys<T>, f: Frame<T>) {
    match f.pc
    case Bucket(r, seen, result) =>
      && f.op.kind in s.data && s.data[f.op.kind] == r && r in s.heap
      && Distinct(seen) && |seen| == |result|
      && (forall n :: 0 <= n < |seen| ==> seen[n] in s.heap[r] && result[n] == s.heap[r][seen[n]])
    case Present(r) =>
      && f.op.Delete? && f.op.kind in s.data && s.data[f.op.kind] == r && r in s.heap && f.op.id in s.heap[r]
    case _ => true
  }

  /** The bucket map, read through the references. */
  ghost predicate Stored<T>(s: Sys<T>, k: string, i: string) {
    k in s.data && s.data[k] in s.heap && i in s.heap[s.data[k]]
  }

  ghost predicate Contents<T>(s: Sys<T>, f: Flat<T>) {
    forall k, i :: ((k, i) in f.objects <==> Stored(s, k, i))
                   && (Stored(s, k, i) ==> f.objects[(k, i)] == s.heap[s.data[k]][i])
  }

  /** A Put that has made its bucket but not yet stored its object. */
  ghost predicate MidPut<T>(s: Sys<T>) {
    s.writer.Some? && s.writer.value in s.calls && s.calls[s.writer.value].op.Put? && s.calls[s.writer.value].pc.Bucket?
  }

  ghost predicate Kinds<T>(s: Sys<T>, f: Flat<T>) {
    if MidPut(s) then s.data.Keys == f.kinds + {s.calls[s.writer.value].op.kind} else s.data.Keys == f.kinds
  }

  ghost predicate Histories<T>(s: Sys<T>) {
    forall c: CallId :: Events(s.trace, c) == if c in s.calls then Story(c, s.calls[c]) else []
  }

  ghost predicate Inv<T>(s: Sys<T>) {
    && Locking(s) && Buckets(s)
    && (forall c :: c in s.calls ==> Locals(s, s.calls[c]))
    && Contents(s, Replay(s.trace)) && Kinds(s, Replay(s.trace))
    && Legal(s.trace) && Histories(s)
  }

  // ----- the invariant is kept -----

  /** While a writer holds the lock no other call is in its critical section. */
  lemma WriterAlone<T>(s: Sys<T>, c: CallId)
    requires Locking(s) && c in s.calls && HoldsLock(s.calls[c].pc) && IsWrite(s.calls[c].op)
    ensures s.writer == Some(c) && s.readers == {}
    ensures forall d :: d in s.calls && d != c ==> !HoldsLock(s.calls[d].pc)
  {
  }

  lemma ReaderExcludesWriter<T>(s: Sys<T>, c: CallId)
    requires Locking(s) && c in s.calls && HoldsLock(s.calls[c].pc) && !IsWrite(s.calls[c].op)
    ensures s.writer.None? && !MidPut(s)
  {
    assert c in s.readers;
  }

  /** Moving one call while it keeps the lock leaves the lock as it is. */
  lemma LockingKept<T>(s: Sys<T>, t: Sys<T>, c: CallId)
    requires Locking(s) && c in s.calls && HoldsLock(s.calls[c].pc)
    requires c in t.calls && t.calls == s.calls[c := t.calls[c]]
    requires t.calls[c].op == s.calls[c].op && HoldsLock(t.calls[c].pc)
    requires t.writer == s.writer && t.readers == s.readers
    ensures Locking(t)
  {
  }

  /** Moving a call that is outside its critical section leaves the lock as it is. */
  lemma LockingIdle<T>(s: Sys<T>, t: Sys<T>, c: CallId)
    requires Locking(s) && c in t.calls && t.calls == s.calls[c := t.calls[c]]
    requires c in s.calls ==> !HoldsLock(s.calls[c].pc)
    requires !HoldsLock(t.calls[c].pc) && t.writer == s.writer && t.readers == s.readers
    ensures Locking(t) && (MidPut(t) <==> MidPut(s)) && (MidPut(s) ==> t.calls[t.writer.value] == s.calls[s.writer.value])
  {
  }

  lemma HistoriesKept<T>(s: Sys<T>, t: Sys<T>, c: CallId)
    requires Histories(s) && c in s.calls && c in t.calls && t.calls == s.calls[c := t.calls[c]]
    requires t.trace == s.trace && Story(c, t.calls[c]) == Story(c, s.calls[c])
    ensures Histories(t)
  {
    forall d: CallId
      ensures Events(t.trace, d) == if d in t.calls then Story(d, t.calls[d]) else []
    {
      assert Events(s.trace, d) == if d in s.calls then Story(d, s.calls[d]) else [];
    }
  }

  lemma HistoriesExtended<T>(s: Sys<T>, t: Sys<T>, c: CallId, e: Event<T>)
    requires Histories(s) && c in t.calls && t.calls == s.calls[c := t.calls[c]]
    requires t.trace == s.trace + [e] && e.c == c
    requires Story(c, t.calls[c]) == (if c in s.calls then Story(c, s.calls[c]) else []) + [e]
    ensures Histories(t)
  {
    TraceSnoc(s.trace, e);
    forall d: CallId
      ensures Events(t.trace, d) == if d in t.calls then Story(d, t.calls[d]) else []
    {
      assert Events(s.trace, d) == if d in s.calls then Story(d, s.calls[d]) else [];
      assert Events(t.trace, d) == Events(s.trace, d) + if e.c == d then [e] else [];
    }
  }

  /** A step that leaves the buckets alone keeps everything said about them. */
  lemma StoreKept<T>(s: Sys<T>, t: Sys<T>, c: CallId)
    requires Buckets(s) && Contents(s, Replay(s.trace)) && forall d :: d in s.calls ==> Locals(s, s.calls[d])
    requires t.data == s.data && t.heap == s.heap
    requires c in t.calls && t.calls == s.calls[c := t.calls[c]] && Locals(s, t.calls[c])
    requires Replay(t.trace) == Replay(s.trace)
    ensures Buckets(t) && Contents(t, Replay(t.trace)) && forall d :: d in t.calls ==> Locals(t, t.calls[d])
  {
    forall d | d in t.calls
      ensures Locals(t, t.calls[d])
    {
      assert d != c ==> t.calls[d] == s.calls[d];
      assert Locals(s, t.calls[d]);
    }
    forall k, i
      ensures Stored(t, k, i) <==> Stored(s, k, i)
    {
    }
  }

  lemma KeepInvoke<T>(s: Sys<T>, m: Move<T>)
    requires Inv(s) && Enabled(s, m) && m.Invoke?
    ensures Inv(Apply(s, m))
  {
    var t := Apply(s, m);
    var e := Invoked(m.c, m.op);
    TraceSnoc(s.trace, e);
    LegalSnoc(s.trace, e);
    HistoriesExtended(s, t, m.c, e);
    LockingIdle(s, t, m.c);
    StoreKept(s, t, m.c);
  }

  lemma {:induction false} KeepAcquire<T>(s: Sys<T>, m: Move<T>)
    requires Inv(s) && Enabled(s, m) && m.Acquire?
    ensures Inv(Apply(s, m))
  {
    var t := Apply(s, m);
    HistoriesKept(s, t, m.c);
    StoreKept(s, t, m.c);
  }

  lemma {:induction false} KeepRelease<T>(s: Sys<T>, m: Move<T>)
    requires Inv(s) && Enabled(s, m) && m.Release?
    ensures Inv(Apply(s, m))
  {
    var t := Apply(s, m);
    HistoriesKept(s, t, m.c);
    if IsWrite(s.calls[m.c].op) {
      WriterAlone(s, m.c);
    } else {
      ReaderExcludesWriter(s, m.c);
    }
    StoreKept(s, t, m.c);
  }

  lemma ReturnRecorded<T>(s: Sys<T>, m: Move<T>)
    requires Legal(s.trace) && Histories(s) && Enabled(s, m) && m.Return?
    ensures var t := Apply(s, m); Legal(t.trace) && Replay(t.trace) == Replay(s.trace) && Histories(t)
  {
    var t := Apply(s, m);
    var e := Responded(m.c, s.calls[m.c].pc.ret);
    TraceSnoc(s.trace, e);
    LegalSnoc(s.trace, e);
    HistoriesExtended(s, t, m.c, e);
  }

  lemma KeepReturn<T>(s: Sys<T>, m: Move<T>)
    requires Inv(s) && Enabled(s, m) && m.Return?
    ensures Inv(Apply(s, m))
  {
    var t := Apply(s, m);
    ReturnRecorded(s, m);
    LockingIdle(s, t, m.c);
    StoreKept(s, t, m.c);
  }

  /** A step inside the critical section that only moves its own call on. */
  lemma KeepLook<T>(s: Sys<T>, c: CallId, pc: Pc<T>)
    requires Inv(s) && c in s.calls && InBody(s.calls[c].pc) && InBody(pc)
    requires Locals(s, Frame(s.calls[c].op, pc))
    requires s.calls[c].op.Put? ==> s.calls[c].pc.Entered? && s.calls[c].op.kind in s.data
    ensures Inv(At(s, c, pc))
  {
    var t := At(s, c, pc);
    LockingKept(s, t, c);
    HistoriesKept(s, t, c);
    StoreKept(s, t, c);
    if IsWrite(s.calls[c].op) {
      WriterAlone(s, c);
    } else {
      ReaderExcludesWriter(s, c);
    }
  }

  /** A call taking effect without changing the store. */
  lemma KeepAnswer<T>(s: Sys<T>, c: CallId, ret: Ret<T>)
    requires Inv(s) && c in s.calls && InBody(s.calls[c].pc) && !s.calls[c].op.Put?
    requires Next(Replay(s.trace), s.calls[c].op) == Replay(s.trace)
    requires Answers(Replay(s.trace), s.calls[c].op, ret)
    ensures Inv(Finish(s, c, ret))
  {
    var t := Finish(s, c, ret);
    var e := Effect(c, s.calls[c].op, ret);
    TraceSnoc(s.trace, e);
    LegalSnoc(s.trace, e);
    LockingKept(s, t, c);
    HistoriesExtended(s, t, c, e);
    StoreKept(s, t, c);
    if IsWrite(s.calls[c].op) {
      WriterAlone(s, c);
    } else {
      ReaderExcludesWriter(s, c);
    }
  }

  /** A write at its last step, about to store `bucket` at `r`. */
  ghost predicate Writing<T>(s: Sys<T>, c: CallId, r: Ref, bucket: map<string, T>) {
    && c in s.calls && InBody(s.calls[c].pc) && IsWrite(s.calls[c].op)
    && var op := s.calls[c].op;
       && op.kind in s.data && s.data[op.kind] == r && r in s.heap
       && (op.Put? ==> s.calls[c].pc.Bucket? && bucket == s.heap[r][op.id := op.obj])
       && (op.Delete? ==> op.id in s.heap[r] && bucket == s.heap[r] - {op.id})
  }

  lemma {:induction false} WriteRecorded<T>(s: Sys<T>, c: CallId, r: Ref, bucket: map<string, T>)
    requires Inv(s) && Writing(s, c, r, bucket)
    ensures var t := Finish(s, c, Done);
            Legal(t.trace) && Histories(t) && Replay(t.trace) == Next(Replay(s.trace), s.calls[c].op)
  {
    var op := s.calls[c].op;
    var e := Effect(c, op, Done);
    TraceSnoc(s.trace, e);
    assert Answers(Replay(s.trace), op, Done) by {
      assert Stored(s, op.kind, op.id) <==> (op.kind, op.id) in Replay(s.trace).objects;
    }
    LegalSnoc(s.trace, e);
    HistoriesExtended(s, Finish(s, c, Done), c, e);
  }

  lemma {:induction false} WriteLocals<T>(s: Sys<T>, c: CallId, r: Ref, bucket: map<string, T>)
    requires Inv(s) && Writing(s, c, r, bucket)
    ensures var t := Finish(s, c, Done).(heap := s.heap[r := bucket]);
            Locking(t) && forall d :: d in t.calls ==> Locals(t, t.calls[d])
  {
    var t := Finish(s, c, Done).(heap := s.heap[r := bucket]);
    WriterAlone(s, c);
    LockingKept(s, t, c);
    forall d | d in t.calls
      ensures Locals(t, t.calls[d])
    {
      assert d != c ==> t.calls[d] == s.calls[d];
    }
  }

  lemma WriteStored<T>(s: Sys<T>, c: CallId, r: Ref, bucket: map<string, T>)
    requires Inv(s) && Writing(s, c, r, bucket)
    ensures var t, f := Finish(s, c, Done).(heap := s.heap[r := bucket]), Next(Replay(s.trace), s.calls[c].op);
            Buckets(t) && Contents(t, f) && Kinds(t, f)
  {
    WriterAlone(s, c);
    ContentsWritten(s, Finish(s, c, Done).(heap := s.heap[r := bucket]), s.calls[c].op, r, bucket);
  }

  /** A writer taking effect on the bucket it holds. */
  lemma KeepWrite<T>(s: Sys<T>, c: CallId, r: Ref, bucket: map<string, T>)
    requires Inv(s) && Writing(s, c, r, bucket)
    ensures Inv(Finish(s, c, Done).(heap := s.heap[r := bucket]))
  {
    WriteRecorded(s, c, r, bucket);
    WriteLocals(s, c, r, bucket);
    WriteStored(s, c, r, bucket);
  }

  lemma ContentsWritten<T>(s: Sys<T>, t: Sys<T>, op: Op<T>, r: Ref, bucket: map<string, T>)
    requires Buckets(s) && Contents(s, Replay(s.trace)) && IsWrite(op)
    requires t.data == s.data && t.heap == s.heap[r := bucket]
    requires op.kind in s.data && s.data[op.kind] == r && r in s.heap
    requires op.Put? ==> bucket == s.heap[r][op.id := op.obj]
    requires op.Delete? ==> bucket == s.heap[r] - {op.id}
    ensures Contents(t, Next(Replay(s.trace), op))
  {
    var f, g := Replay(s.trace), Next(Replay(s.trace), op);
    forall k, i
      ensures (k, i) in g.objects <==> Stored(t, k, i)
      ensures Stored(t, k, i) ==> g.objects[(k, i)] == t.heap[t.data[k]][i]
    {
      assert (k, i) in f.objects <==> Stored(s, k, i);
      if k != op.kind && k in s.data {
        assert s.data[k] != r;
      }
    }
  }

  /** Put making the bucket of a new kind. */
  lemma MakeLocals<T>(s: Sys<T>, c: CallId, ref: Ref)
    requires Inv(s) && c in s.calls && s.calls[c].op.Put? && s.calls[c].pc.Entered?
    requires s.calls[c].op.kind !in s.data && ref !in s.heap
    ensures var t := PutWork(s, c, ref); Locking(t) && Histories(t) && forall d :: d in t.calls ==> Locals(t, t.calls[d])
  {
    var t := PutWork(s, c, ref);
    WriterAlone(s, c);
    LockingKept(s, t, c);
    HistoriesKept(s, t, c);
    forall d | d in t.calls
      ensures Locals(t, t.calls[d])
    {
      assert d != c ==> t.calls[d] == s.calls[d];
    }
  }

  lemma MakeContents<T>(s: Sys<T>, c: CallId, ref: Ref)
    requires Inv(s) && c in s.calls && s.calls[c].op.Put? && s.calls[c].pc.Entered?
    requires s.calls[c].op.kind !in s.data && ref !in s.heap
    ensures var t := PutWork(s, c, ref); Buckets(t) && Contents(t, Replay(s.trace))
  {
    var t := PutWork(s, c, ref);
    var f := Replay(s.trace);
    forall k, i
      ensures (k, i) in f.objects <==> Stored(t, k, i)
      ensures Stored(t, k, i) ==> f.objects[(k, i)] == t.heap[t.data[k]][i]
    {
      assert (k, i) in f.objects <==> Stored(s, k, i);
    }
  }

  lemma KeepMake<T>(s: Sys<T>, c: CallId, ref: Ref)
    requires Inv(s) && c in s.calls && s.calls[c].op.Put? && s.calls[c].pc.Entered?
    requires s.calls[c].op.kind !in s.data && ref !in s.heap
    ensures Inv(PutWork(s, c, ref))
  {
    WriterAlone(s, c);
    MakeLocals(s, c, ref);
    MakeContents(s, c, ref);
  }

  lemma KeepPut<T>(s: Sys<T>, c: CallId, ref: Ref)
    requires Inv(s) && c in s.calls && s.calls[c].op.Put? && InBody(s.calls[c].pc)
    requires WorkEnabled(s, s.calls[c].op, s.calls[c].pc, "", ref)
    ensures Inv(PutWork(s, c, ref))
  {
    var op := s.calls[c].op;
    assert Locals(s, s.calls[c]);
    match s.calls[c].pc {
      case Entered =>
        if op.kind in s.data {
          KeepLook(s, c, Bucket(s.data[op.kind], [], []));
        } else {
          KeepMake(s, c, ref);
        }
      case Bucket(r, _, _) => KeepWrite(s, c, r, s.heap[r][op.id := op.obj]);
      case Present(r) =>
    }
  }

  lemma KeepGet<T>(s: Sys<T>, c: CallId)
    requires Inv(s) && c in s.calls && s.calls[c].op.Get? && InBody(s.calls[c].pc)
    ensures s.calls[c].pc.Bucket? ==> s.calls[c].pc.r in s.heap
    ensures Inv(GetWork(s, c))
  {
    var op := s.calls[c].op;
    assert Locals(s, s.calls[c]);
    assert Stored(s, op.kind, op.id) <==> (op.kind, op.id) in Replay(s.trace).objects;
    match s.calls[c].pc {
      case Entered =>
        if op.kind in s.data {
          KeepLook(s, c, Bucket(s.data[op.kind], [], []));
        } else {
          KeepAnswer(s, c, NotFound);
        }
      case Bucket(r, _, _) => KeepAnswer(s, c, if op.id in s.heap[r] then Object(s.heap[r][op.id]) else NotFound);
      case Present(r) =>
    }
  }

  lemma KeepDelete<T>(s: Sys<T>, c: CallId)
    requires Inv(s) && c in s.calls && s.calls[c].op.Delete? && InBody(s.calls[c].pc)
    ensures s.calls[c].pc.Bucket? || s.calls[c].pc.Present? ==> s.calls[c].pc.r in s.heap
    ensures Inv(DeleteWork(s, c))
  {
    var op := s.calls[c].op;
    var f := Replay(s.trace);
    assert Locals(s, s.calls[c]);
    assert Stored(s, op.kind, op.id) <==> (op.kind, op.id) in f.objects;
    assert !Stored(s, op.kind, op.id) ==> f.objects - {(op.kind, op.id)} == f.objects;
    match s.calls[c].pc {
      case Entered =>
        if op.kind in s.data {
          KeepLook(s, c, Bucket(s.data[op.kind], [], []));
        } else {
          KeepAnswer(s, c, NotFound);
        }
      case Bucket(r, _, _) =>
        if op.id in s.heap[r] {
          KeepLook(s, c, Present(r));
        } else {
          KeepAnswer(s, c, NotFound);
        }
      case Present(r) => KeepWrite(s, c, r, s.heap[r] - {op.id});
    }
  }

  lemma KeepList<T>(s: Sys<T>, c: CallId, pick: string)
    requires Inv(s) && c in s.calls && s.calls[c].op.List? && InBody(s.calls[c].pc)
    requires WorkEnabled(s, s.calls[c].op, s.calls[c].pc, pick, 0)
    ensures Inv(ListWork(s, c, pick))
  {
    var op := s.calls[c].op;
    assert Locals(s, s.calls[c]);
    ReaderExcludesWriter(s, c);
    match s.calls[c].pc {
      case Entered =>
        if op.kind in s.data {
          KeepLook(s, c, Bucket(s.data[op.kind], [], []));
        } else {
          KeepAnswer(s, c, NilList);
        }
      case Bucket(r, seen, result) =>
        if pick in s.heap[r] && pick !in Elements(seen) {
          assert Distinct(seen + [pick]);
          KeepLook(s, c, Bucket(r, seen + [pick], result + [s.heap[r][pick]]));
        } else {
          assert Listing(Replay(s.trace), op.kind, seen, result) by {
            assert forall i :: Stored(s, op.kind, i) <==> i in s.heap[r];
          }
          KeepAnswer(s, c, Objects(result));
        }
      case Present(r) =>
    }
  }

  lemma KeepStep<T>(s: Sys<T>, m: Move<T>)
    requires Inv(s) && Enabled(s, m)
    ensures Inv(Apply(s, m))
  {
    match m {
      case Invoke(_, _) => KeepInvoke(s, m);
      case Acquire(_) => KeepAcquire(s, m);
      case Release(_) => KeepRelease(s, m);
      case Return(_) => KeepReturn(s, m);
      case Work(c, pick, ref) =>
        match s.calls[c].op {
          case Put(_, _, _) => KeepPut(s, c, ref);
          case Get(_, _) => KeepGet(s, c);
          case List(_) => KeepList(s, c, pick);
          case Delete(_, _) => KeepDelete(s, c);
        }
    }
  }

  lemma {:induction false} KeepRun<T>(moves: seq<Move<T>>)
    requires Run(moves).Some?
    ensures Inv(Run(moves).value)
    decreases |moves|
  {
    if moves == [] {
      var s := Init<T>();
      assert forall c: CallId :: Events(s.trace, c) == [];
    } else {
      KeepRun(moves[..|moves| - 1]);
      KeepStep(Run(moves[..|moves| - 1]).value, moves[|moves| - 1]);
    }
  }
}
