/** The waiting queue as a monitor: threads take one lock, test a condition, and either go on or
    sleep on one condition variable until notify_all. A step is what one thread does while it holds
    the lock; a run is any interleaving of steps. */
module QueueMonitor {
  import opened Collections
  import opened Rotation
  import CacheData
  import CacheMachineModel

  /** What a message carries: its table, whether it is on the GPU, and its size where it is. */
  datatype Cell = Cell(content: CacheData.Table, gpu: bool, bytes: nat)

  type Msg = Message<Cell>

  /** What a call waits for. */
  datatype Wait =
    | Pop                      // pop_or_wait
    | NextMessage              // wait_for_next
    | Get(ids: seq<string>)    // get_or_wait, get_or_wait_any
    | Finished                 // wait_until_finished
    | Drain                    // get_all_or_wait
    | Count(n: int)            // wait_for_count; it also ends, by throwing, when n is passed
    | Bytes(threshold: nat)    // wait_until_num_bytes without a timeout

  datatype State = State(queue: seq<Msg>, finished: bool, processed: nat,
                         asleep: map<nat, Wait>, awake: map<nat, Wait>,
                         inserted: seq<Msg>, delivered: seq<Msg>)

  datatype Op =
    | Put(m: Msg)
    | PutAll(ms: seq<Msg>)
    | Finish
    | PopBack
    | TakeAll                  // get_all
    | TakeGpu                  // the locked part of pullUnorderedFromCache
    | Rebuild(q: seq<Msg>)     // downgradeCacheData: the queue with every message downgraded, no notify
    | Call(t: nat, w: Wait)    // thread t takes the lock for the first time
    | Resume(t: nat)           // thread t takes it again: notified, timed out or woken spuriously

  function TotalBytes(q: seq<Msg>): nat
  {
    if q == [] then 0 else q[0].data.bytes + TotalBytes(q[1..])
  }

  predicate Guard(w: Wait, s: State)
  {
    match w
    case Pop => s.finished || s.queue != []
    case NextMessage => s.finished || s.queue != []
    case Get(ids) => s.finished || Present(s.queue, ids)
    case Finished => s.finished
    case Drain => s.finished
    case Count(n) => n <= s.processed
    case Bytes(n) => s.finished || TotalBytes(s.queue) > n
  }

  /** What a call does once its condition holds. */
  function Complete(s: State, w: Wait): State
  {
    match w
    case Pop => if s.queue == [] then s else Deliver(s, 0, s.queue[1..])
    case Get(ids) =>
      var i := FirstMatch(s.queue, ids);
      if i == |s.queue| then s else Deliver(s, i, Without(s.queue, i))
    case Drain => s.(queue := [], delivered := s.delivered + s.queue)
    case _ => s
  }

  function Deliver(s: State, i: nat, rest: seq<Msg>): State
    requires i < |s.queue|
  {
    s.(queue := rest, delivered := s.delivered + [s.queue[i]])
  }

  function FirstGpu(q: seq<Msg>): (i: nat)
    ensures i <= |q|
    ensures i < |q| ==> q[i].data.gpu
    ensures forall j :: 0 <= j < i ==> !q[j].data.gpu
  {
    if q == [] then 0 else if q[0].data.gpu then 0 else 1 + FirstGpu(q[1..])
  }

  function NotifyAll(s: State): State
  {
    s.(asleep := map[], awake := s.awake + s.asleep)
  }

  function Acquire(s: State, t: nat, w: Wait): State
  {
    var s' := s.(asleep := s.asleep - {t}, awake := s.awake - {t});
    if Guard(w, s') then Complete(s', w) else s'.(asleep := s'.asleep[t := w])
  }

  function Next(s: State, op: Op): State
  {
    match op
    case Put(m) => NotifyAll(s.(queue := s.queue + [m], processed := s.processed + 1, inserted := s.inserted + [m]))
    case PutAll(ms) => NotifyAll(s.(queue := s.queue + ms, inserted := s.inserted + ms))
    case Finish => NotifyAll(s.(finished := true))
    case PopBack => if s.queue == [] then s else Deliver(s, |s.queue| - 1, s.queue[..|s.queue| - 1])
    case TakeAll => s.(queue := [], delivered := s.delivered + s.queue)
    case TakeGpu =>
      var i := FirstGpu(s.queue);
      if i == |s.queue| then s else Deliver(s, i, s.queue[..i] + s.queue[i + 1..])
    case Rebuild(q) => s.(queue := q)
    case Call(t, w) => Acquire(s, t, w)
    case Resume(t) =>
      if t in s.awake then Acquire(s, t, s.awake[t])
      else if t in s.asleep then Acquire(s, t, s.asleep[t])
      else s
  }

  function Keys(q: seq<Msg>): (r: seq<(string, CacheData.Table)>)
    ensures |r| == |q| && forall i :: 0 <= i < |q| ==> r[i] == (q[i].id, q[i].data.content)
  {
    seq(|q|, i requires 0 <= i < |q| => (q[i].id, q[i].data.content))
  }

  /** A lookup on a finished queue that holds messages but none it wants never gives the lock back
      (see Rotation.IterateForever), so it is not a step: a run ends there. */
  predicate Hangs(s: State, w: Wait)
  {
    w.Get? && s.finished && s.queue != [] && !Present(s.queue, w.ids)
  }

  /** What a downgrade makes of a message: the same id and table, off the GPU, no larger than it was. */
  predicate IsDowngrade(m: Msg, m': Msg)
  {
    && m'.id == m.id && m'.data.content == m.data.content
    && !m'.data.gpu && m'.data.bytes <= m.data.bytes
    && (!m.data.gpu ==> m' == m)
  }

  predicate IsDowngraded(q: seq<Msg>, q': seq<Msg>)
  {
    |q'| == |q| && forall i :: 0 <= i < |q| ==> IsDowngrade(q[i], q'[i])
  }

  /** A thread enters one call at a time, and a rebuild is a downgrade (see DowngradeIsRebuild). */
  predicate Enabled(s: State, op: Op)
  {
    match op
    case Rebuild(q) => IsDowngraded(s.queue, q)
    case Call(t, w) => t !in s.awake && t !in s.asleep && !Hangs(s, w)
    case Resume(t) => (t in s.awake ==> !Hangs(s, s.awake[t])) && (t in s.asleep ==> !Hangs(s, s.asleep[t]))
    case _ => true
  }

  predicate IsRun(s: State, ops: seq<Op>)
    decreases |ops|
  {
    ops == [] || (Enabled(s, ops[0]) && IsRun(Next(s, ops[0]), ops[1..]))
  }

  function After(s: State, ops: seq<Op>): State
    decreases |ops|
  {
    if ops == [] then s else After(Next(s, ops[0]), ops[1..])
  }

  const START := State([], false, 0, map[], map[], [], [])

  // ---------------------------------------------------------------- what each step does

  /** A call puts its thread to sleep exactly in these cases. */
  lemma CallSleeps(s: State, t: nat, w: Wait)
    requires Enabled(s, Call(t, w))
    ensures t in Next(s, Call(t, w)).asleep <==>
              match w
              case Pop => !s.finished && s.queue == []
              case NextMessage => !s.finished && s.queue == []
              case Get(ids) => !s.finished && forall i :: 0 <= i < |s.queue| ==> s.queue[i].id !in ids
              case Finished => !s.finished
              case Drain => !s.finished
              case Count(n) => n > s.processed
              case Bytes(n) => !s.finished && TotalBytes(s.queue) <= n
    ensures t in Next(s, Call(t, w)).asleep ==>
              Next(s, Call(t, w)) == s.(asleep := s.asleep[t := w])
  {
    assert s.asleep - {t} == s.asleep && s.awake - {t} == s.awake;
  }

  /** A call that does not sleep: pop_or_wait takes the front, a lookup the first match, leaving what
      followed it and then what preceded it, get_all_or_wait everything, and the others nothing. */
  lemma CallCompletes(s: State, t: nat, w: Wait)
    requires Enabled(s, Call(t, w)) && t !in Next(s, Call(t, w)).asleep
    ensures var s', q := Next(s, Call(t, w)), s.queue;
            match w
            case Pop =>
              s' == if q == [] then s else s.(queue := q[1..], delivered := s.delivered + [q[0]])
            case Get(ids) =>
              if q == [] then s' == s
              else
                var i := FirstMatch(q, ids);
                i < |q| && s' == s.(queue := q[i + 1..] + q[..i], delivered := s.delivered + [q[i]])
            case Drain => s' == s.(queue := [], delivered := s.delivered + q)
            case _ => s' == s
  {
    assert s.asleep - {t} == s.asleep && s.awake - {t} == s.awake;
  }

  /** Waking up is calling again. */
  lemma ResumeIsCall(s: State, t: nat)
    requires Enabled(s, Resume(t)) && (t in s.awake || t in s.asleep)
    ensures var w := if t in s.awake then s.awake[t] else s.asleep[t];
            var s0 := s.(asleep := s.asleep - {t}, awake := s.awake - {t});
            Enabled(s0, Call(t, w)) && Next(s, Resume(t)) == Next(s0, Call(t, w))
  {
    var s0 := s.(asleep := s.asleep - {t}, awake := s.awake - {t});
    assert s0.asleep - {t} == s0.asleep && s0.awake - {t} == s0.awake;
  }

  /** The steps that take without waiting: the back, everything, and the first message on the GPU. */
  lemma TakesOutcome(s: State)
    ensures Next(s, PopBack) == if s.queue == [] then s
                                else var n := |s.queue| - 1;
                                     s.(queue := s.queue[..n], delivered := s.delivered + [s.queue[n]])
    ensures Next(s, TakeAll) == s.(queue := [], delivered := s.delivered + s.queue)
    ensures forall i :: 0 <= i < |s.queue| && s.queue[i].data.gpu && (forall j :: 0 <= j < i ==> !s.queue[j].data.gpu) ==>
              Next(s, TakeGpu) == s.(queue := s.queue[..i] + s.queue[i + 1..], delivered := s.delivered + [s.queue[i]])
    ensures (forall i :: 0 <= i < |s.queue| ==> !s.queue[i].data.gpu) ==> Next(s, TakeGpu) == s
  {
    var k := FirstGpu(s.queue);
    forall i | 0 <= i < |s.queue| && s.queue[i].data.gpu && (forall j :: 0 <= j < i ==> !s.queue[j].data.gpu)
      ensures i == k
    {
      assert k < |s.queue| && !(k < i) && !(i < k);
    }
  }

  /** A lookup hangs exactly when its wait is over and its loop never returns (see Rotation). */
  lemma HangsForever(s: State, ids: seq<string>)
    ensures Hangs(s, Get(ids)) <==> s.finished && s.queue != [] && forall k: nat :: !Iterate(s.queue, ids, k).Returned?
  {
    if s.queue != [] {
      LookupEnds(s.queue, ids);
    }
  }

  /** Nothing but a second call of a thread, and a lookup that would hang, keeps a step from being taken. */
  lemma StepsEnabled(s: State, op: Op)
    ensures !op.Call? && !op.Resume? && !op.Rebuild? ==> Enabled(s, op)
    ensures op.Call? ==> (Enabled(s, op) <==> op.t !in s.awake && op.t !in s.asleep && !Hangs(s, op.w))
    ensures op.Resume? && op.t in s.awake && op.t !in s.asleep ==> (Enabled(s, op) <==> !Hangs(s, s.awake[op.t]))
    ensures op.Resume? && op.t in s.asleep && op.t !in s.awake ==> (Enabled(s, op) <==> !Hangs(s, s.asleep[op.t]))
  {
  }

  /** What a run has inserted, counted and finished is told by its steps alone. */
  function InsertedBy(ops: seq<Op>): seq<Msg>
  {
    if ops == [] then []
    else (match ops[0] case Put(m) => [m] case PutAll(ms) => ms case _ => []) + InsertedBy(ops[1..])
  }

  function PutsIn(ops: seq<Op>): nat
  {
    if ops == [] then 0 else (if ops[0].Put? then 1 else 0) + PutsIn(ops[1..])
  }

  lemma {:induction false} RunCounts(s: State, ops: seq<Op>)
    ensures var s' := After(s, ops);
            && s'.inserted == s.inserted + InsertedBy(ops)
            && s'.processed == s.processed + PutsIn(ops)
            && (s'.finished <==> s.finished || Finish in ops)
    decreases |ops|
  {
    if ops == [] {
      assert s.inserted + [] == s.inserted;
    } else {
      var s1 := Next(s, ops[0]);
      StepCounts(s, ops[0]);
      RunCounts(s1, ops[1..]);
      Regroup(s.inserted, match ops[0] case Put(m) => [m] case PutAll(ms) => ms case _ => [], InsertedBy(ops[1..]));
      assert Finish in ops <==> ops[0] == Finish || Finish in ops[1..];
    }
  }

  lemma StepCounts(s: State, op: Op)
    ensures var s' := Next(s, op);
            && s'.inserted == s.inserted + (match op case Put(m) => [m] case PutAll(ms) => ms case _ => [])
            && s'.processed == s.processed + (if op.Put? then 1 else 0)
            && (s'.finished <==> s.finished || op == Finish)
  {
    assert s.inserted + [] == s.inserted;
  }

  // ---------------------------------------------------------------- the cache machine's downgrade

  /** A cache machine's queue as the monitor sees it. */
  ghost function Cells(q: seq<CacheMachineModel.Entry>): (r: seq<Msg>)
    requires CacheMachineModel.QueueOk(q)
    ensures |r| == |q|
  {
    seq(|q|, i requires 0 <= i < |q| =>
      Message(q[i].id, Cell(CacheData.Decache(q[i].data), q[i].data.GPU?, CacheData.SizeInBytes(q[i].data))))
  }

  /** What downgradeCacheData does to a cache machine's queue is a rebuild, whatever host memory looks like. */
  lemma DowngradeIsRebuild(s: State, q: seq<CacheMachineModel.Entry>, hostUsed: seq<nat>, hostLimit: nat, chunkSize: nat)
    requires CacheMachineModel.QueueOk(q) && s.queue == Cells(q) && |hostUsed| == |q| && chunkSize > 0
    ensures var q' := CacheMachineModel.DowngradeQueue(q, hostUsed, hostLimit, chunkSize);
            CacheMachineModel.QueueOk(q') && Enabled(s, Rebuild(Cells(q')))
  {
    var q' := CacheMachineModel.DowngradeQueue(q, hostUsed, hostLimit, chunkSize);
    CacheMachineModel.DowngradeRefines(q, hostUsed, hostLimit, chunkSize);
    forall i | 0 <= i < |q|
      ensures IsDowngrade(Cells(q)[i], Cells(q')[i])
    {
      CacheData.DowngradeKeeps(q[i].data, hostUsed[i], hostLimit, chunkSize);
    }
  }

  // ---------------------------------------------------------------- no lost wakeup

  /** Every sleeping thread has a false condition. */
  ghost predicate NoLostWakeup(s: State)
  {
    forall t :: t in s.asleep ==> !Guard(s.asleep[t], s)
  }

  ghost predicate HasId(q: seq<Msg>, id: string)
  {
    exists j :: 0 <= j < |q| && q[j].id == id
  }

  /** Nothing that was not wanted before becomes wanted: no new id, no finish, no larger count. */
  ghost predicate NotMore(s: State, s': State)
  {
    && s'.finished == s.finished && s'.processed == s.processed
    && (forall i :: 0 <= i < |s'.queue| ==> HasId(s.queue, s'.queue[i].id))
    && TotalBytes(s'.queue) <= TotalBytes(s.queue)
  }

  lemma GuardsStayFalse(s: State, s': State, w: Wait)
    requires NotMore(s, s')
    ensures Guard(w, s') ==> Guard(w, s)
  {
    if w.Get? && Present(s'.queue, w.ids) {
      var i :| 0 <= i < |s'.queue| && s'.queue[i].id in w.ids;
      var j :| 0 <= j < |s.queue| && s.queue[j].id == s'.queue[i].id;
      assert Present(s.queue, w.ids);
    } else if s'.queue != [] {
      assert HasId(s.queue, s'.queue[0].id);
    }
  }

  lemma BytesOfOne(m: Msg)
    ensures TotalBytes([m]) == m.data.bytes
  {
    assert [m][1..] == [];
  }

  lemma {:induction false} BytesAppend(p: seq<Msg>, q: seq<Msg>)
    ensures TotalBytes(p + q) == TotalBytes(p) + TotalBytes(q)
  {
    if p == [] {
      assert p + q == q;
    } else {
      BytesAppend(p[1..], q);
      assert (p + q)[1..] == p[1..] + q && (p + q)[0] == p[0];
    }
  }

  /** Taking one message away, wherever the rest ends up. */
  lemma RemovalIsNotMore(s: State, i: nat, s': State)
    requires i < |s.queue| && s'.finished == s.finished && s'.processed == s.processed
    requires s'.queue == s.queue[..i] + s.queue[i + 1..] || s'.queue == Without(s.queue, i)
    ensures NotMore(s, s')
  {
    var q, pre, post := s.queue, s.queue[..i], s.queue[i + 1..];
    assert q == pre + ([q[i]] + post);
    BytesAppend(pre, [q[i]] + post);
    BytesAppend([q[i]], post);
    BytesAppend(pre, post);
    BytesAppend(post, pre);
    forall k | 0 <= k < |s'.queue|
      ensures HasId(q, s'.queue[k].id)
    {
      var j := if s'.queue == pre + post then (if k < i then k else k + 1)
               else (if k < |post| then i + 1 + k else k - |post|);
      assert q[j] == s'.queue[k];
    }
  }

  lemma CompleteIsNotMore(s: State, w: Wait)
    ensures NotMore(s, Complete(s, w)) && Complete(s, w).asleep == s.asleep
  {
    var s' := Complete(s, w);
    if s' == s {
      assert NotMore(s, s);
    } else if w.Pop? {
      assert s.queue[1..] == s.queue[..0] + s.queue[1..];
      RemovalIsNotMore(s, 0, s');
    } else if w.Get? {
      RemovalIsNotMore(s, FirstMatch(s.queue, w.ids), s');
    }
  }

  lemma StepIsNotMore(s: State, op: Op)
    requires Enabled(s, op)
    requires op.PopBack? || op.TakeAll? || op.TakeGpu? || op.Rebuild?
    ensures NotMore(s, Next(s, op)) && Next(s, op).asleep == s.asleep
  {
    var s' := Next(s, op);
    match op
    case PopBack =>
      if s.queue != [] {
        var n := |s.queue| - 1;
        assert s.queue[..n] == s.queue[..n] + s.queue[n + 1..];
        RemovalIsNotMore(s, n, s');
      } else {
        assert NotMore(s, s);
      }
    case TakeAll =>
    case TakeGpu =>
      var i := FirstGpu(s.queue);
      if i < |s.queue| {
        RemovalIsNotMore(s, i, s');
      } else {
        assert NotMore(s, s);
      }
    case Rebuild(q) => RebuildIsNotMore(s, q);
  }

  lemma {:induction false} DowngradedBytes(q: seq<Msg>, q': seq<Msg>)
    requires IsDowngraded(q, q')
    ensures TotalBytes(q') <= TotalBytes(q)
  {
    if q == [] {
    } else {
      assert IsDowngrade(q[0], q'[0]);
      DowngradedBytes(q[1..], q'[1..]);
    }
  }

  lemma RebuildIsNotMore(s: State, q: seq<Msg>)
    requires Enabled(s, Rebuild(q))
    ensures NotMore(s, s.(queue := q))
  {
    DowngradedBytes(s.queue, q);
    forall i | 0 <= i < |q|
      ensures HasId(s.queue, q[i].id)
    {
      assert IsDowngrade(s.queue[i], q[i]);
      assert s.queue[i].id == q[i].id;
    }
  }

  lemma AcquireKeeps(s: State, t: nat, w: Wait)
    requires NoLostWakeup(s)
    ensures NoLostWakeup(Acquire(s, t, w))
  {
    var s1 := s.(asleep := s.asleep - {t}, awake := s.awake - {t});
    assert forall u :: u in s1.asleep ==> u in s.asleep && s1.asleep[u] == s.asleep[u];
    forall v: Wait ensures Guard(v, s1) == Guard(v, s) {}
    if Guard(w, s1) {
      CompleteIsNotMore(s1, w);
      Quieter(s1, Complete(s1, w));
    } else {
      var s2 := s1.(asleep := s1.asleep[t := w]);
      forall v: Wait ensures Guard(v, s2) == Guard(v, s1) {}
    }
  }

  lemma Quieter(s: State, s': State)
    requires NoLostWakeup(s) && NotMore(s, s') && s'.asleep == s.asleep
    ensures NoLostWakeup(s')
  {
    forall t | t in s'.asleep
      ensures !Guard(s'.asleep[t], s')
    {
      GuardsStayFalse(s, s', s.asleep[t]);
    }
  }

  lemma StepKeeps(s: State, op: Op)
    requires NoLostWakeup(s) && Enabled(s, op)
    ensures NoLostWakeup(Next(s, op))
  {
    match op
    case Put(m) =>
    case PutAll(ms) =>
    case Finish =>
    case Call(t, w) => AcquireKeeps(s, t, w);
    case Resume(t) =>
      if t in s.awake {
        AcquireKeeps(s, t, s.awake[t]);
      } else if t in s.asleep {
        AcquireKeeps(s, t, s.asleep[t]);
      }
    case _ =>
      StepIsNotMore(s, op);
      Quieter(s, Next(s, op));
  }

  /** In every interleaving no thread sleeps although what it waits for holds. */
  lemma {:induction false} RunHasNoLostWakeup(s: State, ops: seq<Op>)
    requires NoLostWakeup(s) && IsRun(s, ops)
    ensures NoLostWakeup(After(s, ops))
    decreases |ops|
  {
    if ops == [] {
    } else {
      StepKeeps(s, ops[0]);
      RunHasNoLostWakeup(Next(s, ops[0]), ops[1..]);
    }
  }

  /** So a thread that is asleep after any run is asleep for one of these reasons. */
  lemma SleepersHaveReason(ops: seq<Op>, t: nat)
    requires IsRun(START, ops) && t in After(START, ops).asleep
    ensures var s := After(START, ops);
            match s.asleep[t]
            case Pop => !s.finished && s.queue == []
            case NextMessage => !s.finished && s.queue == []
            case Get(ids) => !s.finished && forall i :: 0 <= i < |s.queue| ==> s.queue[i].id !in ids
            case Finished => !s.finished
            case Drain => !s.finished
            case Count(n) => n > s.processed
            case Bytes(n) => !s.finished && TotalBytes(s.queue) <= n
  {
    RunHasNoLostWakeup(START, ops);
  }

  /** Once finished, the only threads asleep are those waiting for a count that was not reached. */
  lemma FinishedWakesEveryone(ops: seq<Op>, t: nat)
    requires IsRun(START, ops) && After(START, ops).finished && t in After(START, ops).asleep
    ensures var s := After(START, ops); s.asleep[t].Count? && s.asleep[t].n > s.processed
  {
    RunHasNoLostWakeup(START, ops);
  }

  // ---------------------------------------------------------------- exactly-once delivery

  /** Everything ever inserted is either delivered or still queued, and nothing is so twice. */
  ghost predicate Conserved(s: State)
  {
    multiset(Keys(s.inserted)) == multiset(Keys(s.delivered)) + multiset(Keys(s.queue))
  }

  lemma KeysAppend(p: seq<Msg>, q: seq<Msg>)
    ensures Keys(p + q) == Keys(p) + Keys(q)
  {
  }

  lemma RebuildKeys(q: seq<Msg>, q': seq<Msg>)
    requires IsDowngraded(q, q')
    ensures Keys(q') == Keys(q)
  {
    forall i | 0 <= i < |q|
      ensures Keys(q')[i] == Keys(q)[i]
    {
      assert IsDowngrade(q[i], q'[i]);
    }
  }

  lemma DeliverConserves(s: State, i: nat, rest: seq<Msg>)
    requires Conserved(s) && i < |s.queue|
    requires rest == s.queue[..i] + s.queue[i + 1..] || rest == Without(s.queue, i)
    ensures Conserved(Deliver(s, i, rest))
  {
    var q, pre, post := s.queue, s.queue[..i], s.queue[i + 1..];
    assert q == pre + ([q[i]] + post);
    KeysAppend(pre, [q[i]] + post);
    KeysAppend([q[i]], post);
    KeysAppend(pre, post);
    KeysAppend(post, pre);
    KeysAppend(s.delivered, [q[i]]);
  }

  lemma CompleteConserves(s: State, w: Wait)
    requires Conserved(s)
    ensures Conserved(Complete(s, w))
  {
    match w
    case Pop =>
      if s.queue != [] {
        assert s.queue[1..] == s.queue[..0] + s.queue[1..];
        DeliverConserves(s, 0, s.queue[1..]);
      }
    case Get(ids) =>
      var i := FirstMatch(s.queue, ids);
      if i < |s.queue| { DeliverConserves(s, i, Without(s.queue, i)); }
    case Drain => DrainConserves(s);
    case _ =>
  }

  lemma AppendConserves(s: State, ms: seq<Msg>)
    requires Conserved(s)
    ensures multiset(Keys(s.inserted + ms)) == multiset(Keys(s.delivered)) + multiset(Keys(s.queue + ms))
  {
    KeysAppend(s.queue, ms);
    KeysAppend(s.inserted, ms);
  }

  lemma DrainConserves(s: State)
    requires Conserved(s)
    ensures multiset(Keys(s.inserted)) == multiset(Keys(s.delivered + s.queue)) + multiset(Keys([]))
  {
    KeysAppend(s.delivered, s.queue);
  }

  lemma AcquireConserves(s: State, t: nat, w: Wait)
    requires Conserved(s)
    ensures Conserved(Acquire(s, t, w))
  {
    CompleteConserves(s.(asleep := s.asleep - {t}, awake := s.awake - {t}), w);
  }

  lemma StepConserves(s: State, op: Op)
    requires Conserved(s) && Enabled(s, op)
    ensures Conserved(Next(s, op))
  {
    match op
    case Put(m) => AppendConserves(s, [m]);
    case PutAll(ms) => AppendConserves(s, ms);
    case PopBack =>
      if s.queue != [] {
        var n := |s.queue| - 1;
        assert s.queue[..n] == s.queue[..n] + s.queue[n + 1..];
        DeliverConserves(s, n, s.queue[..n]);
      }
    case TakeAll => DrainConserves(s);
    case TakeGpu =>
      var i := FirstGpu(s.queue);
      if i < |s.queue| { DeliverConserves(s, i, s.queue[..i] + s.queue[i + 1..]); }
    case Rebuild(q) => RebuildKeys(s.queue, q);
    case Call(t, w) => AcquireConserves(s, t, w);
    case Resume(t) =>
      if t in s.awake {
        AcquireConserves(s, t, s.awake[t]);
      } else if t in s.asleep {
        AcquireConserves(s, t, s.asleep[t]);
      }
    case _ =>
  }

  lemma {:induction false} RunDeliversExactlyOnce(s: State, ops: seq<Op>)
    requires Conserved(s) && IsRun(s, ops)
    ensures Conserved(After(s, ops))
    decreases |ops|
  {
    if ops == [] {
    } else {
      StepConserves(s, ops[0]);
      RunDeliversExactlyOnce(Next(s, ops[0]), ops[1..]);
    }
  }

  /** Steps that only add at the back, take at the front or downgrade in place. */
  predicate InOrder(s: State, op: Op)
  {
    match op
    case PopBack => false
    case TakeGpu => false
    case Call(t, w) => !w.Get?
    case Resume(t) => (t in s.awake ==> !s.awake[t].Get?) && (t in s.asleep ==> !s.asleep[t].Get?)
    case _ => true
  }

  predicate AllInOrder(s: State, ops: seq<Op>)
    decreases |ops|
  {
    ops == [] || (InOrder(s, ops[0]) && AllInOrder(Next(s, ops[0]), ops[1..]))
  }

  ghost predicate Ordered(s: State)
  {
    Keys(s.delivered) + Keys(s.queue) == Keys(s.inserted)
  }

  /** Without lookups by id, by tier or from the back the queue is first in, first out: ids and tables
      delivered, then those queued, are those inserted, whoever calls, in whatever interleaving, and
      whatever is downgraded in between. */
  lemma {:induction false} RunIsFifo(s: State, ops: seq<Op>)
    requires Ordered(s) && IsRun(s, ops) && AllInOrder(s, ops)
    ensures Ordered(After(s, ops))
    decreases |ops|
  {
    if ops == [] {
    } else {
      StepIsFifo(s, ops[0]);
      RunIsFifo(Next(s, ops[0]), ops[1..]);
    }
  }

  lemma StepIsFifo(s: State, op: Op)
    requires Ordered(s) && Enabled(s, op) && InOrder(s, op)
    ensures Ordered(Next(s, op))
  {
    match op
    case Put(m) => AppendInOrder(s, [m]);
    case PutAll(ms) => AppendInOrder(s, ms);
    case TakeAll => DrainInOrder(s);
    case Rebuild(q) => RebuildKeys(s.queue, q);
    case Call(t, w) => AcquireInOrder(s, t, w);
    case Resume(t) =>
      if t in s.awake {
        AcquireInOrder(s, t, s.awake[t]);
      } else if t in s.asleep {
        AcquireInOrder(s, t, s.asleep[t]);
      }
    case _ =>
  }

  lemma AppendInOrder(s: State, ms: seq<Msg>)
    requires Ordered(s)
    ensures Keys(s.delivered) + Keys(s.queue + ms) == Keys(s.inserted + ms)
  {
    KeysAppend(s.queue, ms);
    KeysAppend(s.inserted, ms);
    Regroup(Keys(s.delivered), Keys(s.queue), Keys(ms));
  }

  lemma DrainInOrder(s: State)
    requires Ordered(s)
    ensures Keys(s.delivered + s.queue) + Keys([]) == Keys(s.inserted)
  {
    KeysAppend(s.delivered, s.queue);
  }

  lemma PopInOrder(s: State)
    requires Ordered(s) && s.queue != []
    ensures Keys(s.delivered + [s.queue[0]]) + Keys(s.queue[1..]) == Keys(s.inserted)
  {
    var m, rest := s.queue[0], s.queue[1..];
    assert s.queue == [m] + rest;
    KeysAppend([m], rest);
    KeysAppend(s.delivered, [m]);
    Regroup(Keys(s.delivered), Keys([m]), Keys(rest));
  }

  lemma AcquireInOrder(s: State, t: nat, w: Wait)
    requires Ordered(s) && !w.Get?
    ensures Ordered(Acquire(s, t, w))
  {
    DrainInOrder(s);
    if s.queue != [] {
      PopInOrder(s);
    }
  }
}
