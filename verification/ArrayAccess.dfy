/** Array access: batches are put under their index in any order and pulled in index order. */
module ArrayAccess {
  import opened Collections
  import opened Rotation
  import opened CacheData
  import opened MessageIds
  import opened CacheMachineModel

  /** put(index, table), a pull, or a downgrade in between. */
  datatype ArrayOp = PutAt(index: nat, t: Table, r: Readings) | PullNext | DowngradeNow(hostUsed: seq<nat>, hostLimit: nat)

  function AsOp(name: string, op: ArrayOp): Op
  {
    match op
    case PutAt(i, t, r) => Add(t, IndexId(name, i), true, r)
    case PullNext => Pull
    case DowngradeNow(used, limit) => DowngradeAll(used, limit)
  }

  /** A put always stores its batch, an empty one too, under the cache's name, an underscore and its index. */
  lemma PutStores(m: Machine, i: nat, t: Table, r: Readings)
    requires MachineOk(m) && Accepted(m, AsOp(m.name, PutAt(i, t, r)))
    ensures var q := Step(m, AsOp(m.name, PutAt(i, t, r))).0.queue;
            |q| == |m.queue| + 1 && q[|m.queue|].id == m.name + "_" + ToString(i)
  {
  }

  /** The batches put so far, and whether each index is put at most once. */
  function PutBy(put: map<nat, Table>, ops: seq<ArrayOp>): map<nat, Table>
    decreases |ops|
  {
    if ops == [] then put
    else PutBy(if ops[0].PutAt? then put[ops[0].index := ops[0].t] else put, ops[1..])
  }

  predicate OncePer(put: map<nat, Table>, ops: seq<ArrayOp>)
    decreases |ops|
  {
    ops == []
    || (if ops[0].PutAt? then ops[0].index !in put && OncePer(put[ops[0].index := ops[0].t], ops[1..])
        else OncePer(put, ops[1..]))
  }

  lemma {:induction false} PutStays(put: map<nat, Table>, ops: seq<ArrayOp>, i: nat)
    requires OncePer(put, ops) && i in put
    ensures i in PutBy(put, ops) && PutBy(put, ops)[i] == put[i]
    decreases |ops|
  {
    if ops == [] {
    } else {
      PutStays(if ops[0].PutAt? then put[ops[0].index := ops[0].t] else put, ops[1..], i);
    }
  }

  /** Each index is put at most once exactly when the puts have different indexes, none of them put before. */
  lemma {:induction false} OncePerIsDistinct(put: map<nat, Table>, ops: seq<ArrayOp>)
    ensures OncePer(put, ops) <==>
              && (forall j :: 0 <= j < |ops| && ops[j].PutAt? ==> ops[j].index !in put)
              && (forall j, l :: 0 <= j < l < |ops| && ops[j].PutAt? && ops[l].PutAt? ==> ops[j].index != ops[l].index)
    decreases |ops|
  {
    if ops == [] {
    } else {
      var put1 := if ops[0].PutAt? then put[ops[0].index := ops[0].t] else put;
      assert forall j :: 0 <= j < |ops| - 1 ==> ops[1..][j] == ops[j + 1];
      OncePerIsDistinct(put1, ops[1..]);
      assert forall j :: 0 < j < |ops| ==> ops[j] == ops[1..][j - 1];
    }
  }

  /** A batch is where a put has put it. */
  lemma {:induction false} PutByAPut(put: map<nat, Table>, ops: seq<ArrayOp>, i: nat)
    requires OncePer(put, ops) && i in PutBy(put, ops)
    ensures (i in put && PutBy(put, ops)[i] == put[i])
            || exists j :: 0 <= j < |ops| && ops[j].PutAt? && ops[j].index == i && ops[j].t == PutBy(put, ops)[i]
    decreases |ops|
  {
    if ops == [] {
    } else {
      var put1 := if ops[0].PutAt? then put[ops[0].index := ops[0].t] else put;
      PutByAPut(put1, ops[1..], i);
      if j :| 0 <= j < |ops[1..]| && ops[1..][j].PutAt? && ops[1..][j].index == i && ops[1..][j].t == PutBy(put, ops)[i] {
        assert ops[j + 1] == ops[1..][j];
      } else if ops[0].PutAt? && ops[0].index == i {
        assert ops[0].t == put1[i];
      }
    }
  }

  /** What is queued: one message for each index put and not yet pulled, under that index's id. */
  ghost predicate Buffered(f: Fifo, put: map<nat, Table>)
  {
    && f.arrayAccess && f.globalIndex >= -1
    && (forall k :: 0 <= k < |f.items| ==> Pending(f, put, f.items[k]))
    && (forall k, l :: 0 <= k < l < |f.items| ==> f.items[k].id != f.items[l].id)
  }

  ghost predicate Pending(f: Fifo, put: map<nat, Table>, item: Item)
  {
    exists i: nat :: i in put && i > f.globalIndex && item == Message(IndexId(f.name, i), put[i])
  }

  lemma PutBuffers(f: Fifo, put: map<nat, Table>, i: nat, t: Table)
    requires Buffered(f, put) && i !in put && i > f.globalIndex
    ensures Buffered(FifoAdd(f, t, IndexId(f.name, i), true).0, put[i := t])
  {
    var f' := FifoAdd(f, t, IndexId(f.name, i), true).0;
    assert IndexId(f.name, i) != "";
    forall k | 0 <= k < |f'.items|
      ensures Pending(f', put[i := t], f'.items[k])
      ensures k < |f.items| ==> f'.items[k].id != IndexId(f.name, i)
    {
      if k < |f.items| {
        assert Pending(f, put, f.items[k]);
        var j: nat :| j in put && j > f.globalIndex && f.items[k] == Message(IndexId(f.name, j), put[j]);
        assert j in put[i := t] && put[i := t][j] == put[j];
        if IndexId(f.name, j) == IndexId(f.name, i) { IdsDiffer(f.name, i, j); }
      } else {
        assert i in put[i := t];
      }
    }
  }

  lemma PullBuffers(f: Fifo, put: map<nat, Table>)
    requires Buffered(f, put) && Present(f.items, [IndexId(f.name, f.globalIndex + 1)])
    ensures var (f', item) := FifoTake(f);
            && f'.globalIndex == f.globalIndex + 1 && f'.name == f.name && Buffered(f', put)
            && f'.globalIndex in put
            && item == Some(Message(IndexId(f.name, f'.globalIndex), put[f'.globalIndex]))
  {
    var n := FirstMatch(f.items, [IndexId(f.name, f.globalIndex + 1)]);
    PendingFirst(f, put, f.items[n]);
    RestBuffered(f, put, n);
  }

  lemma RestBuffered(f: Fifo, put: map<nat, Table>, n: nat)
    requires Buffered(f, put) && n < |f.items| && f.items[n].id == IndexId(f.name, f.globalIndex + 1)
    ensures Buffered(f.(globalIndex := f.globalIndex + 1, items := Without(f.items, n)), put)
  {
    var f' := f.(globalIndex := f.globalIndex + 1, items := Without(f.items, n));
    RestPending(f, f', put, n);
    WithoutDistinct(f.items, n);
  }

  lemma RestPending(f: Fifo, f': Fifo, put: map<nat, Table>, n: nat)
    requires Buffered(f, put) && n < |f.items| && f.items[n].id == IndexId(f.name, f.globalIndex + 1)
    requires f'.name == f.name && f'.globalIndex == f.globalIndex + 1 && f'.items == Without(f.items, n)
    ensures forall k :: 0 <= k < |f'.items| ==> Pending(f', put, f'.items[k])
  {
    forall k | 0 <= k < |f'.items|
      ensures Pending(f', put, f'.items[k])
    {
      var k' := if k < |f.items| - n - 1 then k + n + 1 else k - (|f.items| - n - 1);
      assert f'.items[k] == f.items[k'];
      PendingLater(f, f', put, f.items[k']);
    }
  }

  lemma PendingFirst(f: Fifo, put: map<nat, Table>, item: Item)
    requires f.globalIndex >= -1 && Pending(f, put, item) && item.id == IndexId(f.name, f.globalIndex + 1)
    ensures f.globalIndex + 1 in put && item.data == put[f.globalIndex + 1]
  {
    var i: nat :| i in put && i > f.globalIndex && item == Message(IndexId(f.name, i), put[i]);
    IdsDiffer(f.name, i, f.globalIndex + 1);
  }

  lemma PendingLater(f: Fifo, f': Fifo, put: map<nat, Table>, item: Item)
    requires f.globalIndex >= -1 && f'.name == f.name && f'.globalIndex == f.globalIndex + 1
    requires Pending(f, put, item) && item.id != IndexId(f.name, f.globalIndex + 1)
    ensures Pending(f', put, item)
  {
  }

  lemma WithoutDistinct(q: seq<Item>, n: nat)
    requires n < |q| && forall k, l :: 0 <= k < l < |q| ==> q[k].id != q[l].id
    ensures var w := Without(q, n); forall k, l :: 0 <= k < l < |w| ==> w[k].id != w[l].id
  {
    var w, c := Without(q, n), |q| - n - 1;
    forall k, l | 0 <= k < l < |w|
      ensures w[k].id != w[l].id
    {
      var k', l' := if k < c then k + n + 1 else k - c, if l < c then l + n + 1 else l - c;
      assert w[k] == q[k'] && w[l] == q[l'];
    }
  }

  function Pulls(outs: seq<Result>): seq<Option<Item>>
  {
    if outs == [] then [] else (if outs[0].Pulled? then [outs[0].item] else []) + Pulls(outs[1..])
  }

  /** Every put is taken by some tier and every pull finds its message. */
  ghost predicate Ready(m: Machine, ops: seq<ArrayOp>)
    requires MachineOk(m)
    decreases |ops|
  {
    ops == []
    || (&& Accepted(m, AsOp(m.name, ops[0]))
        && (ops[0].PullNext? ==> m.queue != [])
        && (StepRefines(m, AsOp(m.name, ops[0])); Ready(Step(m, AsOp(m.name, ops[0])).0, ops[1..])))
  }

  ghost function ArrayRun(m: Machine, ops: seq<ArrayOp>): seq<Result>
    requires MachineOk(m) && Ready(m, ops)
    decreases |ops|
  {
    if ops == [] then []
    else
      StepRefines(m, AsOp(m.name, ops[0]));
      var (m1, out) := Step(m, AsOp(m.name, ops[0]));
      [out] + ArrayRun(m1, ops[1..])
  }

  /** The indexes already pulled are among those put. */
  ghost predicate PulledWerePut(f: Fifo, put: map<nat, Table>)
  {
    forall i: nat :: i <= f.globalIndex ==> i in put
  }

  ghost predicate Good(f: Fifo, put: map<nat, Table>)
  {
    Buffered(f, put) && PulledWerePut(f, put)
  }

  lemma PutGood(f: Fifo, put: map<nat, Table>, i: nat, t: Table)
    requires Good(f, put) && i !in put
    ensures var f' := FifoAdd(f, t, IndexId(f.name, i), true).0;
            Good(f', put[i := t]) && f'.globalIndex == f.globalIndex && f'.name == f.name
  {
    PutBuffers(f, put, i, t);
  }

  /** What one step leaves behind, and what a pull answers. */
  ghost predicate StepGood(f: Fifo, put: map<nat, Table>, aop: ArrayOp, f1: Fifo, out: Result)
  {
    && f1.name == f.name
    && Good(f1, if aop.PutAt? then put[aop.index := aop.t] else put)
    && f1.globalIndex == f.globalIndex + (if aop.PullNext? then 1 else 0)
    && (out.Pulled? <==> aop.PullNext?)
    && (aop.PullNext? ==> f1.globalIndex in put
                          && out.item == Some(Message(IndexId(f.name, f1.globalIndex), put[f1.globalIndex])))
  }

  lemma PullGood(f: Fifo, put: map<nat, Table>)
    requires Good(f, put) && Present(f.items, [IndexId(f.name, f.globalIndex + 1)])
    ensures StepGood(f, put, PullNext, FifoTake(f).0, Pulled(FifoTake(f).1))
  {
    PullBuffers(f, put);
  }

  lemma FifoArrayStep(f: Fifo, put: map<nat, Table>, aop: ArrayOp)
    requires Good(f, put) && (aop.PutAt? ==> aop.index !in put)
    requires aop.PullNext? ==> Present(f.items, [IndexId(f.name, f.globalIndex + 1)])
    ensures StepGood(f, put, aop, FifoStep(f, AsOp(f.name, aop)).0, FifoStep(f, AsOp(f.name, aop)).1)
  {
    match aop
    case PutAt(i, t, r) => PutGood(f, put, i, t);
    case DowngradeNow(used, limit) =>
    case PullNext => PullGood(f, put);
  }

  lemma PullIsPresent(m: Machine)
    requires MachineOk(m) && Answerable(m, IndexId(m.name, m.globalIndex + 1)) && m.queue != []
    ensures Present(Abs(m).items, [IndexId(m.name, m.globalIndex + 1)])
  {
    LoadedMatch(m.queue, [IndexId(m.name, m.globalIndex + 1)]);
  }

  /** The same run on the plain queue. */
  ghost predicate FifoReady(f: Fifo, ops: seq<ArrayOp>)
    requires f.globalIndex >= -1
    decreases |ops|
  {
    ops == []
    || (&& (ops[0].PullNext? ==> Present(f.items, [IndexId(f.name, f.globalIndex + 1)]))
        && FifoReady(FifoStep(f, AsOp(f.name, ops[0])).0, ops[1..]))
  }

  ghost function FifoArrayRun(f: Fifo, ops: seq<ArrayOp>): seq<Result>
    requires f.globalIndex >= -1
    decreases |ops|
  {
    if ops == [] then []
    else
      var (f1, out) := FifoStep(f, AsOp(f.name, ops[0]));
      [out] + FifoArrayRun(f1, ops[1..])
  }

  lemma {:induction false} ArrayRunRefines(m: Machine, ops: seq<ArrayOp>)
    requires MachineOk(m) && m.arrayAccess && Ready(m, ops)
    ensures FifoReady(Abs(m), ops) && ArrayRun(m, ops) == FifoArrayRun(Abs(m), ops)
    decreases |ops|
  {
    if ops == [] {
    } else {
      var op := AsOp(m.name, ops[0]);
      StepRefines(m, op);
      if ops[0].PullNext? {
        PullIsPresent(m);
      }
      ArrayRunRefines(Step(m, op).0, ops[1..]);
    }
  }

  lemma PullsCons(out: Result, outs: seq<Result>)
    ensures Pulls([out] + outs) == (if out.Pulled? then [out.item] else []) + Pulls(outs)
  {
    assert ([out] + outs)[1..] == outs;
  }

  /** The pulls among these results return the batches after index `last`, in order. */
  ghost predicate Delivers(name: string, last: int, outs: seq<Result>, put: map<nat, Table>)
    requires last >= -1
  {
    forall k :: 0 <= k < |Pulls(outs)| ==> IsBatch(name, last + 1 + k, Pulls(outs)[k], put)
  }

  ghost predicate IsBatch(name: string, i: nat, item: Option<Item>, put: map<nat, Table>)
  {
    i in put && item == Some(Message(IndexId(name, i), put[i]))
  }

  lemma DeliversCons(name: string, last: int, out: Result, outs: seq<Result>, put: map<nat, Table>)
    requires last >= -1
    requires out.Pulled? ==> IsBatch(name, last + 1, out.item, put)
    requires Delivers(name, if out.Pulled? then last + 1 else last, outs, put)
    ensures Delivers(name, last, [out] + outs, put)
  {
    PullsCons(out, outs);
    var before, after := Pulls(outs), Pulls([out] + outs);
    forall k | 0 <= k < |after|
      ensures IsBatch(name, last + 1 + k, after[k], put)
    {
      if !out.Pulled? {
        assert after[k] == before[k];
      } else if k > 0 {
        assert after[k] == before[k - 1];
      }
    }
  }

  lemma {:induction false} PullsInOrder(f: Fifo, put: map<nat, Table>, ops: seq<ArrayOp>)
    requires Good(f, put) && OncePer(put, ops) && FifoReady(f, ops)
    ensures Delivers(f.name, f.globalIndex, FifoArrayRun(f, ops), PutBy(put, ops))
    decreases |ops|
  {
    if ops == [] {
    } else {
      var aop, rest := ops[0], ops[1..];
      var (f1, out) := FifoStep(f, AsOp(f.name, aop));
      FifoArrayStep(f, put, aop);
      assert out.Pulled? <==> aop.PullNext?;
      var put1 := if aop.PutAt? then put[aop.index := aop.t] else put;
      PullsInOrder(f1, put1, rest);
      if aop.PullNext? {
        PutStays(put, rest, f1.globalIndex);
      }
      DeliversCons(f.name, f.globalIndex, out, FifoArrayRun(f1, rest), PutBy(put, ops));
    }
  }

  /** Reorder buffer: in any interleaving of puts (each index at most once, in any order), pulls and
      downgrades on a new array-access cache, the k-th pull returns the batch put at index k. */
  lemma ReorderBuffer(m: Machine, ops: seq<ArrayOp>, k: nat)
    requires MachineOk(m) && m.arrayAccess && m.queue == [] && m.globalIndex == -1
    requires OncePer(map[], ops) && Ready(m, ops) && k < |Pulls(ArrayRun(m, ops))|
    ensures exists j :: 0 <= j < |ops| && ops[j].PutAt? && ops[j].index == k
                        && Pulls(ArrayRun(m, ops))[k] == Some(Message(m.name + "_" + ToString(k), ops[j].t))
  {
    ArrayRunRefines(m, ops);
    PullsInOrder(Abs(m), map[], ops);
    assert IsBatch(m.name, k, Pulls(ArrayRun(m, ops))[k], PutBy(map[], ops));
    PutByAPut(map[], ops, k);
  }
}
