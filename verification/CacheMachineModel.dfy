/** A cache machine as a value, the plain queue it should behave like, and the proof that it does. */
module CacheMachineModel {
  import opened Collections
  import opened Rotation
  import opened CacheData
  import opened MessageIds

  type Entry = Message<CacheData>

  /** `limits` and `used` are read from the device, host and disk resources when a table is added. */
  datatype Readings = Readings(used: seq<nat>, limits: seq<nat>)

  datatype Machine = Machine(name: string, override: int, arrayAccess: bool, chunkSize: nat,
                             queue: seq<Entry>, rows: nat, bytes: nat, something: bool, globalIndex: int)

  ghost predicate QueueOk(q: seq<Entry>)
  {
    forall i :: 0 <= i < |q| ==> Ok(q[i].data)
  }

  ghost predicate MachineOk(m: Machine)
  {
    m.chunkSize > 0 && QueueOk(m.queue) && m.globalIndex >= -1
  }

  // ---------------------------------------------------------------- operations

  predicate ReadingsOk(r: Readings)
  {
    |r.used| == 3 && |r.limits| == 3
  }

  /** The tier a table of this size is put in; None when no tier takes it. */
  function Tier(override: int, r: Readings, bytes: nat): Option<nat>
    requires ReadingsOk(r)
  {
    if override != -1 then (if 0 <= override <= 2 then Some(override) else None)
    else if r.used[0] + bytes < r.limits[0] then Some(0)
    else if r.used[1] + bytes < r.limits[1] then Some(1)
    else if r.used[2] + bytes < r.limits[2] then Some(2)
    else None
  }

  function StoreIn(tier: nat, t: Table, chunkSize: nat): CacheData
    requires tier <= 2 && chunkSize > 0
  {
    if tier == 0 then GPU(t) else if tier == 1 then CPU(StoreHost(t, chunkSize)) else Disk(t)
  }

  function IdOr(id: string, name: string): string
  {
    if id == "" then name else id
  }

  /** addToCache: counters move and true is returned even when no tier takes the table. */
  function AddTable(m: Machine, t: Table, id: string, always: bool, r: Readings): (Machine, bool)
    requires m.chunkSize > 0 && ReadingsOk(r)
  {
    if !m.something || |t| > 0 || always then
      var m' := m.(rows := m.rows + |t|, bytes := m.bytes + TableBytes(t), something := true);
      var tier := Tier(m.override, r, TableBytes(t));
      (match tier
       case Some(k) => m'.(queue := m.queue + [Message(IdOr(id, m.name), StoreIn(k, t, m.chunkSize))])
       case None => m',
       true)
    else (m, false)
  }

  /** addCacheData (and addHostFrameToCache, with `always` false). */
  function AddData(m: Machine, d: CacheData, id: string, always: bool): (Machine, bool)
  {
    if !m.something || NumRows(d) > 0 || always then
      (m.(rows := m.rows + NumRows(d), bytes := m.bytes + SizeInBytes(d), something := true,
          queue := m.queue + [Message(IdOr(id, m.name), d)]), true)
    else (m, false)
  }

  /** Taking the first message with this id. */
  function TakeId(m: Machine, id: string): (Machine, Option<Entry>)
  {
    var i := FirstMatch(m.queue, [id]);
    if i == |m.queue| then (m, None) else (m.(queue := Without(m.queue, i)), Some(m.queue[i]))
  }

  /** pullFromCache and pullCacheData. */
  function Take(m: Machine): (Machine, Option<Entry>)
    requires m.globalIndex >= -1
  {
    if m.arrayAccess then
      var m' := m.(globalIndex := m.globalIndex + 1);
      TakeId(m', IndexId(m.name, m'.globalIndex))
    else if m.queue == [] then (m, None)
    else (m.(queue := m.queue[1..]), Some(m.queue[0]))
  }

  /** downgradeCacheData: every message on the GPU moves, reading host use as it goes. */
  function DowngradeQueue(q: seq<Entry>, hostUsed: seq<nat>, hostLimit: nat, chunkSize: nat): (r: seq<Entry>)
    requires chunkSize > 0 && |hostUsed| == |q|
    ensures |r| == |q|
  {
    seq(|q|, i requires 0 <= i < |q| => Message(q[i].id, Downgrade(q[i].data, hostUsed[i], hostLimit, chunkSize)))
  }

  // ---------------------------------------------------------------- the plain queue

  type Item = Message<Table>

  datatype Fifo = Fifo(name: string, arrayAccess: bool, items: seq<Item>, rows: nat, bytes: nat, something: bool, globalIndex: int)

  ghost function Loaded(q: seq<Entry>): (r: seq<Item>)
    requires QueueOk(q)
    ensures |r| == |q| && forall i :: 0 <= i < |q| ==> r[i] == Message(q[i].id, Decache(q[i].data))
  {
    seq(|q|, i requires 0 <= i < |q| => Message(q[i].id, Decache(q[i].data)))
  }

  ghost function Abs(m: Machine): Fifo
    requires MachineOk(m)
  {
    Fifo(m.name, m.arrayAccess, Loaded(m.queue), m.rows, m.bytes, m.something, m.globalIndex)
  }

  function FifoAdd(f: Fifo, t: Table, id: string, always: bool): (Fifo, bool)
  {
    if !f.something || |t| > 0 || always then
      (f.(rows := f.rows + |t|, bytes := f.bytes + TableBytes(t), something := true,
          items := f.items + [Message(IdOr(id, f.name), t)]), true)
    else (f, false)
  }

  function FifoTakeId(f: Fifo, id: string): (Fifo, Option<Item>)
  {
    var i := FirstMatch(f.items, [id]);
    if i == |f.items| then (f, None) else (f.(items := Without(f.items, i)), Some(f.items[i]))
  }

  function FifoTake(f: Fifo): (Fifo, Option<Item>)
    requires f.globalIndex >= -1
  {
    if f.arrayAccess then
      var f' := f.(globalIndex := f.globalIndex + 1);
      FifoTakeId(f', IndexId(f.name, f'.globalIndex))
    else if f.items == [] then (f, None)
    else (f.(items := f.items[1..]), Some(f.items[0]))
  }

  // ---------------------------------------------------------------- runs

  datatype Op =
    | Add(t: Table, id: string, always: bool, r: Readings)
    | AddCached(d: CacheData, id: string, always: bool)
    | Pull
    | PullId(id: string)
    | DowngradeAll(hostUsed: seq<nat>, hostLimit: nat)

  datatype Result = Added(stored: bool) | Pulled(item: Option<Item>) | Silent

  /** The pull can come back, every table offered is taken by some tier, and host use is read once per queued message. */
  ghost predicate Accepted(m: Machine, op: Op)
    requires m.globalIndex >= -1
  {
    match op
    case Add(t, id, always, r) => ReadingsOk(r) && Tier(m.override, r, TableBytes(t)).Some?
    case AddCached(d, id, always) => Ok(d)
    case DowngradeAll(used, limit) => |used| == |m.queue|
    case Pull => m.arrayAccess ==> Answerable(m, IndexId(m.name, m.globalIndex + 1))
    case PullId(id) => Answerable(m, id)
  }

  /** A pull by id comes back only once its message is there, or with nothing from an empty queue. */
  ghost predicate Answerable(m: Machine, id: string)
  {
    m.queue == [] || Present(m.queue, [id])
  }

  ghost function LoadedEntry(e: Option<Entry>): Option<Item>
    requires e.Some? ==> Ok(e.value.data)
  {
    if e.None? then None else Some(Message(e.value.id, Decache(e.value.data)))
  }

  ghost function Step(m: Machine, op: Op): (Machine, Result)
    requires MachineOk(m) && Accepted(m, op)
  {
    match op
    case Add(t, id, always, r) => var (m', b) := AddTable(m, t, id, always, r); (m', Added(b))
    case AddCached(d, id, always) => var (m', b) := AddData(m, d, id, always); (m', Added(b))
    case Pull => var (m', e) := Take(m); (m', Pulled(LoadedEntry(e)))
    case PullId(id) => var (m', e) := TakeId(m, id); (m', Pulled(LoadedEntry(e)))
    case DowngradeAll(used, limit) =>
      (m.(queue := DowngradeQueue(m.queue, used, limit, m.chunkSize)), Silent)
  }

  ghost function FifoStep(f: Fifo, op: Op): (Fifo, Result)
    requires f.globalIndex >= -1 && (op.AddCached? ==> Ok(op.d))
  {
    match op
    case Add(t, id, always, r) => var (f', b) := FifoAdd(f, t, id, always); (f', Added(b))
    case AddCached(d, id, always) => var (f', b) := FifoAdd(f, Decache(d), id, always); (f', Added(b))
    case Pull => var (f', i) := FifoTake(f); (f', Pulled(i))
    case PullId(id) => var (f', i) := FifoTakeId(f, id); (f', Pulled(i))
    case DowngradeAll(used, limit) => (f, Silent)
  }

  lemma LoadedMatch(q: seq<Entry>, ids: seq<string>)
    requires QueueOk(q)
    ensures FirstMatch(Loaded(q), ids) == FirstMatch(q, ids)
  {
    var i, j := FirstMatch(q, ids), FirstMatch(Loaded(q), ids);
    assert i < |q| ==> Loaded(q)[i].id == q[i].id;
    assert j < |q| ==> Loaded(q)[j].id == q[j].id;
  }

  lemma LoadedWithout(q: seq<Entry>, i: nat)
    requires QueueOk(q) && i < |q|
    ensures QueueOk(Without(q, i)) && Loaded(Without(q, i)) == Without(Loaded(q), i)
  {
    var w, v := Without(q, i), Without(Loaded(q), i);
    forall j | 0 <= j < |w|
      ensures Ok(w[j].data) && v[j] == Message(w[j].id, Decache(w[j].data))
    {
      var k := if j < |q| - i - 1 then j + i + 1 else j - (|q| - i - 1);
      assert w[j] == q[k] && v[j] == Loaded(q)[k];
    }
  }

  lemma TakeIdRefines(m: Machine, id: string)
    requires MachineOk(m)
    ensures var (m', e) := TakeId(m, id);
            MachineOk(m') && (e.Some? ==> Ok(e.value.data)) && (Abs(m'), LoadedEntry(e)) == FifoTakeId(Abs(m), id)
  {
    LoadedMatch(m.queue, [id]);
    var i := FirstMatch(m.queue, [id]);
    if i < |m.queue| {
      LoadedWithout(m.queue, i);
    }
  }

  lemma TakeFrontRefines(m: Machine)
    requires MachineOk(m) && !m.arrayAccess
    ensures var (m', e) := Take(m);
            MachineOk(m') && (e.Some? ==> Ok(e.value.data)) && (Abs(m'), LoadedEntry(e)) == FifoTake(Abs(m))
  {
    if m.queue != [] {
      assert Loaded(m.queue[1..]) == Loaded(m.queue)[1..];
    }
  }

  lemma TakeRefines(m: Machine)
    requires MachineOk(m)
    ensures var (m', e) := Take(m);
            MachineOk(m') && (e.Some? ==> Ok(e.value.data)) && (Abs(m'), LoadedEntry(e)) == FifoTake(Abs(m))
  {
    if m.arrayAccess {
      var m1, id := m.(globalIndex := m.globalIndex + 1), IndexId(m.name, m.globalIndex + 1);
      TakeIdRefines(m1, id);
      TakeIsIndexed(m);
      FifoTakeIsIndexed(Abs(m));
      assert Abs(m1) == Abs(m).(globalIndex := m.globalIndex + 1);
    } else {
      TakeFrontRefines(m);
    }
  }

  /** Array access is a pull by the next index's id. */
  lemma TakeIsIndexed(m: Machine)
    requires m.arrayAccess && m.globalIndex >= -1
    ensures var g := m.globalIndex + 1; Take(m) == TakeId(m.(globalIndex := g), IndexId(m.name, g))
  {
  }

  lemma FifoTakeIsIndexed(f: Fifo)
    requires f.arrayAccess && f.globalIndex >= -1
    ensures var g := f.globalIndex + 1; FifoTake(f) == FifoTakeId(f.(globalIndex := g), IndexId(f.name, g))
  {
  }

  lemma AddTableRefines(m: Machine, t: Table, id: string, always: bool, r: Readings)
    requires MachineOk(m) && ReadingsOk(r) && Tier(m.override, r, TableBytes(t)).Some?
    ensures var (m', b) := AddTable(m, t, id, always, r);
            MachineOk(m') && (Abs(m'), b) == FifoAdd(Abs(m), t, id, always)
  {
    StoreHostLoads(t, m.chunkSize);
    var (m', b) := AddTable(m, t, id, always, r);
    if b {
      assert Loaded(m'.queue) == Loaded(m.queue) + [Message(IdOr(id, m.name), t)];
    }
  }

  lemma AddTableOk(m: Machine, t: Table, id: string, always: bool, r: Readings)
    requires MachineOk(m) && ReadingsOk(r)
    ensures MachineOk(AddTable(m, t, id, always, r).0)
  {
    StoreHostLoads(t, m.chunkSize);
  }

  lemma AddDataRefines(m: Machine, d: CacheData, id: string, always: bool)
    requires MachineOk(m) && Ok(d)
    ensures var (m', b) := AddData(m, d, id, always);
            MachineOk(m') && (Abs(m'), b) == FifoAdd(Abs(m), Decache(d), id, always)
  {
    Accounting(d);
    var (m', b) := AddData(m, d, id, always);
    if b {
      assert Loaded(m'.queue) == Loaded(m.queue) + [Message(IdOr(id, m.name), Decache(d))];
    }
  }

  /** A downgrade is invisible: ids, order and tables are as before, and no message is left on the GPU. Each
      that was there is in host memory exactly when that had room when its turn came. */
  lemma DowngradeRefines(q: seq<Entry>, hostUsed: seq<nat>, hostLimit: nat, chunkSize: nat)
    requires chunkSize > 0 && |hostUsed| == |q| && QueueOk(q)
    ensures var q' := DowngradeQueue(q, hostUsed, hostLimit, chunkSize);
            && QueueOk(q') && Loaded(q') == Loaded(q)
            && forall i :: 0 <= i < |q'| ==>
                 && !q'[i].data.GPU?
                 && (q[i].data.GPU? ==> (q'[i].data.CPU? <==> hostUsed[i] + SizeInBytes(q[i].data) < hostLimit))
  {
    forall i | 0 <= i < |q|
      ensures var d := DowngradeQueue(q, hostUsed, hostLimit, chunkSize)[i].data;
              && Ok(d) && Decache(d) == Decache(q[i].data) && !d.GPU?
              && (q[i].data.GPU? ==> (d.CPU? <==> hostUsed[i] + SizeInBytes(q[i].data) < hostLimit))
    {
      DowngradeKeeps(q[i].data, hostUsed[i], hostLimit, chunkSize);
    }
  }

  lemma StepRefines(m: Machine, op: Op)
    requires MachineOk(m) && Accepted(m, op)
    ensures var (m', out) := Step(m, op);
            MachineOk(m') && (Abs(m'), out) == FifoStep(Abs(m), op)
  {
    match op
    case Add(t, id, always, r) => AddTableRefines(m, t, id, always, r);
    case AddCached(d, id, always) => AddDataRefines(m, d, id, always);
    case Pull => TakeRefines(m);
    case PullId(id) => TakeIdRefines(m, id);
    case DowngradeAll(used, limit) => DowngradeRefines(m.queue, used, limit, m.chunkSize);
  }

  ghost predicate IsRun(m: Machine, ops: seq<Op>)
    requires MachineOk(m)
    decreases |ops|
  {
    ops == [] || (Accepted(m, ops[0]) && (StepRefines(m, ops[0]); IsRun(Step(m, ops[0]).0, ops[1..])))
  }

  ghost function Run(m: Machine, ops: seq<Op>): (Machine, seq<Result>)
    requires MachineOk(m) && IsRun(m, ops)
    decreases |ops|
  {
    if ops == [] then (m, [])
    else
      StepRefines(m, ops[0]);
      var (m1, out) := Step(m, ops[0]);
      var (m', outs) := Run(m1, ops[1..]);
      (m', if out == Silent then outs else [out] + outs)
  }

  ghost predicate Loadable(ops: seq<Op>)
  {
    forall i :: 0 <= i < |ops| && ops[i].AddCached? ==> Ok(ops[i].d)
  }

  ghost function FifoRun(f: Fifo, ops: seq<Op>): (Fifo, seq<Result>)
    requires f.globalIndex >= -1 && Loadable(ops)
    decreases |ops|
  {
    if ops == [] then (f, [])
    else
      var (f1, out) := FifoStep(f, ops[0]);
      var (f', outs) := FifoRun(f1, ops[1..]);
      (f', [out] + outs)
  }

  /** The run with its downgrades removed. */
  function Erased(ops: seq<Op>): seq<Op>
  {
    if ops == [] then []
    else if ops[0].DowngradeAll? then Erased(ops[1..])
    else [ops[0]] + Erased(ops[1..])
  }

  /** Tiers and downgrades cannot be observed: whatever memory looks like at every add, and whatever
      downgrades happen in between, a run answers every add and every pull exactly as the plain queue
      answers the run without the downgrades, and ends in the same contents and counters. */
  lemma {:induction false} RunRefinesFifo(m: Machine, ops: seq<Op>)
    requires MachineOk(m) && IsRun(m, ops)
    ensures Loadable(Erased(ops)) && MachineOk(Run(m, ops).0)
    ensures (Abs(Run(m, ops).0), Run(m, ops).1) == FifoRun(Abs(m), Erased(ops))
    decreases |ops|
  {
    if ops == [] {
    } else {
      StepRefines(m, ops[0]);
      var m1 := Step(m, ops[0]).0;
      RunRefinesFifo(m1, ops[1..]);
      if !ops[0].DowngradeAll? {
        assert Erased(ops)[1..] == Erased(ops[1..]);
        assert forall i :: 1 <= i < |Erased(ops)| ==> Erased(ops)[i] == Erased(ops[1..])[i - 1];
      }
    }
  }

  ghost predicate HasRoom(r: Readings, k: nat, bytes: nat)
    requires ReadingsOk(r) && k < 3
  {
    r.used[k] + bytes < r.limits[k]
  }

  /** The tier taken is the override, whatever the memory looks like, or the first with room; there is none
      exactly when the override is out of range or nothing has room. */
  lemma TierIsFirstWithRoom(override: int, r: Readings, bytes: nat)
    requires ReadingsOk(r)
    ensures var tier := Tier(override, r, bytes);
            && (tier.None? <==> (override != -1 && !(0 <= override <= 2))
                                || (override == -1 && forall k :: 0 <= k < 3 ==> !HasRoom(r, k, bytes)))
            && (tier.Some? ==> tier.value < 3 && (override != -1 ==> tier.value == override))
            && (tier.Some? && override == -1 ==> HasRoom(r, tier.value, bytes)
                                                 && forall k :: 0 <= k < tier.value ==> !HasRoom(r, k, bytes))
  {
    assert HasRoom(r, 0, bytes) || HasRoom(r, 1, bytes) || HasRoom(r, 2, bytes)
      || forall k :: 0 <= k < 3 ==> !HasRoom(r, k, bytes);
  }

  ghost predicate IsIn(d: CacheData, tier: nat)
  {
    if tier == 0 then d.GPU? else if tier == 1 then d.CPU? else tier == 2 && d.Disk?
  }

  /** A table is dropped exactly when it is empty, something was added before and it need not be added always.
      Otherwise the answer is true and the counters move; it is queued, under its id or the cache's name when
      it has none, in its tier and loading back as it was, exactly when some tier takes it. When none does the
      message is lost, and neither the answer nor the counters can tell. */
  lemma AddTableStores(m: Machine, t: Table, id: string, always: bool, r: Readings)
    requires m.chunkSize > 0 && ReadingsOk(r)
    ensures var (m', b) := AddTable(m, t, id, always, r);
            var tier := Tier(m.override, r, TableBytes(t));
            && (!b <==> m.something && |t| == 0 && !always)
            && (!b ==> m' == m)
            && (b ==> m'.rows == m.rows + |t| && m'.bytes == m.bytes + TableBytes(t) && m'.something)
            && (b ==> (m'.queue == m.queue <==> tier.None?))
            && (b && tier.Some? ==>
                  |m'.queue| == |m.queue| + 1 && m'.queue[..|m.queue|] == m.queue
                  && var e := m'.queue[|m.queue|];
                     && (id == "" ==> e.id == m.name) && (id != "" ==> e.id == id)
                     && IsIn(e.data, tier.value) && Ok(e.data) && Decache(e.data) == t)
  {
    StoreHostLoads(t, m.chunkSize);
    var (m', b) := AddTable(m, t, id, always, r);
    assert m'.queue != m.queue ==> |m'.queue| == |m.queue| + 1;
  }

  /** Data already cached is dropped under the same rule, and otherwise queued as it is, under its id or the
      cache's name, and counted by what it will load as. */
  lemma AddDataStores(m: Machine, d: CacheData, id: string, always: bool)
    requires Ok(d)
    ensures var (m', b) := AddData(m, d, id, always);
            && (!b <==> m.something && |Decache(d)| == 0 && !always)
            && (!b ==> m' == m)
            && (b ==> m' == m.(rows := m.rows + |Decache(d)|, bytes := m.bytes + TableBytes(Decache(d)), something := true,
                               queue := m.queue + [Message(if id == "" then m.name else id, d)]))
  {
    Accounting(d);
  }

  /** A table that is lost: nothing has room for its one byte, yet the answer is true and a row is counted. */
  lemma TableCanBeLost()
    ensures var m := Machine("c", -1, false, 1, [], 0, 0, false, -1);
            var (m', b) := AddTable(m, [[7]], "", false, Readings([0, 0, 0], [1, 1, 1]));
            b && m'.rows == 1 && m'.queue == []
  {
    var t: Table := [[7]];
    assert Lengths(t) == [1] && Sum([1]) == 1 + Sum([]);
  }

  // ---------------------------------------------------------------- order

  /** The message an add that stored its table has put at the back. */
  ghost function StoredBy(name: string, op: Op, out: Result): seq<Item>
    requires op.AddCached? ==> Ok(op.d)
  {
    if out != Added(true) then []
    else
      match op
      case Add(t, id, _, _) => [Message(IdOr(id, name), t)]
      case AddCached(d, id, _) => [Message(IdOr(id, name), Decache(d))]
      case _ => []
  }

  ghost function Stored(name: string, ops: seq<Op>, outs: seq<Result>): seq<Item>
    requires |outs| == |ops| && Loadable(ops)
    decreases |ops|
  {
    if ops == [] then [] else StoredBy(name, ops[0], outs[0]) + Stored(name, ops[1..], outs[1..])
  }

  function PulledBy(out: Result): seq<Item>
  {
    if out.Pulled? && out.item.Some? then [out.item.value] else []
  }

  function PulledItems(outs: seq<Result>): seq<Item>
  {
    if outs == [] then [] else PulledBy(outs[0]) + PulledItems(outs[1..])
  }

  lemma StepInOrder(f: Fifo, op: Op)
    requires !f.arrayAccess && !op.PullId? && f.globalIndex >= -1 && (op.AddCached? ==> Ok(op.d))
    ensures var (f', out) := FifoStep(f, op);
            && !f'.arrayAccess && f'.globalIndex >= -1 && f'.name == f.name
            && f.items + StoredBy(f.name, op, out) == PulledBy(out) + f'.items
  {
  }

  lemma Chained(a: seq<Item>, s: seq<Item>, t: seq<Item>, p: seq<Item>, b: seq<Item>, q: seq<Item>, c: seq<Item>)
    requires a + s == p + b && b + t == q + c
    ensures a + (s + t) == (p + q) + c
  {
    calc {
      a + (s + t);
      (a + s) + t;
      p + (b + t);
      (p + q) + c;
    }
  }

  lemma {:induction false} FifoInOrder(f: Fifo, ops: seq<Op>)
    requires !f.arrayAccess && f.globalIndex >= -1 && Loadable(ops) && forall i :: 0 <= i < |ops| ==> !ops[i].PullId?
    ensures var (f', outs) := FifoRun(f, ops);
            |outs| == |ops| && f.items + Stored(f.name, ops, outs) == PulledItems(outs) + f'.items
    decreases |ops|
  {
    if ops == [] {
      assert f.items + [] == [] + f.items;
    } else {
      var (f1, out) := FifoStep(f, ops[0]);
      StepInOrder(f, ops[0]);
      FifoInOrder(f1, ops[1..]);
      var (f', outs) := FifoRun(f1, ops[1..]);
      assert ([out] + outs)[1..] == outs && ([out] + outs)[0] == out;
      Chained(f.items, StoredBy(f.name, ops[0], out), Stored(f.name, ops[1..], outs),
              PulledBy(out), f1.items, PulledItems(outs), f'.items);
    }
  }

  lemma {:induction false} ErasedNoPullId(ops: seq<Op>)
    requires forall i :: 0 <= i < |ops| ==> !ops[i].PullId?
    ensures forall i :: 0 <= i < |Erased(ops)| ==> !Erased(ops)[i].PullId?
  {
    if ops == [] {
    } else {
      ErasedNoPullId(ops[1..]);
    }
  }

  /** A cache without array access delivers tables in the order they were stored, whatever their tiers and
      whatever was downgraded: what was pulled, then what is queued, is what the adds stored. */
  lemma RunDeliversInOrder(m: Machine, ops: seq<Op>)
    requires MachineOk(m) && m.queue == [] && !m.arrayAccess && IsRun(m, ops)
    requires forall i :: 0 <= i < |ops| ==> !ops[i].PullId?
    ensures MachineOk(Run(m, ops).0) && Loadable(Erased(ops)) && |Run(m, ops).1| == |Erased(ops)|
    ensures var (m', outs) := Run(m, ops);
            PulledItems(outs) + Loaded(m'.queue) == Stored(m.name, Erased(ops), outs)
  {
    RunRefinesFifo(m, ops);
    ErasedNoPullId(ops);
    FifoInOrder(Abs(m), Erased(ops));
    var stored := Stored(m.name, Erased(ops), Run(m, ops).1);
    assert [] + stored == stored;
  }

  // ---------------------------------------------------------------- conservation of rows

  function RowsIn(items: seq<Item>): nat
  {
    if items == [] then 0 else |items[0].data| + RowsIn(items[1..])
  }

  lemma {:induction false} RowsAppend(p: seq<Item>, q: seq<Item>)
    ensures RowsIn(p + q) == RowsIn(p) + RowsIn(q)
  {
    if p == [] {
      assert p + q == q;
    } else {
      RowsAppend(p[1..], q);
      assert (p + q)[1..] == p[1..] + q && (p + q)[0] == p[0];
    }
  }

  lemma RowsWithout(q: seq<Item>, i: nat)
    requires i < |q|
    ensures RowsIn(q) == |q[i].data| + RowsIn(Without(q, i))
  {
    assert q == q[..i] + ([q[i]] + q[i + 1..]);
    RowsAppend(q[..i], [q[i]] + q[i + 1..]);
    RowsAppend([q[i]], q[i + 1..]);
    RowsAppend(q[i + 1..], q[..i]);
  }

  /** Rows of every table offered, those dropped because they are empty included. */
  ghost function Offered(ops: seq<Op>): nat
    requires Loadable(ops)
    decreases |ops|
  {
    if ops == [] then 0 else OfferedBy(ops[0]) + Offered(ops[1..])
  }

  ghost function OfferedBy(op: Op): nat
    requires op.AddCached? ==> Ok(op.d)
  {
    match op case Add(t, _, _, _) => |t| case AddCached(d, _, _) => |Decache(d)| case _ => 0
  }

  function Delivered(outs: seq<Result>): nat
  {
    if outs == [] then 0 else DeliveredBy(outs[0]) + Delivered(outs[1..])
  }

  function DeliveredBy(out: Result): nat
  {
    if out.Pulled? && out.item.Some? then |out.item.value.data| else 0
  }

  lemma {:induction false} FifoConservesRows(f: Fifo, ops: seq<Op>)
    requires f.globalIndex >= -1 && Loadable(ops)
    ensures var (f', outs) := FifoRun(f, ops);
            && f'.rows == f.rows + Offered(ops)
            && RowsIn(f.items) + Offered(ops) == RowsIn(f'.items) + Delivered(outs)
    decreases |ops|
  {
    if ops == [] {
    } else {
      var (f1, out) := FifoStep(f, ops[0]);
      FifoConservesRows(f1, ops[1..]);
      var outs := FifoRun(f1, ops[1..]).1;
      assert ([out] + outs)[1..] == outs;
      StepConservesRows(f, ops[0]);
    }
  }

  lemma FifoAddRows(f: Fifo, t: Table, id: string, always: bool)
    ensures var (f', _) := FifoAdd(f, t, id, always);
            f'.rows == f.rows + |t| && RowsIn(f'.items) == RowsIn(f.items) + |t|
  {
    RowsAppend(f.items, [Message(IdOr(id, f.name), t)]);
  }

  lemma FifoTakeIdRows(f: Fifo, id: string)
    ensures var (f', item) := FifoTakeId(f, id);
            f'.rows == f.rows && RowsIn(f.items) == RowsIn(f'.items) + DeliveredBy(Pulled(item))
  {
    var i := FirstMatch(f.items, [id]);
    if i < |f.items| { RowsWithout(f.items, i); }
  }

  lemma FifoTakeRows(f: Fifo)
    requires f.globalIndex >= -1
    ensures var (f', item) := FifoTake(f);
            f'.rows == f.rows && RowsIn(f.items) == RowsIn(f'.items) + DeliveredBy(Pulled(item))
  {
    if f.arrayAccess {
      var f1, id := f.(globalIndex := f.globalIndex + 1), IndexId(f.name, f.globalIndex + 1);
      FifoTakeIdRows(f1, id);
      assert FifoTake(f) == FifoTakeId(f1, id);
    }
  }

  lemma StepConservesRows(f: Fifo, op: Op)
    requires f.globalIndex >= -1 && (op.AddCached? ==> Ok(op.d))
    ensures var (f', out) := FifoStep(f, op);
            && f'.rows == f.rows + OfferedBy(op)
            && RowsIn(f.items) + OfferedBy(op) == RowsIn(f'.items) + DeliveredBy(out)
  {
    match op
    case Add(t, id, always, r) => FifoAddRows(f, t, id, always);
    case AddCached(d, id, always) => FifoAddRows(f, Decache(d), id, always);
    case Pull => FifoTakeRows(f);
    case PullId(id) => FifoTakeIdRows(f, id);
    case _ =>
  }

  lemma {:induction false} ErasedOffers(ops: seq<Op>)
    requires Loadable(ops)
    ensures Loadable(Erased(ops)) && Offered(Erased(ops)) == Offered(ops)
  {
    if ops == [] {
    } else {
      ErasedOffers(ops[1..]);
      if !ops[0].DowngradeAll? {
        assert Erased(ops)[1..] == Erased(ops[1..]);
      }
    }
  }

  lemma {:induction false} RunIsLoadable(m: Machine, ops: seq<Op>)
    requires MachineOk(m) && IsRun(m, ops)
    ensures Loadable(ops)
    decreases |ops|
  {
    if ops == [] {
    } else {
      StepRefines(m, ops[0]);
      RunIsLoadable(Step(m, ops[0]).0, ops[1..]);
    }
  }

  /** num_rows_added is the number of rows of all tables ever offered, empty dropped ones included,
      and that is what has been delivered plus what is queued, whatever the tiers and downgrades. */
  lemma RunConservesRows(m: Machine, ops: seq<Op>)
    requires MachineOk(m) && m.queue == [] && m.rows == 0 && IsRun(m, ops)
    ensures Loadable(ops) && MachineOk(Run(m, ops).0)
    ensures var (m', outs) := Run(m, ops);
            m'.rows == Offered(ops) == Delivered(outs) + RowsIn(Loaded(m'.queue))
  {
    RunIsLoadable(m, ops);
    ErasedOffers(ops);
    RunRefinesFifo(m, ops);
    FifoConservesRows(Abs(m), Erased(ops));
  }

  /** A table is dropped only when it is empty and something was stored before it, so the first table
      offered is always stored. */
  lemma {:induction false} DroppedLater(f: Fifo, ops: seq<Op>, i: nat)
    requires f.globalIndex >= -1 && Loadable(ops) && i < |ops|
    requires |FifoRun(f, ops).1| == |ops| && FifoRun(f, ops).1[i] == Added(false)
    ensures OfferedBy(ops[i]) == 0
    ensures f.something || exists j :: 0 <= j < i && FifoRun(f, ops).1[j] == Added(true)
    decreases |ops|
  {
    var (f1, out) := FifoStep(f, ops[0]);
    var outs := FifoRun(f1, ops[1..]).1;
    assert FifoRun(f, ops).1 == [out] + outs;
    if i == 0 {
    } else {
      DroppedLater(f1, ops[1..], i - 1);
      if !f1.something {
        var j :| 0 <= j < i - 1 && outs[j] == Added(true);
        assert FifoRun(f, ops).1[j + 1] == Added(true);
      } else if !f.something {
        assert FifoRun(f, ops).1[0] == Added(true);
      }
    }
  }
}
