/** CacheMachine and ConcatenatingCacheMachine as the objects they are, on top of a WaitingQueue.
    Every method is tied to the operation of the models. */
module CacheMachine {
  import opened Collections
  import opened Rotation
  import opened WaitingQueue
  import opened CacheData
  import opened MessageIds
  import opened CacheMachineModel
  import opened ConcatCacheModel

  class CacheMachine {
    const name: string
    const override: int
    const arrayAccess: bool
    const chunkSize: nat
    const waitingCache: WaitingQueue<CacheData>
    var numRowsAdded: nat
    var numBytesAdded: nat
    var somethingAdded: bool
    var globalIndex: int

    ghost function View(): Machine
      reads this, waitingCache
    {
      Machine(name, override, arrayAccess, chunkSize, waitingCache.queue,
              numRowsAdded, numBytesAdded, somethingAdded, globalIndex)
    }

    ghost predicate Valid()
      reads this, waitingCache
    {
      MachineOk(View())
    }

    constructor (name: string, override: int, arrayAccess: bool, chunkSize: nat)
      requires chunkSize > 0
      ensures Valid() && fresh(waitingCache)
      ensures View() == Machine(name, override, arrayAccess, chunkSize, [], 0, 0, false, -1)
    {
      this.name, this.override, this.arrayAccess, this.chunkSize := name, override, arrayAccess, chunkSize;
      numRowsAdded, numBytesAdded, somethingAdded, globalIndex := 0, 0, false, -1;
      waitingCache := new WaitingQueue<CacheData>();
    }

    method AddHostFrameToCache(host: HostTable, id: string) returns (added: bool)
      requires Valid() && HostOk(host)
      modifies this, waitingCache
      ensures Valid() && (View(), added) == AddData(old(View()), CPU(host), id, false)
      ensures added ==> waitingCache.queue == old(waitingCache.queue) + [Message(if id == "" then name else id, CPU(host))]
    {
      if !somethingAdded || NumRows(CPU(host)) > 0 {
        numRowsAdded := numRowsAdded + NumRows(CPU(host));
        numBytesAdded := numBytesAdded + SizeInBytes(CPU(host));
        var messageId := if id == "" then name else id;
        waitingCache.Put(Message(messageId, CPU(host)));
        somethingAdded := true;
        return true;
      }
      return false;
    }

    /** Whatever the type of the data, it is queued as it is. */
    method AddCacheData(d: CacheData, id: string, always: bool) returns (added: bool)
      requires Valid() && Ok(d)
      modifies this, waitingCache
      ensures Valid() && (View(), added) == AddData(old(View()), d, id, always)
      ensures added ==> waitingCache.queue == old(waitingCache.queue) + [Message(if id == "" then name else id, d)]
    {
      if (!somethingAdded || NumRows(d) > 0) || always {
        numRowsAdded := numRowsAdded + NumRows(d);
        numBytesAdded := numBytesAdded + SizeInBytes(d);
        var messageId := if id == "" then name else id;
        waitingCache.Put(Message(messageId, d));
        somethingAdded := true;
        return true;
      }
      return false;
    }

    /** `r` is what the three memory resources report during the call. */
    method AddToCache(t: Table, id: string, always: bool, r: Readings) returns (added: bool)
      requires Valid() && ReadingsOk(r)
      modifies this, waitingCache
      ensures Valid() && (View(), added) == AddTable(old(View()), t, id, always, r)
      ensures waitingCache.queue == old(waitingCache.queue)
              || (waitingCache.queue != [] && waitingCache.queue[|waitingCache.queue| - 1].id == if id == "" then name else id)
    {
      if !somethingAdded || |t| > 0 || always {
        var messageId := if id == "" then name else id;
        numRowsAdded := numRowsAdded + |t|;
        numBytesAdded := numBytesAdded + TableBytes(t);
        PutInFirstTier(t, messageId, r);
        somethingAdded := true;
        AddTableOk(old(View()), t, id, always, r);
        return true;
      }
      return false;
    }

    /** The loop over the tiers. */
    method PutInFirstTier(t: Table, messageId: string, r: Readings)
      requires chunkSize > 0 && ReadingsOk(r)
      modifies waitingCache
      ensures match Tier(override, r, TableBytes(t))
              case None => waitingCache.queue == old(waitingCache.queue)
              case Some(k) => waitingCache.queue == old(waitingCache.queue) + [Message(messageId, StoreIn(k, t, chunkSize))]
    {
      var cacheIndex := 0;
      while cacheIndex < 3
        invariant 0 <= cacheIndex <= 3 && waitingCache.queue == old(waitingCache.queue)
        invariant override != -1 ==> cacheIndex == 0
        invariant forall k :: 0 <= k < cacheIndex ==> r.used[k] + TableBytes(t) >= r.limits[k]
      {
        var memoryToUse := r.used[cacheIndex] + TableBytes(t);
        if memoryToUse < r.limits[cacheIndex] || override != -1 {
          var index: int := cacheIndex;
          if override != -1 {
            index := override;
          }
          PutInTier(index, t, messageId);
          break;
        }
        cacheIndex := cacheIndex + 1;
      }
    }

    /** An index that names no tier stores nothing. */
    method PutInTier(index: int, t: Table, messageId: string)
      requires chunkSize > 0
      modifies waitingCache
      ensures !(0 <= index <= 2) ==> waitingCache.queue == old(waitingCache.queue)
      ensures 0 <= index <= 2 ==>
                waitingCache.queue == old(waitingCache.queue) + [Message(messageId, StoreIn(index, t, chunkSize))]
    {
      if index == 0 {
        waitingCache.Put(Message(messageId, GPU(t)));
      } else if index == 1 {
        waitingCache.Put(Message(messageId, CPU(StoreHost(t, chunkSize))));
      } else if index == 2 {
        waitingCache.Put(Message(messageId, Disk(t)));
      }
    }

    method Put(index: nat, t: Table, r: Readings)
      requires Valid() && ReadingsOk(r)
      modifies this, waitingCache
      ensures Valid() && View() == AddTable(old(View()), t, IndexId(name, index), true, r).0
    {
      var _ := AddToCache(t, name + "_" + ToString(index), true, r);
    }

    /** The message both pulls ask the queue for, once their wait is over. */
    method TakeNext() returns (m: Option<Entry>)
      requires Valid() && Accepted(View(), Pull) && (waitingCache.finished || waitingCache.queue != [])
      modifies this`globalIndex, waitingCache`queue
      ensures Valid() && (View(), m) == Take(old(View())) && (m.Some? ==> Ok(m.value.data))
    {
      if arrayAccess {
        globalIndex := globalIndex + 1;
        m := waitingCache.GetOrWait(name + "_" + ToString(globalIndex));
      } else {
        m := waitingCache.PopOrWait();
      }
    }

    /** pullCacheData; in array access it looks at the message without testing for null, so one must be there. */
    method PullCacheData() returns (d: Option<CacheData>)
      requires Valid() && Accepted(View(), Pull) && (waitingCache.finished || waitingCache.queue != [])
      requires arrayAccess ==> waitingCache.queue != []
      modifies this`globalIndex, waitingCache`queue
      ensures Valid() && View() == Take(old(View())).0
      ensures d == (var e := Take(old(View())).1; if e.None? then None else Some(e.value.data)) && (d.Some? ==> Ok(d.value))
    {
      var m := TakeNext();
      if m.None? { return None; }
      return Some(m.value.data);
    }

    /** pullFromCache; outside array access it looks at the message before testing for null, so one must be there. */
    method PullFromCache() returns (t: Option<Table>)
      requires Valid() && Accepted(View(), Pull) && (waitingCache.finished || waitingCache.queue != [])
      requires !arrayAccess ==> waitingCache.queue != []
      modifies this`globalIndex, waitingCache`queue
      ensures Valid() && View() == Take(old(View())).0
      ensures t == (var e := Take(old(View())).1; if e.None? then None else Some(Decache(e.value.data)))
    {
      var m := TakeNext();
      if m.None? { return None; }
      return Some(Decache(m.value.data));
    }

    /** pullCacheData(message_id). */
    method PullCacheDataById(id: string) returns (d: Option<CacheData>)
      requires Valid() && Answerable(View(), id) && (waitingCache.finished || waitingCache.queue != [])
      modifies waitingCache`queue
      ensures Valid() && View() == TakeId(old(View()), id).0
      ensures d == var e := TakeId(old(View()), id).1; if e.None? then None else Some(e.value.data)
    {
      var m := waitingCache.GetOrWait(id);
      if m.None? { return None; }
      return Some(m.value.data);
    }

    /** The locked part of pullUnorderedFromCache: the first message on the GPU, the others left in order. */
    method TakeGpuMessage() returns (m: Option<Entry>)
      requires Valid()
      modifies waitingCache`queue
      ensures Valid()
      ensures m.None? ==> waitingCache.queue == old(waitingCache.queue)
                          && forall i :: 0 <= i < |old(waitingCache.queue)| ==> !old(waitingCache.queue)[i].data.GPU?
      ensures m.Some? ==> exists i :: FirstGpuAt(old(waitingCache.queue), i) && m.value == old(waitingCache.queue)[i]
                                 && waitingCache.queue == old(waitingCache.queue)[..i] + old(waitingCache.queue)[i + 1..]
    {
      var all := waitingCache.GetAllUnsafe();
      var remaining;
      ghost var at;
      m, remaining, at := SplitFirstGpu(all);
      waitingCache.PutAllUnsafe(remaining);
      assert waitingCache.queue == remaining;
    }

    /** `hostUsed[i]` is what the host resource reports when message i is considered. */
    method DowngradeCacheData(hostUsed: seq<nat>, hostLimit: nat) returns (bytesDowngraded: nat)
      requires Valid() && |hostUsed| == |waitingCache.queue|
      modifies waitingCache`queue
      ensures Valid()
      ensures View() == old(View()).(queue := DowngradeQueue(old(View()).queue, hostUsed, hostLimit, chunkSize))
      ensures bytesDowngraded == GpuBytes(old(waitingCache.queue))
    {
      DowngradeRefines(waitingCache.queue, hostUsed, hostLimit, chunkSize);
      var all := waitingCache.GetAllUnsafe();
      all, bytesDowngraded := DowngradeMessages(all, hostUsed, hostLimit, chunkSize);
      waitingCache.PutAllUnsafe(all);
      assert [] + all == all;
    }

    /** None when some id does not start with the cache's prefix, or stoi throws on the rest. */
    method GetAllIndexes() returns (indexes: Option<seq<nat>>)
      ensures indexes.Some? <==> forall i :: 0 <= i < |waitingCache.queue| ==> IndexOf(name, waitingCache.queue[i].id).Some?
      ensures indexes.Some? ==> |indexes.value| == |waitingCache.queue|
      ensures indexes.Some? ==> forall i :: 0 <= i < |waitingCache.queue| ==> Some(indexes.value[i]) == IndexOf(name, waitingCache.queue[i].id)
    {
      var ids := waitingCache.GetAllMessageIds();
      var found: seq<nat> := [];
      for i := 0 to |ids|
        invariant |found| == i
        invariant forall j :: 0 <= j < i ==> Some(found[j]) == IndexOf(name, waitingCache.queue[j].id)
      {
        var index := IndexOf(name, ids[i]);
        if index.None? { return None; }
        found := found + [index.value];
      }
      return Some(found);
    }
  }

  /** The loop of pullUnorderedFromCache. */
  method SplitFirstGpu(all: seq<Entry>) returns (m: Option<Entry>, remaining: seq<Entry>, ghost at: nat)
    ensures m.None? ==> remaining == all && forall i :: 0 <= i < |all| ==> !all[i].data.GPU?
    ensures m.Some? ==> FirstGpuAt(all, at) && m.value == all[at] && remaining == all[..at] + all[at + 1..]
  {
    m, remaining, at := None, [], 0;
    for i := 0 to |all|
      invariant m.None? ==> remaining == all[..i] && forall j :: 0 <= j < i ==> !all[j].data.GPU?
      invariant m.Some? ==> 0 <= at < i && m.value == all[at] && FirstGpuAt(all, at)
      invariant m.Some? ==> remaining == all[..at] + all[at + 1..i]
    {
      if all[i].data.GPU? && m.None? {
        m, at := Some(all[i]), i;
      } else {
        remaining := remaining + [all[i]];
      }
    }
    assert all[..|all|] == all;
  }

  /** The loop of downgradeCacheData, from the back to the front. */
  method DowngradeMessages(q: seq<Entry>, hostUsed: seq<nat>, hostLimit: nat, chunkSize: nat)
    returns (all: seq<Entry>, bytesDowngraded: nat)
    requires chunkSize > 0 && |hostUsed| == |q|
    ensures all == DowngradeQueue(q, hostUsed, hostLimit, chunkSize) && bytesDowngraded == GpuBytes(q)
  {
    ghost var goal := DowngradeQueue(q, hostUsed, hostLimit, chunkSize);
    ghost var sums := GpuSums(q);
    all, bytesDowngraded := q, 0;
    var i := |all| - 1;
    while i >= 0
      invariant -1 <= i < |q| == |all| == |goal|
      invariant forall j :: 0 <= j <= i ==> all[j] == q[j]
      invariant forall j :: i < j < |q| ==> all[j] == goal[j]
      invariant bytesDowngraded == sums[i + 1]
    {
      var m, bytes := DowngradeMessage(all[i], hostUsed[i], hostLimit, chunkSize);
      bytesDowngraded := bytesDowngraded + bytes;
      all := all[i := m];
      i := i - 1;
    }
  }

  /** The GPU bytes from each position on. */
  lemma {:induction false} GpuSums(q: seq<Entry>) returns (sums: seq<nat>)
    ensures |sums| == |q| + 1 && sums[0] == GpuBytes(q) && sums[|q|] == 0
    ensures forall i :: 0 <= i < |q| ==> sums[i] == GpuPart(q[i]) + sums[i + 1]
  {
    if q == [] {
      sums := [0];
    } else {
      var rest := GpuSums(q[1..]);
      sums := [GpuBytes(q)] + rest;
      assert forall i :: 1 <= i < |q| ==> q[1..][i - 1] == q[i];
    }
  }

  method DowngradeMessage(e: Entry, hostUsed: nat, hostLimit: nat, chunkSize: nat) returns (m: Entry, bytes: nat)
    requires chunkSize > 0
    ensures m == Message(e.id, Downgrade(e.data, hostUsed, hostLimit, chunkSize))
    ensures bytes == GpuPart(e)
  {
    m, bytes := e, 0;
    if e.data.GPU? {
      bytes := SizeInBytes(e.data);
      m := Message(e.id, Downgrade(e.data, hostUsed, hostLimit, chunkSize));
    }
  }

  ghost predicate FirstGpuAt(q: seq<Entry>, i: int)
  {
    0 <= i < |q| && q[i].data.GPU? && forall j :: 0 <= j < i ==> !q[j].data.GPU?
  }

  function GpuBytes(q: seq<Entry>): nat
  {
    if q == [] then 0 else GpuPart(q[0]) + GpuBytes(q[1..])
  }

  /** GPU bytes add up over the messages; a single message has its size if it is on the GPU. */
  lemma {:induction false} GpuBytesAppend(p: seq<Entry>, q: seq<Entry>)
    ensures GpuBytes(p + q) == GpuBytes(p) + GpuBytes(q)
  {
    if p == [] {
      assert p + q == q;
    } else {
      GpuBytesAppend(p[1..], q);
      assert (p + q)[1..] == p[1..] + q && (p + q)[0] == p[0];
    }
  }

  lemma GpuBytesOfOne(e: Entry)
    ensures GpuBytes([e]) == if e.data.GPU? then TableBytes(e.data.table) else 0
  {
    assert [e][1..] == [];
  }

  function GpuPart(e: Entry): nat
  {
    if e.data.GPU? then SizeInBytes(e.data) else 0
  }

  class ConcatenatingCacheMachine {
    const waitingCache: WaitingQueue<CacheData>
    const concatCacheNumBytes: nat
    const concatAll: bool

    constructor (concatCacheNumBytes: nat, concatAll: bool)
      ensures fresh(waitingCache) && waitingCache.queue == []
      ensures this.concatCacheNumBytes == concatCacheNumBytes && this.concatAll == concatAll
    {
      this.concatCacheNumBytes, this.concatAll := concatCacheNumBytes, concatAll;
      waitingCache := new WaitingQueue<CacheData>();
    }

    /** Its caches are not downgraded. */
    method DowngradeCacheData() returns (bytesDowngraded: nat)
      ensures bytesDowngraded == 0
    {
      bytesDowngraded := 0;
    }

    method NextSizeInBytes() returns (n: nat)
      ensures n == NextSize(waitingCache.queue)
    {
      n := if |waitingCache.queue| > 0 then SizeInBytes(waitingCache.queue[0].data) else 0;
    }

    method PopNext() returns (m: Option<Entry>)
      requires concatAll ==> waitingCache.finished
      modifies waitingCache`queue
      ensures old(waitingCache.queue) == [] ==> m == None && waitingCache.queue == []
      ensures old(waitingCache.queue) != [] ==> m.Some? && old(waitingCache.queue) == [m.value] + waitingCache.queue
    {
      var hasNext := waitingCache.HasNextNow();
      if concatAll || hasNext {
        m := waitingCache.PopOrWait();
      } else {
        m := None;
      }
    }

    /** The do-while loop both pulls share. Concatenating everything waits until the queue is finished. */
    method Collect() returns (collected: seq<Entry>)
      requires concatAll ==> waitingCache.finished
      modifies waitingCache`queue
      ensures var n := CollectCount(old(waitingCache.queue), concatCacheNumBytes, concatAll);
              collected == old(waitingCache.queue)[..n] && waitingCache.queue == old(waitingCache.queue)[n..]
    {
      ghost var q, limit, all := waitingCache.queue, concatCacheNumBytes, concatAll;
      collected := [];
      assert q == collected + q;
      var totalBytes: nat, again := 0, true;
      while again
        invariant Collecting(q, limit, all, collected, waitingCache.queue, totalBytes, again)
        decreases again, |waitingCache.queue|
      {
        var m := PopNext();
        if m.None? {
          CollectDone(q, limit, all, collected, totalBytes);
          return;
        }
        CollectStep(q, limit, all, collected, m.value, waitingCache.queue, totalBytes);
        totalBytes := totalBytes + SizeInBytes(m.value.data);
        collected := collected + [m.value];
        var next := NextSizeInBytes();
        again := concatAll || totalBytes + next <= concatCacheNumBytes;
      }
    }

    method PullCacheData() returns (d: Option<CacheData>)
      requires concatAll ==> waitingCache.finished
      modifies waitingCache`queue
      ensures (d, waitingCache.queue) == LazyPull(old(waitingCache.queue), concatCacheNumBytes, concatAll)
    {
      var collected := Collect();
      if |collected| == 0 {
        return None;
      } else if |collected| == 1 {
        return Some(collected[0].data);
      }
      var datas: seq<CacheData> := [];
      for i := 0 to |collected|
        invariant datas == Datas(collected[..i])
      {
        datas := datas + [collected[i].data];
      }
      assert collected[..|collected|] == collected;
      return Some(Concat(datas));
    }

    /** A table that overflows on its own could not have been built, so at least one table is kept. */
    method PullFromCache(overflow: seq<Table> -> bool) returns (t: Option<Table>)
      requires concatAll ==> waitingCache.finished
      requires QueueOk(waitingCache.queue) && forall x: Table :: !overflow([x])
      modifies waitingCache
      ensures (t, waitingCache.queue) == EagerPull(old(waitingCache.queue), concatCacheNumBytes, concatAll, overflow)
    {
      ghost var q := waitingCache.queue;
      var collected := Collect();
      if |collected| == 0 {
        return None;
      } else if |collected| == 1 {
        return Some(Decache(collected[0].data));
      }
      ghost var n, rest := |collected|, waitingCache.queue;
      assert n == CollectCount(q, concatCacheNumBytes, concatAll) && collected == q[..n] && rest == q[n..];
      var tables := DecacheUntilOverflow(collected, overflow);
      t := Some(Flatten(tables));
      assert Tables(collected)[..n] == Tables(collected) && rest + [] == rest;
    }

    method DecacheUntilOverflow(collected: seq<Entry>, overflow: seq<Table> -> bool) returns (tables: seq<Table>)
      requires QueueOk(collected)
      modifies waitingCache
      ensures var all := Tables(collected);
              var j := if concatAll then |all| else Kept(all, overflow, 0);
              && tables == all[..j]
              && waitingCache.queue == old(waitingCache.queue) + (if j == |all| then [] else PutBack(collected, all[j], j))
    {
      ghost var all := Tables(collected);
      tables := [];
      var i := 0;
      while i < |collected|
        invariant 0 <= i <= |collected| && tables == all[..i] && waitingCache.queue == old(waitingCache.queue)
        invariant !concatAll ==> Kept(all, overflow, 0) == Kept(all, overflow, i)
      {
        var t := Decache(collected[i].data);
        tables := tables + [t];
        assert tables == all[..i + 1];
        if !concatAll && overflow(tables) {
          tables := tables[..|tables| - 1];
          PutBackFrom(collected, i, t);
          return;
        }
        i := i + 1;
      }
    }

    /** Each message put back is counted by `processed` a second time. */
    method PutBackFrom(collected: seq<Entry>, i: nat, t: Table)
      requires i < |collected|
      modifies waitingCache
      ensures waitingCache.queue == old(waitingCache.queue) + PutBack(collected, t, i)
      ensures waitingCache.processed == old(waitingCache.processed) + |collected| - i
    {
      var messages := collected[i := Message(collected[i].id, GPU(t))];
      for k := i to |messages|
        invariant waitingCache.queue == old(waitingCache.queue) + messages[i..k]
        invariant waitingCache.processed == old(waitingCache.processed) + k - i
      {
        waitingCache.Put(messages[k]);
      }
      assert messages[i..|messages|] == PutBack(collected, t, i);
    }
  }
}
