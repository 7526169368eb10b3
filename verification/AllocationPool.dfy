/** The chunk allocation pool as the object it is: allocations that own stacks of chunks, chunks
    that point back at their allocation, counters updated in place. Every method is tied to the
    operation of the same name on the whole pool in AllocationPoolModel. */
module AllocationPool {
  import opened Collections
  import opened AllocationPoolModel

  class BlazingAllocation {
    var index: int
    var size: nat
    var total: nat
    var data: nat
    var chunks: seq<Chunk>
    ghost var out: set<nat>

    constructor (index: int, data: nat)
      ensures this.index == index && this.data == data && chunks == [] && out == {}
    {
      this.index, this.data, size, total, chunks, out := index, data, 0, 0, [], {};
    }

    ghost function View(): Alloc
      reads this
    {
      Alloc(index, data, size, total, Addresses(chunks), out)
    }

    ghost predicate OwnsChunks(bytes: nat)
      reads this
    {
      forall i :: 0 <= i < |chunks| ==> chunks[i].allocation == this && chunks[i].size == bytes
    }
  }

  datatype Chunk = Chunk(size: nat, data: nat, allocation: BlazingAllocation)

  ghost function Addresses(chunks: seq<Chunk>): seq<nat>
  {
    seq(|chunks|, i requires 0 <= i < |chunks| => chunks[i].data)
  }

  ghost function Views(s: seq<BlazingAllocation>): seq<Alloc>
    reads s
  {
    seq(|s|, i requires 0 <= i < |s| reads s => s[i].View())
  }

  ghost function End(s: seq<Alloc>): nat
  {
    if s == [] then 1 else Max(s[0].base + s[0].size, End(s[1..]))
  }

  lemma {:induction false} EndIsBeyond(s: seq<Alloc>, i: nat)
    requires i < |s|
    ensures s[i].base + s[i].size <= End(s) && End(s) >= 1
  {
    if i > 0 {
      EndIsBeyond(s[1..], i - 1);
    } else if |s| > 1 {
      EndIsBeyond(s[1..], 0);
    }
  }

  lemma DistinctErase<T>(s: seq<T>, i: nat)
    requires Distinct(s) && i < |s|
    ensures Distinct(s[..i] + s[i + 1..])
  {
    var t := s[..i] + s[i + 1..];
    forall j, k | 0 <= j < k < |t|
      ensures t[j] != t[k]
    {
      assert t[j] == s[if j < i then j else j + 1] && t[k] == s[if k < i then k else k + 1];
    }
  }

  class Pool {
    const bufferSize: nat
    const numBuffers: nat
    var bufferCounter: nat
    var allocationCounter: int
    var allocations: seq<BlazingAllocation>

    ghost function View(): AllocationPoolModel.Pool
      reads this, allocations
    {
      AllocationPoolModel.Pool(bufferSize, numBuffers, bufferCounter, allocationCounter, Views(allocations))
    }

    ghost predicate Linked()
      reads this, allocations
    {
      Distinct(allocations) && forall i :: 0 <= i < |allocations| ==> allocations[i].OwnsChunks(bufferSize)
    }

    ghost predicate Valid()
      reads this, allocations
    {
      Linked() && Reachable(View())
    }

    /** A chunk that a caller may return: one that its allocation has handed out. */
    ghost predicate Holds(c: Chunk)
      reads this, c.allocation
    {
      c.allocation in allocations && c.data in c.allocation.out && c.size == bufferSize
    }

    constructor (bufferSize: nat, numBuffers: nat)
      requires bufferSize > 0
      ensures Valid() && fresh(allocations)
      ensures exists base: nat :: base > 0 && View() == Constructed(bufferSize, numBuffers, base)
    {
      this.bufferSize, this.numBuffers, bufferCounter, allocationCounter, allocations := bufferSize, numBuffers, 0, 0, [];
      new;
      ghost var p := View();
      assert p == AllocationPoolModel.Pool(bufferSize, numBuffers, 0, 0, []);
      ghost var base := Grow();
      ReachableNew(bufferSize, numBuffers, base);
      assert View() == Constructed(bufferSize, numBuffers, base);
    }

    /** A region that is not null and meets no live region. */
    predicate Clear(base: nat, bytes: nat)
      reads this, allocations
    {
      base > 0 && forall i :: 0 <= i < |allocations| ==>
        base + bytes <= allocations[i].data || allocations[i].data + allocations[i].size <= base
    }

    /** The allocator may answer with any such region. */
    method Allocate(bytes: nat) returns (base: nat)
      ensures Clear(base, bytes)
    {
      ghost var end := End(Views(allocations));
      forall i | 0 <= i < |allocations|
        ensures allocations[i].data + allocations[i].size <= end && end > 0
      {
        EndIsBeyond(Views(allocations), i);
      }
      assert Clear(end, bytes);
      base :| Clear(base, bytes);
    }

    method Grow() returns (ghost base: nat)
      requires Linked()
      modifies this`bufferCounter, this`allocations
      ensures Linked() && |allocations| == |old(allocations)| + 1 && allocations[..|old(allocations)|] == old(allocations)
      ensures fresh(allocations[|old(allocations)|])
      ensures Fresh(old(View()), base) && View() == Grown(old(View()), base)
    {
      var n := if bufferCounter == 0 then numBuffers else numBuffers / 2;
      var data := Allocate(n * bufferSize);
      var last := new BlazingAllocation(|allocations|, data);
      allocations := allocations + [last];
      Fill(last, n);
      base := data;
      assert Views(allocations) == old(Views(allocations)) + [last.View()];
    }

    /** Carves the region at last.data into n chunks. */
    method Fill(last: BlazingAllocation, n: nat)
      requires last.chunks == []
      modifies last, this`bufferCounter
      ensures bufferCounter == old(bufferCounter) + n && last.OwnsChunks(bufferSize)
      ensures |last.chunks| == n && forall k :: 0 <= k < n ==> last.chunks[k].data == old(last.data) + k * bufferSize
      ensures last.View() == Alloc(old(last.index), old(last.data), n * bufferSize, n,
                                   Carve(old(last.data), n, bufferSize), old(last.out))
    {
      last.total := n;
      var k := 0;
      while k < n
        invariant 0 <= k <= n && |last.chunks| == k && last.OwnsChunks(bufferSize)
        invariant forall j :: 0 <= j < k ==> last.chunks[j].data == last.data + j * bufferSize
        invariant bufferCounter == old(bufferCounter) + k
        invariant last.index == old(last.index) && last.data == old(last.data) && last.total == n && last.out == old(last.out)
      {
        last.chunks := last.chunks + [Chunk(bufferSize, last.data + k * bufferSize, last)];
        bufferCounter := bufferCounter + 1;
        k := k + 1;
      }
      last.size := n * bufferSize;
      assert last.View().free == Carve(last.data, n, bufferSize);
    }

    method HasFreeChunk() returns (found: bool)
      ensures found <==> FirstFree(View().allocs) < |View().allocs|
    {
      found := false;
      for i := 0 to |allocations|
        invariant found <==> exists j :: 0 <= j < i && allocations[j].chunks != []
      {
        if allocations[i].chunks != [] { found := true; }
      }
      assert forall j :: 0 <= j < |allocations| ==> |View().allocs[j].free| == |allocations[j].chunks|;
    }

    /** None is the exception that get_chunk throws when growing brought no chunk. */
    method GetChunk() returns (chunk: Option<Chunk>, ghost base: nat)
      requires Valid()
      modifies this, allocations
      ensures Valid() && forall i :: 0 <= i < |allocations| ==> allocations[i] in old(allocations) || fresh(allocations[i])
      ensures forall al :: al in old(allocations) ==> al in allocations && old(al.out) <= al.out
      ensures Answers(old(View()), base) && View() == Got(old(View()), base).0
      ensures chunk.Some? <==> Got(old(View()), base).1.Some?
      ensures chunk.None? <==> FirstFree(old(View()).allocs) == |old(View()).allocs| && Growth(old(View())) == 0
      ensures chunk.Some? ==> Got(old(View()), base).1.value == chunk.value.data && Holds(chunk.value)
      ensures Out(View()) == Out(old(View())) + (if chunk.Some? then {chunk.value.data} else {})
      ensures chunk.Some? ==> chunk.value.data !in Out(old(View()))
    {
      ghost var p := View();
      base := MakeRoom();
      GotReachable(p, base);
      chunk := TakeFirst();
    }

    /** Grows when no allocation has a free chunk. */
    method MakeRoom() returns (ghost base: nat)
      requires Linked()
      modifies this`bufferCounter, this`allocations
      ensures Linked() && Answers(old(View()), base)
      ensures forall i :: 0 <= i < |allocations| ==> allocations[i] in old(allocations) || fresh(allocations[i])
      ensures forall al :: al in old(allocations) ==> al in allocations
      ensures View() == if FirstFree(old(View()).allocs) == |old(View()).allocs| then Grown(old(View()), base) else old(View())
    {
      var found := HasFreeChunk();
      base := 0;
      if !found {
        base := Grow();
        assert forall i :: 0 <= i < |old(allocations)| ==> allocations[i] == old(allocations)[i];
      }
    }

    method TakeFirst() returns (chunk: Option<Chunk>)
      requires Linked()
      modifies this`allocationCounter, allocations
      ensures Linked() && allocations == old(allocations)
      ensures forall al :: al in allocations ==> old(al.out) <= al.out
      ensures View() == Taken(old(View())).0
      ensures chunk.Some? <==> Taken(old(View())).1.Some?
      ensures chunk.Some? ==> Taken(old(View())).1.value == chunk.value.data && Holds(chunk.value)
    {
      ghost var p := View();
      ghost var first := FirstFree(p.allocs);
      assert forall j :: 0 <= j < |allocations| ==> |p.allocs[j].free| == |allocations[j].chunks|;
      var i := 0;
      while i < |allocations|
        invariant 0 <= i <= first
      {
        if allocations[i].chunks != [] {
          break;
        }
        i := i + 1;
      }
      if i == |allocations| {
        return None;
      }
      allocationCounter := allocationCounter + 1;
      var top := Pop(allocations[i], i);
      return Some(top);
    }

    /** Pops the top chunk of allocation `al`, which stands at position i. */
    method Pop(al: BlazingAllocation, ghost i: nat) returns (top: Chunk)
      requires Linked() && i < |allocations| && allocations[i] == al && al.chunks != []
      modifies al
      ensures Linked() && Holds(top) && al.out == old(al.out) + {top.data}
      ensures var v := old(Views(allocations))[i];
              && top.data == v.free[|v.free| - 1]
              && Views(allocations)
                 == old(Views(allocations))[i := v.(free := v.free[..|v.free| - 1], out := v.out + {top.data})]
    {
      ghost var v := al.View();
      var n := |al.chunks| - 1;
      top := al.chunks[n];
      al.chunks := al.chunks[..n];
      al.out := al.out + {top.data};
      assert al.View() == v.(free := v.free[..n], out := v.out + {top.data});
      assert forall j :: 0 <= j < |allocations| && j != i ==> unchanged(allocations[j]);
    }

    method FreeChunk(chunk: Chunk)
      requires Valid() && Holds(chunk)
      modifies this`allocations, this`allocationCounter, allocations
      ensures Valid() && forall i :: 0 <= i < |allocations| ==> allocations[i] in old(allocations)
      ensures forall al :: al in old(allocations) ==> al in allocations || al.out == {}
      ensures forall al :: al in old(allocations) ==> al.out == old(al.out) - (if al == chunk.allocation then {chunk.data} else {})
      ensures 0 <= old(chunk.allocation.index) < |old(allocations)|
              && old(allocations)[old(chunk.allocation.index)] == chunk.allocation
      ensures View() == Freed(old(View()), old(chunk.allocation.index), chunk.data)
      ensures Out(View()) == Out(old(View())) - {chunk.data}
    {
      ghost var p := View();
      ghost var i :| 0 <= i < |allocations| && allocations[i] == chunk.allocation;
      FreedReachable(p, i, chunk.data);
      Return(chunk);
      allocationCounter := allocationCounter - 1;
      assert View() == Freed(p, i, chunk.data);
    }

    /** Pushes the chunk back on its allocation's stack and erases the allocation once all its chunks are back. */
    method Return(chunk: Chunk)
      requires Linked() && Holds(chunk) && chunk.allocation.data > 0
      requires |chunk.allocation.chunks| + |chunk.allocation.out| == chunk.allocation.total
      requires 0 <= chunk.allocation.index < |allocations| && allocations[chunk.allocation.index] == chunk.allocation
      modifies this`allocations, allocations
      ensures Linked() && forall i :: 0 <= i < |allocations| ==> allocations[i] in old(allocations)
      ensures forall al :: al in old(allocations) ==> al in allocations || al.out == {}
      ensures forall al :: al in old(allocations) ==> al.out == old(al.out) - (if al == chunk.allocation then {chunk.data} else {})
      ensures Views(allocations) == Freed(old(View()), old(chunk.allocation.index), chunk.data).allocs
    {
      ghost var p := View();
      var idx := chunk.allocation.index;
      assert p.allocs[idx] == chunk.allocation.View() && |p.allocs[idx].free| == |chunk.allocation.chunks|;
      PushBack(chunk, idx);
      ghost var pushed := Views(allocations);
      assert pushed[..idx] == p.allocs[..idx] && pushed[idx + 1..] == p.allocs[idx + 1..];
      if idx > 0 && allocations[idx].total == |allocations[idx].chunks| && allocations[idx].data != 0 {
        assert p.allocs[idx].total == |p.allocs[idx].free| + 1;
        assert |chunk.allocation.out| == 0;
        EraseAt(idx);
      } else {
        assert idx == 0 || p.allocs[idx].total != |p.allocs[idx].free| + 1;
      }
    }

    method PushBack(chunk: Chunk, ghost idx: nat)
      requires Linked() && Holds(chunk) && idx < |allocations| && allocations[idx] == chunk.allocation
      modifies chunk.allocation
      ensures Linked() && chunk.allocation.chunks == old(chunk.allocation.chunks) + [chunk]
      ensures chunk.allocation.total == old(chunk.allocation.total) && chunk.allocation.data == old(chunk.allocation.data)
      ensures chunk.allocation.out == old(chunk.allocation.out) - {chunk.data}
      ensures var v := old(Views(allocations))[idx];
              Views(allocations) == old(Views(allocations))[idx := v.(free := v.free + [chunk.data], out := v.out - {chunk.data})]
    {
      var al := chunk.allocation;
      ghost var v := al.View();
      al.chunks := al.chunks + [chunk];
      al.out := al.out - {chunk.data};
      assert al.View() == v.(free := v.free + [chunk.data], out := v.out - {chunk.data});
      assert forall j :: 0 <= j < |allocations| && j != idx ==> unchanged(allocations[j]);
    }

    method EraseAt(idx: nat)
      requires idx < |allocations| && Linked()
      modifies this`allocations, allocations`index
      ensures Linked() && allocations == old(allocations)[..idx] + old(allocations)[idx + 1..]
      ensures Views(allocations) == old(Views(allocations))[..idx] + Renumbered(old(Views(allocations))[idx + 1..])
    {
      DistinctErase(allocations, idx);
      ghost var was := Views(allocations);
      allocations := allocations[..idx] + allocations[idx + 1..];
      var i, rest := idx, allocations;
      while i < |allocations|
        invariant idx <= i <= |allocations| && allocations == rest
        invariant forall j :: 0 <= j < |rest| ==> rest[j].index == old(rest[j].index) - (if idx <= j < i then 1 else 0)
        modifies allocations`index
      {
        allocations[i].index := allocations[i].index - 1;
        i := i + 1;
      }
      forall j | 0 <= j < |rest|
        ensures rest[j].View() == (was[..idx] + Renumbered(was[idx + 1..]))[j]
      {
        assert rest[j] == old(allocations)[if j < idx then j else j + 1];
      }
    }

    /** Drops every allocation, under its holders too: afterwards nothing counts as out (see FreeAllIsSafe). */
    method FreeAll()
      requires Valid()
      modifies this`allocations, this`bufferCounter, this`allocationCounter, allocations
      ensures Valid() && View() == AllFreed(old(View())) && Out(View()) == {}
    {
      ghost var p := View();
      AllFreedReachable(p);
      if bufferCounter > 0 {
        bufferCounter := 0;
        for i := 0 to |allocations|
          invariant allocations == old(allocations) && bufferCounter == 0
          modifies allocations
        {
          allocations[i].chunks := [];
        }
        allocations := [];
        allocationCounter := 0;
        assert Views(allocations) == [];
      }
      assert View() == AllFreed(p);
    }
  }
}
