/** Host tables: buffers packed into chunks taken from the pool, copied into memory through the
    slices, copied back, and the chunks returned. Memory is one array of bytes; a chunk is the
    `size` bytes at its address. */
module HostTable {
  import opened Collections
  import opened AllocationPoolModel
  import opened AllocationPool
  import opened Packing
  import opened HostMemory

  // ---------------------------------------------------------------- taking chunks

  ghost function DataOf(chunks: seq<Chunk>): set<nat>
  {
    set i | 0 <= i < |chunks| :: chunks[i].data
  }

  /** These chunks are all different and are what is out on top of what was out before. */
  ghost predicate OnTop(chunks: seq<Chunk>, was: set<nat>, out: set<nat>)
  {
    Distinct(Addresses(chunks)) && DataOf(chunks) !! was && out == was + DataOf(chunks)
  }

  lemma OnTopExtends(chunks: seq<Chunk>, c: Chunk, was: set<nat>, out: set<nat>)
    requires OnTop(chunks, was, out) && c.data !in out
    ensures OnTop(chunks + [c], was, out + {c.data})
  {
    var all := chunks + [c];
    assert forall i :: 0 <= i < |chunks| ==> all[i] == chunks[i] && chunks[i].data in DataOf(chunks);
    assert all[|chunks|] == c;
    assert DataOf(all) == DataOf(chunks) + {c.data};
    assert Addresses(all) == Addresses(chunks) + [c.data];
    assert forall i :: 0 <= i < |chunks| ==> Addresses(chunks)[i] != c.data;
  }

  ghost predicate AllHeld(pool: AllocationPool.Pool, chunks: seq<Chunk>)
    reads pool, set c | c in chunks :: c.allocation
  {
    forall i :: 0 <= i < |chunks| ==> pool.Holds(chunks[i])
  }

  method TakeChunk(pool: AllocationPool.Pool, chunks: seq<Chunk>, ghost was: set<nat>) returns (c: Option<Chunk>)
    requires pool.Valid() && AllHeld(pool, chunks) && OnTop(chunks, was, Out(pool.View()))
    modifies pool, pool.allocations
    ensures pool.Valid() && forall i :: 0 <= i < |pool.allocations| ==> pool.allocations[i] in old(pool.allocations) || fresh(pool.allocations[i])
    ensures pool.numBuffers >= 2 ==> c.Some?
    ensures c.Some? ==> c.value.size == pool.bufferSize
    ensures c.Some? ==> AllHeld(pool, chunks + [c.value])
    ensures c.Some? ==> OnTop(chunks + [c.value], was, Out(pool.View()))
  {
    ghost var out := Out(pool.View());
    ghost var base;
    c, base := pool.GetChunk();
    if c.Some? {
      OnTopExtends(chunks, c.value, was, out);
    }
  }

  /** Where packing stands: the chunks already full, the one being filled, and how far it is filled.
      A chunk is begun only to put a byte into it. */
  datatype Cursor = Cursor(full: seq<Chunk>, current: Chunk, position: nat)

  ghost predicate At(cur: Cursor, flat: nat, size: nat)
  {
    && cur.current.size == size
    && cur.position <= size
    && flat == |cur.full| * size + cur.position
    && (cur.position == 0 ==> cur.full == [])
  }

  /** The next slice: the rest of the buffer if it fits in the current chunk, else the rest of the chunk. */
  method Place(cur: Cursor, len: nat, ghost flat: nat, ghost size: nat) returns (s: Slice)
    requires cur.current.size == size > cur.position && flat == |cur.full| * size + cur.position && len > 0
    ensures s.chunk == |cur.full| && s.offset == cur.position && 0 < s.size <= len
    ensures Cut(flat, len, size) == [s] + Cut(flat + s.size, len - s.size, size)
    ensures At(cur.(position := cur.position + s.size), flat + s.size, size)
  {
    DivMod(|cur.full|, cur.position, size);
    if len <= cur.current.size - cur.position {
      s := Slice(|cur.full|, cur.position, len);
    } else {
      s := Slice(|cur.full|, cur.position, cur.current.size - cur.position);
    }
  }

  /** Moves on to a new chunk when the current one is full. */
  method RollOver(pool: AllocationPool.Pool, from: Cursor, ghost flat: nat, ghost was: set<nat>) returns (cur: Option<Cursor>)
    requires pool.Valid() && pool.bufferSize > 0 && At(from, flat, pool.bufferSize)
    requires AllHeld(pool, from.full + [from.current]) && OnTop(from.full + [from.current], was, Out(pool.View()))
    modifies pool, pool.allocations
    ensures pool.Valid() && forall i :: 0 <= i < |pool.allocations| ==> pool.allocations[i] in old(pool.allocations) || fresh(pool.allocations[i])
    ensures pool.numBuffers >= 2 ==> cur.Some?
    ensures cur.Some? ==> cur.value.current.size == pool.bufferSize > cur.value.position
    ensures cur.Some? ==> flat == |cur.value.full| * pool.bufferSize + cur.value.position
    ensures cur.Some? ==> AllHeld(pool, cur.value.full + [cur.value.current])
    ensures cur.Some? ==> OnTop(cur.value.full + [cur.value.current], was, Out(pool.View()))
  {
    if from.position == from.current.size {
      var full := from.full + [from.current];
      assert |full| * pool.bufferSize == |from.full| * pool.bufferSize + pool.bufferSize;
      var c := TakeChunk(pool, full, was);
      return if c.None? then None else Some(Cursor(full, c.value, 0));
    }
    return Some(from);
  }

  /** `slices` are the first of the slices in `goal`, up to a flat position where `len` bytes are left. */
  ghost predicate Sliced(slices: seq<Slice>, goal: seq<Slice>, flat: nat, len: nat, size: nat)
    requires size > 0
  {
    slices + Cut(flat, len, size) == goal
  }

  /** One turn of the inner loop: one slice of a buffer of which `len` bytes are left. */
  method PackSlice(pool: AllocationPool.Pool, from: Cursor, len: nat, ghost flat: nat, ghost was: set<nat>,
                   ghost slices: seq<Slice>, ghost goal: seq<Slice>)
    returns (r: Option<(Slice, Cursor)>)
    requires pool.Valid() && pool.bufferSize > 0 && At(from, flat, pool.bufferSize) && len > 0
    requires Sliced(slices, goal, flat, len, pool.bufferSize)
    requires AllHeld(pool, from.full + [from.current]) && OnTop(from.full + [from.current], was, Out(pool.View()))
    modifies pool, pool.allocations
    ensures pool.Valid() && forall i :: 0 <= i < |pool.allocations| ==> pool.allocations[i] in old(pool.allocations) || fresh(pool.allocations[i])
    ensures pool.numBuffers >= 2 ==> r.Some?
    ensures r.Some? ==> 0 < r.value.0.size <= len && At(r.value.1, flat + r.value.0.size, pool.bufferSize)
    ensures r.Some? ==> Sliced(slices + [r.value.0], goal, flat + r.value.0.size, len - r.value.0.size, pool.bufferSize)
    ensures r.Some? ==> AllHeld(pool, r.value.1.full + [r.value.1.current])
    ensures r.Some? ==> OnTop(r.value.1.full + [r.value.1.current], was, Out(pool.View()))
  {
    var room := RollOver(pool, from, flat, was);
    if room.None? { return None; }
    var s := Place(room.value, len, flat, pool.bufferSize);
    Regroup(slices, [s], Cut(flat + s.size, len - s.size, pool.bufferSize));
    return Some((s, room.value.(position := room.value.position + s.size)));
  }

  lemma SlicedEnds(goal: seq<Slice>, slices: seq<Slice>, start: nat, len: nat, size: nat)
    requires size > 0 && goal == Cut(start, len, size)
    ensures Sliced([], goal, start, len, size)
    ensures Sliced(slices, goal, start + len, 0, size) ==> slices == goal
  {
    assert [] + goal == goal && slices + [] == slices;
  }

  /** The inner loop: one buffer. */
  method PackBuffer(pool: AllocationPool.Pool, from: Cursor, useSize: nat, ghost start: nat, ghost was: set<nat>)
    returns (r: Option<(seq<Slice>, Cursor)>)
    requires pool.Valid() && pool.bufferSize > 0 && At(from, start, pool.bufferSize)
    requires AllHeld(pool, from.full + [from.current]) && OnTop(from.full + [from.current], was, Out(pool.View()))
    modifies pool, pool.allocations
    ensures pool.Valid() && forall i :: 0 <= i < |pool.allocations| ==> pool.allocations[i] in old(pool.allocations) || fresh(pool.allocations[i])
    ensures pool.numBuffers >= 2 ==> r.Some?
    ensures r.Some? ==> r.value.0 == Cut(start, useSize, pool.bufferSize) && At(r.value.1, start + useSize, pool.bufferSize)
    ensures r.Some? ==> AllHeld(pool, r.value.1.full + [r.value.1.current])
    ensures r.Some? ==> OnTop(r.value.1.full + [r.value.1.current], was, Out(pool.View()))
  {
    ghost var size, goal := pool.bufferSize, Cut(start, useSize, pool.bufferSize);
    var slices: seq<Slice>, bufferPosition, cur := [], 0, from;
    SlicedEnds(goal, slices, start, useSize, size);
    while bufferPosition < useSize
      invariant bufferPosition <= useSize && At(cur, start + bufferPosition, size)
      invariant Sliced(slices, goal, start + bufferPosition, useSize - bufferPosition, size)
      invariant pool.Valid()
      invariant forall i :: 0 <= i < |pool.allocations| ==> pool.allocations[i] in old(pool.allocations) || fresh(pool.allocations[i])
      invariant AllHeld(pool, cur.full + [cur.current]) && OnTop(cur.full + [cur.current], was, Out(pool.View()))
      decreases useSize - bufferPosition
    {
      var next := PackSlice(pool, cur, useSize - bufferPosition, start + bufferPosition, was, slices, goal);
      if next.None? { return None; }
      slices := slices + [next.value.0];
      bufferPosition := bufferPosition + next.value.0.size;
      cur := next.value.1;
    }
    SlicedEnds(goal, slices, start, useSize, size);
    return Some((slices, cur));
  }

  /** convert_gpu_buffers_to_chunks. None is the exception of the pool. */
  method ConvertGpuBuffersToChunks(pool: AllocationPool.Pool, sizes: seq<nat>)
    returns (r: Option<(seq<ColumnInfo>, seq<Chunk>)>)
    requires pool.Valid() && pool.bufferSize > 0
    modifies pool, pool.allocations
    ensures pool.Valid()
    ensures pool.numBuffers >= 2 ==> r.Some?
    ensures r.Some? ==> r.value.0 == Layout(sizes, 0, pool.bufferSize)
    ensures r.Some? ==> |r.value.1| == ChunksNeeded(Sum(sizes), pool.bufferSize)
    ensures r.Some? ==> AllHeld(pool, r.value.1) && OnTop(r.value.1, Out(old(pool.View())), Out(pool.View()))
  {
    var size := pool.bufferSize;
    ghost var was := Out(pool.View());
    var infos: seq<ColumnInfo> := [];
    var c := TakeChunk(pool, [], was);
    if c.None? { return None; }
    var bufferIndex, cur := 0, Cursor([], c.value, 0);
    while bufferIndex < |sizes|
      invariant 0 <= bufferIndex <= |sizes| && At(cur, Sum(sizes[..bufferIndex]), size)
      invariant infos == Layout(sizes[..bufferIndex], 0, size)
      invariant pool.Valid()
      invariant forall i :: 0 <= i < |pool.allocations| ==> pool.allocations[i] in old(pool.allocations) || fresh(pool.allocations[i])
      invariant AllHeld(pool, cur.full + [cur.current]) && OnTop(cur.full + [cur.current], was, Out(pool.View()))
    {
      var packed := PackBuffer(pool, cur, sizes[bufferIndex], Sum(sizes[..bufferIndex]), was);
      if packed.None? { return None; }
      LayoutNext(sizes, bufferIndex, size);
      cur := packed.value.1;
      infos := infos + [ColumnInfo(packed.value.0, sizes[bufferIndex])];
      bufferIndex := bufferIndex + 1;
    }
    assert sizes[..|sizes|] == sizes;
    CursorCount(cur, Sum(sizes), size);
    return Some((infos, cur.full + [cur.current]));
  }

  lemma LayoutNext(sizes: seq<nat>, i: nat, size: nat)
    requires i < |sizes| && size > 0
    ensures Sum(sizes[..i + 1]) == Sum(sizes[..i]) + sizes[i]
    ensures Layout(sizes[..i + 1], 0, size)
         == Layout(sizes[..i], 0, size) + [ColumnInfo(Cut(Sum(sizes[..i]), sizes[i], size), sizes[i])]
  {
    assert sizes[..i + 1] == sizes[..i] + [sizes[i]];
    SumAppend(sizes[..i], [sizes[i]]);
    LayoutAppend(sizes[..i], sizes[i], 0, size);
  }

  lemma CursorCount(cur: Cursor, total: nat, size: nat)
    requires size > 0 && At(cur, total, size)
    ensures |cur.full| + 1 == ChunksNeeded(total, size)
  {
    var k := |cur.full|;
    assert (k + 1) * size == k * size + size;
    if total > 0 {
      ChunkCount(total, size, k + 1);
    } else {
      assert k > 0 ==> k * size >= size;
    }
  }

  // ---------------------------------------------------------------- copying

  method Memcpy(memory: array<byte>, at: nat, data: seq<byte>)
    requires at + |data| <= memory.Length
    modifies memory
    ensures memory[..] == Patch(old(memory[..]), at, data)
  {
    forall i | 0 <= i < |data| {
      memory[at + i] := data[i];
    }
  }

  /** The copy loops of serialize_gpu_message_to_host_table. */
  method CopyIn(memory: array<byte>, chunks: seq<Chunk>, infos: seq<ColumnInfo>, buffers: seq<seq<byte>>, ghost size: nat)
    requires InMemory(Addresses(chunks), size, memory.Length) && AllFit(infos, |chunks|, size) && |infos| == |buffers|
    requires forall b :: 0 <= b < |infos| ==> infos[b].useSize == |buffers[b]|
    modifies memory
    ensures memory[..] == StoreAll(old(memory[..]), Addresses(chunks), infos, buffers, size)
  {
    ghost var addrs, goal := Addresses(chunks), StoreAll(memory[..], Addresses(chunks), infos, buffers, size);
    var b := 0;
    while b < |infos|
      invariant 0 <= b <= |infos|
      invariant StoreAll(memory[..], addrs, infos[b..], buffers[b..], size) == goal
    {
      ghost var mem := memory[..];
      assert infos[b..][1..] == infos[b + 1..] && buffers[b..][1..] == buffers[b + 1..];
      CopyBufferIn(memory, chunks, infos[b].slices, buffers[b], size);
      b := b + 1;
    }
  }

  method CopyBufferIn(memory: array<byte>, chunks: seq<Chunk>, slices: seq<Slice>, data: seq<byte>, ghost size: nat)
    requires InMemory(Addresses(chunks), size, memory.Length) && Fits(slices, |chunks|, size) && Sum(Sizes(slices)) == |data|
    modifies memory
    ensures memory[..] == Store(old(memory[..]), Addresses(chunks), slices, data, size)
  {
    ghost var addrs, goal := Addresses(chunks), Store(memory[..], Addresses(chunks), slices, data, size);
    var i, position := 0, 0;
    assert slices[0..] == slices && data[0..] == data;
    while i < |slices|
      invariant 0 <= i <= |slices| && 0 <= position <= |data| && Fits(slices[i..], |chunks|, size)
      invariant Sum(Sizes(slices[i..])) == |data| - position
      invariant Store(memory[..], addrs, slices[i..], data[position..], size) == goal
    {
      var s := slices[i];
      SlicesFrom(slices, i, |chunks|, size);
      var piece := data[position..position + s.size];
      StoreFrom(memory[..], addrs, slices, i, data, position, size);
      Memcpy(memory, chunks[s.chunk].data + s.offset, piece);
      position := position + s.size;
      i := i + 1;
    }
  }

  lemma StoreFrom(mem: seq<byte>, addrs: seq<nat>, slices: seq<Slice>, i: nat, data: seq<byte>, position: nat, size: nat)
    requires InMemory(addrs, size, |mem|) && i < |slices| && Fits(slices[i..], |addrs|, size)
    requires position <= |data| && Sum(Sizes(slices[i..])) == |data| - position
    ensures Fits(slices[i + 1..], |addrs|, size) && slices[i].chunk < |addrs| && slices[i].offset + slices[i].size <= size
    ensures position + slices[i].size <= |data| && Sum(Sizes(slices[i + 1..])) == |data| - position - slices[i].size
    ensures Store(mem, addrs, slices[i..], data[position..], size)
         == Store(Patch(mem, addrs[slices[i].chunk] + slices[i].offset, data[position..position + slices[i].size]),
                  addrs, slices[i + 1..], data[position + slices[i].size..], size)
  {
    SlicesFrom(slices, i, |addrs|, size);
    var s, tail := slices[i], slices[i..];
    assert tail[0] == s && tail[1..] == slices[i + 1..];
    assert data[position..][..s.size] == data[position..position + s.size];
    assert data[position..][s.size..] == data[position + s.size..];
  }

  /** The copy loops of get_gpu_table. */
  method GetGpuTable(memory: array<byte>, chunks: seq<Chunk>, infos: seq<ColumnInfo>, ghost size: nat) returns (buffers: seq<seq<byte>>)
    requires InMemory(Addresses(chunks), size, memory.Length) && AllFit(infos, |chunks|, size)
    ensures buffers == FetchAll(memory[..], Addresses(chunks), infos, size)
  {
    ghost var addrs, mem := Addresses(chunks), memory[..];
    buffers := [];
    var b := 0;
    while b < |infos|
      invariant 0 <= b <= |infos| && |buffers| == b
      invariant buffers + FetchAll(mem, addrs, infos[b..], size) == FetchAll(mem, addrs, infos, size)
    {
      assert infos[b..][1..] == infos[b + 1..];
      var buffer := GetGpuBuffer(memory[..], chunks, infos[b], size);
      ghost var rest := FetchAll(mem, addrs, infos[b + 1..], size);
      assert buffers + ([buffer] + rest) == buffers + [buffer] + rest;
      buffers := buffers + [buffer];
      b := b + 1;
    }
  }

  method GetGpuBuffer(mem: seq<byte>, chunks: seq<Chunk>, info: ColumnInfo, ghost size: nat) returns (buffer: seq<byte>)
    requires InMemory(Addresses(chunks), size, |mem|)
    requires Fits(info.slices, |chunks|, size) && Sum(Sizes(info.slices)) == info.useSize
    ensures buffer == Fetch(mem, Addresses(chunks), info.slices, size)
  {
    ghost var addrs := Addresses(chunks);
    var slices := info.slices;
    buffer := seq(info.useSize, i => 0);
    var i, position := 0, 0;
    while i < |slices|
      invariant 0 <= i <= |slices| && 0 <= position <= info.useSize == |buffer|
      invariant position == Sum(Sizes(slices[..i]))
      invariant Fits(slices[..i], |chunks|, size) && buffer[..position] == Fetch(mem, addrs, slices[..i], size)
    {
      var s := slices[i];
      FetchNext(mem, addrs, slices, i, size);
      var at := chunks[s.chunk].data + s.offset;
      PatchPrefix(buffer, position, mem[at..at + s.size]);
      buffer := Patch(buffer, position, mem[at..at + s.size]);
      position := position + s.size;
      i := i + 1;
    }
    assert slices[..|slices|] == slices && buffer[..|buffer|] == buffer;
  }

  ghost function PieceAt(mem: seq<byte>, addrs: seq<nat>, s: Slice, size: nat): seq<byte>
    requires InMemory(addrs, size, |mem|) && s.chunk < |addrs| && s.offset + s.size <= size
  {
    var at := addrs[s.chunk] + s.offset;
    mem[at..at + s.size]
  }

  lemma FetchCons(mem: seq<byte>, addrs: seq<nat>, slices: seq<Slice>, size: nat)
    requires InMemory(addrs, size, |mem|) && slices != [] && Fits(slices, |addrs|, size)
    ensures Fetch(mem, addrs, slices, size) == PieceAt(mem, addrs, slices[0], size) + Fetch(mem, addrs, slices[1..], size)
  {
  }

  lemma {:induction false} FetchSnoc(mem: seq<byte>, addrs: seq<nat>, slices: seq<Slice>, s: Slice, size: nat)
    requires InMemory(addrs, size, |mem|) && Fits(slices, |addrs|, size)
    requires s.chunk < |addrs| && s.offset + s.size <= size && s.size > 0
    ensures Fits(slices + [s], |addrs|, size)
    ensures Fetch(mem, addrs, slices + [s], size) == Fetch(mem, addrs, slices, size) + PieceAt(mem, addrs, s, size)
    decreases |slices|
  {
    var all := slices + [s];
    if slices == [] {
      assert all == [s] && all[1..] == [];
      FetchCons(mem, addrs, all, size);
    } else {
      var tail := slices[1..];
      FetchSnoc(mem, addrs, tail, s, size);
      assert all[1..] == tail + [s];
      FetchCons(mem, addrs, all, size);
      FetchCons(mem, addrs, slices, size);
      Regroup(PieceAt(mem, addrs, slices[0], size), Fetch(mem, addrs, tail, size), PieceAt(mem, addrs, s, size));
    }
  }

  lemma FetchNext(mem: seq<byte>, addrs: seq<nat>, slices: seq<Slice>, i: nat, size: nat)
    requires InMemory(addrs, size, |mem|) && i < |slices| && Fits(slices, |addrs|, size)
    ensures Fits(slices[..i], |addrs|, size) && Fits(slices[..i + 1], |addrs|, size)
    ensures Sum(Sizes(slices[..i + 1])) == Sum(Sizes(slices[..i])) + slices[i].size <= Sum(Sizes(slices))
    ensures var at := addrs[slices[i].chunk] + slices[i].offset;
            Fetch(mem, addrs, slices[..i + 1], size) == Fetch(mem, addrs, slices[..i], size) + mem[at..at + slices[i].size]
  {
    FetchSnoc(mem, addrs, slices[..i], slices[i], size);
    assert slices[..i + 1] == slices[..i] + [slices[i]];
    SizesSplit(slices, i);
    SizesSplit(slices, i + 1);
    assert Sizes(slices[..i + 1]) == Sizes(slices[..i]) + [slices[i].size];
    SumAppend(Sizes(slices[..i]), [slices[i].size]);
  }

  lemma SizesSplit(slices: seq<Slice>, i: nat)
    requires i <= |slices|
    ensures Sum(Sizes(slices)) == Sum(Sizes(slices[..i])) + Sum(Sizes(slices[i..]))
  {
    assert Sizes(slices) == Sizes(slices[..i]) + Sizes(slices[i..]);
    SumAppend(Sizes(slices[..i]), Sizes(slices[i..]));
  }

  lemma PatchPrefix<T>(s: seq<T>, p: nat, d: seq<T>)
    requires p + |d| <= |s|
    ensures Patch(s, p, d)[..p + |d|] == s[..p] + d
  {
  }

  // ---------------------------------------------------------------- a whole table

  /** The chunks just taken make a host table for these buffers, apart from every chunk that was out before. */
  lemma TakenTable(p: AllocationPoolModel.Pool, chunks: seq<Chunk>, infos: seq<ColumnInfo>, buffers: seq<seq<byte>>, was: set<nat>)
    requires Inv(p) && OnTop(chunks, was, Out(p)) && |chunks| == ChunksNeeded(Sum(Lengths(buffers)), p.chunkSize)
    requires infos == Layout(Lengths(buffers), 0, p.chunkSize)
    ensures Table(p, Addresses(chunks), infos, buffers)
    ensures forall a :: a in was ==> AwayFrom(a, Addresses(chunks), p.chunkSize)
  {
    var addrs := Addresses(chunks);
    forall c | 0 <= c < |addrs|
      ensures addrs[c] in Out(p) && addrs[c] !in was
    {
      assert chunks[c].data in DataOf(chunks);
    }
    forall a, c | a in was && 0 <= c < |addrs|
      ensures Spaced(a, addrs[c], p.chunkSize)
    {
      HeldApart(p, a, addrs[c]);
    }
  }

  /** Two states of memory agree on the chunks at these addresses. */
  ghost predicate Kept(mem: seq<byte>, mem': seq<byte>, addrs: set<nat>, size: nat)
  {
    |mem'| == |mem| && forall a :: a in addrs && a + size <= |mem| ==> mem'[a..a + size] == mem[a..a + size]
  }

  /** Copying the buffers in makes them what get_gpu_table copies out, and keeps what was out before. */
  lemma CopiedTable(p: AllocationPoolModel.Pool, mem: seq<byte>, chunks: seq<Chunk>, infos: seq<ColumnInfo>, buffers: seq<seq<byte>>, was: set<nat>)
    requires Inv(p) && OnTop(chunks, was, Out(p)) && |chunks| == ChunksNeeded(Sum(Lengths(buffers)), p.chunkSize)
    requires infos == Layout(Lengths(buffers), 0, p.chunkSize) && InMemory(Addresses(chunks), p.chunkSize, |mem|)
    ensures |infos| == |buffers| && AllFit(infos, |chunks|, p.chunkSize)
    ensures forall b :: 0 <= b < |infos| ==> infos[b].useSize == |buffers[b]|
    ensures var mem' := StoreAll(mem, Addresses(chunks), infos, buffers, p.chunkSize);
            FetchAll(mem', Addresses(chunks), infos, p.chunkSize) == buffers && Kept(mem, mem', was, p.chunkSize)
  {
    TakenTable(p, chunks, infos, buffers, was);
    TableRoundTrip(p, mem, Addresses(chunks), infos, buffers);
    OthersKept(mem, Addresses(chunks), infos, buffers, was, p.chunkSize);
  }

  lemma OthersKept(mem: seq<byte>, addrs: seq<nat>, infos: seq<ColumnInfo>, buffers: seq<seq<byte>>, was: set<nat>, size: nat)
    requires InMemory(addrs, size, |mem|) && AllFit(infos, |addrs|, size) && |infos| == |buffers|
    requires forall b :: 0 <= b < |infos| ==> infos[b].useSize == |buffers[b]|
    requires forall a :: a in was ==> AwayFrom(a, addrs, size)
    ensures Kept(mem, StoreAll(mem, addrs, infos, buffers, size), was, size)
  {
    forall a | a in was && a + size <= |mem|
      ensures StoreAll(mem, addrs, infos, buffers, size)[a..a + size] == mem[a..a + size]
    {
      StoreAllElsewhere(mem, addrs, infos, buffers, size, a);
    }
  }

  /** serialize_gpu_message_to_host_table, from buffers to a host table's parts: what get_gpu_table will
      copy back is the buffers, and no chunk that was out before has changed. None is an exception of the
      pool or of its allocator, when memory does not reach that far. */
  method SerializeToHostTable(pool: AllocationPool.Pool, memory: array<byte>, buffers: seq<seq<byte>>)
    returns (r: Option<(seq<ColumnInfo>, seq<Chunk>)>)
    requires pool.Valid() && pool.bufferSize > 0
    modifies pool, pool.allocations, memory
    ensures pool.Valid() && Kept(old(memory[..]), memory[..], Out(old(pool.View())), pool.bufferSize)
    ensures r.Some? ==> AllHeld(pool, r.value.1) && OnTop(r.value.1, Out(old(pool.View())), Out(pool.View()))
    ensures r.Some? ==> InMemory(Addresses(r.value.1), pool.bufferSize, memory.Length)
    ensures r.Some? ==> AllFit(r.value.0, |r.value.1|, pool.bufferSize)
    ensures r.Some? ==> FetchAll(memory[..], Addresses(r.value.1), r.value.0, pool.bufferSize) == buffers
  {
    ghost var was := Out(pool.View());
    r := ConvertGpuBuffersToChunks(pool, Lengths(buffers));
    if r.None? { return; }
    var (infos, chunks) := r.value;
    if exists i :: 0 <= i < |chunks| && chunks[i].data + pool.bufferSize > memory.Length {
      return None;
    }
    ReachableInv(pool.View());
    CopiedTable(pool.View(), memory[..], chunks, infos, buffers, was);
    CopyIn(memory, chunks, infos, buffers, pool.bufferSize);
  }

  // ---------------------------------------------------------------- the table object

  /** blazing_host_memory_resource: a counter, nothing is allocated. */
  class HostMemoryResource {
    var used: int

    constructor () ensures used == 0 { used := 0; }

    method Allocate(bytes: nat) modifies this ensures used == old(used) + bytes { used := used + bytes; }

    method Deallocate(bytes: nat) modifies this ensures used == old(used) - bytes { used := used - bytes; }
  }

  class BlazingHostTable {
    const columnSizes: seq<nat>
    const infos: seq<ColumnInfo>
    var chunks: seq<Chunk>

    constructor (columnSizes: seq<nat>, infos: seq<ColumnInfo>, chunks: seq<Chunk>, host: HostMemoryResource)
      modifies host
      ensures this.columnSizes == columnSizes && this.infos == infos && this.chunks == chunks
      ensures host.used == old(host.used) + Sum(columnSizes)
    {
      this.columnSizes, this.infos, this.chunks := columnSizes, infos, chunks;
      new;
      var bytes := SizeInBytes();
      host.Allocate(bytes);
    }

    method SizeInBytes() returns (total: nat)
      ensures total == Sum(columnSizes)
    {
      total := 0;
      for i := 0 to |columnSizes|
        invariant total == Sum(columnSizes[..i])
      {
        SumAppend(columnSizes[..i], [columnSizes[i]]);
        assert columnSizes[..i + 1] == columnSizes[..i] + [columnSizes[i]];
        total := total + columnSizes[i];
      }
      assert columnSizes[..|columnSizes|] == columnSizes;
    }

    /** The destructor: gives back the host bytes and every chunk, so the pool is left with exactly
        what was out before the table was built. */
    method Destroy(pool: AllocationPool.Pool, host: HostMemoryResource, ghost was: set<nat>)
      requires pool.Valid() && AllHeld(pool, chunks) && OnTop(chunks, was, Out(pool.View()))
      modifies this, host, pool, pool.allocations
      ensures pool.Valid() && Out(pool.View()) == was && chunks == []
      ensures host.used == old(host.used) - Sum(columnSizes)
    {
      var bytes := SizeInBytes();
      host.Deallocate(bytes);
      FreeChunks(pool, chunks, was);
      chunks := [];
    }
  }

  /** The destructor's loop: every chunk goes back to the pool. */
  method FreeChunks(pool: AllocationPool.Pool, all: seq<Chunk>, ghost was: set<nat>)
    requires pool.Valid() && AllHeld(pool, all) && OnTop(all, was, Out(pool.View()))
    modifies pool, pool.allocations
    ensures pool.Valid() && Out(pool.View()) == was
  {
    var i := 0;
    assert all[0..] == all;
    while i < |all|
      invariant 0 <= i <= |all| && pool.Valid()
      invariant AllHeld(pool, all[i..]) && OnTop(all[i..], was, Out(pool.View()))
      invariant forall j :: 0 <= j < |pool.allocations| ==> pool.allocations[j] in old(pool.allocations)
    {
      OnTopShrinks(all[i..], was, Out(pool.View()));
      assert all[i..][1..] == all[i + 1..];
      assert pool.Holds(all[i..][0]);
      FreeOne(pool, all[i], all[i + 1..]);
      i := i + 1;
    }
    assert DataOf(all[|all|..]) == {};
  }

  method FreeOne(pool: AllocationPool.Pool, c: Chunk, ghost rest: seq<Chunk>)
    requires pool.Valid() && pool.Holds(c) && AllHeld(pool, rest)
    requires forall i :: 0 <= i < |rest| ==> rest[i].data != c.data
    modifies pool, pool.allocations
    ensures pool.Valid() && AllHeld(pool, rest) && Out(pool.View()) == Out(old(pool.View())) - {c.data}
    ensures forall j :: 0 <= j < |pool.allocations| ==> pool.allocations[j] in old(pool.allocations)
  {
    pool.FreeChunk(c);
  }

  lemma OnTopShrinks(chunks: seq<Chunk>, was: set<nat>, out: set<nat>)
    requires OnTop(chunks, was, out) && chunks != []
    ensures OnTop(chunks[1..], was, out - {chunks[0].data})
    ensures forall i :: 0 <= i < |chunks| - 1 ==> chunks[1..][i].data != chunks[0].data
  {
    var rest := chunks[1..];
    assert Addresses(rest) == Addresses(chunks)[1..];
    forall i | 0 <= i < |rest|
      ensures rest[i].data != chunks[0].data
    {
      assert Addresses(chunks)[i + 1] != Addresses(chunks)[0];
    }
    assert DataOf(chunks) == DataOf(rest) + {chunks[0].data} by {
      forall a | a in DataOf(chunks) ensures a in DataOf(rest) + {chunks[0].data} {
        var i :| 0 <= i < |chunks| && chunks[i].data == a;
        if i > 0 { assert rest[i - 1].data == a; }
      }
      forall a | a in DataOf(rest) ensures a in DataOf(chunks) {
        var i :| 0 <= i < |rest| && rest[i].data == a;
        assert chunks[i + 1].data == a;
      }
      assert chunks[0].data in DataOf(chunks);
    }
  }
}
