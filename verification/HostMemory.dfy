/** Host memory as one run of bytes, with chunks at addresses in it. Copying in and out of a host
    table goes through addresses; that it agrees with chunk-by-chunk packing, and that tables do
    not disturb one another, rests on the pool's chunks being apart. */
module HostMemory {
  import opened Collections
  import opened AllocationPoolModel
  import opened Packing

  ghost predicate InMemory(addrs: seq<nat>, size: nat, length: nat)
  {
    forall c :: 0 <= c < |addrs| ==> addrs[c] + size <= length
  }

  ghost predicate Spread(addrs: seq<nat>, size: nat)
  {
    forall c, e :: 0 <= c < |addrs| && 0 <= e < |addrs| && c != e ==> Spaced(addrs[c], addrs[e], size)
  }

  /** What the chunks at these addresses hold. */
  ghost function Contents(mem: seq<byte>, addrs: seq<nat>, size: nat): (r: seq<seq<byte>>)
    requires InMemory(addrs, size, |mem|)
    ensures |r| == |addrs| && Chunked(r, size)
  {
    seq(|addrs|, c requires 0 <= c < |addrs| => mem[addrs[c]..addrs[c] + size])
  }

  // ---------------------------------------------------------------- copying through addresses

  function Store(mem: seq<byte>, addrs: seq<nat>, slices: seq<Slice>, data: seq<byte>, size: nat): (r: seq<byte>)
    requires InMemory(addrs, size, |mem|) && Fits(slices, |addrs|, size) && Sum(Sizes(slices)) == |data|
    ensures |r| == |mem|
    decreases |slices|
  {
    if slices == [] then mem
    else
      var s := slices[0];
      assert Sizes(slices)[1..] == Sizes(slices[1..]);
      Store(Patch(mem, addrs[s.chunk] + s.offset, data[..s.size]), addrs, slices[1..], data[s.size..], size)
  }

  function StoreAll(mem: seq<byte>, addrs: seq<nat>, infos: seq<ColumnInfo>, buffers: seq<seq<byte>>, size: nat): (r: seq<byte>)
    requires InMemory(addrs, size, |mem|) && AllFit(infos, |addrs|, size) && |infos| == |buffers|
    requires forall b :: 0 <= b < |infos| ==> infos[b].useSize == |buffers[b]|
    ensures |r| == |mem|
    decreases |infos|
  {
    if infos == [] then mem
    else StoreAll(Store(mem, addrs, infos[0].slices, buffers[0], size), addrs, infos[1..], buffers[1..], size)
  }

  function Fetch(mem: seq<byte>, addrs: seq<nat>, slices: seq<Slice>, size: nat): seq<byte>
    requires InMemory(addrs, size, |mem|) && Fits(slices, |addrs|, size)
    decreases |slices|
  {
    if slices == [] then []
    else
      var at := addrs[slices[0].chunk] + slices[0].offset;
      mem[at..at + slices[0].size] + Fetch(mem, addrs, slices[1..], size)
  }

  function FetchAll(mem: seq<byte>, addrs: seq<nat>, infos: seq<ColumnInfo>, size: nat): seq<seq<byte>>
    requires InMemory(addrs, size, |mem|) && AllFit(infos, |addrs|, size)
    decreases |infos|
  {
    if infos == [] then [] else [Fetch(mem, addrs, infos[0].slices, size)] + FetchAll(mem, addrs, infos[1..], size)
  }

  // ---------------------------------------------------------------- agreement with packing

  lemma PatchElsewhere(mem: seq<byte>, at: nat, d: seq<byte>, b: nat, size: nat)
    requires at + |d| <= |mem| && b + size <= |mem| && (at + |d| <= b || b + size <= at)
    ensures Patch(mem, at, d)[b..b + size] == mem[b..b + size]
  {
  }

  lemma PatchHere(mem: seq<byte>, a: nat, o: nat, d: seq<byte>, size: nat)
    requires a + size <= |mem| && o + |d| <= size
    ensures Patch(mem, a + o, d)[a..a + size] == Patch(mem[a..a + size], o, d)
  {
  }

  /** The slices from i on: the i-th, then the rest. */
  lemma SlicesFrom(slices: seq<Slice>, i: nat, chunks: nat, size: nat)
    requires i < |slices| && Fits(slices[i..], chunks, size)
    ensures slices[i..] == [slices[i]] + slices[i + 1..] && Fits(slices[i + 1..], chunks, size)
    ensures slices[i].chunk < chunks && slices[i].offset + slices[i].size <= size
    ensures Sum(Sizes(slices[i..])) == slices[i].size + Sum(Sizes(slices[i + 1..]))
  {
    var tail, rest := slices[i..], slices[i + 1..];
    assert tail[1..] == rest && tail[0] == slices[i];
    assert Sizes(tail)[1..] == Sizes(rest);
  }

  lemma SliceOfSlice(mem: seq<byte>, a: nat, size: nat, o: nat, n: nat)
    requires a + size <= |mem| && o + n <= size
    ensures mem[a..a + size][o..o + n] == mem[a + o..a + o + n]
  {
    var x, y := mem[a..a + size][o..o + n], mem[a + o..a + o + n];
    assert forall i :: 0 <= i < n ==> x[i] == y[i];
  }

  lemma ContentsPatch(mem: seq<byte>, addrs: seq<nat>, c: nat, o: nat, d: seq<byte>, size: nat)
    requires InMemory(addrs, size, |mem|) && Spread(addrs, size) && c < |addrs| && o + |d| <= size
    ensures Contents(Patch(mem, addrs[c] + o, d), addrs, size)
         == Contents(mem, addrs, size)[c := Patch(Contents(mem, addrs, size)[c], o, d)]
  {
    PatchHere(mem, addrs[c], o, d, size);
    forall e | 0 <= e < |addrs| && e != c
      ensures Patch(mem, addrs[c] + o, d)[addrs[e]..addrs[e] + size] == mem[addrs[e]..addrs[e] + size]
    {
      assert Spaced(addrs[c], addrs[e], size);
      PatchElsewhere(mem, addrs[c] + o, d, addrs[e], size);
    }
  }

  lemma {:induction false} StoreIsWrite(mem: seq<byte>, addrs: seq<nat>, slices: seq<Slice>, data: seq<byte>, size: nat)
    requires InMemory(addrs, size, |mem|) && Spread(addrs, size)
    requires Fits(slices, |addrs|, size) && Sum(Sizes(slices)) == |data|
    ensures Contents(Store(mem, addrs, slices, data, size), addrs, size)
         == WriteSlices(Contents(mem, addrs, size), slices, data, size)
    decreases |slices|
  {
    if slices == [] {
    } else {
      var s := slices[0];
      assert Sizes(slices)[1..] == Sizes(slices[1..]);
      ContentsPatch(mem, addrs, s.chunk, s.offset, data[..s.size], size);
      StoreIsWrite(Patch(mem, addrs[s.chunk] + s.offset, data[..s.size]), addrs, slices[1..], data[s.size..], size);
    }
  }

  lemma {:induction false} StoreAllIsWriteAll(mem: seq<byte>, addrs: seq<nat>, infos: seq<ColumnInfo>, buffers: seq<seq<byte>>, size: nat)
    requires InMemory(addrs, size, |mem|) && Spread(addrs, size)
    requires AllFit(infos, |addrs|, size) && |infos| == |buffers|
    requires forall b :: 0 <= b < |infos| ==> infos[b].useSize == |buffers[b]|
    ensures Contents(StoreAll(mem, addrs, infos, buffers, size), addrs, size)
         == WriteAll(Contents(mem, addrs, size), infos, buffers, size)
    decreases |infos|
  {
    if infos == [] {
    } else {
      StoreIsWrite(mem, addrs, infos[0].slices, buffers[0], size);
      StoreAllIsWriteAll(Store(mem, addrs, infos[0].slices, buffers[0], size), addrs, infos[1..], buffers[1..], size);
    }
  }

  lemma {:induction false} FetchIsRead(mem: seq<byte>, addrs: seq<nat>, slices: seq<Slice>, size: nat)
    requires InMemory(addrs, size, |mem|) && Fits(slices, |addrs|, size)
    ensures Fetch(mem, addrs, slices, size) == ReadSlices(Contents(mem, addrs, size), slices, size)
    decreases |slices|
  {
    if slices != [] {
      FetchIsRead(mem, addrs, slices[1..], size);
      var s := slices[0];
      PieceOf(mem, addrs, s, size);
    }
  }

  lemma PieceOf(mem: seq<byte>, addrs: seq<nat>, s: Slice, size: nat)
    requires InMemory(addrs, size, |mem|) && s.chunk < |addrs| && s.offset + s.size <= size
    ensures var at := addrs[s.chunk] + s.offset;
            Contents(mem, addrs, size)[s.chunk][s.offset..s.offset + s.size] == mem[at..at + s.size]
  {
    SliceOfSlice(mem, addrs[s.chunk], size, s.offset, s.size);
  }

  lemma {:induction false} FetchAllIsReadAll(mem: seq<byte>, addrs: seq<nat>, infos: seq<ColumnInfo>, size: nat)
    requires InMemory(addrs, size, |mem|) && AllFit(infos, |addrs|, size)
    ensures FetchAll(mem, addrs, infos, size) == ReadAll(Contents(mem, addrs, size), infos, size)
    decreases |infos|
  {
    if infos == [] {
    } else {
      FetchIsRead(mem, addrs, infos[0].slices, size);
      FetchAllIsReadAll(mem, addrs, infos[1..], size);
    }
  }

  // ---------------------------------------------------------------- tables do not disturb one another

  ghost predicate AwayFrom(b: nat, addrs: seq<nat>, size: nat)
  {
    forall c :: 0 <= c < |addrs| ==> Spaced(b, addrs[c], size)
  }

  lemma {:induction false} StoreElsewhere(mem: seq<byte>, addrs: seq<nat>, slices: seq<Slice>, data: seq<byte>, size: nat, b: nat)
    requires InMemory(addrs, size, |mem|) && Fits(slices, |addrs|, size) && Sum(Sizes(slices)) == |data|
    requires b + size <= |mem| && AwayFrom(b, addrs, size)
    ensures Store(mem, addrs, slices, data, size)[b..b + size] == mem[b..b + size]
    decreases |slices|
  {
    if slices == [] {
    } else {
      var s := slices[0];
      assert Sizes(slices)[1..] == Sizes(slices[1..]);
      PatchElsewhere(mem, addrs[s.chunk] + s.offset, data[..s.size], b, size);
      StoreElsewhere(Patch(mem, addrs[s.chunk] + s.offset, data[..s.size]), addrs, slices[1..], data[s.size..], size, b);
    }
  }

  lemma {:induction false} StoreAllElsewhere(mem: seq<byte>, addrs: seq<nat>, infos: seq<ColumnInfo>, buffers: seq<seq<byte>>, size: nat, b: nat)
    requires InMemory(addrs, size, |mem|) && AllFit(infos, |addrs|, size) && |infos| == |buffers|
    requires forall i :: 0 <= i < |infos| ==> infos[i].useSize == |buffers[i]|
    requires b + size <= |mem| && AwayFrom(b, addrs, size)
    ensures StoreAll(mem, addrs, infos, buffers, size)[b..b + size] == mem[b..b + size]
    decreases |infos|
  {
    if infos == [] {
    } else {
      StoreElsewhere(mem, addrs, infos[0].slices, buffers[0], size, b);
      StoreAllElsewhere(Store(mem, addrs, infos[0].slices, buffers[0], size), addrs, infos[1..], buffers[1..], size, b);
    }
  }

  /** A host table as its creator sees it: chunks held from pool p, laid out for these buffers. */
  ghost predicate Table(p: Pool, addrs: seq<nat>, infos: seq<ColumnInfo>, buffers: seq<seq<byte>>)
  {
    && p.chunkSize > 0
    && Distinct(addrs)
    && (forall c :: 0 <= c < |addrs| ==> addrs[c] in Out(p))
    && |addrs| == ChunksNeeded(Sum(Lengths(buffers)), p.chunkSize)
    && infos == Layout(Lengths(buffers), 0, p.chunkSize)
  }

  lemma HeldApart(p: Pool, a: nat, b: nat)
    requires Inv(p) && a in Out(p) && b in Out(p) && a != b
    ensures Spaced(a, b, p.chunkSize)
  {
    var i :| 0 <= i < |p.allocs| && a in p.allocs[i].out;
    var j :| 0 <= j < |p.allocs| && b in p.allocs[j].out;
    ChunksApart(p, i, a, j, b);
  }

  lemma TableSpread(p: Pool, addrs: seq<nat>, infos: seq<ColumnInfo>, buffers: seq<seq<byte>>)
    requires Inv(p) && Table(p, addrs, infos, buffers)
    ensures Spread(addrs, p.chunkSize) && AllFit(infos, |addrs|, p.chunkSize) && |infos| == |buffers|
    ensures forall b :: 0 <= b < |infos| ==> infos[b].useSize == |buffers[b]|
  {
    forall c, e | 0 <= c < |addrs| && 0 <= e < |addrs| && c != e
      ensures Spaced(addrs[c], addrs[e], p.chunkSize)
    {
      assert addrs[c] != addrs[e];
      HeldApart(p, addrs[c], addrs[e]);
    }
    NeededHolds(Sum(Lengths(buffers)), p.chunkSize);
    LayoutFits(Lengths(buffers), 0, p.chunkSize, |addrs|);
  }

  /** A table written into chunks from the pool reads back byte for byte. */
  lemma TableRoundTrip(p: Pool, mem: seq<byte>, addrs: seq<nat>, infos: seq<ColumnInfo>, buffers: seq<seq<byte>>)
    requires Inv(p) && Table(p, addrs, infos, buffers) && InMemory(addrs, p.chunkSize, |mem|)
    ensures AllFit(infos, |addrs|, p.chunkSize) && |infos| == |buffers|
    ensures forall b :: 0 <= b < |infos| ==> infos[b].useSize == |buffers[b]|
    ensures FetchAll(StoreAll(mem, addrs, infos, buffers, p.chunkSize), addrs, infos, p.chunkSize) == buffers
  {
    TableSpread(p, addrs, infos, buffers);
    StoreAllIsWriteAll(mem, addrs, infos, buffers, p.chunkSize);
    FetchAllIsReadAll(StoreAll(mem, addrs, infos, buffers, p.chunkSize), addrs, infos, p.chunkSize);
    RoundTrip(Contents(mem, addrs, p.chunkSize), infos, buffers, p.chunkSize);
  }

  /** Two tables that hold different chunks of a reachable pool live side by side: writing the second
      leaves every byte of the first as it was written. */
  lemma TablesCoexist(p: Pool, mem: seq<byte>,
                      addrs: seq<nat>, infos: seq<ColumnInfo>, buffers: seq<seq<byte>>,
                      addrs': seq<nat>, infos': seq<ColumnInfo>, buffers': seq<seq<byte>>)
    requires Inv(p) && Table(p, addrs, infos, buffers) && Table(p, addrs', infos', buffers')
    requires InMemory(addrs, p.chunkSize, |mem|) && InMemory(addrs', p.chunkSize, |mem|)
    requires forall a :: a in addrs ==> a !in addrs'
    ensures AllFit(infos, |addrs|, p.chunkSize) && |infos| == |buffers|
    ensures AllFit(infos', |addrs'|, p.chunkSize) && |infos'| == |buffers'|
    ensures forall b :: 0 <= b < |infos| ==> infos[b].useSize == |buffers[b]|
    ensures forall b :: 0 <= b < |infos'| ==> infos'[b].useSize == |buffers'[b]|
    ensures var first := StoreAll(mem, addrs, infos, buffers, p.chunkSize);
            FetchAll(StoreAll(first, addrs', infos', buffers', p.chunkSize), addrs, infos, p.chunkSize) == buffers
  {
    var size := p.chunkSize;
    TableRoundTrip(p, mem, addrs, infos, buffers);
    TableSpread(p, addrs', infos', buffers');
    var first := StoreAll(mem, addrs, infos, buffers, size);
    ContentsKept(p, first, addrs, addrs', infos', buffers');
    FetchAllIsReadAll(StoreAll(first, addrs', infos', buffers', size), addrs, infos, size);
    FetchAllIsReadAll(first, addrs, infos, size);
  }

  lemma ContentsKept(p: Pool, mem: seq<byte>, addrs: seq<nat>,
                     addrs': seq<nat>, infos': seq<ColumnInfo>, buffers': seq<seq<byte>>)
    requires Inv(p) && Table(p, addrs', infos', buffers') && forall c :: 0 <= c < |addrs| ==> addrs[c] in Out(p)
    requires InMemory(addrs, p.chunkSize, |mem|) && InMemory(addrs', p.chunkSize, |mem|)
    requires forall a :: a in addrs ==> a !in addrs'
    requires AllFit(infos', |addrs'|, p.chunkSize) && |infos'| == |buffers'|
    requires forall b :: 0 <= b < |infos'| ==> infos'[b].useSize == |buffers'[b]|
    ensures Contents(StoreAll(mem, addrs', infos', buffers', p.chunkSize), addrs, p.chunkSize) == Contents(mem, addrs, p.chunkSize)
  {
    var size, second := p.chunkSize, StoreAll(mem, addrs', infos', buffers', p.chunkSize);
    forall c | 0 <= c < |addrs|
      ensures second[addrs[c]..addrs[c] + size] == mem[addrs[c]..addrs[c] + size]
    {
      assert addrs[c] in addrs;
      HeldAway(p, addrs[c], addrs');
      StoreAllElsewhere(mem, addrs', infos', buffers', size, addrs[c]);
    }
  }

  /** A held chunk is away from other held chunks. */
  lemma HeldAway(p: Pool, a: nat, addrs: seq<nat>)
    requires Inv(p) && a in Out(p) && a !in addrs && forall c :: 0 <= c < |addrs| ==> addrs[c] in Out(p)
    ensures AwayFrom(a, addrs, p.chunkSize)
  {
    forall c | 0 <= c < |addrs|
      ensures Spaced(a, addrs[c], p.chunkSize)
    {
      HeldApart(p, a, addrs[c]);
    }
  }
}
