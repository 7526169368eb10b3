/** How buffers of any size are packed densely into chunks of one size, written through the
    resulting slices and read back. The slices are related to one flat layout: the buffers laid
    end to end and cut every `size` bytes. */
module Packing {
  import opened Collections

  type byte = x: int | 0 <= x < 256

  datatype Slice = Slice(chunk: nat, offset: nat, size: nat)

  /** blazing_chunked_column_info, its three parallel vectors held as one sequence. */
  datatype ColumnInfo = ColumnInfo(slices: seq<Slice>, useSize: nat)

  // ---------------------------------------------------------------- the flat layout

  /** The slices of the flat bytes [start, start + len). */
  function Cut(start: nat, len: nat, size: nat): seq<Slice>
    requires size > 0
    decreases len
  {
    if len == 0 then []
    else
      var room := size - start % size;
      var n := if len <= room then len else room;
      [Slice(start / size, start % size, n)] + Cut(start + n, len - n, size)
  }

  function Layout(sizes: seq<nat>, start: nat, size: nat): (infos: seq<ColumnInfo>)
    requires size > 0
    ensures |infos| == |sizes|
  {
    if sizes == [] then []
    else [ColumnInfo(Cut(start, sizes[0], size), sizes[0])] + Layout(sizes[1..], start + sizes[0], size)
  }

  lemma {:induction false} LayoutAppend(s: seq<nat>, n: nat, start: nat, size: nat)
    requires size > 0
    ensures Layout(s + [n], start, size) == Layout(s, start, size) + [ColumnInfo(Cut(start + Sum(s), n, size), n)]
  {
    if s == [] {
      assert s + [n] == [n] && [n][1..] == [];
    } else {
      LayoutAppend(s[1..], n, start + s[0], size);
      assert (s + [n])[1..] == s[1..] + [n] && (s + [n])[0] == s[0];
    }
  }

  function ChunksNeeded(total: nat, size: nat): nat
    requires size > 0
  {
    if total == 0 then 1 else (total + size - 1) / size
  }

  /** Exactly `c` chunks are needed when the last of them is reached but not passed. */
  lemma ChunkCount(total: nat, size: nat, c: nat)
    requires size > 0 && c > 0 && total <= c * size && (c - 1) * size < total
    ensures ChunksNeeded(total, size) == c
  {
    DivMod(c, total + size - 1 - c * size, size);
  }

  /** Where byte k of a buffer with these slices is stored. */
  function Locate(slices: seq<Slice>, k: nat): (nat, nat)
    requires k < Sum(Sizes(slices))
    decreases |slices|
  {
    if k < slices[0].size then (slices[0].chunk, slices[0].offset + k)
    else
      assert Sizes(slices)[1..] == Sizes(slices[1..]);
      Locate(slices[1..], k - slices[0].size)
  }

  function Sizes(slices: seq<Slice>): seq<nat>
  {
    seq(|slices|, i requires 0 <= i < |slices| => slices[i].size)
  }

  lemma SameChunk(start: nat, d: nat, size: nat)
    requires size > 0 && d < size - start % size
    ensures (start + d) / size == start / size && (start + d) % size == start % size + d
  {
    var q, r := start / size, start % size;
    assert start + d == q * size + (r + d);
    DivMod(q, r + d, size);
  }

  lemma CutHead(start: nat, len: nat, size: nat) returns (s: Slice)
    requires size > 0 && len > 0
    ensures s == Slice(start / size, start % size, s.size) && 0 < s.size <= len
    ensures s.chunk * size + s.offset == start && s.offset + s.size <= size
    ensures Cut(start, len, size) == [s] + Cut(start + s.size, len - s.size, size)
  {
    s := Cut(start, len, size)[0];
  }

  /** Byte k of the buffers laid end to end is stored in chunk k / size at offset k % size, and
      the slice sizes of a buffer add up to its size. */
  lemma {:induction false} CutIsFlat(start: nat, len: nat, size: nat, k: nat)
    requires size > 0 && k < len
    ensures Sum(Sizes(Cut(start, len, size))) == len
    ensures Locate(Cut(start, len, size), k) == ((start + k) / size, (start + k) % size)
    decreases len
  {
    var s := CutHead(start, len, size);
    var slices, n := Cut(start, len, size), s.size;
    assert slices[1..] == Cut(start + n, len - n, size);
    assert Sizes(slices)[1..] == Sizes(slices[1..]);
    if n < len {
      CutIsFlat(start + n, len - n, size, if k < n then 0 else k - n);
    }
    if k < n {
      SameChunk(start, k, size);
    }
  }

  ghost predicate Fits(slices: seq<Slice>, chunks: nat, size: nat)
  {
    forall i :: 0 <= i < |slices| ==>
      slices[i].chunk < chunks && slices[i].offset + slices[i].size <= size && slices[i].size > 0
  }

  /** Every slice is non-empty, lies inside one chunk, and only the needed chunks are used. */
  lemma {:induction false} CutFits(start: nat, len: nat, size: nat, chunks: nat)
    requires size > 0 && start + len <= chunks * size
    ensures Fits(Cut(start, len, size), chunks, size) && Sum(Sizes(Cut(start, len, size))) == len
    decreases len
  {
    if len == 0 {
    } else {
      var s := CutHead(start, len, size);
      var slices, q := Cut(start, len, size), s.chunk;
      assert q >= chunks ==> q * size >= chunks * size;
      assert slices[1..] == Cut(start + s.size, len - s.size, size);
      assert Sizes(slices)[1..] == Sizes(slices[1..]);
      CutFits(start + s.size, len - s.size, size, chunks);
    }
  }

  // ---------------------------------------------------------------- memory

  /** d written over s at position p, as memcpy does. */
  function Patch<T>(s: seq<T>, p: nat, d: seq<T>): (r: seq<T>)
    requires p + |d| <= |s|
    ensures |r| == |s|
  {
    seq(|s|, i requires 0 <= i < |s| => if p <= i < p + |d| then d[i - p] else s[i])
  }

  ghost predicate Chunked(mem: seq<seq<byte>>, size: nat)
  {
    forall c :: 0 <= c < |mem| ==> |mem[c]| == size
  }

  function WriteSlices(mem: seq<seq<byte>>, slices: seq<Slice>, data: seq<byte>, size: nat): (r: seq<seq<byte>>)
    requires Chunked(mem, size) && Fits(slices, |mem|, size) && Sum(Sizes(slices)) == |data|
    ensures |r| == |mem| && Chunked(r, size)
    decreases |slices|
  {
    if slices == [] then mem
    else
      var s := slices[0];
      assert Sizes(slices)[1..] == Sizes(slices[1..]);
      WriteSlices(mem[s.chunk := Patch(mem[s.chunk], s.offset, data[..s.size])], slices[1..], data[s.size..], size)
  }

  function ReadSlices(mem: seq<seq<byte>>, slices: seq<Slice>, size: nat): seq<byte>
    requires Chunked(mem, size) && Fits(slices, |mem|, size)
    decreases |slices|
  {
    if slices == [] then []
    else mem[slices[0].chunk][slices[0].offset..slices[0].offset + slices[0].size] + ReadSlices(mem, slices[1..], size)
  }

  lemma {:induction false} FlatSize(mem: seq<seq<byte>>, size: nat)
    requires Chunked(mem, size)
    ensures |Flatten(mem)| == |mem| * size
  {
    if mem == [] {
    } else {
      FlatSize(mem[1..], size);
      assert (|mem| - 1) * size + size == |mem| * size;
    }
  }

  lemma FlatSplit(mem: seq<seq<byte>>, c: nat, size: nat)
    requires Chunked(mem, size) && c < |mem|
    ensures Flatten(mem) == Flatten(mem[..c]) + mem[c] + Flatten(mem[c + 1..])
    ensures |Flatten(mem[..c])| == c * size && (c + 1) * size <= |mem| * size == |Flatten(mem)|
  {
    assert mem == mem[..c] + ([mem[c]] + mem[c + 1..]);
    FlattenAppend(mem[..c], [mem[c]] + mem[c + 1..]);
    assert ([mem[c]] + mem[c + 1..])[1..] == mem[c + 1..];
    FlatSize(mem[..c], size);
    FlatSize(mem, size);
  }

  lemma PatchInside<T>(pre: seq<T>, m: seq<T>, post: seq<T>, o: nat, d: seq<T>)
    requires o + |d| <= |m|
    ensures Patch(pre + m + post, |pre| + o, d) == pre + Patch(m, o, d) + post
  {
  }

  /** Writing inside a chunk is writing at the flat position. */
  lemma FlatWrite(mem: seq<seq<byte>>, c: nat, o: nat, d: seq<byte>, size: nat)
    requires Chunked(mem, size) && c < |mem| && o + |d| <= size
    ensures c * size + o + |d| <= |Flatten(mem)|
    ensures Flatten(mem[c := Patch(mem[c], o, d)]) == Patch(Flatten(mem), c * size + o, d)
  {
    var mem' := mem[c := Patch(mem[c], o, d)];
    FlatSplit(mem, c, size);
    FlatSplit(mem', c, size);
    assert mem'[..c] == mem[..c] && mem'[c + 1..] == mem[c + 1..];
    PatchInside(Flatten(mem[..c]), mem[c], Flatten(mem[c + 1..]), o, d);
  }

  lemma FlatRead(mem: seq<seq<byte>>, c: nat, o: nat, n: nat, size: nat)
    requires Chunked(mem, size) && c < |mem| && o + n <= size
    ensures c * size + o + n <= |Flatten(mem)|
    ensures mem[c][o..o + n] == Flatten(mem)[c * size + o..c * size + o + n]
  {
    FlatSplit(mem, c, size);
    SliceInside(Flatten(mem[..c]), mem[c], Flatten(mem[c + 1..]), o, n);
  }

  lemma SliceInside<T>(pre: seq<T>, m: seq<T>, post: seq<T>, o: nat, n: nat)
    requires o + n <= |m|
    ensures |pre| + o + n <= |pre + m + post| && m[o..o + n] == (pre + m + post)[|pre| + o..|pre| + o + n]
  {
  }

  lemma PatchAfter<T>(s: seq<T>, p: nat, d: seq<T>, e: seq<T>)
    requires p + |d| + |e| <= |s|
    ensures Patch(Patch(s, p, d), p + |d|, e) == Patch(s, p, d + e)
  {
  }

  lemma PatchTwice<T>(f: seq<T>, f1: seq<T>, f2: seq<T>, start: nat, data: seq<T>, n: nat)
    requires n <= |data| && start + |data| <= |f| && f1 == Patch(f, start, data[..n]) && f2 == Patch(f1, start + n, data[n..])
    ensures f2 == Patch(f, start, data)
  {
    PatchAfter(f, start, data[..n], data[n..]);
    assert data[..n] + data[n..] == data;
  }

  lemma JoinSlices<T>(f: seq<T>, a: nat, b: nat, c: nat)
    requires a <= b <= c <= |f|
    ensures f[a..b] + f[b..c] == f[a..c]
  {
  }

  // ---------------------------------------------------------------- slices one after the other

  /** This slice holds the flat positions from `start` on. */
  ghost predicate StartsAt(s: Slice, start: nat, size: nat)
  {
    s.chunk * size + s.offset == start
  }

  /** Each slice starts, in the flat layout, where the one before it ends. */
  ghost predicate Consecutive(slices: seq<Slice>, start: nat, size: nat)
    decreases |slices|
  {
    slices == [] || (StartsAt(slices[0], start, size) && Consecutive(slices[1..], start + slices[0].size, size))
  }

  lemma {:induction false} CutConsecutive(start: nat, len: nat, size: nat)
    requires size > 0
    ensures Consecutive(Cut(start, len, size), start, size)
    decreases len
  {
    if len == 0 {
    } else {
      var s := CutHead(start, len, size);
      assert Cut(start, len, size)[1..] == Cut(start + s.size, len - s.size, size);
      CutConsecutive(start + s.size, len - s.size, size);
    }
  }

  lemma SlicesSplit(slices: seq<Slice>, chunks: nat, size: nat)
    requires slices != [] && Fits(slices, chunks, size)
    ensures slices[0].chunk < chunks && slices[0].offset + slices[0].size <= size && Fits(slices[1..], chunks, size)
    ensures Sum(Sizes(slices)) == slices[0].size + Sum(Sizes(slices[1..]))
  {
    assert Sizes(slices)[1..] == Sizes(slices[1..]);
  }

  function WriteHead(mem: seq<seq<byte>>, s: Slice, d: seq<byte>, size: nat): (r: seq<seq<byte>>)
    requires Chunked(mem, size) && s.chunk < |mem| && s.offset + |d| <= size
    ensures |r| == |mem| && Chunked(r, size)
  {
    mem[s.chunk := Patch(mem[s.chunk], s.offset, d)]
  }

  lemma HeadIsFlat(mem: seq<seq<byte>>, s: Slice, start: nat, d: seq<byte>, size: nat)
    requires Chunked(mem, size) && s.chunk < |mem| && s.offset + |d| <= size && StartsAt(s, start, size)
    ensures start + |d| <= |Flatten(mem)|
    ensures Flatten(WriteHead(mem, s, d, size)) == Patch(Flatten(mem), start, d)
  {
    FlatWrite(mem, s.chunk, s.offset, d, size);
  }

  lemma {:induction false} WriteConsecutive(mem: seq<seq<byte>>, slices: seq<Slice>, start: nat, data: seq<byte>, size: nat)
    requires Chunked(mem, size) && Fits(slices, |mem|, size) && Sum(Sizes(slices)) == |data|
    requires Consecutive(slices, start, size) && start + |data| <= |Flatten(mem)|
    ensures Flatten(WriteSlices(mem, slices, data, size)) == Patch(Flatten(mem), start, data)
    decreases |slices|
  {
    if slices == [] {
      assert Patch(Flatten(mem), start, data) == Flatten(mem);
    } else {
      SlicesSplit(slices, |mem|, size);
      var s, rest := slices[0], slices[1..];
      var mem' := WriteHead(mem, s, data[..s.size], size);
      HeadIsFlat(mem, s, start, data[..s.size], size);
      WriteConsecutive(mem', rest, start + s.size, data[s.size..], size);
      PatchTwice(Flatten(mem), Flatten(mem'), Flatten(WriteSlices(mem', rest, data[s.size..], size)), start, data, s.size);
    }
  }

  lemma {:induction false} ReadConsecutive(mem: seq<seq<byte>>, slices: seq<Slice>, start: nat, len: nat, size: nat)
    requires Chunked(mem, size) && Fits(slices, |mem|, size) && Sum(Sizes(slices)) == len
    requires Consecutive(slices, start, size) && start + len <= |Flatten(mem)|
    ensures ReadSlices(mem, slices, size) == Flatten(mem)[start..start + len]
    decreases |slices|
  {
    if slices == [] {
    } else {
      SlicesSplit(slices, |mem|, size);
      var n := slices[0].size;
      ReadConsecutive(mem, slices[1..], start + n, len - n, size);
      ReadOn(mem, slices, start, start + n, start + len, size);
    }
  }

  lemma ReadOn(mem: seq<seq<byte>>, slices: seq<Slice>, start: nat, mid: nat, end: nat, size: nat)
    requires Chunked(mem, size) && slices != [] && Fits(slices, |mem|, size) && Fits(slices[1..], |mem|, size)
    requires StartsAt(slices[0], start, size) && mid == start + slices[0].size <= end <= |Flatten(mem)|
    requires ReadSlices(mem, slices[1..], size) == Flatten(mem)[mid..end]
    ensures ReadSlices(mem, slices, size) == Flatten(mem)[start..end]
  {
    var s := slices[0];
    PieceIsFlat(mem, s, start, size);
    ReadCons(mem, slices, size);
    JoinPieces(Flatten(mem), start, mid, end, mem[s.chunk][s.offset..s.offset + s.size], ReadSlices(mem, slices[1..], size));
  }

  lemma ReadCons(mem: seq<seq<byte>>, slices: seq<Slice>, size: nat)
    requires Chunked(mem, size) && slices != [] && Fits(slices, |mem|, size) && Fits(slices[1..], |mem|, size)
    ensures var s := slices[0];
            ReadSlices(mem, slices, size) == mem[s.chunk][s.offset..s.offset + s.size] + ReadSlices(mem, slices[1..], size)
  {
  }

  lemma JoinPieces<T>(f: seq<T>, a: nat, b: nat, c: nat, piece: seq<T>, tail: seq<T>)
    requires a <= b <= c <= |f| && piece == f[a..b] && tail == f[b..c]
    ensures piece + tail == f[a..c]
  {
    JoinSlices(f, a, b, c);
  }

  lemma PieceIsFlat(mem: seq<seq<byte>>, s: Slice, start: nat, size: nat)
    requires Chunked(mem, size) && s.chunk < |mem| && s.offset + s.size <= size && StartsAt(s, start, size)
    ensures start + s.size <= |Flatten(mem)|
    ensures mem[s.chunk][s.offset..s.offset + s.size] == Flatten(mem)[start..start + s.size]
  {
    FlatRead(mem, s.chunk, s.offset, s.size, size);
  }

  lemma CutFitsIn(mem: seq<seq<byte>>, start: nat, len: nat, size: nat)
    requires size > 0 && Chunked(mem, size) && start + len <= |Flatten(mem)|
    ensures Fits(Cut(start, len, size), |mem|, size) && Sum(Sizes(Cut(start, len, size))) == len
    ensures Consecutive(Cut(start, len, size), start, size)
  {
    FlatSize(mem, size);
    CutFits(start, len, size, |mem|);
    CutConsecutive(start, len, size);
  }

  /** Writing a buffer through its slices is one write at its flat position. */
  lemma WriteCut(mem: seq<seq<byte>>, start: nat, data: seq<byte>, size: nat)
    requires size > 0 && Chunked(mem, size) && start + |data| <= |Flatten(mem)|
    ensures Fits(Cut(start, |data|, size), |mem|, size) && Sum(Sizes(Cut(start, |data|, size))) == |data|
    ensures Flatten(WriteSlices(mem, Cut(start, |data|, size), data, size)) == Patch(Flatten(mem), start, data)
  {
    CutFitsIn(mem, start, |data|, size);
    WriteConsecutive(mem, Cut(start, |data|, size), start, data, size);
  }

  lemma ReadCut(mem: seq<seq<byte>>, start: nat, len: nat, size: nat)
    requires size > 0 && Chunked(mem, size) && start + len <= |Flatten(mem)|
    ensures Fits(Cut(start, len, size), |mem|, size)
    ensures ReadSlices(mem, Cut(start, len, size), size) == Flatten(mem)[start..start + len]
  {
    CutFitsIn(mem, start, len, size);
    ReadConsecutive(mem, Cut(start, len, size), start, len, size);
  }

  // ---------------------------------------------------------------- all buffers

  ghost predicate AllFit(infos: seq<ColumnInfo>, chunks: nat, size: nat)
  {
    forall b :: 0 <= b < |infos| ==>
      Fits(infos[b].slices, chunks, size) && Sum(Sizes(infos[b].slices)) == infos[b].useSize
  }

  function WriteAll(mem: seq<seq<byte>>, infos: seq<ColumnInfo>, buffers: seq<seq<byte>>, size: nat): (r: seq<seq<byte>>)
    requires Chunked(mem, size) && AllFit(infos, |mem|, size) && |infos| == |buffers|
    requires forall b :: 0 <= b < |infos| ==> infos[b].useSize == |buffers[b]|
    ensures |r| == |mem| && Chunked(r, size)
    decreases |infos|
  {
    if infos == [] then mem
    else WriteAll(WriteSlices(mem, infos[0].slices, buffers[0], size), infos[1..], buffers[1..], size)
  }

  function ReadAll(mem: seq<seq<byte>>, infos: seq<ColumnInfo>, size: nat): seq<seq<byte>>
    requires Chunked(mem, size) && AllFit(infos, |mem|, size)
    decreases |infos|
  {
    if infos == [] then [] else [ReadSlices(mem, infos[0].slices, size)] + ReadAll(mem, infos[1..], size)
  }

  lemma {:induction false} LayoutFits(sizes: seq<nat>, start: nat, size: nat, chunks: nat)
    requires size > 0 && start + Sum(sizes) <= chunks * size
    ensures AllFit(Layout(sizes, start, size), chunks, size)
    ensures forall b :: 0 <= b < |sizes| ==> Layout(sizes, start, size)[b].useSize == sizes[b]
  {
    if sizes == [] {
    } else {
      CutFits(start, sizes[0], size, chunks);
      LayoutFits(sizes[1..], start + sizes[0], size, chunks);
    }
  }

  /** The layout of these buffers from `start` on. */
  ghost predicate Laid(infos: seq<ColumnInfo>, buffers: seq<seq<byte>>, start: nat, size: nat)
    requires size > 0
  {
    infos == Layout(Lengths(buffers), start, size)
  }

  lemma LaidParts(infos: seq<ColumnInfo>, buffers: seq<seq<byte>>, start: nat, size: nat, chunks: nat)
    requires size > 0 && Laid(infos, buffers, start, size) && start + |Flatten(buffers)| <= chunks * size
    ensures |infos| == |buffers| && AllFit(infos, chunks, size)
    ensures forall b :: 0 <= b < |infos| ==> infos[b].useSize == |buffers[b]|
    ensures buffers != [] ==>
              && infos[0].slices == Cut(start, |buffers[0]|, size)
              && Laid(infos[1..], buffers[1..], start + |buffers[0]|, size)
              && Flatten(buffers) == buffers[0] + Flatten(buffers[1..])
  {
    FlattenLength(buffers);
    LayoutFits(Lengths(buffers), start, size, chunks);
    if buffers != [] {
      assert Lengths(buffers)[1..] == Lengths(buffers[1..]);
    }
  }

  lemma LaidIn(mem: seq<seq<byte>>, infos: seq<ColumnInfo>, buffers: seq<seq<byte>>, start: nat, size: nat)
    requires size > 0 && Chunked(mem, size) && Laid(infos, buffers, start, size)
    requires start + |Flatten(buffers)| <= |Flatten(mem)|
    ensures |infos| == |buffers| && AllFit(infos, |mem|, size)
    ensures forall b :: 0 <= b < |infos| ==> infos[b].useSize == |buffers[b]|
    ensures buffers != [] ==>
              && infos[0].slices == Cut(start, |buffers[0]|, size)
              && Laid(infos[1..], buffers[1..], start + |buffers[0]|, size)
              && Flatten(buffers) == buffers[0] + Flatten(buffers[1..])
  {
    FlatSize(mem, size);
    LaidParts(infos, buffers, start, size, |mem|);
  }

  /** Writing all buffers leaves them end to end from `start`, and touches nothing else. */
  lemma {:induction false} WriteAllIsFlat(mem: seq<seq<byte>>, infos: seq<ColumnInfo>, buffers: seq<seq<byte>>, start: nat, size: nat)
    requires size > 0 && Chunked(mem, size) && start + |Flatten(buffers)| <= |Flatten(mem)|
    requires Laid(infos, buffers, start, size)
    ensures |infos| == |buffers| && AllFit(infos, |mem|, size)
    ensures forall b :: 0 <= b < |infos| ==> infos[b].useSize == |buffers[b]|
    ensures Flatten(WriteAll(mem, infos, buffers, size)) == Patch(Flatten(mem), start, Flatten(buffers))
    decreases |buffers|
  {
    LaidIn(mem, infos, buffers, start, size);
    if buffers != [] {
      var d, rest := buffers[0], buffers[1..];
      WriteCut(mem, start, d, size);
      var mem' := WriteSlices(mem, infos[0].slices, d, size);
      WriteAllIsFlat(mem', infos[1..], rest, start + |d|, size);
      PatchAfter(Flatten(mem), start, d, Flatten(rest));
    } else {
      assert Patch(Flatten(mem), start, []) == Flatten(mem);
    }
  }

  lemma Window<T>(f: seq<T>, start: nat, d: seq<T>, rest: seq<T>, all: seq<T>)
    requires all == d + rest && start + |all| <= |f| && f[start..start + |all|] == all
    ensures f[start..start + |d|] == d
    ensures start + |d| + |rest| <= |f| && f[start + |d|..start + |d| + |rest|] == rest
  {
    var w := f[start..start + |all|];
    forall i | 0 <= i < |d|
      ensures f[start + i] == d[i]
    {
      assert w[i] == all[i];
    }
    forall i | 0 <= i < |rest|
      ensures f[start + |d| + i] == rest[i]
    {
      assert w[|d| + i] == all[|d| + i];
    }
  }

  /** The rest of the layout is a layout of the other buffers. */
  lemma RestLaid(infos: seq<ColumnInfo>, buffers: seq<seq<byte>>, start: nat, size: nat)
    requires size > 0 && Laid(infos, buffers, start, size) && buffers != []
    ensures infos != [] && infos[0] == ColumnInfo(Cut(start, |buffers[0]|, size), |buffers[0]|)
    ensures Laid(infos[1..], buffers[1..], start + |buffers[0]|, size)
  {
    assert Lengths(buffers)[1..] == Lengths(buffers[1..]);
  }

  lemma {:induction false} ReadAllIsFlat(mem: seq<seq<byte>>, infos: seq<ColumnInfo>, buffers: seq<seq<byte>>, start: nat, size: nat)
    requires size > 0 && Chunked(mem, size) && start + |Flatten(buffers)| <= |Flatten(mem)|
    requires Laid(infos, buffers, start, size)
    requires Flatten(mem)[start..start + |Flatten(buffers)|] == Flatten(buffers)
    ensures AllFit(infos, |mem|, size) && ReadAll(mem, infos, size) == buffers
    decreases |buffers|
  {
    if buffers == [] {
      LaidIn(mem, infos, buffers, start, size);
    } else {
      ReadFirst(mem, infos, buffers, start, size);
      RestLaid(infos, buffers, start, size);
      Window(Flatten(mem), start, buffers[0], Flatten(buffers[1..]), Flatten(buffers));
      ReadAllIsFlat(mem, infos[1..], buffers[1..], start + |buffers[0]|, size);
      ReadAllStep(mem, infos, buffers, size);
    }
  }

  lemma ReadFirst(mem: seq<seq<byte>>, infos: seq<ColumnInfo>, buffers: seq<seq<byte>>, start: nat, size: nat)
    requires size > 0 && Chunked(mem, size) && start + |Flatten(buffers)| <= |Flatten(mem)|
    requires Laid(infos, buffers, start, size) && buffers != []
    requires Flatten(mem)[start..start + |Flatten(buffers)|] == Flatten(buffers)
    ensures infos != [] && AllFit(infos, |mem|, size) && ReadSlices(mem, infos[0].slices, size) == buffers[0]
  {
    LaidIn(mem, infos, buffers, start, size);
    Window(Flatten(mem), start, buffers[0], Flatten(buffers[1..]), Flatten(buffers));
    ReadCut(mem, start, |buffers[0]|, size);
  }

  lemma ReadAllStep(mem: seq<seq<byte>>, infos: seq<ColumnInfo>, buffers: seq<seq<byte>>, size: nat)
    requires Chunked(mem, size) && infos != [] && AllFit(infos, |mem|, size) && AllFit(infos[1..], |mem|, size) && buffers != []
    requires ReadSlices(mem, infos[0].slices, size) == buffers[0] && ReadAll(mem, infos[1..], size) == buffers[1..]
    ensures ReadAll(mem, infos, size) == buffers
  {
    assert [buffers[0]] + buffers[1..] == buffers;
  }

  /** Packing round trip: whatever the chunks held before, writing any list of buffers through its
      layout and reading it back gives every buffer byte for byte. */
  lemma RoundTrip(mem: seq<seq<byte>>, infos: seq<ColumnInfo>, buffers: seq<seq<byte>>, size: nat)
    requires size > 0 && Chunked(mem, size) && |mem| == ChunksNeeded(Sum(Lengths(buffers)), size)
    requires infos == Layout(Lengths(buffers), 0, size)
    ensures AllFit(infos, |mem|, size)
    ensures forall b :: 0 <= b < |buffers| ==> infos[b].useSize == |buffers[b]|
    ensures ReadAll(WriteAll(mem, infos, buffers, size), infos, size) == buffers
  {
    NeededHolds(Sum(Lengths(buffers)), size);
    FlattenLength(buffers);
    FlatSize(mem, size);
    WriteAllIsFlat(mem, infos, buffers, 0, size);
    var mem', all := WriteAll(mem, infos, buffers, size), Flatten(buffers);
    assert Patch(Flatten(mem), 0, all)[0..|all|] == all;
    ReadAllIsFlat(mem', infos, buffers, 0, size);
  }

  lemma NeededHolds(total: nat, size: nat)
    requires size > 0
    ensures total <= ChunksNeeded(total, size) * size
  {
    if total > 0 {
      var n := total + size - 1;
      assert n == (n / size) * size + n % size;
    }
  }
}
