/** Cached tables: where a table is held, how it gets there and back, and its downgrade from the GPU. */
module CacheData {
  import opened Collections
  import opened Packing

  /** A row is its bytes; cuDF's column layout inside a buffer is not modelled, so the packer is
      handed one buffer per row. */
  type Row = seq<byte>
  type Table = seq<Row>

  function TableBytes(t: Table): nat
  {
    Sum(Lengths(t))
  }

  /** A BlazingHostTable: slices, and the contents of the chunks they point into. */
  datatype HostTable = HostTable(infos: seq<ColumnInfo>, chunks: seq<seq<byte>>, size: nat)

  datatype CacheData =
    | GPU(table: Table)
    | CPU(host: HostTable)
    | Disk(file: Table)
    | Concat(parts: seq<CacheData>)

  ghost predicate HostOk(h: HostTable)
  {
    h.size > 0 && Chunked(h.chunks, h.size) && AllFit(h.infos, |h.chunks|, h.size)
  }

  ghost predicate Ok(d: CacheData)
  {
    match d
    case CPU(h) => HostOk(h)
    case Concat(parts) => forall i :: 0 <= i < |parts| ==> Ok(parts[i])
    case _ => true
  }

  function Decache(d: CacheData): Table
    requires Ok(d)
    decreases d, 1
  {
    match d
    case GPU(t) => t
    case CPU(h) => ReadAll(h.chunks, h.infos, h.size)
    case Disk(t) => t
    case Concat(parts) => Flatten(DecacheAll(parts))
  }

  function DecacheAll(parts: seq<CacheData>): (r: seq<Table>)
    requires forall i :: 0 <= i < |parts| ==> Ok(parts[i])
    ensures |r| == |parts| && forall i :: 0 <= i < |parts| ==> r[i] == Decache(parts[i])
    decreases parts, 0
  {
    if parts == [] then [] else [Decache(parts[0])] + DecacheAll(parts[1..])
  }

  function UseSizes(infos: seq<ColumnInfo>): seq<nat>
  {
    seq(|infos|, i requires 0 <= i < |infos| => infos[i].useSize)
  }

  function NumRows(d: CacheData): nat
    decreases d, 1
  {
    match d
    case GPU(t) => |t|
    case CPU(h) => |h.infos|
    case Disk(t) => |t|
    case Concat(parts) => SumRows(parts)
  }

  function SumRows(parts: seq<CacheData>): nat
    decreases parts, 0
  {
    if parts == [] then 0 else NumRows(parts[0]) + SumRows(parts[1..])
  }

  function SizeInBytes(d: CacheData): nat
    decreases d, 1
  {
    match d
    case GPU(t) => TableBytes(t)
    case CPU(h) => Sum(UseSizes(h.infos))
    case Disk(t) => TableBytes(t)
    case Concat(parts) => SumBytes(parts)
  }

  function SumBytes(parts: seq<CacheData>): nat
    decreases parts, 0
  {
    if parts == [] then 0 else SizeInBytes(parts[0]) + SumBytes(parts[1..])
  }

  // ---------------------------------------------------------------- the host tier

  /** serialize_gpu_message_to_host_table, into chunks whatever they held (here: zeros). */
  function StoreHost(t: Table, size: nat): HostTable
    requires size > 0
  {
    var infos := Layout(Lengths(t), 0, size);
    var chunks := seq(ChunksNeeded(Sum(Lengths(t)), size), c => seq(size, i => 0 as byte));
    RoundTrip(chunks, infos, t, size);
    HostTable(infos, WriteAll(chunks, infos, t, size), size)
  }

  /** The host tier gives back exactly the table it was given: the packing round trip. */
  lemma StoreHostLoads(t: Table, size: nat)
    requires size > 0
    ensures Ok(CPU(StoreHost(t, size))) && Decache(CPU(StoreHost(t, size))) == t
  {
    var infos := Layout(Lengths(t), 0, size);
    var chunks := seq(ChunksNeeded(Sum(Lengths(t)), size), c => seq(size, i => 0 as byte));
    RoundTrip(chunks, infos, t, size);
  }

  lemma {:induction false} ReadAllShape(mem: seq<seq<byte>>, infos: seq<ColumnInfo>, size: nat)
    requires Chunked(mem, size) && AllFit(infos, |mem|, size)
    ensures |ReadAll(mem, infos, size)| == |infos| && Lengths(ReadAll(mem, infos, size)) == UseSizes(infos)
  {
    if infos == [] {
    } else {
      ReadAllShape(mem, infos[1..], size);
      ReadShape(mem, infos[0].slices, size);
      assert ReadAll(mem, infos, size)[1..] == ReadAll(mem, infos[1..], size);
      assert forall i :: 1 <= i < |infos| ==> UseSizes(infos)[i] == UseSizes(infos[1..])[i - 1];
      assert forall i :: 1 <= i < |infos| ==>
        Lengths(ReadAll(mem, infos, size))[i] == Lengths(ReadAll(mem, infos[1..], size))[i - 1];
    }
  }

  lemma {:induction false} ReadShape(mem: seq<seq<byte>>, slices: seq<Slice>, size: nat)
    requires Chunked(mem, size) && Fits(slices, |mem|, size)
    ensures |ReadSlices(mem, slices, size)| == Sum(Sizes(slices))
  {
    if slices == [] {
    } else {
      ReadShape(mem, slices[1..], size);
      assert Sizes(slices)[1..] == Sizes(slices[1..]);
    }
  }

  lemma BytesAppend(s: Table, t: Table)
    ensures TableBytes(s + t) == TableBytes(s) + TableBytes(t)
  {
    assert Lengths(s + t) == Lengths(s) + Lengths(t);
    SumAppend(Lengths(s), Lengths(t));
  }

  /** Row count and size describe the table that decache will produce, whatever the tier, and for a
      concatenation they are the sums over its parts. */
  lemma {:induction false} Accounting(d: CacheData)
    requires Ok(d)
    ensures NumRows(d) == |Decache(d)| && SizeInBytes(d) == TableBytes(Decache(d))
    decreases d, 1
  {
    match d
    case CPU(h) => ReadAllShape(h.chunks, h.infos, h.size);
    case Concat(parts) => AccountingAll(parts);
    case _ =>
  }

  lemma {:induction false} AccountingAll(parts: seq<CacheData>)
    requires forall i :: 0 <= i < |parts| ==> Ok(parts[i])
    ensures SumRows(parts) == |Flatten(DecacheAll(parts))| && SumBytes(parts) == TableBytes(Flatten(DecacheAll(parts)))
    decreases parts, 0
  {
    if parts == [] {
    } else {
      Accounting(parts[0]);
      AccountingAll(parts[1..]);
      BytesAppend(Decache(parts[0]), Flatten(DecacheAll(parts[1..])));
    }
  }

  // ---------------------------------------------------------------- downgrade

  /** CacheData::downgradeCacheData: off the GPU, into host memory if it has room, else to disk. */
  function Downgrade(d: CacheData, hostUsed: nat, hostLimit: nat, size: nat): CacheData
    requires size > 0
  {
    if !d.GPU? then d
    else if hostUsed + TableBytes(d.table) < hostLimit then CPU(StoreHost(d.table, size))
    else Disk(d.table)
  }

  /** A downgrade leaves nothing on the GPU and loses nothing: same table, same row count and size. A GPU
      table is in host memory afterwards exactly when that had room, else on disk; other data stays. */
  lemma DowngradeKeeps(d: CacheData, hostUsed: nat, hostLimit: nat, size: nat)
    requires size > 0 && Ok(d)
    ensures var d' := Downgrade(d, hostUsed, hostLimit, size);
            && !d'.GPU? && Ok(d') && Decache(d') == Decache(d)
            && NumRows(d') == NumRows(d) && SizeInBytes(d') == SizeInBytes(d)
            && (d.GPU? ==> (d'.CPU? <==> hostUsed + SizeInBytes(d) < hostLimit) && (d'.CPU? || d'.Disk?))
            && (!d.GPU? ==> d' == d)
  {
    if d.GPU? {
      StoreHostLoads(d.table, size);
      Accounting(d);
      Accounting(Downgrade(d, hostUsed, hostLimit, size));
    }
  }
}
