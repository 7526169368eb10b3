/** Range partitioning for the distributed sort: pivots from samples, every sorted table cut at the
    pivots, each cut sent to a node (and, there, to one of its output caches), each cache merged, and
    the results read in node and cache order. */
module DistributedSort {
  import opened Collections
  import opened SortOrder

  // ---------------------------------------------------------------- pivots

  function PivotIndexes(rows: nat, n: nat): seq<nat>
    requires n >= 1
  {
    var step: nat := rows / n;
    seq(if rows > 0 then n - 1 else 0, i requires i >= 0 => (i + 1) * step)
  }

  /** The first pivot is the sample at rows / n, and each is rows / n after the one before. */
  lemma PivotsSpaced(rows: nat, n: nat, i: nat)
    requires n >= 1 && i < |PivotIndexes(rows, n)|
    ensures PivotIndexes(rows, n)[i] == rows / n + if i == 0 then 0 else PivotIndexes(rows, n)[i - 1]
  {
    var step := rows / n;
    assert (i + 1) * step == i * step + step;
  }

  /** There are n - 1 pivots (none without samples), each taken from inside the samples, in order. */
  lemma PivotsInBounds(rows: nat, n: nat)
    requires n >= 1
    ensures |PivotIndexes(rows, n)| == if rows > 0 then n - 1 else 0
    ensures forall i :: 0 <= i < |PivotIndexes(rows, n)| ==> PivotIndexes(rows, n)[i] < rows
    ensures forall i, j :: 0 <= i < j < |PivotIndexes(rows, n)| ==> PivotIndexes(rows, n)[i] <= PivotIndexes(rows, n)[j]
  {
    var step, ps := rows / n, PivotIndexes(rows, n);
    forall i | 0 <= i < |ps|
      ensures ps[i] < rows
    {
      PivotInBounds(rows, n, step, i + 1);
    }
    forall i, j | 0 <= i < j < |ps|
      ensures ps[i] <= ps[j]
    {
      Scaled(i + 1, j + 1, step);
    }
  }

  lemma Scaled(a: nat, b: nat, step: nat)
    requires a <= b
    ensures a * step <= b * step
  {
  }

  lemma PivotInBounds(rows: nat, n: nat, step: nat, i: nat)
    requires i < n && rows > 0 && step == rows / n
    ensures i * step < rows
  {
    assert n * step <= rows;
    if step > 0 {
      Scaled(i + 1, n, step);
      assert (i + 1) * step == i * step + step;
    }
  }

  /** The index vector: counted up from 1, then scaled in place. */
  method MakePivotIndexes(rows: nat, n: nat) returns (sequence: seq<nat>)
    requires n >= 1
    ensures |sequence| == if rows > 0 then n - 1 else 0
    ensures forall i :: 0 <= i < |sequence| ==> sequence[i] == (i + 1) * (rows / n)
    ensures sequence == PivotIndexes(rows, n)
  {
    var size := if rows > 0 then n - 1 else 0;
    var step: nat := rows / n;
    sequence := [];
    for i := 0 to size
      invariant |sequence| == i && forall j :: 0 <= j < i ==> sequence[j] == j + 1
    {
      sequence := sequence + [i + 1];
    }
    for i := 0 to size
      invariant |sequence| == size
      invariant forall j :: 0 <= j < size ==> sequence[j] == if j < i then (j + 1) * step else j + 1
    {
      sequence := sequence[i := sequence[i] * step];
    }
  }

  /** The i-th pivot is the sample at (i + 1) * (rows / n). */
  ghost predicate IsPivot(samples: seq<Key>, n: nat, i: nat, pivot: Key)
    requires n >= 1
  {
    var k := (i + 1) * (|samples| / n);
    0 <= k < |samples| && pivot == samples[k]
  }

  /** getPivotPointsTable. */
  method GetPivotPoints(le: Leq, n: nat, samples: seq<Key>) returns (pivots: seq<Key>)
    requires n >= 1 && TotalOrder(le) && SortedKeys(le, samples)
    ensures |pivots| == if samples == [] then 0 else n - 1
    ensures forall i :: 0 <= i < |pivots| ==> IsPivot(samples, n, i, pivots[i])
    ensures SortedKeys(le, pivots)
  {
    PivotsInBounds(|samples|, n);
    var indexes := MakePivotIndexes(|samples|, n);
    pivots := GatherKeys(samples, indexes);
    GatheredSorted(le, samples, indexes, pivots);
  }

  /** cudf::gather. */
  method GatherKeys(samples: seq<Key>, indexes: seq<nat>) returns (keys: seq<Key>)
    requires forall i :: 0 <= i < |indexes| ==> indexes[i] < |samples|
    ensures |keys| == |indexes| && forall i :: 0 <= i < |keys| ==> keys[i] == samples[indexes[i]]
  {
    keys := [];
    for i := 0 to |indexes|
      invariant |keys| == i && forall j :: 0 <= j < i ==> keys[j] == samples[indexes[j]]
    {
      keys := keys + [samples[indexes[i]]];
    }
  }

  lemma GatheredSorted(le: Leq, samples: seq<Key>, indexes: seq<nat>, keys: seq<Key>)
    requires TotalOrder(le) && SortedKeys(le, samples) && |keys| == |indexes|
    requires forall i :: 0 <= i < |indexes| ==> indexes[i] < |samples| && keys[i] == samples[indexes[i]]
    requires forall i, j :: 0 <= i < j < |indexes| ==> indexes[i] <= indexes[j]
    ensures SortedKeys(le, keys)
  {
    forall a, b | 0 <= a < b < |keys|
      ensures le(keys[a], keys[b])
    {
      Total(le, keys[a], keys[a]);
    }
  }

  // ---------------------------------------------------------------- cutting a table at the pivots

  /** cudf::upper_bound of one pivot in a sorted table. */
  function UpperBound(le: Leq, t: Table, pivot: Key): (n: nat)
    ensures n <= |t|
    ensures forall i :: 0 <= i < n ==> le(t[i].key, pivot)
    ensures n < |t| ==> !le(t[n].key, pivot)
  {
    if t != [] && le(t[0].key, pivot) then
      var n := UpperBound(le, t[1..], pivot);
      assert forall i :: 1 <= i < |t| ==> t[i] == t[1..][i - 1];
      1 + n
    else 0
  }

  lemma AboveBound(le: Leq, t: Table, pivot: Key, i: nat)
    requires TotalOrder(le)
    requires Sorted(le, t) && UpperBound(le, t, pivot) <= i < |t|
    ensures !le(t[i].key, pivot)
  {
    var n := UpperBound(le, t, pivot);
    if n < i && le(t[i].key, pivot) {
      Transitive(le, t[n].key, t[i].key, pivot);
    }
  }

  lemma BoundsIncrease(le: Leq, t: Table, p: Key, q: Key)
    requires TotalOrder(le)
    requires Sorted(le, t) && le(p, q)
    ensures UpperBound(le, t, p) <= UpperBound(le, t, q)
  {
    var m, n := UpperBound(le, t, p), UpperBound(le, t, q);
    if n < m {
      Transitive(le, t[n].key, p, q);
    }
  }

  /** Where partition p starts. */
  function Cut(le: Leq, t: Table, pivots: seq<Key>, p: nat): (n: nat)
    requires p <= |pivots| + 1
    ensures n <= |t|
  {
    if p == 0 then 0 else if p == |pivots| + 1 then |t| else UpperBound(le, t, pivots[p - 1])
  }

  lemma CutsIncrease(le: Leq, t: Table, pivots: seq<Key>, p: nat)
    requires TotalOrder(le)
    requires Sorted(le, t) && SortedKeys(le, pivots) && p <= |pivots|
    ensures Cut(le, t, pivots, p) <= Cut(le, t, pivots, p + 1)
  {
    if 0 < p < |pivots| {
      BoundsIncrease(le, t, pivots[p - 1], pivots[p]);
    }
  }

  /** Partition p: cudf::split at the upper bounds. */
  function Part(le: Leq, t: Table, pivots: seq<Key>, p: nat): Table
    requires p <= |pivots|
  {
    var lo, hi := Cut(le, t, pivots, p), Cut(le, t, pivots, p + 1);
    if lo <= hi then t[lo..hi] else []
  }

  function Parts(le: Leq, t: Table, pivots: seq<Key>): (r: seq<Table>)
    ensures |r| == |pivots| + 1 && forall p :: 0 <= p < |r| ==> r[p] == Part(le, t, pivots, p)
  {
    seq(|pivots| + 1, p requires 0 <= p < |pivots| + 1 => Part(le, t, pivots, p))
  }

  ghost predicate IsSlice(t: Table, cuts: seq<nat>, parts: seq<Table>, q: nat)
    requires q < |parts| && |cuts| == |parts| + 1
  {
    cuts[q] <= cuts[q + 1] <= |t| && parts[q] == t[cuts[q]..cuts[q + 1]]
  }

  /** Consecutive slices of a table, put back together up to slice p. */
  lemma {:induction false} SlicesMake(t: Table, cuts: seq<nat>, parts: seq<Table>, p: nat)
    requires p <= |parts| && |cuts| == |parts| + 1 && cuts[0] == 0
    requires forall q :: 0 <= q < |parts| ==> IsSlice(t, cuts, parts, q)
    ensures cuts[p] <= |t| && FlattenUpTo(parts, p) == t[..cuts[p]]
  {
    if p == 0 {
    } else {
      SlicesMake(t, cuts, parts, p - 1);
      assert IsSlice(t, cuts, parts, p - 1);
      NextSlice(t, cuts[p - 1], cuts[p]);
    }
  }

  lemma NextSlice(t: Table, lo: nat, hi: nat)
    requires lo <= hi <= |t|
    ensures t[..lo] + t[lo..hi] == t[..hi]
  {
  }

  /** The partitions of a sorted table, put back together, are the table. */
  lemma PartsMakeTable(le: Leq, t: Table, pivots: seq<Key>)
    requires TotalOrder(le)
    requires Sorted(le, t) && SortedKeys(le, pivots)
    ensures Flatten(Parts(le, t, pivots)) == t
  {
    var parts := Parts(le, t, pivots);
    var cuts := seq(|parts| + 1, p requires 0 <= p <= |parts| => Cut(le, t, pivots, p));
    forall q | 0 <= q < |parts|
      ensures IsSlice(t, cuts, parts, q)
    {
      CutsIncrease(le, t, pivots, q);
    }
    SlicesMake(t, cuts, parts, |parts|);
    FlattenUpToAll(parts);
    assert t[..|t|] == t;
  }

  /** Rows equal to a pivot belong to the partition before it, in every table. */
  ghost predicate InRange(le: Leq, pivots: seq<Key>, p: nat, x: Row)
    requires p <= |pivots|
  {
    && (p > 0 ==> !le(x.key, pivots[p - 1]))
    && (p < |pivots| ==> le(x.key, pivots[p]))
  }

  lemma PartInRange(le: Leq, t: Table, pivots: seq<Key>, p: nat, x: Row)
    requires TotalOrder(le)
    requires Sorted(le, t) && p <= |pivots| && x in Part(le, t, pivots, p)
    ensures InRange(le, pivots, p, x)
  {
    var i := PartIndex(le, t, pivots, p, x);
    if p > 0 {
      AboveBound(le, t, pivots[p - 1], i);
    }
  }

  lemma PartIndex(le: Leq, t: Table, pivots: seq<Key>, p: nat, x: Row) returns (i: nat)
    requires p <= |pivots| && x in Part(le, t, pivots, p)
    ensures Cut(le, t, pivots, p) <= i < Cut(le, t, pivots, p + 1) && t[i] == x
  {
    var lo, hi := Cut(le, t, pivots, p), Cut(le, t, pivots, p + 1);
    var k :| 0 <= k < hi - lo && t[lo..hi][k] == x;
    i := lo + k;
  }

  lemma RangesOrdered(le: Leq, pivots: seq<Key>, p: nat, q: nat, x: Row, y: Row)
    requires TotalOrder(le)
    requires SortedKeys(le, pivots) && p < q <= |pivots|
    requires InRange(le, pivots, p, x) && InRange(le, pivots, q, y)
    ensures le(x.key, y.key)
  {
    Total(le, y.key, pivots[q - 1]);
    if p < q - 1 {
      Transitive(le, x.key, pivots[p], pivots[q - 1]);
    }
    Transitive(le, x.key, pivots[q - 1], y.key);
  }

  // ---------------------------------------------------------------- sending partitions to buckets

  /** What bucket b receives of the first p of these partitions. */
  function Sent(parts: seq<Table>, assign: seq<nat>, b: nat, p: nat): Table
    requires p <= |assign| == |parts|
  {
    if p == 0 then []
    else Sent(parts, assign, b, p - 1) + if assign[p - 1] == b then parts[p - 1] else []
  }

  /** What bucket b receives of all tables. */
  function Arrived(le: Leq, tables: seq<Table>, pivots: seq<Key>, assign: seq<nat>, b: nat): Table
    requires |assign| == |pivots| + 1
  {
    if tables == [] then []
    else Sent(Parts(le, tables[0], pivots), assign, b, |assign|) + Arrived(le, tables[1..], pivots, assign, b)
  }

  /** sortedMerger by cudf::merge's contract: sorted, and the rows that arrived, in whatever order they did. */
  ghost predicate IsMerge(le: Leq, arrived: Table, out: Table)
  {
    Sorted(le, out) && multiset(out) == multiset(arrived)
  }

  ghost predicate Merged(le: Leq, tables: seq<Table>, pivots: seq<Key>, assign: seq<nat>, outs: seq<Table>)
    requires |assign| == |pivots| + 1
  {
    forall b :: 0 <= b < |outs| ==> IsMerge(le, Arrived(le, tables, pivots, assign, b), outs[b])
  }

  ghost predicate Assigns(assign: seq<nat>, buckets: nat)
  {
    forall i :: 0 <= i < |assign| ==> assign[i] < buckets
  }

  ghost predicate Monotone(assign: seq<nat>)
  {
    forall i, j :: 0 <= i < j < |assign| ==> assign[i] <= assign[j]
  }

  ghost predicate AllSorted(le: Leq, tables: seq<Table>)
  {
    forall w :: 0 <= w < |tables| ==> Sorted(le, tables[w])
  }

  // ---------------------------------------------------------------- permutation

  ghost function SumSent(parts: seq<Table>, assign: seq<nat>, buckets: nat, p: nat): multiset<Row>
    requires p <= |assign| == |parts|
  {
    if buckets == 0 then multiset{}
    else SumSent(parts, assign, buckets - 1, p) + multiset(Sent(parts, assign, buckets - 1, p))
  }

  lemma {:induction false} SumSentStep(parts: seq<Table>, assign: seq<nat>, buckets: nat, p: nat)
    requires 0 < p <= |assign| == |parts|
    ensures SumSent(parts, assign, buckets, p)
         == SumSent(parts, assign, buckets, p - 1) + if assign[p - 1] < buckets then multiset(parts[p - 1]) else multiset{}
  {
    if buckets > 0 {
      SumSentStep(parts, assign, buckets - 1, p);
    }
  }

  lemma {:induction false} SumSentNone(parts: seq<Table>, assign: seq<nat>, buckets: nat)
    requires |assign| == |parts|
    ensures SumSent(parts, assign, buckets, 0) == multiset{}
  {
    if buckets == 0 {
    } else {
      SumSentNone(parts, assign, buckets - 1);
    }
  }

  /** No row is lost or sent twice, whatever the assignment. */
  lemma {:induction false} SentOnce(parts: seq<Table>, assign: seq<nat>, buckets: nat, p: nat)
    requires p <= |assign| == |parts| && Assigns(assign, buckets)
    ensures SumSent(parts, assign, buckets, p) == multiset(FlattenUpTo(parts, p))
  {
    if p == 0 {
      SumSentNone(parts, assign, buckets);
    } else {
      SentOnce(parts, assign, buckets, p - 1);
      SentOnceStep(parts, assign, buckets, p, FlattenUpTo(parts, p - 1), FlattenUpTo(parts, p));
    }
  }

  lemma SentOnceStep(parts: seq<Table>, assign: seq<nat>, buckets: nat, p: nat, before: Table, after: Table)
    requires 0 < p <= |assign| == |parts| && Assigns(assign, buckets)
    requires SumSent(parts, assign, buckets, p - 1) == multiset(before) && after == before + parts[p - 1]
    ensures SumSent(parts, assign, buckets, p) == multiset(after)
  {
    SumSentAdds(parts, assign, buckets, p);
    Together(SumSent(parts, assign, buckets, p - 1), before, parts[p - 1], after);
  }

  lemma Together(sum: multiset<Row>, s: Table, t: Table, all: Table)
    requires sum == multiset(s) && all == s + t
    ensures multiset(all) == sum + multiset(t)
  {
  }

  lemma SumSentAdds(parts: seq<Table>, assign: seq<nat>, buckets: nat, p: nat)
    requires 0 < p <= |assign| == |parts| && assign[p - 1] < buckets
    ensures SumSent(parts, assign, buckets, p) == SumSent(parts, assign, buckets, p - 1) + multiset(parts[p - 1])
  {
    SumSentStep(parts, assign, buckets, p);
  }

  ghost function SumArrived(le: Leq, tables: seq<Table>, pivots: seq<Key>, assign: seq<nat>, buckets: nat): multiset<Row>
    requires |assign| == |pivots| + 1
  {
    if buckets == 0 then multiset{}
    else SumArrived(le, tables, pivots, assign, buckets - 1) + multiset(Arrived(le, tables, pivots, assign, buckets - 1))
  }

  lemma Exchange(a: multiset<Row>, b: multiset<Row>, sum: multiset<Row>, s: Table, t: Table, all: Table)
    requires all == s + t && sum == a + b
    ensures sum + multiset(all) == (a + multiset(s)) + (b + multiset(t))
  {
  }

  lemma {:induction false} SumArrivedStep(le: Leq, t: Table, rest: seq<Table>, pivots: seq<Key>, assign: seq<nat>, buckets: nat)
    requires |assign| == |pivots| + 1
    ensures SumArrived(le, [t] + rest, pivots, assign, buckets)
         == SumSent(Parts(le, t, pivots), assign, buckets, |assign|) + SumArrived(le, rest, pivots, assign, buckets)
  {
    if buckets == 0 {
    } else {
      var b, parts, tables := buckets - 1, Parts(le, t, pivots), [t] + rest;
      SumArrivedStep(le, t, rest, pivots, assign, b);
      ArrivedNext(le, t, rest, pivots, assign, b);
      BothSums(le, tables, rest, pivots, parts, assign, b);
    }
  }

  lemma BothSums(le: Leq, tables: seq<Table>, rest: seq<Table>, pivots: seq<Key>, parts: seq<Table>, assign: seq<nat>, b: nat)
    requires |assign| == |pivots| + 1 == |parts|
    requires SumArrived(le, tables, pivots, assign, b)
          == SumSent(parts, assign, b, |assign|) + SumArrived(le, rest, pivots, assign, b)
    requires Arrived(le, tables, pivots, assign, b) == Sent(parts, assign, b, |assign|) + Arrived(le, rest, pivots, assign, b)
    ensures SumArrived(le, tables, pivots, assign, b + 1)
         == SumSent(parts, assign, b + 1, |assign|) + SumArrived(le, rest, pivots, assign, b + 1)
  {
    Exchange(SumSent(parts, assign, b, |assign|), SumArrived(le, rest, pivots, assign, b),
             SumArrived(le, tables, pivots, assign, b), Sent(parts, assign, b, |assign|),
             Arrived(le, rest, pivots, assign, b), Arrived(le, tables, pivots, assign, b));
  }

  lemma ArrivedNext(le: Leq, t: Table, rest: seq<Table>, pivots: seq<Key>, assign: seq<nat>, b: nat)
    requires |assign| == |pivots| + 1
    ensures Arrived(le, [t] + rest, pivots, assign, b)
         == Sent(Parts(le, t, pivots), assign, b, |assign|) + Arrived(le, rest, pivots, assign, b)
  {
    assert ([t] + rest)[1..] == rest;
  }

  lemma {:induction false} SumArrivedNone(le: Leq, pivots: seq<Key>, assign: seq<nat>, buckets: nat)
    requires |assign| == |pivots| + 1
    ensures SumArrived(le, [], pivots, assign, buckets) == multiset{}
  {
    if buckets == 0 {
    } else {
      SumArrivedNone(le, pivots, assign, buckets - 1);
    }
  }

  lemma {:induction false} ArrivedOnce(le: Leq, tables: seq<Table>, pivots: seq<Key>, assign: seq<nat>, buckets: nat)
    requires TotalOrder(le)
    requires AllSorted(le, tables) && SortedKeys(le, pivots)
    requires |assign| == |pivots| + 1 && Assigns(assign, buckets)
    ensures SumArrived(le, tables, pivots, assign, buckets) == multiset(Flatten(tables))
  {
    if tables == [] {
      SumArrivedNone(le, pivots, assign, buckets);
    } else {
      assert tables == [tables[0]] + tables[1..];
      SumArrivedStep(le, tables[0], tables[1..], pivots, assign, buckets);
      var parts := Parts(le, tables[0], pivots);
      SentOnce(parts, assign, buckets, |assign|);
      FlattenUpToAll(parts);
      PartsMakeTable(le, tables[0], pivots);
      ArrivedOnce(le, tables[1..], pivots, assign, buckets);
    }
  }

  lemma {:induction false} FlattenMerged(le: Leq, tables: seq<Table>, pivots: seq<Key>, assign: seq<nat>, outs: seq<Table>, n: nat)
    requires |assign| == |pivots| + 1 && Merged(le, tables, pivots, assign, outs) && n <= |outs|
    ensures multiset(FlattenUpTo(outs, n)) == SumArrived(le, tables, pivots, assign, n)
  {
    if n == 0 {
    } else {
      FlattenMerged(le, tables, pivots, assign, outs, n - 1);
      MergedStep(le, tables, pivots, assign, outs, n, FlattenUpTo(outs, n - 1), FlattenUpTo(outs, n));
    }
  }

  lemma MergedStep(le: Leq, tables: seq<Table>, pivots: seq<Key>, assign: seq<nat>, outs: seq<Table>, n: nat, before: Table, after: Table)
    requires |assign| == |pivots| + 1 && Merged(le, tables, pivots, assign, outs) && 0 < n <= |outs|
    requires multiset(before) == SumArrived(le, tables, pivots, assign, n - 1) && after == before + outs[n - 1]
    ensures multiset(after) == SumArrived(le, tables, pivots, assign, n)
  {
    assert IsMerge(le, Arrived(le, tables, pivots, assign, n - 1), outs[n - 1]);
    Together(SumArrived(le, tables, pivots, assign, n - 1), before, outs[n - 1], after);
  }

  // ---------------------------------------------------------------- order

  lemma {:induction false} SentFrom(parts: seq<Table>, assign: seq<nat>, b: nat, p: nat, x: Row) returns (i: nat)
    requires p <= |assign| == |parts| && x in Sent(parts, assign, b, p)
    ensures i < |assign| && assign[i] == b && x in parts[i]
  {
    if x in Sent(parts, assign, b, p - 1) {
      i := SentFrom(parts, assign, b, p - 1, x);
    } else {
      i := p - 1;
    }
  }

  lemma {:induction false} ArrivedInRange(le: Leq, tables: seq<Table>, pivots: seq<Key>, assign: seq<nat>, b: nat, x: Row) returns (i: nat)
    requires TotalOrder(le)
    requires AllSorted(le, tables) && |assign| == |pivots| + 1 && x in Arrived(le, tables, pivots, assign, b)
    ensures i < |assign| && assign[i] == b && InRange(le, pivots, i, x)
  {
    var parts := Parts(le, tables[0], pivots);
    if x in Sent(parts, assign, b, |assign|) {
      i := SentFrom(parts, assign, b, |assign|, x);
      PartInRange(le, tables[0], pivots, i, x);
    } else {
      i := ArrivedInRange(le, tables[1..], pivots, assign, b, x);
    }
  }

  /** Every row of an earlier bucket is at most every row of a later one. */
  ghost predicate BucketsOrdered(le: Leq, outs: seq<Table>)
  {
    forall b, c, x, y :: 0 <= b < c < |outs| && x in outs[b] && y in outs[c] ==> le(x.key, y.key)
  }

  lemma MonotoneOrdersBuckets(le: Leq, tables: seq<Table>, pivots: seq<Key>, assign: seq<nat>, outs: seq<Table>)
    requires TotalOrder(le)
    requires AllSorted(le, tables) && SortedKeys(le, pivots) && |assign| == |pivots| + 1
    requires Monotone(assign) && Merged(le, tables, pivots, assign, outs)
    ensures BucketsOrdered(le, outs)
  {
    forall b, c, x, y | 0 <= b < c < |outs| && x in outs[b] && y in outs[c]
      ensures le(x.key, y.key)
    {
      assert x in multiset(outs[b]) && y in multiset(outs[c]);
      assert x in multiset(Arrived(le, tables, pivots, assign, b)) && y in multiset(Arrived(le, tables, pivots, assign, c));
      var i := ArrivedInRange(le, tables, pivots, assign, b, x);
      var j := ArrivedInRange(le, tables, pivots, assign, c, y);
      RangesOrdered(le, pivots, i, j, x, y);
    }
  }

  lemma {:induction false} InFlatten(outs: seq<Table>, x: Row) returns (b: nat)
    requires x in Flatten(outs)
    ensures b < |outs| && x in outs[b]
  {
    if x in outs[0] {
      b := 0;
    } else {
      b := InFlatten(outs[1..], x);
      b := b + 1;
    }
  }

  lemma {:induction false} FlattenSorted(le: Leq, outs: seq<Table>)
    requires AllSorted(le, outs) && BucketsOrdered(le, outs)
    ensures Sorted(le, Flatten(outs))
  {
    if outs == [] {
    } else {
      var first, rest := outs[0], Flatten(outs[1..]);
      assert BucketsOrdered(le, outs[1..]) by {
        forall b, c, x, y | 0 <= b < c < |outs[1..]| && x in outs[1..][b] && y in outs[1..][c]
          ensures le(x.key, y.key)
        {
          assert x in outs[b + 1] && y in outs[c + 1];
        }
      }
      FlattenSorted(le, outs[1..]);
      var all: Table := first + rest;
      forall i, j | 0 <= i < j < |all|
        ensures le(all[i].key, all[j].key)
      {
        if i < |first| <= j {
          var y := rest[j - |first|];
          var c := InFlatten(outs[1..], y);
          assert first[i] in outs[0] && y in outs[c + 1];
        }
      }
    }
  }

  /** Distributed sort: any number of locally sorted tables, cut at shared sorted pivots, sent to buckets
      in partition order, merged bucket by bucket and read in bucket order, is a sorted permutation of
      all rows, rows equal to a pivot included. */
  lemma DistributedSortIsCorrect(le: Leq, tables: seq<Table>, pivots: seq<Key>, assign: seq<nat>, outs: seq<Table>)
    requires TotalOrder(le)
    requires AllSorted(le, tables) && SortedKeys(le, pivots)
    requires |assign| == |pivots| + 1 && Assigns(assign, |outs|) && Merged(le, tables, pivots, assign, outs)
    ensures multiset(Flatten(outs)) == multiset(Flatten(tables))
    ensures Monotone(assign) ==> Sorted(le, Flatten(outs))
  {
    ArrivedOnce(le, tables, pivots, assign, |outs|);
    FlattenMerged(le, tables, pivots, assign, outs, |outs|);
    FlattenUpToAll(outs);
    if Monotone(assign) {
      MonotoneOrdersBuckets(le, tables, pivots, assign, outs);
      assert AllSorted(le, outs) by {
        forall b | 0 <= b < |outs| ensures Sorted(le, outs[b]) {
          assert IsMerge(le, Arrived(le, tables, pivots, assign, b), outs[b]);
        }
      }
      FlattenSorted(le, outs);
    }
  }
}
