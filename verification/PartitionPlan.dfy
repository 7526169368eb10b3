/** Which node, and which of its output caches, a partition goes to; and for which numbers of partitions
    and nodes the distributed sort is right. */
module PartitionPlan {
  import opened Collections
  import opened SortOrder
  import opened DistributedSort

  // ---------------------------------------------------------------- partition arithmetic

  function NodeOf(i: nat, parts: nat, nodes: nat): (k: nat)
    requires 1 <= nodes <= parts
    ensures k < nodes
  {
    StepPositive(parts, nodes);
    var k := i / (parts / nodes);
    if k < nodes - 1 then k else nodes - 1
  }

  /** part_ids: the output cache at the node. */
  function SlotOf(i: nat, parts: nat, nodes: nat): (k: nat)
    requires 1 <= nodes <= parts
    ensures k < parts / nodes
  {
    StepPositive(parts, nodes);
    i % (parts / nodes)
  }

  lemma StepPositive(parts: nat, nodes: nat)
    requires 1 <= nodes <= parts
    ensures parts / nodes >= 1 && parts == nodes * (parts / nodes) + parts % nodes
  {
    var q, r := parts / nodes, parts % nodes;
    assert parts == nodes * q + r;
    assert q <= 0 ==> nodes * q <= 0;
  }

  lemma QuotientIs(i: nat, k: nat, step: nat)
    requires step > 0
    ensures i / step == k <==> k * step <= i < (k + 1) * step
    ensures i / step >= k <==> k * step <= i
  {
    var q := i / step;
    assert i == q * step + i % step;
    assert q < k ==> (q + 1) * step <= k * step;
    assert q > k ==> (k + 1) * step <= q * step;
    assert (k + 1) * step == k * step + step && (q + 1) * step == q * step + step;
  }

  /** Each node but the last gets exactly parts / nodes consecutive partitions; the last gets the rest,
      parts / nodes + parts % nodes of them. */
  lemma NodeShares(i: nat, k: nat, parts: nat, nodes: nat)
    requires 1 <= nodes <= parts && i < parts && k < nodes
    ensures var step := parts / nodes;
            && (k < nodes - 1 ==> (NodeOf(i, parts, nodes) == k <==> k * step <= i < (k + 1) * step))
            && (k == nodes - 1 ==> (NodeOf(i, parts, nodes) == k <==> k * step <= i))
            && parts - (nodes - 1) * step == step + parts % nodes
  {
    var step := parts / nodes;
    StepPositive(parts, nodes);
    QuotientIs(i, k, step);
    assert nodes * step == (nodes - 1) * step + step;
  }

  // ---------------------------------------------------------------- partitionData

  /** The partitions of a table that has rows, each with its node. */
  function Shares(le: Leq, t: Table, pivots: seq<Key>, nodes: nat): seq<(nat, Table)>
    requires 1 <= nodes <= |pivots| + 1
  {
    seq(|pivots| + 1, i requires 0 <= i < |pivots| + 1 => (NodeOf(i, |pivots| + 1, nodes), Part(le, t, pivots, i)))
  }

  /** partitionData. An empty table is sent to every node as it is; None is the exception for fewer
      partitions than nodes. */
  method PartitionData(le: Leq, t: Table, pivots: seq<Key>, nodes: nat) returns (r: Option<seq<(nat, Table)>>)
    requires nodes >= 1
    ensures r.None? <==> t != [] && nodes > |pivots| + 1
    ensures t == [] ==> |r.value| == nodes && forall k :: 0 <= k < nodes ==> r.value[k] == (k, [])
    ensures t != [] && nodes <= |pivots| + 1 ==> r.value == Shares(le, t, pivots, nodes)
  {
    if |t| == 0 {
      var views: seq<(nat, Table)> := [];
      for k := 0 to nodes
        invariant |views| == k && forall j :: 0 <= j < k ==> views[j] == (j, [])
      {
        views := views + [(k, t)];
      }
      return Some(views);
    }
    if nodes > |pivots| + 1 {
      return None;
    }
    var shares := Share(le, t, pivots, nodes);
    return Some(shares);
  }

  method Share(le: Leq, t: Table, pivots: seq<Key>, nodes: nat) returns (views: seq<(nat, Table)>)
    requires 1 <= nodes <= |pivots| + 1
    ensures views == Shares(le, t, pivots, nodes)
  {
    var parts := |pivots| + 1;
    ghost var shares := Shares(le, t, pivots, nodes);
    StepPositive(parts, nodes);
    var step := parts / nodes;
    views := [];
    for i := 0 to parts
      invariant |views| == i && forall j :: 0 <= j < i ==> views[j] == shares[j]
    {
      var node := i / step;
      if nodes - 1 < node {
        node := nodes - 1;
      }
      assert node == NodeOf(i, parts, nodes) && shares[i].0 == node;
      views := views + [(node, Part(le, t, pivots, i))];
    }
  }

  // ---------------------------------------------------------------- merging per node

  function NodeAssignment(parts: nat, nodes: nat): (a: seq<nat>)
    requires 1 <= nodes <= parts
    ensures |a| == parts && Assigns(a, nodes)
  {
    seq(parts, i requires 0 <= i < parts => NodeOf(i, parts, nodes))
  }

  /** What the list of (node, partition) pairs holds for one node. */
  function SharesFor(shares: seq<(nat, Table)>, k: nat): Table
  {
    if shares == [] then []
    else
      var (node, part) := shares[|shares| - 1];
      SharesFor(shares[..|shares| - 1], k) + if node == k then part else []
  }

  lemma SharesNext(shares: seq<(nat, Table)>, k: nat, p: nat)
    requires p < |shares|
    ensures SharesFor(shares[..p + 1], k) == SharesFor(shares[..p], k) + if shares[p].0 == k then shares[p].1 else []
  {
    assert shares[..p + 1][..p] == shares[..p];
  }

  /** What partitionData addresses to node k is what bucket k is sent under the node assignment. */
  lemma {:induction false} SharesAreSent(le: Leq, t: Table, pivots: seq<Key>, nodes: nat, k: nat, p: nat)
    requires 1 <= nodes <= |pivots| + 1 && p <= |pivots| + 1
    ensures SharesFor(Shares(le, t, pivots, nodes)[..p], k)
         == Sent(Parts(le, t, pivots), NodeAssignment(|pivots| + 1, nodes), k, p)
  {
    if p == 0 {
    } else {
      SharesAreSent(le, t, pivots, nodes, k, p - 1);
      SharesNext(Shares(le, t, pivots, nodes), k, p - 1);
    }
  }

  lemma NodesMonotone(parts: nat, nodes: nat)
    requires 1 <= nodes <= parts
    ensures Monotone(NodeAssignment(parts, nodes))
  {
    var step := parts / nodes;
    StepPositive(parts, nodes);
    forall i, j | 0 <= i < j < parts
      ensures NodeOf(i, parts, nodes) <= NodeOf(j, parts, nodes)
    {
      QuotientIs(i, i / step, step);
      QuotientIs(j, i / step, step);
    }
  }

  /** With one merge per node the distributed sort is right for every number of partitions and nodes. */
  lemma SortPerNode(le: Leq, tables: seq<Table>, pivots: seq<Key>, outs: seq<Table>)
    requires TotalOrder(le)
    requires AllSorted(le, tables) && SortedKeys(le, pivots) && 1 <= |outs| <= |pivots| + 1
    requires Merged(le, tables, pivots, NodeAssignment(|pivots| + 1, |outs|), outs)
    ensures Sorted(le, Flatten(outs)) && multiset(Flatten(outs)) == multiset(Flatten(tables))
  {
    NodesMonotone(|pivots| + 1, |outs|);
    DistributedSortIsCorrect(le, tables, pivots, NodeAssignment(|pivots| + 1, |outs|), outs);
  }

  // ---------------------------------------------------------------- merging per output cache

  /** Buckets are a node's output caches, node after node. */
  function CacheAssignment(parts: nat, nodes: nat): (a: seq<nat>)
    requires 1 <= nodes <= parts
    ensures |a| == parts
  {
    seq(parts, i requires 0 <= i < parts => NodeOf(i, parts, nodes) * (parts / nodes) + SlotOf(i, parts, nodes))
  }

  lemma CachesAssign(parts: nat, nodes: nat)
    requires 1 <= nodes <= parts
    ensures Assigns(CacheAssignment(parts, nodes), nodes * (parts / nodes))
  {
    var step := parts / nodes;
    forall i | 0 <= i < parts
      ensures CacheAssignment(parts, nodes)[i] < nodes * step
    {
      var k, slot := NodeOf(i, parts, nodes), SlotOf(i, parts, nodes);
      Scaled(k + 1, nodes, step);
      assert (k + 1) * step == k * step + step;
      assert CacheAssignment(parts, nodes)[i] == k * step + slot;
    }
  }

  predicate Even(parts: nat, nodes: nat)
    requires nodes >= 1
  {
    parts % nodes == 0 || parts / nodes == 1
  }

  lemma CachesMonotone(parts: nat, nodes: nat)
    requires 1 <= nodes <= parts && Even(parts, nodes)
    ensures Monotone(CacheAssignment(parts, nodes))
  {
    var step := parts / nodes;
    StepPositive(parts, nodes);
    NodesMonotone(parts, nodes);
    forall i, j | 0 <= i < j < parts
      ensures CacheAssignment(parts, nodes)[i] <= CacheAssignment(parts, nodes)[j]
    {
      assert NodeAssignment(parts, nodes)[i] <= NodeAssignment(parts, nodes)[j];
      if step == 1 {
        assert SlotOf(i, parts, nodes) == SlotOf(j, parts, nodes) == 0;
      } else {
        CacheIsPartition(i, parts, nodes);
        CacheIsPartition(j, parts, nodes);
      }
    }
  }

  lemma CacheIsPartition(i: nat, parts: nat, nodes: nat)
    requires 1 <= nodes <= parts && parts % nodes == 0 && i < parts
    ensures CacheAssignment(parts, nodes)[i] == i
  {
    var step := parts / nodes;
    StepPositive(parts, nodes);
    var q, r := i / step, i % step;
    assert i == q * step + r;
    QuotientIs(i, nodes, step);
  }

  /** Otherwise partition (nodes - 1) * step + 1 goes to a later cache than partition nodes * step. */
  lemma CachesCross(parts: nat, nodes: nat)
    requires 1 <= nodes <= parts && !Even(parts, nodes)
    ensures var step := parts / nodes;
            var i, j := (nodes - 1) * step + 1, nodes * step;
            0 <= i < j < parts && CacheAssignment(parts, nodes)[i] > CacheAssignment(parts, nodes)[j]
  {
    var step := parts / nodes;
    StepPositive(parts, nodes);
    assert nodes * step == (nodes - 1) * step + step;
    DivMod(nodes - 1, 1, step);
    DivMod(nodes, 0, step);
  }

  /** Every distributed sort with this many partitions and this assignment comes out sorted. */
  ghost predicate AlwaysSorts(parts: nat, assign: seq<nat>, buckets: nat)
    requires |assign| == parts
  {
    forall orders: seq<Order>, tables: seq<Table>, pivots: seq<Key>, outs: seq<Table> ::
      |outs| == buckets ==> ComesOutSorted(orders, tables, pivots, assign, outs)
  }

  ghost predicate ComesOutSorted(orders: seq<Order>, tables: seq<Table>, pivots: seq<Key>, assign: seq<nat>, outs: seq<Table>)
  {
    IsSort(Lex(orders), tables, pivots, assign, outs) ==> Sorted(Lex(orders), Flatten(outs))
  }

  /** One distributed sort: sorted tables and pivots, and every bucket merged. */
  ghost predicate IsSort(le: Leq, tables: seq<Table>, pivots: seq<Key>, assign: seq<nat>, outs: seq<Table>)
  {
    && |assign| == |pivots| + 1
    && AllSorted(le, tables)
    && SortedKeys(le, pivots)
    && Merged(le, tables, pivots, assign, outs)
  }

  /** A concrete input for any assignment that is not monotone: pivots 0, 1, 2, ... and one table
      with the two rows i and j. */
  function CountingPivots(n: nat): seq<Key>
  {
    seq(n, k => [Value(k)])
  }

  const ASCEND: Leq := Lex([Ascending])

  function Numbered(k: nat): Row
  {
    Row([Value(k)], 0)
  }

  lemma NumberedLe(a: nat, b: nat)
    ensures ASCEND([Value(a)], [Value(b)]) <==> a <= b
  {
    assert ASCEND([Value(a)], [Value(b)]) == Le([Ascending], [Value(a)], [Value(b)]);
    assert [Ascending][1..] == [];
  }

  lemma TwoRowBounds(i: nat, j: nat, k: nat)
    requires i < j
    ensures UpperBound(ASCEND, [Numbered(i), Numbered(j)], [Value(k)]) == if k < i then 0 else if k < j then 1 else 2
  {
    var t := [Numbered(i), Numbered(j)];
    NumberedLe(i, k);
    NumberedLe(j, k);
    assert t[1..] == [Numbered(j)] && t[1..][1..] == [];
  }

  lemma TwoRowParts(i: nat, j: nat, n: nat, p: nat)
    requires i < j <= n && p <= n
    ensures Part(ASCEND, [Numbered(i), Numbered(j)], CountingPivots(n), p)
         == if p == i then [Numbered(i)] else if p == j then [Numbered(j)] else []
  {
    if p > 0 { TwoRowBounds(i, j, p - 1); }
    if p < n { TwoRowBounds(i, j, p); }
  }

  /** Partition k brings bucket b nothing. */
  ghost predicate Silent(parts: seq<Table>, assign: seq<nat>, b: nat, k: nat)
    requires k < |assign| == |parts|
  {
    assign[k] != b || parts[k] == []
  }

  lemma SentSkips(parts: seq<Table>, assign: seq<nat>, b: nat, k: nat)
    requires k < |assign| == |parts| && Silent(parts, assign, b, k)
    ensures Sent(parts, assign, b, k + 1) == Sent(parts, assign, b, k)
  {
    var before := Sent(parts, assign, b, k);
    assert before + [] == before;
  }

  lemma SentFirst(parts: seq<Table>, assign: seq<nat>, b: nat, k: nat)
    requires k < |assign| == |parts| && assign[k] == b && Sent(parts, assign, b, k) == []
    ensures Sent(parts, assign, b, k + 1) == parts[k]
  {
    assert [] + parts[k] == parts[k];
  }

  lemma {:induction false} SentNothing(parts: seq<Table>, assign: seq<nat>, b: nat, lo: nat, p: nat)
    requires lo <= p <= |assign| == |parts| && forall k :: lo <= k < p ==> Silent(parts, assign, b, k)
    ensures Sent(parts, assign, b, p) == Sent(parts, assign, b, lo)
  {
    if p == lo {
    } else {
      SentNothing(parts, assign, b, lo, p - 1);
      SentSkips(parts, assign, b, p - 1);
    }
  }

  /** What a bucket gets of two partitions i < j that go to different buckets, the others being empty. */
  lemma TwoSent(parts: seq<Table>, assign: seq<nat>, i: nat, j: nat, b: nat)
    requires i < j < |parts| == |assign| && assign[i] != assign[j]
    requires forall k :: 0 <= k < |parts| && k != i && k != j ==> parts[k] == []
    ensures Sent(parts, assign, b, |assign|)
         == if assign[i] == b then parts[i] else if assign[j] == b then parts[j] else []
  {
    if assign[i] == b {
      OneSent(parts, assign, i, b);
    } else if assign[j] == b {
      OneSent(parts, assign, j, b);
    } else {
      SentNothing(parts, assign, b, 0, |assign|);
    }
  }

  lemma OneSent(parts: seq<Table>, assign: seq<nat>, i: nat, b: nat)
    requires i < |parts| == |assign| && assign[i] == b
    requires forall k :: 0 <= k < |parts| && k != i ==> Silent(parts, assign, b, k)
    ensures Sent(parts, assign, b, |assign|) == parts[i]
  {
    SentNothing(parts, assign, b, 0, i);
    SentFirst(parts, assign, b, i);
    SentNothing(parts, assign, b, i + 1, |assign|);
  }

  lemma {:induction false} SortedIsOrdered(le: Leq, outs: seq<Table>, b: nat, c: nat, x: Row, y: Row)
    requires Sorted(le, Flatten(outs)) && b < c < |outs| && x in outs[b] && y in outs[c]
    ensures le(x.key, y.key)
  {
    var first, rest := outs[0], Flatten(outs[1..]);
    var all: Table := first + rest;
    if b > 0 {
      assert forall i :: 0 <= i < |rest| ==> rest[i] == all[i + |first|];
      SortedIsOrdered(le, outs[1..], b - 1, c - 1, x, y);
    } else {
      InFlattenOf(outs[1..], c - 1, y);
      var i :| 0 <= i < |first| && first[i] == x;
      var j :| 0 <= j < |rest| && rest[j] == y;
      assert all[i] == x && all[|first| + j] == y;
    }
  }

  lemma {:induction false} InFlattenOf(outs: seq<Table>, c: nat, y: Row)
    requires c < |outs| && y in outs[c]
    ensures y in Flatten(outs)
  {
    if c == 0 {
    } else {
      InFlattenOf(outs[1..], c - 1, y);
    }
  }

  lemma TwoRowArrived(i: nat, j: nat, n: nat, assign: seq<nat>, b: nat)
    requires i < j <= n && |assign| == n + 1 && assign[i] != assign[j]
    ensures Arrived(ASCEND, [[Numbered(i), Numbered(j)]], CountingPivots(n), assign, b)
         == if assign[i] == b then [Numbered(i)] else if assign[j] == b then [Numbered(j)] else []
  {
    var t := [Numbered(i), Numbered(j)];
    var parts := Parts(ASCEND, t, CountingPivots(n));
    forall p | 0 <= p < |parts|
      ensures parts[p] == if p == i then [Numbered(i)] else if p == j then [Numbered(j)] else []
    {
      TwoRowParts(i, j, n, p);
    }
    TwoSent(parts, assign, i, j, b);
    ArrivedNext(ASCEND, t, [], CountingPivots(n), assign, b);
    assert [t] + [] == [t];
  }

  lemma TwoRowsAreSorted(i: nat, j: nat, n: nat)
    requires i < j
    ensures AllSorted(ASCEND, [[Numbered(i), Numbered(j)]]) && SortedKeys(ASCEND, CountingPivots(n))
  {
    NumberedLe(i, j);
    forall a, b | 0 <= a < b < n
      ensures ASCEND(CountingPivots(n)[a], CountingPivots(n)[b])
    {
      NumberedLe(a, b);
    }
  }

  /** The two-row sort: every bucket gets at most one row, so it is merged as it arrives. */
  lemma TwoRowSort(n: nat, assign: seq<nat>, i: nat, j: nat, outs: seq<Table>)
    requires |assign| == n + 1 && i < j <= n && assign[i] != assign[j]
    requires forall b :: 0 <= b < |outs| ==>
               outs[b] == if assign[i] == b then [Numbered(i)] else if assign[j] == b then [Numbered(j)] else []
    ensures IsSort(ASCEND, [[Numbered(i), Numbered(j)]], CountingPivots(n), assign, outs)
  {
    TwoRowsAreSorted(i, j, n);
    forall b | 0 <= b < |outs|
      ensures IsMerge(ASCEND, Arrived(ASCEND, [[Numbered(i), Numbered(j)]], CountingPivots(n), assign, b), outs[b])
    {
      TwoRowArrived(i, j, n, assign, b);
    }
  }

  lemma TwoRowsCross(assign: seq<nat>, i: nat, j: nat, outs: seq<Table>)
    requires i < j < |assign| && assign[j] < assign[i] < |outs|
    requires Numbered(i) in outs[assign[i]] && Numbered(j) in outs[assign[j]]
    ensures !Sorted(ASCEND, Flatten(outs))
  {
    NumberedLe(j, i);
    if Sorted(ASCEND, Flatten(outs)) {
      SortedIsOrdered(ASCEND, outs, assign[j], assign[i], Numbered(j), Numbered(i));
    }
  }

  /** What the buckets hold of the two rows. */
  function TwoRowOuts(assign: seq<nat>, i: nat, j: nat, buckets: nat): (outs: seq<Table>)
    requires i < j < |assign|
    ensures |outs| == buckets
    ensures forall b :: 0 <= b < buckets ==>
              outs[b] == if assign[i] == b then [Numbered(i)] else if assign[j] == b then [Numbered(j)] else []
  {
    seq(buckets, b requires 0 <= b < buckets =>
      if assign[i] == b then [Numbered(i)] else if assign[j] == b then [Numbered(j)] else [])
  }

  lemma TwoRowsFail(n: nat, assign: seq<nat>, i: nat, j: nat, outs: seq<Table>)
    requires |assign| == n + 1 && Assigns(assign, |outs|) && i < j <= n && assign[i] > assign[j]
    requires forall b :: 0 <= b < |outs| ==>
               outs[b] == if assign[i] == b then [Numbered(i)] else if assign[j] == b then [Numbered(j)] else []
    ensures !ComesOutSorted([Ascending], [[Numbered(i), Numbered(j)]], CountingPivots(n), assign, outs)
  {
    TwoRowSort(n, assign, i, j, outs);
    TwoRowsCross(assign, i, j, outs);
  }

  lemma CrossingBreaks(n: nat, assign: seq<nat>, buckets: nat, i: nat, j: nat)
    requires |assign| == n + 1 && Assigns(assign, buckets) && i < j <= n && assign[i] > assign[j]
    ensures !AlwaysSorts(n + 1, assign, buckets)
  {
    TwoRowsFail(n, assign, i, j, TwoRowOuts(assign, i, j, buckets));
  }

  lemma MonotoneSorts(orders: seq<Order>, tables: seq<Table>, pivots: seq<Key>, assign: seq<nat>, outs: seq<Table>)
    requires Assigns(assign, |outs|) && Monotone(assign)
    ensures ComesOutSorted(orders, tables, pivots, assign, outs)
  {
    var le := Lex(orders);
    LexIsTotal(orders);
    if IsSort(le, tables, pivots, assign, outs) {
      DistributedSortIsCorrect(le, tables, pivots, assign, outs);
    }
  }

  /** With one merge per output cache, as the kernels do it, the sort comes out right for every input
      exactly when the partitions divide evenly among the nodes or each node has a single cache. */
  lemma SortPerCache(parts: nat, nodes: nat)
    requires 1 <= nodes <= parts
    ensures AlwaysSorts(parts, CacheAssignment(parts, nodes), nodes * (parts / nodes)) <==> Even(parts, nodes)
  {
    var assign, buckets := CacheAssignment(parts, nodes), nodes * (parts / nodes);
    CachesAssign(parts, nodes);
    if Even(parts, nodes) {
      CachesMonotone(parts, nodes);
      forall orders: seq<Order>, tables: seq<Table>, pivots: seq<Key>, outs: seq<Table> | |outs| == buckets
        ensures ComesOutSorted(orders, tables, pivots, assign, outs)
      {
        MonotoneSorts(orders, tables, pivots, assign, outs);
      }
    } else {
      CachesCross(parts, nodes);
      CrossingBreaks(parts - 1, assign, buckets, (nodes - 1) * (parts / nodes) + 1, nodes * (parts / nodes));
    }
  }

  // ---------------------------------------------------------------- the plan

  /** generate_partition_plan's number of partitions, from the estimate it computes from row counts. */
  function PlannedPartitions(estimate: int, nodes: nat, maxPerNode: nat): nat
    requires nodes >= 1
  {
    var total := if estimate <= 0 then 1 else estimate;
    var rounded := ((total + nodes - 1) / nodes) * nodes;
    if rounded > maxPerNode * nodes then maxPerNode * nodes else rounded
  }

  /** The plan always asks for a whole number of partitions per node, at least one of them: the estimate
      rounded up to the next multiple, unless that is over the maximum. */
  lemma PlanIsEven(estimate: int, nodes: nat, maxPerNode: nat)
    requires nodes >= 1 && maxPerNode >= 1
    ensures var parts := PlannedPartitions(estimate, nodes, maxPerNode);
            && nodes <= parts <= maxPerNode * nodes && parts % nodes == 0 && Even(parts, nodes)
            && (parts == maxPerNode * nodes || Max(estimate, 1) <= parts < Max(estimate, 1) + nodes)
            && (parts == maxPerNode * nodes ==> parts < Max(estimate, 1) + nodes)
  {
    var total := if estimate <= 0 then 1 else estimate;
    var q := (total + nodes - 1) / nodes;
    QuotientIs(total + nodes - 1, 1, nodes);
    assert q * nodes >= nodes by { Scaled(1, q, nodes); }
    assert maxPerNode * nodes >= nodes by { Scaled(1, maxPerNode, nodes); }
    DivMod(q, 0, nodes);
    DivMod(maxPerNode, 0, nodes);
  }

  /** End to end: with the planned number of partitions and pivots from any non-empty sample, what the
      output caches hold after their merges, read in order, is a sorted permutation of all the rows. */
  lemma PlannedSortIsCorrect(le: Leq, tables: seq<Table>, pivots: seq<Key>, outs: seq<Table>,
                             estimate: int, nodes: nat, maxPerNode: nat)
    requires TotalOrder(le)
    requires nodes >= 1 && maxPerNode >= 1
    requires AllSorted(le, tables) && SortedKeys(le, pivots)
    requires |pivots| + 1 == PlannedPartitions(estimate, nodes, maxPerNode)
    requires nodes <= |pivots| + 1 ==>
               && |outs| == nodes * ((|pivots| + 1) / nodes)
               && Merged(le, tables, pivots, CacheAssignment(|pivots| + 1, nodes), outs)
    ensures Sorted(le, Flatten(outs)) && multiset(Flatten(outs)) == multiset(Flatten(tables))
  {
    PlanIsEven(estimate, nodes, maxPerNode);
    var parts := |pivots| + 1;
    CachesAssign(parts, nodes);
    CachesMonotone(parts, nodes);
    DistributedSortIsCorrect(le, tables, pivots, CacheAssignment(parts, nodes), outs);
  }
}
