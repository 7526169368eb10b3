/** The memory monitor: it walks the tree of kernels and downgrades the caches at each node while device
    use is over the limit, one thread per child where a node has several. */
module MemoryMonitorModel {
  datatype Item = Item(content: int, gpu: bool, bytes: nat)

  /** A concatenating cache is not downgradable: its downgradeCacheData returns 0 and does nothing. */
  datatype Cache = Cache(downgradable: bool, items: seq<Item>)

  /** A kernel with the caches of its output. Kernel 0 is the output node. */
  datatype Node = Node(id: int, caches: seq<nat>, children: seq<Node>)

  datatype Memory = Memory(caches: map<nat, Cache>, used: nat, limit: nat)

  predicate NeedToFree(m: Memory)
  {
    m.used > m.limit
  }

  function GpuBytes(items: seq<Item>): nat
  {
    if items == [] then 0 else (if items[0].gpu then items[0].bytes else 0) + GpuBytes(items[1..])
  }

  function OffGpu(items: seq<Item>): (r: seq<Item>)
    ensures |r| == |items|
  {
    seq(|items|, i requires 0 <= i < |items| => items[i].(gpu := false))
  }

  /** Device memory given back, clamped at zero as do_deallocate does. */
  function Released(used: nat, bytes: nat): nat
  {
    if used < bytes then 0 else used - bytes
  }

  function Amount(m: Memory, c: nat): nat
  {
    if c in m.caches && m.caches[c].downgradable then GpuBytes(m.caches[c].items) else 0
  }

  /** One call of downgradeCacheData on cache c: every GPU message of it moves. */
  function Downgraded(m: Memory, c: nat): Memory
  {
    if c in m.caches && m.caches[c].downgradable then
      m.(caches := m.caches[c := m.caches[c].(items := OffGpu(m.caches[c].items))], used := Released(m.used, Amount(m, c)))
    else m
  }

  /** Nothing left on the GPU in a cache that can be downgraded. */
  ghost predicate Clear(m: Memory, c: nat)
  {
    c in m.caches && m.caches[c].downgradable ==> forall i :: 0 <= i < |m.caches[c].items| ==> !m.caches[c].items[i].gpu
  }

  lemma {:induction false} ClearIsZero(items: seq<Item>)
    requires forall i :: 0 <= i < |items| ==> !items[i].gpu
    ensures GpuBytes(items) == 0
  {
    if items == [] {
    } else {
      ClearIsZero(items[1..]);
    }
  }

  /** GPU bytes add up over the items, and a single item has its bytes or none. */
  lemma {:induction false} GpuBytesAppend(p: seq<Item>, q: seq<Item>)
    ensures GpuBytes(p + q) == GpuBytes(p) + GpuBytes(q)
  {
    if p == [] {
      assert p + q == q;
    } else {
      GpuBytesAppend(p[1..], q);
      assert (p + q)[1..] == p[1..] + q && (p + q)[0] == p[0];
    }
  }

  lemma GpuBytesOfOne(item: Item)
    ensures GpuBytes([item]) == if item.gpu then item.bytes else 0
  {
    assert [item][1..] == [];
  }

  /** A downgrade releases the cache's GPU bytes, clamped at zero, and touches no other cache. */
  lemma DowngradedReleases(m: Memory, c: nat)
    requires c in m.caches && m.caches[c].downgradable
    ensures var bytes := GpuBytes(m.caches[c].items);
            Amount(m, c) == bytes && Downgraded(m, c).used == if bytes <= m.used then m.used - bytes else 0
    ensures forall d :: d != c && d in m.caches ==> d in Downgraded(m, c).caches && Downgraded(m, c).caches[d] == m.caches[d]
  {
  }

  lemma DowngradedIsClear(m: Memory, c: nat)
    ensures Clear(Downgraded(m, c), c) && Amount(Downgraded(m, c), c) == 0
    ensures forall d :: Clear(m, d) ==> Clear(Downgraded(m, c), d)
    ensures Downgraded(m, c).used <= m.used && Downgraded(m, c).limit == m.limit
  {
    if c in m.caches && m.caches[c].downgradable {
      ClearIsZero(OffGpu(m.caches[c].items));
    }
  }

  // ---------------------------------------------------------------- threads

  /** What a thread is about to do: downgrade cache k of the node (for the round-th time), decide whether to
      do so again, or, past the last cache, look at the children. */
  datatype Thread =
    | At(node: Node, k: nat, round: nat)
    | Deciding(node: Node, k: nat, round: nat, amount: nat)

  datatype State = State(mem: Memory, threads: seq<Thread>)

  predicate PastCaches(t: Thread)
  {
    t.At? && (t.node.id == 0 || t.k >= |t.node.caches|)
  }

  function Enter(nodes: seq<Node>): (r: seq<Thread>)
    ensures |r| == |nodes| && forall i :: 0 <= i < |r| ==> r[i] == At(nodes[i], 0, 0)
  {
    seq(|nodes|, i requires 0 <= i < |nodes| => At(nodes[i], 0, 0))
  }

  /** The next step of thread i. Reading device use and downgrading a cache are each atomic. */
  function Next(s: State, i: nat): State
    requires i < |s.threads|
  {
    var t := s.threads[i];
    match t
    case At(node, k, round) =>
      if PastCaches(t) then
        var spawned := if NeedToFree(s.mem) then Enter(node.children) else [];
        s.(threads := s.threads[..i] + spawned + s.threads[i + 1..])
      else
        State(Downgraded(s.mem, node.caches[k]),
              s.threads[i := Deciding(node, k, round, Amount(s.mem, node.caches[k]))])
    case Deciding(node, k, round, amount) =>
      s.(threads := s.threads[i := if amount > 0 && NeedToFree(s.mem) then At(node, k, round + 1) else At(node, k + 1, 0)])
  }

  // ---------------------------------------------------------------- what is still to be done

  function CachesUnder(node: Node): set<nat>
    decreases node, 1
  {
    (if node.id != 0 then set i | 0 <= i < |node.caches| :: node.caches[i] else {}) + CachesUnderAll(node.children)
  }

  function CachesUnderAll(nodes: seq<Node>): set<nat>
    decreases nodes, 0
  {
    if nodes == [] then {} else CachesUnder(nodes[0]) + CachesUnderAll(nodes[1..])
  }

  /** The node at the end of a path of child numbers. */
  function NodeAt(node: Node, path: seq<nat>): (r: seq<Node>)
    ensures |r| <= 1
    decreases |path|
  {
    if path == [] then [node]
    else if path[0] < |node.children| then NodeAt(node.children[path[0]], path[1..])
    else []
  }

  ghost predicate OwnedAt(node: Node, path: seq<nat>, c: nat)
  {
    NodeAt(node, path) != [] && NodeAt(node, path)[0].id != 0 && c in NodeAt(node, path)[0].caches
  }

  lemma {:induction false} InChildren(nodes: seq<Node>, k: nat, c: nat)
    requires k < |nodes| && c in CachesUnder(nodes[k])
    ensures c in CachesUnderAll(nodes)
  {
    if k == 0 {
    } else {
      InChildren(nodes[1..], k - 1, c);
    }
  }

  lemma {:induction false} OwnedIsUnder(node: Node, path: seq<nat>, c: nat)
    requires OwnedAt(node, path, c)
    ensures c in CachesUnder(node)
    decreases |path|
  {
    if path == [] {
    } else {
      OwnedIsUnder(node.children[path[0]], path[1..], c);
      InChildren(node.children, path[0], c);
    }
  }

  lemma {:induction false} UnderIsOwned(node: Node, c: nat) returns (path: seq<nat>)
    requires c in CachesUnder(node)
    ensures OwnedAt(node, path, c)
    decreases node
  {
    if node.id != 0 && c in node.caches {
      path := [];
    } else {
      var k := UnderAll(node.children, c);
      var rest := UnderIsOwned(node.children[k], c);
      path := [k] + rest;
      assert path[1..] == rest;
    }
  }

  /** The caches of the tree are those of the nodes that a path leads to, the output node left out. */
  lemma CachesUnderArePaths(root: Node, c: nat)
    ensures c in CachesUnder(root) <==> exists path :: OwnedAt(root, path, c)
  {
    if c in CachesUnder(root) {
      var path := UnderIsOwned(root, c);
    }
    if path :| OwnedAt(root, path, c) {
      OwnedIsUnder(root, path, c);
    }
  }

  function Pending(t: Thread): set<nat>
  {
    var from := if t.At? then t.k else t.k + 1;
    (if t.node.id != 0 then set i | from <= i < |t.node.caches| :: t.node.caches[i] else {}) + CachesUnderAll(t.node.children)
  }

  ghost predicate IsPending(s: State, c: nat)
  {
    exists i :: 0 <= i < |s.threads| && c in Pending(s.threads[i])
  }

  /** A thread only ever decides about a cache of a node it may touch, in its first or second round; after
      the first downgrade the cache is clear. */
  ghost predicate ThreadOk(m: Memory, t: Thread)
  {
    && (t.Deciding? ==> t.node.id != 0 && t.k < |t.node.caches| && Clear(m, t.node.caches[t.k]))
    && t.round <= 1
    && (t.At? && t.round == 1 ==> t.node.id != 0 && t.k < |t.node.caches| && Clear(m, t.node.caches[t.k]))
    && (t.Deciding? && t.round == 1 ==> t.amount == 0)
  }

  /** While memory is over the limit, every cache of the tree is clear or some thread will still get to it. */
  ghost predicate Inv(s: State, root: Node)
  {
    && (forall i :: 0 <= i < |s.threads| ==> ThreadOk(s.mem, s.threads[i]))
    && (NeedToFree(s.mem) ==> forall c :: c in CachesUnder(root) ==> Clear(s.mem, c) || IsPending(s, c))
  }

  function Start(m: Memory, root: Node): State
  {
    State(m, [At(root, 0, 0)])
  }

  lemma StartInv(m: Memory, root: Node)
    ensures Inv(Start(m, root), root)
  {
    var s := Start(m, root);
    assert Pending(s.threads[0]) == CachesUnder(root);
  }

  lemma {:induction false} UnderAll(nodes: seq<Node>, c: nat) returns (i: nat)
    requires c in CachesUnderAll(nodes)
    ensures i < |nodes| && c in CachesUnder(nodes[i])
  {
    if c in CachesUnder(nodes[0]) {
      i := 0;
    } else {
      i := UnderAll(nodes[1..], c);
      i := i + 1;
    }
  }

  lemma EnterPends(nodes: seq<Node>, c: nat) returns (i: nat)
    requires c in CachesUnderAll(nodes)
    ensures i < |nodes| && c in Pending(Enter(nodes)[i])
  {
    i := UnderAll(nodes, c);
    assert Pending(At(nodes[i], 0, 0)) == CachesUnder(nodes[i]);
  }

  lemma OthersStayOk(m: Memory, c: nat, t: Thread)
    requires ThreadOk(m, t)
    ensures ThreadOk(Downgraded(m, c), t)
  {
    DowngradedIsClear(m, c);
  }

  lemma DowngradeInv(s: State, i: nat, root: Node)
    requires Inv(s, root) && i < |s.threads| && s.threads[i].At? && !PastCaches(s.threads[i])
    ensures Inv(Next(s, i), root)
  {
    var t, s' := s.threads[i], Next(s, i);
    var c := t.node.caches[t.k];
    DowngradedIsClear(s.mem, c);
    forall j | 0 <= j < |s'.threads|
      ensures ThreadOk(s'.mem, s'.threads[j])
    {
      if j == i {
        if t.round == 1 && c in s.mem.caches && s.mem.caches[c].downgradable { ClearIsZero(s.mem.caches[c].items); }
      } else {
        OthersStayOk(s.mem, c, s.threads[j]);
      }
    }
    forall d | d in CachesUnder(root) && NeedToFree(s'.mem)
      ensures Clear(s'.mem, d) || IsPending(s', d)
    {
      if !Clear(s.mem, d) && d != c {
        var j :| 0 <= j < |s.threads| && d in Pending(s.threads[j]);
        assert d in Pending(s'.threads[j]);
      }
    }
  }

  lemma DecideInv(s: State, i: nat, root: Node)
    requires Inv(s, root) && i < |s.threads| && s.threads[i].Deciding?
    ensures Inv(Next(s, i), root)
  {
    var s' := Next(s, i);
    assert ThreadOk(s.mem, s.threads[i]);
    forall d | d in CachesUnder(root) && NeedToFree(s'.mem) && !Clear(s'.mem, d)
      ensures IsPending(s', d)
    {
      var j :| 0 <= j < |s.threads| && d in Pending(s.threads[j]);
      assert d in Pending(s'.threads[j]);
    }
  }

  lemma DescendInv(s: State, i: nat, root: Node)
    requires Inv(s, root) && i < |s.threads| && PastCaches(s.threads[i])
    ensures Inv(Next(s, i), root)
  {
    var t, s' := s.threads[i], Next(s, i);
    var spawned := if NeedToFree(s.mem) then Enter(t.node.children) else [];
    forall j | 0 <= j < |s'.threads|
      ensures ThreadOk(s'.mem, s'.threads[j])
    {
      if j < i {
        assert s'.threads[j] == s.threads[j];
      } else if j < i + |spawned| {
        assert s'.threads[j] == spawned[j - i];
      } else {
        assert s'.threads[j] == s.threads[j - |spawned| + 1];
      }
    }
    forall d | d in CachesUnder(root) && NeedToFree(s'.mem) && !Clear(s'.mem, d)
      ensures IsPending(s', d)
    {
      var j :| 0 <= j < |s.threads| && d in Pending(s.threads[j]);
      if j == i {
        var k := EnterPends(t.node.children, d);
        assert s'.threads[i + k] == spawned[k];
      } else {
        var j' := if j < i then j else j + |spawned| - 1;
        assert s'.threads[j'] == s.threads[j];
      }
    }
  }

  lemma StepInv(s: State, i: nat, root: Node)
    requires Inv(s, root) && i < |s.threads|
    ensures Inv(Next(s, i), root)
    ensures Next(s, i).mem.used <= s.mem.used && Next(s, i).mem.limit == s.mem.limit
  {
    if s.threads[i].Deciding? {
      DecideInv(s, i, root);
    } else if PastCaches(s.threads[i]) {
      DescendInv(s, i, root);
    } else {
      DowngradeInv(s, i, root);
      DowngradedIsClear(s.mem, s.threads[i].node.caches[s.threads[i].k]);
    }
  }

  // ---------------------------------------------------------------- whole walks

  ghost predicate IsSchedule(s: State, picks: seq<nat>)
    decreases |picks|
  {
    picks == [] || (picks[0] < |s.threads| && IsSchedule(Next(s, picks[0]), picks[1..]))
  }

  ghost function After(s: State, picks: seq<nat>): State
    requires IsSchedule(s, picks)
    decreases |picks|
  {
    if picks == [] then s else After(Next(s, picks[0]), picks[1..])
  }

  lemma {:induction false} ScheduleInv(s: State, picks: seq<nat>, root: Node)
    requires Inv(s, root) && IsSchedule(s, picks)
    ensures Inv(After(s, picks), root)
    decreases |picks|
  {
    if picks == [] {
    } else {
      StepInv(s, picks[0], root);
      ScheduleInv(Next(s, picks[0]), picks[1..], root);
    }
  }

  /** However the threads interleave, when the walk is over either device use is within the limit or no
      downgradable cache of the tree outside the output node holds anything on the GPU; and every cache
      still holds the same items in the same order. */
  lemma WalkFreesMemory(m: Memory, root: Node, picks: seq<nat>)
    requires IsSchedule(Start(m, root), picks) && After(Start(m, root), picks).threads == []
    ensures var m' := After(Start(m, root), picks).mem;
            && (m'.used <= m'.limit || forall c :: c in CachesUnder(root) ==> Clear(m', c))
            && SameContents(m, m')
  {
    StartInv(m, root);
    ScheduleInv(Start(m, root), picks, root);
    ScheduleSameContents(Start(m, root), picks);
  }

  /** No cache is downgraded more than twice by the thread that visits it. */
  lemma AtMostTwoRounds(m: Memory, root: Node, picks: seq<nat>, i: nat)
    requires IsSchedule(Start(m, root), picks) && i < |After(Start(m, root), picks).threads|
    ensures After(Start(m, root), picks).threads[i].round <= 1
  {
    StartInv(m, root);
    ScheduleInv(Start(m, root), picks, root);
  }

  // ---------------------------------------------------------------- termination

  /** Steps a thread entering this node can cause: four per cache, one to look at the children. */
  function Work(node: Node): nat
    decreases node, 1
  {
    1 + 4 * |node.caches| + WorkAll(node.children)
  }

  function WorkAll(nodes: seq<Node>): nat
    decreases nodes, 0
  {
    if nodes == [] then 0 else Work(nodes[0]) + WorkAll(nodes[1..])
  }

  function Left(t: Thread): int
  {
    var rest := |t.node.caches| - t.k;
    1 + WorkAll(t.node.children) + (if rest <= 0 then 0 else 4 * rest - 2 * t.round - (if t.Deciding? then 1 else 0))
  }

  function LeftAll(ts: seq<Thread>): int
  {
    if ts == [] then 0 else Left(ts[0]) + LeftAll(ts[1..])
  }

  lemma {:induction false} LeftAppend(p: seq<Thread>, q: seq<Thread>)
    ensures LeftAll(p + q) == LeftAll(p) + LeftAll(q)
  {
    if p == [] {
      assert p + q == q;
    } else {
      LeftAppend(p[1..], q);
      assert (p + q)[1..] == p[1..] + q && (p + q)[0] == p[0];
    }
  }

  lemma {:induction false} EnterLeft(nodes: seq<Node>)
    ensures LeftAll(Enter(nodes)) == WorkAll(nodes)
  {
    if nodes == [] {
    } else {
      EnterLeft(nodes[1..]);
      assert Enter(nodes)[1..] == Enter(nodes[1..]);
    }
  }

  lemma {:induction false} LeftNonNegative(m: Memory, ts: seq<Thread>)
    requires forall i :: 0 <= i < |ts| ==> ThreadOk(m, ts[i])
    ensures LeftAll(ts) >= |ts|
  {
    if ts == [] {
    } else {
      LeftNonNegative(m, ts[1..]);
    }
  }

  lemma LeftReplaced(ts: seq<Thread>, i: nat, mine: seq<Thread>)
    requires i < |ts|
    ensures LeftAll(ts[..i] + mine + ts[i + 1..]) == LeftAll(ts) - Left(ts[i]) + LeftAll(mine)
  {
    assert ts == ts[..i] + [ts[i]] + ts[i + 1..];
    LeftAppend(ts[..i] + [ts[i]], ts[i + 1..]);
    LeftAppend(ts[..i], [ts[i]]);
    LeftAppend(ts[..i] + mine, ts[i + 1..]);
    LeftAppend(ts[..i], mine);
    assert LeftAll([ts[i]]) == Left(ts[i]);
  }

  /** Every step leaves strictly less to do. */
  lemma StepDecreases(s: State, i: nat, root: Node)
    requires Inv(s, root) && i < |s.threads|
    ensures LeftAll(Next(s, i).threads) < LeftAll(s.threads)
  {
    var t, s' := s.threads[i], Next(s, i);
    assert ThreadOk(s.mem, t);
    if PastCaches(t) {
      var spawned := if NeedToFree(s.mem) then Enter(t.node.children) else [];
      EnterLeft(t.node.children);
      LeftReplaced(s.threads, i, spawned);
    } else {
      var t' := s'.threads[i];
      assert s'.threads == s.threads[..i] + [t'] + s.threads[i + 1..];
      LeftReplaced(s.threads, i, [t']);
      assert LeftAll([t']) == Left(t');
    }
  }

  /** So every schedule is finite, of at most Work(root) steps: the walk always ends. */
  lemma {:induction false} WalkTerminates(s: State, picks: seq<nat>, root: Node)
    requires Inv(s, root) && IsSchedule(s, picks)
    ensures |picks| <= LeftAll(s.threads)
    decreases |picks|
  {
    LeftNonNegative(s.mem, s.threads);
    if picks == [] {
    } else {
      StepInv(s, picks[0], root);
      StepDecreases(s, picks[0], root);
      WalkTerminates(Next(s, picks[0]), picks[1..], root);
    }
  }

  lemma WalkIsBounded(m: Memory, root: Node, picks: seq<nat>)
    requires IsSchedule(Start(m, root), picks)
    ensures |picks| <= Work(root)
  {
    StartInv(m, root);
    WalkTerminates(Start(m, root), picks, root);
    assert LeftAll([At(root, 0, 0)]) == Left(At(root, 0, 0));
  }

  // ---------------------------------------------------------------- contents

  /** Same caches, same items in the same order; an item may have left the GPU, none has entered it. */
  ghost predicate SameItems(p: seq<Item>, q: seq<Item>)
  {
    |p| == |q| && forall i :: 0 <= i < |p| ==> q[i].content == p[i].content && q[i].bytes == p[i].bytes && (q[i].gpu ==> p[i].gpu)
  }

  ghost predicate SameContents(m: Memory, m': Memory)
  {
    && m'.caches.Keys == m.caches.Keys && m'.limit == m.limit && m'.used <= m.used
    && forall c :: c in m.caches ==>
         && m'.caches[c].downgradable == m.caches[c].downgradable
         && SameItems(m.caches[c].items, m'.caches[c].items)
         && (!m.caches[c].downgradable ==> m'.caches[c] == m.caches[c])
  }

  lemma SameContentsTransitive(a: Memory, b: Memory, c: Memory)
    requires SameContents(a, b) && SameContents(b, c)
    ensures SameContents(a, c)
  {
  }

  lemma DowngradedSameContents(m: Memory, c: nat)
    ensures SameContents(m, Downgraded(m, c))
  {
    DowngradedIsClear(m, c);
  }

  lemma {:induction false} ScheduleSameContents(s: State, picks: seq<nat>)
    requires IsSchedule(s, picks)
    ensures SameContents(s.mem, After(s, picks).mem)
    decreases |picks|
  {
    if picks == [] {
    } else {
      var t, s' := s.threads[picks[0]], Next(s, picks[0]);
      if t.At? && !PastCaches(t) {
        DowngradedSameContents(s.mem, t.node.caches[t.k]);
      }
      ScheduleSameContents(s', picks[1..]);
      SameContentsTransitive(s.mem, s'.mem, After(s, picks).mem);
    }
  }

  /** A concatenating cache, whose downgradeCacheData does nothing, keeps every item where it was in every
      interleaving of the walk, however far over the limit memory is. */
  lemma WalkSkipsConcatenating(m: Memory, root: Node, picks: seq<nat>, c: nat)
    requires IsSchedule(Start(m, root), picks) && c in m.caches && !m.caches[c].downgradable
    ensures c in After(Start(m, root), picks).mem.caches && After(Start(m, root), picks).mem.caches[c] == m.caches[c]
  {
    ScheduleSameContents(Start(m, root), picks);
  }

  // ---------------------------------------------------------------- what the walk leaves alone

  ghost predicate SameCache(m: Memory, m': Memory, c: nat)
  {
    (c in m'.caches <==> c in m.caches) && (c in m.caches ==> m'.caches[c] == m.caches[c])
  }

  /** A thread that is at a node with this cache, the output node left out. */
  predicate IsAt(t: Thread, c: nat)
  {
    t.node.id != 0 && c in t.node.caches
  }

  /** Once memory fits no thread goes down the tree any more: from any state, whatever steps follow, a cache
      changes only if it belongs to a node that some thread is at. */
  lemma {:induction false} WalkStops(s: State, picks: seq<nat>, c: nat)
    requires IsSchedule(s, picks) && s.mem.used <= s.mem.limit
    requires forall i :: 0 <= i < |s.threads| ==> !IsAt(s.threads[i], c)
    ensures After(s, picks).mem.used <= s.mem.limit && SameCache(s.mem, After(s, picks).mem, c)
    decreases |picks|
  {
    if picks == [] {
    } else {
      FitStep(s, picks[0], c);
      WalkStops(Next(s, picks[0]), picks[1..], c);
    }
  }

  lemma FitStep(s: State, i: nat, c: nat)
    requires i < |s.threads| && s.mem.used <= s.mem.limit
    requires forall j :: 0 <= j < |s.threads| ==> !IsAt(s.threads[j], c)
    ensures var s' := Next(s, i);
            && s'.mem.used <= s.mem.limit == s'.mem.limit && SameCache(s.mem, s'.mem, c)
            && forall j :: 0 <= j < |s'.threads| ==> !IsAt(s'.threads[j], c)
  {
    var t, s' := s.threads[i], Next(s, i);
    if PastCaches(t) {
      assert forall j :: 0 <= j < |s'.threads| ==> s'.threads[j] == s.threads[if j < i then j else j + 1];
    } else {
      assert forall j :: 0 <= j < |s'.threads| && j != i ==> s'.threads[j] == s.threads[j];
    }
  }

  /** The threads of a walk stay in the tree. */
  ghost predicate InTree(s: State, root: Node)
  {
    forall i, c :: 0 <= i < |s.threads| && c in CachesUnder(s.threads[i].node) ==> c in CachesUnder(root)
  }

  lemma StepStaysInTree(s: State, i: nat, root: Node)
    requires InTree(s, root) && i < |s.threads|
    ensures InTree(Next(s, i), root)
  {
    var t, s' := s.threads[i], Next(s, i);
    forall j, c | 0 <= j < |s'.threads| && c in CachesUnder(s'.threads[j].node)
      ensures c in CachesUnder(root)
    {
      if PastCaches(t) {
        var spawned := if NeedToFree(s.mem) then Enter(t.node.children) else [];
        if j < i {
          assert s'.threads[j] == s.threads[j];
        } else if j < i + |spawned| {
          assert s'.threads[j] == spawned[j - i];
          InChildren(t.node.children, j - i, c);
          assert c in CachesUnder(t.node);
        } else {
          assert s'.threads[j] == s.threads[j - |spawned| + 1];
        }
      } else {
        assert c in CachesUnder(s.threads[j].node);
      }
    }
  }

  lemma {:induction false} ScheduleInTree(s: State, picks: seq<nat>, root: Node, c: nat)
    requires InTree(s, root) && IsSchedule(s, picks) && c !in CachesUnder(root)
    ensures SameCache(s.mem, After(s, picks).mem, c)
    decreases |picks|
  {
    if picks == [] {
    } else {
      var t := s.threads[picks[0]];
      if t.At? && !PastCaches(t) {
        assert t.node.caches[t.k] in CachesUnder(t.node);
      }
      StepStaysInTree(s, picks[0], root);
      ScheduleInTree(Next(s, picks[0]), picks[1..], root, c);
    }
  }

  /** Whatever the schedule, the walk touches only caches of the tree outside the output node. */
  lemma WalkStaysInTree(m: Memory, root: Node, picks: seq<nat>, c: nat)
    requires IsSchedule(Start(m, root), picks) && c !in CachesUnder(root)
    ensures SameCache(m, After(Start(m, root), picks).mem, c)
  {
    ScheduleInTree(Start(m, root), picks, root, c);
  }

  // ---------------------------------------------------------------- the walk on one thread

  /** Memory once these caches have been downgraded in turn. */
  function AfterCaches(m: Memory, caches: seq<nat>): Memory
  {
    if caches == [] then m else Downgraded(AfterCaches(m, caches[..|caches| - 1]), caches[|caches| - 1])
  }

  function AfterOwn(m: Memory, node: Node): Memory
  {
    if node.id == 0 then m else AfterCaches(m, node.caches)
  }

  function Amounts(m: Memory, caches: seq<nat>): nat
  {
    if caches == [] then 0 else Amounts(m, caches[..|caches| - 1]) + Amount(m, caches[|caches| - 1])
  }

  /** Downgrading a node's own caches touches no other cache, and releases their GPU bytes. */
  lemma {:induction false} OwnCachesOnly(m: Memory, caches: seq<nat>, c: nat)
    requires c !in caches
    ensures SameCache(m, AfterCaches(m, caches), c)
  {
    if caches == [] {
    } else {
      OwnCachesOnly(m, caches[..|caches| - 1], c);
    }
  }

  lemma {:induction false} OwnCachesRelease(m: Memory, caches: seq<nat>)
    requires forall i, j :: 0 <= i < j < |caches| ==> caches[i] != caches[j]
    ensures AfterCaches(m, caches).used == Released(m.used, Amounts(m, caches)) && AfterCaches(m, caches).limit == m.limit
  {
    if caches == [] {
    } else {
      var n := |caches| - 1;
      OwnCachesRelease(m, caches[..n]);
      OwnCachesOnly(m, caches[..n], caches[n]);
    }
  }

  lemma DowngradedTwice(m: Memory, c: nat)
    ensures Downgraded(Downgraded(m, c), c) == Downgraded(m, c)
  {
    DowngradedIsClear(m, c);
    if c in m.caches && m.caches[c].downgradable {
      var items := m.caches[c].items;
      assert OffGpu(OffGpu(items)) == OffGpu(items);
    }
  }

  lemma SameContentsClear(m: Memory, m': Memory, c: nat)
    requires SameContents(m, m') && Clear(m, c)
    ensures Clear(m', c)
  {
    if c in m'.caches && m'.caches[c].downgradable {
      assert SameItems(m.caches[c].items, m'.caches[c].items);
    }
  }
}

/** The monitor as an object, children visited one after the other. */
module MemoryMonitor {
  import opened MemoryMonitorModel

  datatype Task = Task(id: int, inputs: seq<Item>)

  class MemoryMonitor {
    const limit: nat
    var used: nat
    var caches: map<nat, Cache>

    ghost function View(): Memory
      reads this
    {
      Memory(caches, used, limit)
    }

    constructor (limit: nat, used: nat, caches: map<nat, Cache>)
      ensures View() == Memory(caches, used, limit)
    {
      this.limit, this.used, this.caches := limit, used, caches;
    }

    method NeedToFreeMemory() returns (b: bool)
      ensures b <==> NeedToFree(View())
    {
      b := used > limit;
    }

    method DowngradeCacheData(c: nat) returns (amount: nat)
      modifies this
      ensures View() == Downgraded(old(View()), c) && amount == Amount(old(View()), c)
    {
      amount := 0;
      if c in caches && caches[c].downgradable {
        amount := GpuBytes(caches[c].items);
        caches := caches[c := caches[c].(items := OffGpu(caches[c].items))];
        used := Released(used, amount);
      }
    }

    /** The do-while loop on one cache: one or two rounds, and the cache is clear. */
    method DowngradeCache(c: nat) returns (ghost rounds: nat)
      modifies this
      ensures View() == Downgraded(old(View()), c)
      ensures SameContents(old(View()), View()) && Clear(View(), c) && 1 <= rounds <= 2
    {
      ghost var m := View();
      DowngradedIsClear(m, c);
      DowngradedSameContents(m, c);
      var amount := DowngradeCacheData(c);
      rounds := 1;
      var over := NeedToFreeMemory();
      while amount > 0 && over
        invariant View() == Downgraded(m, c) && Amount(View(), c) == 0
        invariant rounds == 1 || (rounds == 2 && amount == 0)
        decreases amount
      {
        DowngradedTwice(m, c);
        amount := DowngradeCacheData(c);
        rounds := rounds + 1;
        over := NeedToFreeMemory();
      }
    }

    /** Nothing but tiers changes, and afterwards memory fits or every downgradable cache below is clear. */
    method DowngradeCaches(node: Node)
      modifies this
      ensures SameContents(old(View()), View())
      ensures used <= limit || forall c :: c in CachesUnder(node) ==> Clear(View(), c)
      ensures AfterOwn(old(View()), node).used <= limit ==> View() == AfterOwn(old(View()), node)
      ensures AfterOwn(old(View()), node).used <= limit ==>
                forall c :: node.id == 0 || c !in node.caches ==> SameCache(old(View()), View(), c)
      decreases node, 1
    {
      ghost var m := View();
      if node.id != 0 {
        for k := 0 to |node.caches|
          invariant SameContents(m, View()) && View() == AfterCaches(m, node.caches[..k])
          invariant forall j :: 0 <= j < k ==> Clear(View(), node.caches[j])
        {
          ghost var before := View();
          ghost var rounds := DowngradeCache(node.caches[k]);
          SameContentsTransitive(m, before, View());
          assert node.caches[..k + 1][..k] == node.caches[..k];
          forall j | 0 <= j < k ensures Clear(View(), node.caches[j]) {
            SameContentsClear(before, View(), node.caches[j]);
          }
        }
      }
      assert node.caches[..|node.caches|] == node.caches;
      assert View() == AfterOwn(m, node);
      forall c | node.id == 0 || c !in node.caches ensures SameCache(m, View(), c) {
        if node.id != 0 { OwnCachesOnly(m, node.caches, c); }
      }
      var over := NeedToFreeMemory();
      if over {
        ghost var before := View();
        DowngradeChildren(node.children);
        SameContentsTransitive(m, before, View());
        forall c | c in CachesUnder(node) && used > limit ensures Clear(View(), c) {
          if c !in CachesUnderAll(node.children) {
            SameContentsClear(before, View(), c);
          }
        }
      }
    }

    method DowngradeChildren(nodes: seq<Node>)
      modifies this
      ensures SameContents(old(View()), View())
      ensures used <= limit || forall c :: c in CachesUnderAll(nodes) ==> Clear(View(), c)
      decreases nodes, 0
    {
      if |nodes| > 0 {
        ghost var m := View();
        DowngradeCaches(nodes[0]);
        ghost var mid := View();
        DowngradeChildren(nodes[1..]);
        SameContentsTransitive(m, mid, View());
        forall c | c in CachesUnder(nodes[0]) && used > limit ensures Clear(View(), c) {
          SameContentsClear(mid, View(), c);
        }
      }
    }
  }

  // ---------------------------------------------------------------- tasks

  /** How many tasks at the front of the queue are left alone, and device use afterwards: tasks are taken
      from the back while memory is over the limit. */
  function Untouched(tasks: seq<Task>, used: nat, limit: nat): (nat, nat)
  {
    if tasks == [] || used <= limit then (|tasks|, used)
    else
      var n := |tasks| - 1;
      Untouched(tasks[..n], Released(used, GpuBytes(tasks[n].inputs)), limit)
  }

  function OffGpuTask(t: Task): Task
  {
    t.(inputs := OffGpu(t.inputs))
  }

  /** The same task with the same inputs, none of them on the GPU. */
  ghost predicate IsOffGpu(t: Task, t': Task)
  {
    t'.id == t.id && SameItems(t.inputs, t'.inputs) && forall i :: 0 <= i < |t'.inputs| ==> !t'.inputs[i].gpu
  }

  function OffGpuFrom(tasks: seq<Task>, n: nat): (r: seq<Task>)
    ensures |r| == |tasks|
  {
    seq(|tasks|, i requires 0 <= i < |tasks| => if i < n then tasks[i] else OffGpuTask(tasks[i]))
  }

  function TaskBytes(tasks: seq<Task>): nat
  {
    if tasks == [] then 0 else TaskBytes(tasks[..|tasks| - 1]) + GpuBytes(tasks[|tasks| - 1].inputs)
  }

  /** Device use once the tasks from k on are off the GPU. */
  function UsedWithout(tasks: seq<Task>, used: nat, k: nat): nat
    requires k <= |tasks|
  {
    Released(used, TaskBytes(tasks[k..]))
  }

  /** Tasks are moved off the GPU from the back, and no more of them than necessary: with one task fewer
      device use would still be over the limit. Either memory fits afterwards or no task was left alone. */
  lemma {:induction false} TasksFreeMemory(tasks: seq<Task>, used: nat, limit: nat)
    ensures var (n, used') := Untouched(tasks, used, limit);
            && n <= |tasks| && used' == UsedWithout(tasks, used, n)
            && (used' <= limit || n == 0)
            && forall k :: n < k <= |tasks| ==> UsedWithout(tasks, used, k) > limit
    decreases |tasks|
  {
    assert tasks[|tasks|..] == [];
    if tasks != [] && used > limit {
      var n := |tasks| - 1;
      var rest := Released(used, GpuBytes(tasks[n].inputs));
      TasksFreeMemory(tasks[..n], rest, limit);
      var m := Untouched(tasks, used, limit).0;
      assert Untouched(tasks, used, limit) == Untouched(tasks[..n], rest, limit);
      LastTask(tasks, used, m);
      forall k | m < k <= n ensures UsedWithout(tasks, used, k) > limit {
        LastTask(tasks, used, k);
      }
    }
  }

  lemma LastTask(tasks: seq<Task>, used: nat, k: nat)
    requires k < |tasks|
    ensures var n := |tasks| - 1;
            UsedWithout(tasks, used, k) == UsedWithout(tasks[..n], Released(used, GpuBytes(tasks[n].inputs)), k)
  {
    var n, tail := |tasks| - 1, tasks[k..];
    assert tail[..|tail| - 1] == tasks[..n][k..];
  }

  /** What MemoryMonitor::start does with queued tasks: remove from the back, downgrade, add back in reverse. */
  method DowngradeTasks(queue: seq<Task>, used: nat, limit: nat) returns (queue': seq<Task>, used': nat)
    ensures var (n, u) := Untouched(queue, used, limit); used' == u && queue' == OffGpuFrom(queue, n)
    ensures |queue'| == |queue| && forall j :: 0 <= j < |queue| ==>
              if j < Untouched(queue, used, limit).0 then queue'[j] == queue[j] else IsOffGpu(queue[j], queue'[j])
  {
    ghost var m, u := Untouched(queue, used, limit).0, Untouched(queue, used, limit).1;
    var tasks: seq<Task> := [];
    queue', used' := queue, used;
    while used' > limit && |queue'| > 0
      invariant queue' <= queue && |queue'| + |tasks| == |queue|
      invariant Untouched(queue', used', limit) == (m, u)
      invariant forall i :: 0 <= i < |tasks| ==> tasks[i] == OffGpuTask(queue[|queue| - 1 - i])
      decreases |queue'|
    {
      var task := queue'[|queue'| - 1];
      queue' := queue'[..|queue'| - 1];
      used' := Released(used', GpuBytes(task.inputs));
      tasks := tasks + [task.(inputs := OffGpu(task.inputs))];
    }
    ghost var kept := |queue'|;
    assert kept == m && used' == u;
    var i := |tasks| - 1;
    while i >= 0
      invariant -1 <= i < |tasks| && |queue'| == kept + (|tasks| - 1 - i)
      invariant forall j :: 0 <= j < |queue'| ==> queue'[j] == if j < kept then queue[j] else OffGpuTask(queue[j])
    {
      queue' := queue' + [tasks[i]];
      i := i - 1;
    }
    assert queue' == OffGpuFrom(queue, m);
  }
}
