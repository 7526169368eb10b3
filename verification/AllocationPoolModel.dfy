/** The chunk allocation pool as a value: what every call does to the whole pool, the invariant
    that every call keeps, and what follows for every run.

    An allocation is the region of `size` bytes at `base`, carved into `total` chunks of `chunkSize` bytes.
    `free` is the stack of chunks it can hand out (top last), `out` the chunks handed out. */
module AllocationPoolModel {
  import opened Collections

  datatype Alloc = Alloc(index: int, base: nat, size: nat, total: nat, free: seq<nat>, out: set<nat>)

  /** `created` is the source's buffer_counter, `counter` its allocation_counter. */
  datatype Pool = Pool(chunkSize: nat, num: nat, created: nat, counter: int, allocs: seq<Alloc>)

  ghost predicate Distinct<T>(s: seq<T>)
  {
    forall i, j :: 0 <= i < j < |s| ==> s[i] != s[j]
  }

  // ---------------------------------------------------------------- operations

  function Growth(p: Pool): nat
  {
    if p.created == 0 then p.num else p.num / 2
  }

  function Carve(base: nat, n: nat, size: nat): seq<nat>
  {
    seq(n, k requires 0 <= k < n => base + k * size)
  }

  function Grown(p: Pool, base: nat): Pool
  {
    var n := Growth(p);
    p.(created := p.created + n,
       allocs := p.allocs + [Alloc(|p.allocs|, base, n * p.chunkSize, n, Carve(base, n, p.chunkSize), {})])
  }

  /** Position of the first allocation with a free chunk, or |allocs|. */
  function FirstFree(allocs: seq<Alloc>): (i: nat)
    ensures i <= |allocs|
    ensures i < |allocs| ==> allocs[i].free != []
    ensures forall j :: 0 <= j < i ==> allocs[j].free == []
  {
    if allocs == [] then 0
    else if allocs[0].free != [] then 0
    else 1 + FirstFree(allocs[1..])
  }

  function Taken(p: Pool): (Pool, Option<nat>)
  {
    var i := FirstFree(p.allocs);
    if i == |p.allocs| then (p, None)
    else
      var al := p.allocs[i];
      var top := al.free[|al.free| - 1];
      (p.(counter := p.counter + 1,
          allocs := p.allocs[i := al.(free := al.free[..|al.free| - 1], out := al.out + {top})]),
       Some(top))
  }

  /** get_chunk, when the allocator would answer a growth with `base`; None is the exception. */
  function Got(p: Pool, base: nat): (Pool, Option<nat>)
  {
    Taken(if FirstFree(p.allocs) == |p.allocs| then Grown(p, base) else p)
  }

  function Renumbered(s: seq<Alloc>): (r: seq<Alloc>)
    ensures |r| == |s|
  {
    seq(|s|, j requires 0 <= j < |s| => s[j].(index := s[j].index - 1))
  }

  /** free_chunk of the chunk at address `a`, which allocation `i` handed out. */
  function Freed(p: Pool, i: nat, a: nat): Pool
    requires i < |p.allocs|
  {
    var al := p.allocs[i].(free := p.allocs[i].free + [a], out := p.allocs[i].out - {a});
    p.(counter := p.counter - 1,
       allocs := if i > 0 && al.total == |al.free|
                 then p.allocs[..i] + Renumbered(p.allocs[i + 1..])
                 else p.allocs[i := al])
  }

  function AllFreed(p: Pool): Pool
  {
    if p.created > 0 then p.(created := 0, counter := 0, allocs := []) else p
  }

  function Constructed(size: nat, num: nat, base: nat): Pool
  {
    Grown(Pool(size, num, 0, 0, []), base)
  }

  // ---------------------------------------------------------------- invariant

  /** A chunk the pool knows about: free, or handed out. */
  ghost predicate Known(al: Alloc, a: nat)
  {
    a in al.free || a in al.out
  }

  ghost predicate Inside(al: Alloc, a: nat, size: nat)
  {
    al.base <= a && a + size <= al.base + al.size
  }

  ghost predicate Spaced(a: nat, b: nat, size: nat)
  {
    a + size <= b || b + size <= a
  }

  ghost predicate AllocOk(al: Alloc, size: nat)
  {
    && al.base > 0
    && |al.free| + |al.out| == al.total
    && Distinct(al.free)
    && (forall a: nat :: a in al.free ==> a !in al.out)
    && (forall a: nat :: Known(al, a) ==> Inside(al, a, size))
    && (forall a: nat, b: nat :: Known(al, a) && Known(al, b) && a != b ==> Spaced(a, b, size))
  }

  ghost predicate Apart(x: Alloc, y: Alloc)
  {
    x.base + x.size <= y.base || y.base + y.size <= x.base
  }

  ghost predicate Shape(p: Pool)
  {
    && p.chunkSize > 0
    && (forall i :: 0 <= i < |p.allocs| ==>
          && p.allocs[i].index == i
          && AllocOk(p.allocs[i], p.chunkSize)
          && p.allocs[i].total == if i == 0 then p.num else p.num / 2)
    && (forall i, j :: 0 <= i < j < |p.allocs| ==> Apart(p.allocs[i], p.allocs[j]))
  }

  /** Every allocation after the first is kept alive by a chunk that is out (or has no chunks at all). */
  ghost predicate Inv(p: Pool)
  {
    && Shape(p)
    && (forall i :: 0 < i < |p.allocs| ==> p.allocs[i].total == 0 || p.allocs[i].out != {})
    && p.counter == OutCount(p.allocs)
    && (p.created == 0 ==> p.num == 0 || p.allocs == [])
    && (p.allocs == [] ==> p.created == 0)
  }

  function OutCount(allocs: seq<Alloc>): nat
  {
    if allocs == [] then 0 else |allocs[0].out| + OutCount(allocs[1..])
  }

  function Live(allocs: seq<Alloc>): nat
  {
    if allocs == [] then 0 else allocs[0].total + Live(allocs[1..])
  }

  ghost function Out(p: Pool): set<nat>
  {
    set i, a | 0 <= i < |p.allocs| && a in p.allocs[i].out :: a
  }

  /** The allocator's contract: the region it hands back is not null and meets no live region. */
  ghost predicate Fresh(p: Pool, base: nat)
  {
    base > 0 && forall i :: 0 <= i < |p.allocs| ==>
      Apart(p.allocs[i], Alloc(0, base, Growth(p) * p.chunkSize, 0, [], {}))
  }

  /** The allocator is asked only when no allocation has a free chunk. */
  ghost predicate Answers(p: Pool, base: nat)
  {
    FirstFree(p.allocs) == |p.allocs| ==> Fresh(p, base)
  }

  // ---------------------------------------------------------------- steps keep the invariant

  lemma CarveOk(base: nat, n: nat, size: nat)
    requires size > 0 && base > 0
    ensures AllocOk(Alloc(0, base, n * size, n, Carve(base, n, size), {}), size)
  {
    var al := Alloc(0, base, n * size, n, Carve(base, n, size), {});
    forall i, j | 0 <= i < j < n
      ensures al.free[i] + size <= al.free[j]
    {
      assert (i + 1) * size <= j * size;
    }
    forall k | 0 <= k < n
      ensures Inside(al, al.free[k], size)
    {
      assert (k + 1) * size <= n * size;
    }
  }

  lemma {:induction false} CountsAppend(s: seq<Alloc>, t: seq<Alloc>)
    ensures OutCount(s + t) == OutCount(s) + OutCount(t)
    ensures Live(s + t) == Live(s) + Live(t)
  {
    if s == [] {
      assert s + t == t;
    } else {
      CountsAppend(s[1..], t);
      assert (s + t)[1..] == s[1..] + t;
    }
  }

  lemma {:induction false} RenumberedCount(s: seq<Alloc>)
    ensures OutCount(Renumbered(s)) == OutCount(s)
  {
    if s == [] {
    } else {
      RenumberedCount(s[1..]);
      assert Renumbered(s)[1..] == Renumbered(s[1..]);
    }
  }

  lemma CountSplit(s: seq<Alloc>, i: nat)
    requires i < |s|
    ensures OutCount(s) == OutCount(s[..i]) + |s[i].out| + OutCount(s[i + 1..])
  {
    assert s == s[..i] + s[i..];
    CountsAppend(s[..i], s[i..]);
    assert s[i..][1..] == s[i + 1..];
  }

  lemma CountUpdate(s: seq<Alloc>, i: nat, al: Alloc)
    requires i < |s|
    ensures OutCount(s[i := al]) == OutCount(s) - |s[i].out| + |al.out|
  {
    CountSplit(s, i);
    CountSplit(s[i := al], i);
    assert s[i := al][..i] == s[..i] && s[i := al][i + 1..] == s[i + 1..];
  }

  lemma ReindexedOk(al: Alloc, index: int, size: nat)
    requires AllocOk(al, size)
    ensures AllocOk(al.(index := index), size)
  {
    var al' := al.(index := index);
    assert forall a: nat :: Known(al', a) ==> Known(al, a);
    assert forall a: nat :: Inside(al, a, size) ==> Inside(al', a, size);
  }

  lemma ShapeAppend(p: Pool, al: Alloc)
    requires Shape(p) && AllocOk(al, p.chunkSize) && al.index == |p.allocs|
    requires al.total == if p.allocs == [] then p.num else p.num / 2
    requires forall i :: 0 <= i < |p.allocs| ==> Apart(p.allocs[i], al)
    ensures Shape(p.(allocs := p.allocs + [al]))
  {
  }

  lemma ShapeUpdate(p: Pool, i: nat, al: Alloc)
    requires Shape(p) && i < |p.allocs| && AllocOk(al, p.chunkSize) && al.index == i
    requires al.base == p.allocs[i].base && al.size == p.allocs[i].size && al.total == p.allocs[i].total
    ensures Shape(p.(allocs := p.allocs[i := al]))
  {
    var s := p.allocs[i := al];
    assert forall j, k :: 0 <= j < k < |s| ==> Apart(p.allocs[j], p.allocs[k]) ==> Apart(s[j], s[k]);
  }

  lemma ShapeErase(p: Pool, i: nat)
    requires Shape(p) && 0 < i < |p.allocs|
    ensures Shape(p.(allocs := p.allocs[..i] + Renumbered(p.allocs[i + 1..])))
  {
    var s := p.allocs[..i] + Renumbered(p.allocs[i + 1..]);
    forall j | 0 <= j < |s|
      ensures s[j].index == j && AllocOk(s[j], p.chunkSize)
      ensures s[j].total == if j == 0 then p.num else p.num / 2
    {
      var j' := if j < i then j else j + 1;
      ReindexedOk(p.allocs[j'], j, p.chunkSize);
      assert s[j] == p.allocs[j'].(index := j);
    }
    forall j, k | 0 <= j < k < |s|
      ensures Apart(s[j], s[k])
    {
      var j', k' := if j < i then j else j + 1, if k < i then k else k + 1;
      assert Apart(p.allocs[j'], p.allocs[k']);
    }
  }

  lemma GrownShape(p: Pool, base: nat)
    requires Inv(p) && Fresh(p, base)
    ensures Shape(Grown(p, base))
    ensures Grown(p, base).counter == OutCount(Grown(p, base).allocs)
  {
    var n := Growth(p);
    CarveOk(base, n, p.chunkSize);
    var al := Alloc(|p.allocs|, base, n * p.chunkSize, n, Carve(base, n, p.chunkSize), {});
    ReindexedOk(al.(index := 0), |p.allocs|, p.chunkSize);
    ShapeAppend(p, al);
    CountsAppend(p.allocs, [al]);
  }

  lemma TakenAlloc(al: Alloc, size: nat)
    requires AllocOk(al, size) && al.free != []
    ensures AllocOk(al.(free := al.free[..|al.free| - 1], out := al.out + {al.free[|al.free| - 1]}), size)
  {
    var top := al.free[|al.free| - 1];
    var al' := al.(free := al.free[..|al.free| - 1], out := al.out + {top});
    assert top in al.free;
    assert forall a: nat :: Known(al', a) ==> Known(al, a);
  }

  lemma FreedAlloc(al: Alloc, a: nat, size: nat)
    requires AllocOk(al, size) && a in al.out
    ensures AllocOk(al.(free := al.free + [a], out := al.out - {a}), size)
    ensures |al.out - {a}| == |al.out| - 1
    ensures al.total == |al.free + [a]| <==> |al.out| == 1
  {
    var al' := al.(free := al.free + [a], out := al.out - {a});
    assert forall b: nat :: Known(al', b) ==> Known(al, b);
  }

  lemma TakenShape(p: Pool)
    requires Shape(p) && p.counter == OutCount(p.allocs)
    ensures Shape(Taken(p).0) && Taken(p).0.counter == OutCount(Taken(p).0.allocs)
  {
    var i := FirstFree(p.allocs);
    if i < |p.allocs| {
      TakenAlloc(p.allocs[i], p.chunkSize);
      ShapeUpdate(p, i, Taken(p).0.allocs[i]);
      CountUpdate(p.allocs, i, Taken(p).0.allocs[i]);
    }
  }

  lemma GotFreeInv(p: Pool)
    requires Inv(p) && FirstFree(p.allocs) < |p.allocs|
    ensures Inv(Taken(p).0)
  {
    TakenShape(p);
  }

  lemma GrownFirstFree(p: Pool, base: nat)
    requires FirstFree(p.allocs) == |p.allocs|
    ensures FirstFree(Grown(p, base).allocs) == if Growth(p) == 0 then |p.allocs| + 1 else |p.allocs|
  {
    var n, g := |p.allocs|, Grown(p, base);
    assert forall j :: 0 <= j < n ==> g.allocs[j].free == [];
    assert |g.allocs[n].free| == Growth(p);
  }

  lemma GotGrownInv(p: Pool, base: nat)
    requires Inv(p) && Fresh(p, base) && FirstFree(p.allocs) == |p.allocs|
    ensures Inv(Taken(Grown(p, base)).0) && (Taken(Grown(p, base)).1.None? <==> Growth(p) == 0)
  {
    GrownShape(p, base);
    TakenShape(Grown(p, base));
    GrownFirstFree(p, base);
  }

  /** get_chunk keeps the invariant, and throws exactly when growing would add nothing. */
  lemma GotInv(p: Pool, base: nat)
    requires Inv(p) && Answers(p, base)
    ensures Inv(Got(p, base).0)
    ensures Got(p, base).1.None? <==> FirstFree(p.allocs) == |p.allocs| && Growth(p) == 0
  {
    if FirstFree(p.allocs) == |p.allocs| {
      GotGrownInv(p, base);
    } else {
      GotFreeInv(p);
    }
  }

  lemma ErasedInv(p: Pool, i: nat)
    requires Inv(p) && 0 < i < |p.allocs| && |p.allocs[i].out| == 1
    ensures Inv(p.(counter := p.counter - 1, allocs := p.allocs[..i] + Renumbered(p.allocs[i + 1..])))
  {
    ShapeErase(p, i);
    CountSplit(p.allocs, i);
    CountsAppend(p.allocs[..i], Renumbered(p.allocs[i + 1..]));
    RenumberedCount(p.allocs[i + 1..]);
  }

  lemma ReturnedInv(p: Pool, i: nat, al: Alloc)
    requires Inv(p) && i < |p.allocs| && AllocOk(al, p.chunkSize) && al.index == i && |al.out| == |p.allocs[i].out| - 1
    requires al.base == p.allocs[i].base && al.size == p.allocs[i].size && al.total == p.allocs[i].total
    requires i == 0 || |al.out| > 0
    ensures Inv(p.(counter := p.counter - 1, allocs := p.allocs[i := al]))
  {
    ShapeUpdate(p, i, al);
    CountUpdate(p.allocs, i, al);
  }

  lemma FreedInv(p: Pool, i: nat, a: nat)
    requires Inv(p) && i < |p.allocs| && a in p.allocs[i].out
    ensures Inv(Freed(p, i, a))
  {
    var al := p.allocs[i].(free := p.allocs[i].free + [a], out := p.allocs[i].out - {a});
    FreedAlloc(p.allocs[i], a, p.chunkSize);
    if i > 0 && |p.allocs[i].out| == 1 {
      assert Freed(p, i, a) == p.(counter := p.counter - 1, allocs := p.allocs[..i] + Renumbered(p.allocs[i + 1..]));
      ErasedInv(p, i);
    } else {
      assert Freed(p, i, a) == p.(counter := p.counter - 1, allocs := p.allocs[i := al]);
      ReturnedInv(p, i, al);
    }
  }

  // ---------------------------------------------------------------- what is out

  lemma OneOwner(p: Pool, i: nat, j: nat, a: nat)
    requires Shape(p) && i < |p.allocs| && j < |p.allocs|
    requires Known(p.allocs[i], a) && Known(p.allocs[j], a)
    ensures i == j
  {
    assert Inside(p.allocs[i], a, p.chunkSize) && Inside(p.allocs[j], a, p.chunkSize);
    assert i < j ==> Apart(p.allocs[i], p.allocs[j]);
    assert j < i ==> Apart(p.allocs[j], p.allocs[i]);
  }

  lemma OutGrows(p: Pool, i: nat, al: Alloc, a: nat)
    requires i < |p.allocs| && al.out == p.allocs[i].out + {a}
    ensures Out(p.(allocs := p.allocs[i := al])) == Out(p) + {a}
  {
    var s := p.allocs[i := al];
    var r := p.(allocs := s);
    forall b | b in Out(p) + {a}
      ensures b in Out(r)
    {
      if b == a {
        assert b in s[i].out;
      } else {
        var j :| 0 <= j < |p.allocs| && b in p.allocs[j].out;
        assert b in s[j].out;
      }
    }
    forall b | b in Out(r)
      ensures b in Out(p) + {a}
    {
      var j :| 0 <= j < |s| && b in s[j].out;
      assert j != i ==> s[j] == p.allocs[j];
    }
  }

  lemma FreeIsNotOut(q: Pool, i: nat, a: nat)
    requires Shape(q) && i < |q.allocs| && a in q.allocs[i].free
    ensures a !in Out(q)
  {
    assert AllocOk(q.allocs[i], q.chunkSize);
    if a in Out(q) {
      var j :| 0 <= j < |q.allocs| && a in q.allocs[j].out;
      OneOwner(q, i, j, a);
    }
  }

  lemma TakenOut(q: Pool)
    requires Shape(q) && Taken(q).1.Some?
    ensures Taken(q).1.value !in Out(q)
    ensures Out(Taken(q).0) == Out(q) + {Taken(q).1.value}
  {
    var r, top, i := Taken(q).0, Taken(q).1.value, FirstFree(q.allocs);
    assert top in q.allocs[i].free;
    FreeIsNotOut(q, i, top);
    OutGrows(q, i, r.allocs[i], top);
    assert Out(r) == Out(q.(allocs := r.allocs));
  }

  lemma GrownOut(p: Pool, base: nat)
    ensures Out(Grown(p, base)) == Out(p)
  {
    var g := Grown(p, base);
    forall a | a in Out(p)
      ensures a in Out(g)
    {
      var j :| 0 <= j < |p.allocs| && a in p.allocs[j].out;
      assert a in g.allocs[j].out;
    }
    forall a | a in Out(g)
      ensures a in Out(p)
    {
      var j :| 0 <= j < |g.allocs| && a in g.allocs[j].out;
      assert a in p.allocs[j].out;
    }
  }

  /** get_chunk hands out exactly one more chunk, one that nobody holds; when it throws nothing is handed out. */
  lemma GotOut(p: Pool, base: nat)
    requires Inv(p) && Answers(p, base)
    ensures Got(p, base).1.Some? ==> Got(p, base).1.value !in Out(p)
    ensures Out(Got(p, base).0) == Out(p) + (if Got(p, base).1.Some? then {Got(p, base).1.value} else {})
  {
    if FirstFree(p.allocs) == |p.allocs| {
      GrownShape(p, base);
      GrownOut(p, base);
    }
    var q := if FirstFree(p.allocs) == |p.allocs| then Grown(p, base) else p;
    if Taken(q).1.Some? {
      TakenOut(q);
    }
  }

  /** The allocation that holds `a`, seen from outside: where it starts and how many chunks it has. */
  ghost predicate HeldIn(p: Pool, a: nat, base: nat, total: nat)
  {
    exists i :: 0 <= i < |p.allocs| && a in p.allocs[i].out
                && p.allocs[i].base == base && p.allocs[i].total == total
  }

  /** Where allocation `j` stands after free_chunk on allocation `i`. */
  function Shifted(p: Pool, i: nat, j: nat): int
    requires i < |p.allocs|
  {
    if i > 0 && p.allocs[i].total == |p.allocs[i].free| + 1 && j > i then j - 1 else j
  }

  lemma StaysOut(p: Pool, i: nat, a: nat, j: nat, b: nat)
    requires Inv(p) && i < |p.allocs| && a in p.allocs[i].out
    requires b != a && j < |p.allocs| && b in p.allocs[j].out
    ensures var s, k := Freed(p, i, a).allocs, Shifted(p, i, j);
            0 <= k < |s| && b in s[k].out && s[k].base == p.allocs[j].base && s[k].total == p.allocs[j].total
  {
    var out := p.allocs[i].out;
    assert |out - {a}| == |out| - 1;
    if j == i {
      assert b in out - {a};
    }
  }

  /** free_chunk takes back exactly that chunk; every other chunk that is out keeps its allocation,
      so no allocation is erased under a holder. */
  lemma FreedOut(p: Pool, i: nat, a: nat)
    requires Inv(p) && i < |p.allocs| && a in p.allocs[i].out
    ensures Out(Freed(p, i, a)) == Out(p) - {a}
    ensures forall b: nat, base: nat, total: nat ::
              b != a && HeldIn(p, b, base, total) ==> HeldIn(Freed(p, i, a), b, base, total)
  {
    var r := Freed(p, i, a);
    forall b: nat, base: nat, total: nat | b != a && HeldIn(p, b, base, total)
      ensures HeldIn(r, b, base, total)
    {
      var j :| 0 <= j < |p.allocs| && b in p.allocs[j].out && p.allocs[j].base == base && p.allocs[j].total == total;
      StaysOut(p, i, a, j, b);
    }
    forall b | b in Out(p) && b != a
      ensures b in Out(r)
    {
      var j :| 0 <= j < |p.allocs| && b in p.allocs[j].out;
      StaysOut(p, i, a, j, b);
    }
    forall b | b in Out(r)
      ensures b in Out(p) && b != a
    {
      var j :| 0 <= j < |r.allocs| && b in r.allocs[j].out;
      NothingNew(p, i, a, j, b);
    }
  }

  lemma NothingNew(p: Pool, i: nat, a: nat, j: nat, b: nat)
    requires Inv(p) && i < |p.allocs| && a in p.allocs[i].out
    requires j < |Freed(p, i, a).allocs| && b in Freed(p, i, a).allocs[j].out
    ensures b in Out(p) && b != a
  {
    var j' := if |Freed(p, i, a).allocs| < |p.allocs| && j >= i then j + 1 else j;
    assert b in p.allocs[j'].out;
    if b == a {
      OneOwner(p, i, j', a);
    }
  }

  // ---------------------------------------------------------------- what the invariant means

  lemma OutsDisjoint(p: Pool)
    requires Shape(p)
    ensures forall i, j :: 0 <= i < j < |p.allocs| ==> p.allocs[i].out !! p.allocs[j].out
  {
    forall i, j, a | 0 <= i < j < |p.allocs| && a in p.allocs[i].out
      ensures a !in p.allocs[j].out
    {
      if a in p.allocs[j].out {
        OneOwner(p, i, j, a);
      }
    }
  }

  ghost function OutOf(allocs: seq<Alloc>): set<nat>
  {
    if allocs == [] then {} else allocs[0].out + OutOf(allocs[1..])
  }

  lemma {:induction false} OutOfMembers(s: seq<Alloc>, a: nat)
    ensures a in OutOf(s) <==> exists i :: 0 <= i < |s| && a in s[i].out
  {
    if s == [] {
    } else {
      OutOfMembers(s[1..], a);
      if i :| 0 <= i < |s| && a in s[i].out && i > 0 {
        assert a in s[1..][i - 1].out;
      }
      if i :| 0 <= i < |s[1..]| && a in s[1..][i].out {
        assert a in s[i + 1].out;
      }
    }
  }

  lemma {:induction false} OutCardinality(s: seq<Alloc>)
    requires forall i, j :: 0 <= i < j < |s| ==> s[i].out !! s[j].out
    ensures |OutOf(s)| == OutCount(s)
  {
    if s == [] {
    } else {
      var t := s[1..];
      assert forall i :: 0 <= i < |t| ==> t[i] == s[i + 1];
      OutCardinality(t);
      forall a | a in s[0].out
        ensures a !in OutOf(t)
      {
        OutOfMembers(t, a);
      }
      assert s[0].out !! OutOf(t);
    }
  }

  ghost function Elements(s: seq<nat>): set<nat>
  {
    set a | a in s
  }

  ghost function ChunksIn(al: Alloc): set<nat>
  {
    Elements(al.free) + al.out
  }

  /** Every chunk the pool has, free or out. */
  ghost function ChunksOf(allocs: seq<Alloc>): set<nat>
  {
    if allocs == [] then {} else ChunksIn(allocs[0]) + ChunksOf(allocs[1..])
  }

  lemma {:induction false} DistinctCount(s: seq<nat>)
    requires Distinct(s)
    ensures |Elements(s)| == |s|
  {
    if s == [] {
      assert Elements(s) == {};
    } else {
      var n := |s| - 1;
      DistinctCount(s[..n]);
      assert s == s[..n] + [s[n]];
      assert Elements(s) == Elements(s[..n]) + {s[n]} && s[n] !in Elements(s[..n]);
    }
  }

  lemma ChunksInCount(al: Alloc, size: nat)
    requires AllocOk(al, size)
    ensures |ChunksIn(al)| == al.total
  {
    DistinctCount(al.free);
    assert Elements(al.free) !! al.out;
  }

  lemma {:induction false} ChunksOfMembers(s: seq<Alloc>, a: nat)
    ensures a in ChunksOf(s) <==> exists i :: 0 <= i < |s| && Known(s[i], a)
  {
    if s == [] {
    } else {
      ChunksOfMembers(s[1..], a);
      if i :| 0 <= i < |s| && Known(s[i], a) && i > 0 {
        assert Known(s[1..][i - 1], a);
      }
      if i :| 0 <= i < |s[1..]| && Known(s[1..][i], a) {
        assert Known(s[i + 1], a);
      }
    }
  }

  lemma {:induction false} ChunksOfCount(s: seq<Alloc>, size: nat)
    requires forall i :: 0 <= i < |s| ==> AllocOk(s[i], size)
    requires forall i, j, a: nat :: 0 <= i < j < |s| && Known(s[i], a) ==> !Known(s[j], a)
    ensures |ChunksOf(s)| == Live(s)
  {
    if s == [] {
    } else {
      var t := s[1..];
      assert forall i :: 0 <= i < |t| ==> t[i] == s[i + 1];
      ChunksOfCount(t, size);
      ChunksInCount(s[0], size);
      forall a | a in ChunksIn(s[0])
        ensures a !in ChunksOf(t)
      {
        assert Known(s[0], a);
        ChunksOfMembers(t, a);
      }
      assert ChunksIn(s[0]) !! ChunksOf(t);
    }
  }

  /** The chunks of a pool, counted, are what its allocations were carved into. */
  lemma ChunkTotal(p: Pool)
    requires Shape(p)
    ensures |ChunksOf(p.allocs)| == Live(p.allocs)
  {
    forall i, j, a: nat | 0 <= i < j < |p.allocs| && Known(p.allocs[i], a)
      ensures !Known(p.allocs[j], a)
    {
      if Known(p.allocs[j], a) {
        OneOwner(p, i, j, a);
      }
    }
    ChunksOfCount(p.allocs, p.chunkSize);
  }

  lemma {:induction false} LiveBound(s: seq<Alloc>, most: nat)
    requires forall i :: 0 <= i < |s| ==> s[i].total <= most && (s[i].total == 0 || s[i].out != {})
    ensures Live(s) <= OutCount(s) * most
  {
    if s == [] {
    } else {
      assert forall i :: 0 <= i < |s[1..]| ==> s[1..][i] == s[i + 1];
      LiveBound(s[1..], most);
      var c, d := OutCount(s[1..]), |s[0].out|;
      assert (c + d) * most == c * most + d * most;
      assert s[0].total > 0 ==> d >= 1;
      assert d >= 1 ==> d * most >= most;
    }
  }

  lemma ChunksApart(p: Pool, i: nat, a: nat, j: nat, b: nat)
    requires Shape(p) && i < |p.allocs| && j < |p.allocs| && (i != j || a != b)
    requires Known(p.allocs[i], a) && Known(p.allocs[j], b)
    ensures Spaced(a, b, p.chunkSize)
  {
    assert Inside(p.allocs[i], a, p.chunkSize) && Inside(p.allocs[j], b, p.chunkSize);
    assert i < j ==> Apart(p.allocs[i], p.allocs[j]);
    assert j < i ==> Apart(p.allocs[j], p.allocs[i]);
  }

  /** What a caller of the pool relies on. */
  ghost predicate Safe(p: Pool)
  {
    && (forall i :: 0 <= i < |p.allocs| ==> p.allocs[i].index == i && Distinct(p.allocs[i].free))
    && (forall i, a: nat :: 0 <= i < |p.allocs| && Known(p.allocs[i], a) ==> Inside(p.allocs[i], a, p.chunkSize))
    && (forall i, a: nat, j, b: nat ::
          0 <= i < |p.allocs| && 0 <= j < |p.allocs| && Known(p.allocs[i], a) && Known(p.allocs[j], b) ==>
            (i == j && a == b) || Spaced(a, b, p.chunkSize))
    && p.counter == |Out(p)|
    && (forall i :: 0 <= i < |p.allocs| ==>
          |p.allocs[i].free| + |p.allocs[i].out| == if i == 0 then p.num else p.num / 2)
    && |ChunksOf(p.allocs)| <= p.num + |Out(p)| * (p.num / 2)
    && (Out(p) == {} && p.num >= 2 ==> |p.allocs| <= 1)
  }

  lemma PoolBound(p: Pool)
    requires Inv(p)
    ensures Live(p.allocs) <= p.num + OutCount(p.allocs) * (p.num / 2)
  {
    if p.allocs != [] {
      var rest, h := p.allocs[1..], p.num / 2;
      forall i | 0 <= i < |rest|
        ensures rest[i].total <= h && (rest[i].total == 0 || rest[i].out != {})
      {
        assert rest[i] == p.allocs[i + 1];
      }
      LiveBound(rest, h);
      BoundPlus(OutCount(rest), |p.allocs[0].out|, h);
    }
  }

  lemma BoundPlus(c: nat, d: nat, h: nat)
    ensures c * h <= (c + d) * h
  {
    assert (c + d) * h == c * h + d * h;
  }

  lemma OutIsCounted(p: Pool)
    requires Shape(p)
    ensures |Out(p)| == OutCount(p.allocs)
  {
    OutsDisjoint(p);
    OutCardinality(p.allocs);
    assert Out(p) == OutOf(p.allocs) by {
      forall a: nat ensures a in Out(p) <==> a in OutOf(p.allocs) { OutOfMembers(p.allocs, a); }
    }
  }

  lemma SecondIsHeld(p: Pool)
    requires Inv(p) && |p.allocs| > 1 && p.num >= 2
    ensures Out(p) != {}
  {
    var out := p.allocs[1].out;
    assert out != {} && out <= Out(p);
  }

  lemma SizesAreSafe(p: Pool)
    requires Inv(p)
    ensures forall i :: 0 <= i < |p.allocs| ==>
              && p.allocs[i].index == i && Distinct(p.allocs[i].free)
              && |p.allocs[i].free| + |p.allocs[i].out| == if i == 0 then p.num else p.num / 2
    ensures forall i, a: nat :: 0 <= i < |p.allocs| && Known(p.allocs[i], a) ==> Inside(p.allocs[i], a, p.chunkSize)
  {
  }

  lemma InvIsSafe(p: Pool)
    requires Inv(p)
    ensures Safe(p)
  {
    SizesAreSafe(p);
    OutIsCounted(p);
    PoolBound(p);
    ChunkTotal(p);
    forall i, a: nat, j, b: nat |
      0 <= i < |p.allocs| && 0 <= j < |p.allocs| && Known(p.allocs[i], a) && Known(p.allocs[j], b) && (i != j || a != b)
      ensures Spaced(a, b, p.chunkSize)
    {
      ChunksApart(p, i, a, j, b);
    }
    if |p.allocs| > 1 && p.num >= 2 {
      SecondIsHeld(p);
    }
  }

  // ---------------------------------------------------------------- whole runs

  datatype Op = Get(base: nat) | Free(addr: nat) | FreeAll

  function Owner(allocs: seq<Alloc>, a: nat): (i: nat)
    ensures i <= |allocs|
    ensures i < |allocs| ==> a in allocs[i].out
    ensures i == |allocs| ==> forall j :: 0 <= j < |allocs| ==> a !in allocs[j].out
  {
    if allocs == [] then 0
    else if a in allocs[0].out then 0
    else 1 + Owner(allocs[1..], a)
  }

  /** The callers' side of the bargain: a chunk is returned only while it is held, and the pool is
      emptied only when nothing is out. */
  ghost predicate Enabled(p: Pool, op: Op)
  {
    match op
    case Get(base) => Answers(p, base)
    case Free(a) => a in Out(p)
    case FreeAll => Out(p) == {}
  }

  ghost function Next(p: Pool, op: Op): Pool
  {
    match op
    case Get(base) => Got(p, base).0
    case Free(a) => var i := Owner(p.allocs, a); if i < |p.allocs| then Freed(p, i, a) else p
    case FreeAll => AllFreed(p)
  }

  /** What the callers hold after `op`, told from their side alone. */
  ghost function Holding(held: set<nat>, p: Pool, op: Op): set<nat>
  {
    match op
    case Get(base) => if Got(p, base).1.Some? then held + {Got(p, base).1.value} else held
    case Free(a) => held - {a}
    case FreeAll => held
  }

  ghost predicate IsRun(p: Pool, held: set<nat>, ops: seq<Op>, p': Pool, held': set<nat>)
    decreases |ops|
  {
    if ops == [] then p' == p && held' == held
    else Enabled(p, ops[0]) && IsRun(Next(p, ops[0]), Holding(held, p, ops[0]), ops[1..], p', held')
  }

  lemma StepInv(p: Pool, op: Op)
    requires Inv(p) && Enabled(p, op)
    ensures Inv(Next(p, op)) && Out(Next(p, op)) == Holding(Out(p), p, op)
  {
    match op
    case Get(base) =>
      GotInv(p, base);
      GotOut(p, base);
    case Free(a) =>
      var i := Owner(p.allocs, a);
      FreedInv(p, i, a);
      FreedOut(p, i, a);
    case FreeAll =>
      assert forall i :: 0 <= i < |p.allocs| ==> p.allocs[i].out <= Out(p);
  }

  lemma NewInv(size: nat, num: nat, base: nat)
    requires size > 0 && base > 0
    ensures Inv(Constructed(size, num, base)) && Out(Constructed(size, num, base)) == {}
  {
    CarveOk(base, num, size);
    assert Constructed(size, num, base).allocs[1..] == [];
  }

  /** Every run of get_chunk, free_chunk and free_all from a new pool: the pool is safe, what it
      counts as out is exactly what the callers hold, and with two or more buffers the exception
      in get_chunk is unreachable. */
  lemma RunIsSafe(size: nat, num: nat, base: nat, ops: seq<Op>, p: Pool, held: set<nat>)
    requires size > 0 && base > 0
    requires IsRun(Constructed(size, num, base), {}, ops, p, held)
    ensures Safe(p) && Out(p) == held
    ensures num >= 2 ==> forall b: nat :: Answers(p, b) ==> Got(p, b).1.Some?
  {
    NewInv(size, num, base);
    RunInv(Constructed(size, num, base), {}, ops, p, held);
    InvIsSafe(p);
    forall b: nat | Answers(p, b) && num >= 2
      ensures Got(p, b).1.Some?
    {
      GotInv(p, b);
    }
  }

  lemma {:induction false} RunInv(p: Pool, held: set<nat>, ops: seq<Op>, p': Pool, held': set<nat>)
    requires Inv(p) && Out(p) == held && IsRun(p, held, ops, p', held')
    ensures Inv(p') && Out(p') == held' && p'.num == p.num
    decreases |ops|
  {
    if ops == [] {
    } else {
      var p1, held1 := Next(p, ops[0]), Holding(held, p, ops[0]);
      assert IsRun(p1, held1, ops[1..], p', held') && p1.num == p.num;
      StepInv(p, ops[0]);
      RunInv(p1, held1, ops[1..], p', held');
    }
  }

  // ---------------------------------------------------------------- reachable pools

  /** A pool that some run of the three operations on a new pool produces. */
  ghost predicate Reachable(p: Pool)
  {
    exists size: nat, num: nat, base: nat, ops: seq<Op>, held: set<nat> ::
      size > 0 && base > 0 && IsRun(Constructed(size, num, base), {}, ops, p, held)
  }

  lemma {:induction false} RunExtends(p: Pool, held: set<nat>, ops: seq<Op>, p': Pool, held': set<nat>, op: Op)
    requires IsRun(p, held, ops, p', held') && Enabled(p', op)
    ensures IsRun(p, held, ops + [op], Next(p', op), Holding(held', p', op))
    decreases |ops|
  {
    if ops == [] {
      assert (ops + [op])[1..] == [];
    } else {
      RunExtends(Next(p, ops[0]), Holding(held, p, ops[0]), ops[1..], p', held', op);
      assert (ops + [op])[1..] == ops[1..] + [op];
    }
  }

  lemma ReachableNew(size: nat, num: nat, base: nat)
    requires size > 0 && base > 0
    ensures Reachable(Constructed(size, num, base))
  {
    assert IsRun(Constructed(size, num, base), {}, [], Constructed(size, num, base), {});
  }

  lemma ReachableNext(p: Pool, op: Op)
    requires Reachable(p) && Enabled(p, op)
    ensures Reachable(Next(p, op))
  {
    var size: nat, num: nat, base: nat, ops: seq<Op>, held: set<nat> :|
      size > 0 && base > 0 && IsRun(Constructed(size, num, base), {}, ops, p, held);
    RunExtends(Constructed(size, num, base), {}, ops, p, held, op);
  }

  lemma ReachableInv(p: Pool)
    requires Reachable(p)
    ensures Inv(p)
  {
    var size: nat, num: nat, base: nat, ops: seq<Op>, held: set<nat> :|
      size > 0 && base > 0 && IsRun(Constructed(size, num, base), {}, ops, p, held);
    NewInv(size, num, base);
    RunInv(Constructed(size, num, base), {}, ops, p, held);
  }

  /** What free_all leaves is a pool that emptying a new pool leaves, whatever was out. */
  lemma AllFreedReachable(p: Pool)
    requires Reachable(p)
    ensures Reachable(AllFreed(p)) && Out(AllFreed(p)) == {}
  {
    ReachableInv(p);
    if p.created > 0 {
      var emptied := Constructed(p.chunkSize, p.num, 1);
      CreatedNeedsBuffers(p);
      NewInv(p.chunkSize, p.num, 1);
      ReachableNew(p.chunkSize, p.num, 1);
      ReachableNext(emptied, FreeAll);
      assert AllFreed(p) == AllFreed(emptied);
    } else {
      NothingOut(p);
    }
  }

  lemma NothingOut(p: Pool)
    requires Inv(p) && p.created == 0
    ensures Out(p) == {}
  {
    forall i | 0 <= i < |p.allocs|
      ensures p.allocs[i].out == {}
    {
      assert AllocOk(p.allocs[i], p.chunkSize);
    }
  }

  lemma CreatedNeedsBuffers(p: Pool)
    requires Reachable(p) && p.created > 0
    ensures p.num > 0
  {
    var size: nat, num: nat, base: nat, ops: seq<Op>, held: set<nat> :|
      size > 0 && base > 0 && IsRun(Constructed(size, num, base), {}, ops, p, held);
    if num == 0 {
      RunCreatesNone(Constructed(size, num, base), {}, ops, p, held);
    } else {
      NewInv(size, num, base);
      RunInv(Constructed(size, num, base), {}, ops, p, held);
    }
  }

  lemma {:induction false} RunCreatesNone(p: Pool, held: set<nat>, ops: seq<Op>, p': Pool, held': set<nat>)
    requires p.num == 0 && p.created == 0 && IsRun(p, held, ops, p', held')
    ensures p'.created == 0
    decreases |ops|
  {
    if ops == [] {
    } else {
      RunCreatesNone(Next(p, ops[0]), Holding(held, p, ops[0]), ops[1..], p', held');
    }
  }

  /** free_all takes no chunk away from a holder exactly when nothing is out; otherwise no allocation that is
      still live holds what the callers hold. */
  lemma FreeAllIsSafe(p: Pool)
    requires Inv(p)
    ensures Out(AllFreed(p)) == Holding(Out(p), p, FreeAll) <==> Out(p) == {}
    ensures Out(p) != {} ==> AllFreed(p).allocs == []
  {
    if p.created == 0 {
      NothingOut(p);
    }
  }

  lemma GotReachable(p: Pool, base: nat)
    requires Reachable(p) && Answers(p, base)
    ensures Reachable(Got(p, base).0)
    ensures Got(p, base).1.None? <==> FirstFree(p.allocs) == |p.allocs| && Growth(p) == 0
    ensures Got(p, base).1.Some? ==> Got(p, base).1.value !in Out(p)
    ensures Out(Got(p, base).0) == Out(p) + (if Got(p, base).1.Some? then {Got(p, base).1.value} else {})
  {
    ReachableInv(p);
    ReachableNext(p, Get(base));
    GotInv(p, base);
    GotOut(p, base);
  }

  lemma FreedReachable(p: Pool, i: nat, a: nat)
    requires Reachable(p) && i < |p.allocs| && a in p.allocs[i].out
    ensures p.allocs[i].index == i && p.allocs[i].base > 0
    ensures |p.allocs[i].free| + |p.allocs[i].out| == p.allocs[i].total
    ensures Reachable(Freed(p, i, a)) && Out(Freed(p, i, a)) == Out(p) - {a}
  {
    ReachableInv(p);
    assert a in Out(p);
    ReachableNext(p, Free(a));
    OneOwner(p, i, Owner(p.allocs, a), a);
    FreedOut(p, i, a);
  }
}
