/** The concatenating cache: how many messages one pull takes, and what it makes of them, eagerly
    (pullFromCache) or lazily (pullCacheData followed by decache). `overflow` stands for the check
    whether concatenating these tables would overflow a string column. */
module ConcatCacheModel {
  import opened Collections
  import opened Rotation
  import opened CacheData
  import opened CacheMachineModel

  function BytesOf(q: seq<Entry>): nat
  {
    if q == [] then 0 else SizeInBytes(q[0].data) + BytesOf(q[1..])
  }

  /** Messages taken after `total` bytes were collected. */
  function More(q: seq<Entry>, total: nat, limit: nat): (n: nat)
    ensures n <= |q|
  {
    if q == [] || total + SizeInBytes(q[0].data) > limit then 0
    else 1 + More(q[1..], total + SizeInBytes(q[0].data), limit)
  }

  function CollectCount(q: seq<Entry>, limit: nat, all: bool): (n: nat)
    ensures n <= |q|
  {
    if q == [] then 0 else if all then |q| else 1 + More(q[1..], SizeInBytes(q[0].data), limit)
  }

  lemma {:induction false} BytesSplit(p: seq<Entry>, q: seq<Entry>)
    ensures BytesOf(p + q) == BytesOf(p) + BytesOf(q)
  {
    if p == [] {
      assert p + q == q;
    } else {
      BytesSplit(p[1..], q);
      assert (p + q)[1..] == p[1..] + q && (p + q)[0] == p[0];
    }
  }

  lemma {:induction false} MoreIsMaximal(q: seq<Entry>, total: nat, limit: nat)
    ensures var n := More(q, total, limit);
            && (n > 0 ==> total + BytesOf(q[..n]) <= limit)
            && (n < |q| ==> total + BytesOf(q[..n + 1]) > limit)
  {
    var n := More(q, total, limit);
    if q == [] {
    } else {
      var b := SizeInBytes(q[0].data);
      MoreIsMaximal(q[1..], total + b, limit);
      if n > 0 {
        assert q[..n][1..] == q[1..][..n - 1];
        if n == 1 { assert q[..1][1..] == []; }
      }
      if n < |q| {
        assert q[..n + 1][1..] == q[1..][..n];
        if n == 0 { assert q[..1][1..] == []; }
      }
    }
  }

  /** A pull takes a prefix: nothing only from an empty queue, everything when told to concatenate all,
      and otherwise one message or as many as stay within the limit, and no longer prefix would. */
  lemma GreedyPrefix(q: seq<Entry>, limit: nat, all: bool)
    ensures var n := CollectCount(q, limit, all);
            && (n == 0 <==> q == [])
            && (all ==> n == |q|)
            && (!all ==> n <= 1 || BytesOf(q[..n]) <= limit)
            && (!all ==> forall k :: n < k <= |q| ==> BytesOf(q[..k]) > limit)
  {
    var n := CollectCount(q, limit, all);
    if q != [] && !all {
      var b := SizeInBytes(q[0].data);
      MoreIsMaximal(q[1..], b, limit);
      assert q[..n][1..] == q[1..][..n - 1];
      forall k | n < k <= |q|
        ensures BytesOf(q[..k]) > limit
      {
        assert q[..n + 1][1..] == q[1..][..n];
        assert q[..k] == q[..n + 1] + q[n + 1..k];
        BytesSplit(q[..n + 1], q[n + 1..k]);
      }
    }
  }

  function NextSize(q: seq<Entry>): nat
  {
    if q == [] then 0 else SizeInBytes(q[0].data)
  }

  /** Where the collecting loop is: `collected` taken from q, `queue` left, `total` bytes so far. */
  ghost predicate Collecting(q: seq<Entry>, limit: nat, all: bool, collected: seq<Entry>, queue: seq<Entry>, total: nat, again: bool)
  {
    var n := CollectCount(q, limit, all);
    && q == collected + queue
    && (collected == [] ==> again && total == 0)
    && (!again ==> |collected| == n)
    && (again && !all && collected != [] ==> n == |collected| + More(queue, total, limit) && total + NextSize(queue) <= limit)
  }

  lemma CollectStep(q: seq<Entry>, limit: nat, all: bool, collected: seq<Entry>, m: Entry, rest: seq<Entry>, total: nat)
    requires Collecting(q, limit, all, collected, [m] + rest, total, true)
    ensures var total' := total + SizeInBytes(m.data);
            Collecting(q, limit, all, collected + [m], rest, total', all || total' + NextSize(rest) <= limit)
  {
    Regroup(collected, [m], rest);
    assert ([m] + rest)[1..] == rest;
    var total' := total + SizeInBytes(m.data);
    if collected == [] {
      assert q == [m] + rest && q[1..] == rest;
    } else if !all {
      assert More([m] + rest, total, limit) == 1 + More(rest, total', limit);
    }
    assert total' + NextSize(rest) > limit ==> More(rest, total', limit) == 0;
  }

  lemma CollectDone(q: seq<Entry>, limit: nat, all: bool, collected: seq<Entry>, total: nat)
    requires Collecting(q, limit, all, collected, [], total, true)
    ensures collected == q && |q| == CollectCount(q, limit, all)
  {
  }

  // ---------------------------------------------------------------- what becomes of the messages

  ghost function Tables(q: seq<Entry>): (r: seq<Table>)
    requires QueueOk(q)
    ensures |r| == |q| && forall i :: 0 <= i < |q| ==> r[i] == Decache(q[i].data)
  {
    seq(|q|, i requires 0 <= i < |q| => Decache(q[i].data))
  }

  function Datas(q: seq<Entry>): seq<CacheData>
  {
    seq(|q|, i requires 0 <= i < |q| => q[i].data)
  }

  /** How many tables are kept before adding one more would overflow. */
  function Kept(tables: seq<Table>, overflow: seq<Table> -> bool, i: nat): (j: nat)
    requires i <= |tables|
    ensures i <= j <= |tables|
    ensures forall k :: i < k <= j ==> !overflow(tables[..k])
    ensures j < |tables| ==> overflow(tables[..j + 1])
    decreases |tables| - i
  {
    if i == |tables| || overflow(tables[..i + 1]) then i else Kept(tables, overflow, i + 1)
  }

  ghost predicate NoOverflow(tables: seq<Table>, overflow: seq<Table> -> bool)
  {
    forall k :: 0 < k <= |tables| ==> !overflow(tables[..k])
  }

  /** pullFromCache: concatenates what was taken, or puts the tail back when it would overflow. */
  ghost function EagerPull(q: seq<Entry>, limit: nat, all: bool, overflow: seq<Table> -> bool): (Option<Table>, seq<Entry>)
    requires QueueOk(q)
  {
    var n := CollectCount(q, limit, all);
    var taken, rest := q[..n], q[n..];
    if n == 0 then (None, rest)
    else if n == 1 then (Some(Decache(taken[0].data)), rest)
    else
      var tables := Tables(taken);
      var j := if all then n else Kept(tables, overflow, 0);
      if j == n then (Some(Flatten(tables)), rest)
      else (Some(Flatten(tables[..j])), rest + PutBack(taken, tables[j], j))
  }

  /** The table that did not fit goes back as a GPU table, the messages behind it as they were. */
  function PutBack(taken: seq<Entry>, t: Table, j: nat): seq<Entry>
    requires j < |taken|
  {
    [Message(taken[j].id, GPU(t))] + taken[j + 1..]
  }

  /** pullCacheData. */
  function LazyPull(q: seq<Entry>, limit: nat, all: bool): (Option<CacheData>, seq<Entry>)
  {
    var n := CollectCount(q, limit, all);
    if n == 0 then (None, q[n..])
    else if n == 1 then (Some(q[0].data), q[n..])
    else (Some(Concat(Datas(q[..n]))), q[n..])
  }

  /** ConcatCacheData::decache; None is its exception. Other data decaches as it is. */
  ghost function LazyDecache(d: CacheData, overflow: seq<Table> -> bool): Option<Table>
    requires Ok(d)
  {
    if d.Concat? && |d.parts| >= 2 && !NoOverflow(DecacheAll(d.parts), overflow) then None else Some(Decache(d))
  }

  lemma LazyOk(q: seq<Entry>, limit: nat, all: bool)
    requires QueueOk(q)
    ensures var (d, rest) := LazyPull(q, limit, all);
            (d.Some? ==> Ok(d.value)) && QueueOk(rest)
            && (CollectCount(q, limit, all) >= 2 ==>
                  DecacheAll(d.value.parts) == Tables(q[..CollectCount(q, limit, all)]))
  {
    var n := CollectCount(q, limit, all);
    if n >= 2 {
      assert forall i :: 0 <= i < n ==> Ok(Datas(q[..n])[i]);
      assert DecacheAll(Datas(q[..n])) == Tables(q[..n]);
    }
  }

  /** Lazy and eager concatenation agree: one message comes back as it is, and of several both make the
      same rows and leave the same queue exactly when no prefix of them overflows; otherwise the lazy
      table cannot be decached at all. */
  lemma LazyAgreesWithEager(q: seq<Entry>, limit: nat, all: bool, overflow: seq<Table> -> bool)
    requires QueueOk(q)
    ensures var (d, rest) := LazyPull(q, limit, all);
            var (t, rest') := EagerPull(q, limit, all, overflow);
            var n := CollectCount(q, limit, all);
            && (d.Some? <==> t.Some?) && (d.Some? ==> Ok(d.value))
            && (n < 2 ==> rest == rest' && (d.Some? ==> t.value == Decache(d.value)))
            && (n >= 2 ==> (LazyDecache(d.value, overflow) == t && rest == rest'
                            <==> NoOverflow(Tables(q[..n]), overflow)))
            && (n >= 2 && !NoOverflow(Tables(q[..n]), overflow) ==> LazyDecache(d.value, overflow) == None)
  {
    LazyOk(q, limit, all);
    var n := CollectCount(q, limit, all);
    if n == 1 {
      assert q[..1][0] == q[0];
    } else if n >= 2 {
      var tables := Tables(q[..n]);
      assert tables[..n] == tables;
      var j := Kept(tables, overflow, 0);
      assert j < n ==> !NoOverflow(tables, overflow);
    }
  }

  // ---------------------------------------------------------------- conservation of rows

  ghost function Rows(q: seq<Entry>): multiset<Row>
    requires QueueOk(q)
  {
    multiset(Flatten(Tables(q)))
  }

  lemma RowsSplit(p: seq<Entry>, q: seq<Entry>)
    requires QueueOk(p) && QueueOk(q)
    ensures QueueOk(p + q) && Rows(p + q) == Rows(p) + Rows(q)
  {
    assert Tables(p + q) == Tables(p) + Tables(q);
    FlattenAppend(Tables(p), Tables(q));
  }

  lemma PutBackRows(taken: seq<Entry>, j: nat)
    requires QueueOk(taken) && j < |taken|
    ensures var back := PutBack(taken, Decache(taken[j].data), j);
            QueueOk(back) && Rows(back) == Rows(taken[j..])
  {
    var back := PutBack(taken, Decache(taken[j].data), j);
    assert forall i :: 1 <= i < |back| ==> back[i] == taken[j..][i];
    assert Tables(back) == Tables(taken[j..]);
  }

  /** An eager pull loses no row and makes none up, put back or not: the rows returned and the rows left
      queued are the rows that were queued. */
  lemma EagerConservesRows(q: seq<Entry>, limit: nat, all: bool, overflow: seq<Table> -> bool)
    requires QueueOk(q)
    ensures var (t, q') := EagerPull(q, limit, all, overflow);
            QueueOk(q') && (if t.Some? then multiset(t.value) else multiset{}) + Rows(q') == Rows(q)
  {
    var n := CollectCount(q, limit, all);
    var taken, rest := q[..n], q[n..];
    assert q == taken + rest;
    RowsSplit(taken, rest);
    if n == 1 {
      assert Tables(taken) == [Decache(taken[0].data)];
      assert Flatten([Decache(taken[0].data)]) == Decache(taken[0].data) + [];
    } else if n >= 2 {
      var tables := Tables(taken);
      var j := if all then n else Kept(tables, overflow, 0);
      if j < n {
        OverflowConserves(taken, rest, j);
      }
    } else {
      assert Tables(taken) == [];
    }
  }

  lemma OverflowConserves(taken: seq<Entry>, rest: seq<Entry>, j: nat)
    requires QueueOk(taken) && QueueOk(rest) && j < |taken|
    ensures var q' := rest + PutBack(taken, Tables(taken)[j], j);
            QueueOk(q') && multiset(Flatten(Tables(taken)[..j])) + Rows(q') == Rows(taken) + Rows(rest)
  {
    PutBackRows(taken, j);
    RowsSplit(rest, PutBack(taken, Tables(taken)[j], j));
    assert taken == taken[..j] + taken[j..];
    RowsSplit(taken[..j], taken[j..]);
    assert Tables(taken[..j]) == Tables(taken)[..j];
  }

  /** How many of the n messages taken end up in the table returned. */
  ghost function Used(q: seq<Entry>, limit: nat, all: bool, overflow: seq<Table> -> bool): (j: nat)
    requires QueueOk(q)
    ensures j <= CollectCount(q, limit, all) <= |q|
  {
    var n := CollectCount(q, limit, all);
    if all || n < 2 then n else Kept(Tables(q[..n]), overflow, 0)
  }

  /** An eager pull returns the rows of the first j messages, in order, and leaves the messages it did not
      take followed by those it took from position j on, ids, tables and order as they were. j is as large
      as can be without overflow. */
  lemma EagerPullKeeps(q: seq<Entry>, limit: nat, all: bool, overflow: seq<Table> -> bool)
    requires QueueOk(q)
    ensures var (t, q') := EagerPull(q, limit, all, overflow);
            var n, j := CollectCount(q, limit, all), Used(q, limit, all, overflow);
            && QueueOk(q') && Loaded(q') == Loaded(q[n..]) + Loaded(q[j..n])
            && t == (if n == 0 then None else Some(Flatten(Tables(q[..j]))))
            && (!all && n >= 2 ==> forall k :: 0 < k <= j ==> !overflow(Tables(q[..n])[..k]))
            && (j < n ==> overflow(Tables(q[..n])[..j + 1]))
  {
    var n, j := CollectCount(q, limit, all), Used(q, limit, all, overflow);
    var taken, rest := q[..n], q[n..];
    if j == n {
      assert q[n..n] == [] && Loaded(rest) + [] == Loaded(rest);
      if n == 1 {
        OneTable(taken);
      }
    } else {
      assert taken[..j] == q[..j] && taken[j..] == q[j..n];
      OverflowKeeps(taken, rest, j);
    }
  }

  lemma OneTable(taken: seq<Entry>)
    requires QueueOk(taken) && |taken| == 1
    ensures Flatten(Tables(taken)) == Decache(taken[0].data)
  {
    var tables := Tables(taken);
    assert tables[1..] == [] && tables[0] + [] == tables[0];
  }

  lemma OverflowKeeps(taken: seq<Entry>, rest: seq<Entry>, j: nat)
    requires QueueOk(taken) && QueueOk(rest) && j < |taken|
    ensures Tables(taken)[..j] == Tables(taken[..j])
    ensures var q' := rest + PutBack(taken, Tables(taken)[j], j);
            QueueOk(q') && Loaded(q') == Loaded(rest) + Loaded(taken[j..])
  {
    PutBackKeeps(taken, j);
    var back := PutBack(taken, Tables(taken)[j], j);
    assert Loaded(rest + back) == Loaded(rest) + Loaded(back);
  }

  lemma PutBackKeeps(taken: seq<Entry>, j: nat)
    requires QueueOk(taken) && j < |taken|
    ensures var back := PutBack(taken, Decache(taken[j].data), j);
            QueueOk(back) && Loaded(back) == Loaded(taken[j..])
  {
    var back := PutBack(taken, Decache(taken[j].data), j);
    assert forall i :: 1 <= i < |back| ==> back[i] == taken[j..][i];
  }
}
