/** The waiting queue's contents: first-in first-out delivery, and the lookup that rotates the queue
    until it meets a wanted message. */
module Rotation {
  import opened Collections

  datatype Message<+D> = Message(id: string, data: D)

  predicate Present<D>(q: seq<Message<D>>, ids: seq<string>)
  {
    exists i :: 0 <= i < |q| && q[i].id in ids
  }

  /** Position of the first message with one of these ids, or |q|. */
  function FirstMatch<D>(q: seq<Message<D>>, ids: seq<string>): (i: nat)
    ensures i <= |q|
    ensures i < |q| ==> q[i].id in ids
    ensures forall j :: 0 <= j < i ==> q[j].id !in ids
    ensures Present(q, ids) <==> i < |q|
  {
    if q == [] then 0
    else if q[0].id in ids then 0
    else
      var i := FirstMatch(q[1..], ids);
      assert forall j :: 1 <= j < |q| ==> q[j] == q[1..][j - 1];
      1 + i
  }

  function Rotated<T>(q: seq<T>, k: nat): seq<T>
    requires k <= |q|
  {
    q[k..] + q[..k]
  }

  /** What is left once the message at position i has been rotated to the front and taken. */
  function Without<T>(q: seq<T>, i: nat): seq<T>
    requires i < |q|
  {
    q[i + 1..] + q[..i]
  }

  lemma RotateOnce<T>(q: seq<T>, k: nat)
    requires k < |q|
    ensures Rotated(q, k)[0] == q[k]
    ensures Rotated(q, k)[1..] == Without(q, k)
    ensures Rotated(q, k)[1..] + [q[k]] == Rotated(q, k + 1)
  {
  }

  // ---------------------------------------------------------------- the loop, iteration by iteration

  datatype Loop<D> = Running(queue: seq<Message<D>>) | Returned(message: Message<D>, queue: seq<Message<D>>)

  /** k turns of the lookup loop: pop the front, return it if wanted, else put it at the back. */
  function Iterate<D>(q: seq<Message<D>>, ids: seq<string>, k: nat): Loop<D>
  {
    if k == 0 then Running(q)
    else
      match Iterate(q, ids, k - 1)
      case Returned(m, p) => Returned(m, p)
      case Running(p) =>
        if p == [] then Running(p)
        else if p[0].id in ids then Returned(p[0], p[1..])
        else Running(p[1..] + [p[0]])
  }

  lemma {:induction false} IterateSearching<D>(q: seq<Message<D>>, ids: seq<string>, k: nat)
    requires k <= FirstMatch(q, ids)
    ensures Iterate(q, ids, k) == Running(Rotated(q, k))
  {
    if k == 0 {
      assert Rotated(q, 0) == q;
    } else {
      IterateSearching(q, ids, k - 1);
      IterateMisses(q, ids, k - 1, k - 1);
    }
  }

  /** A wanted message is returned after exactly (its position + 1) turns, and the queue is left
      as what followed it and then what preceded it. */
  lemma {:induction false} IterateFinds<D>(q: seq<Message<D>>, ids: seq<string>, k: nat)
    requires Present(q, ids)
    ensures var i := FirstMatch(q, ids);
            Iterate(q, ids, k) == if k <= i then Running(Rotated(q, k)) else Returned(q[i], Without(q, i))
  {
    var i := FirstMatch(q, ids);
    if k <= i {
      IterateSearching(q, ids, k);
    } else {
      IterateFinds(q, ids, k - 1);
      RotateOnce(q, i);
    }
  }

  function Turns(k: nat, n: nat): (j: nat)
    requires n > 0
    ensures j < n
  {
    if k == 0 then 0 else if Turns(k - 1, n) + 1 == n then 0 else Turns(k - 1, n) + 1
  }

  lemma NextMod(k: nat, a: nat, r: nat, n: nat)
    requires k == a * n + r && r < n
    ensures (k + 1) % n == if r + 1 == n then 0 else r + 1
  {
    if r + 1 == n {
      assert k + 1 == (a + 1) * n + 0;
      DivMod(a + 1, 0, n);
    } else {
      DivMod(a, r + 1, n);
    }
  }

  lemma {:induction false} TurnsIsMod(k: nat, n: nat)
    requires n > 0
    ensures Turns(k, n) == k % n
  {
    if k == 0 {
    } else {
      TurnsIsMod(k - 1, n);
      NextMod(k - 1, (k - 1) / n, (k - 1) % n, n);
    }
  }

  lemma FullTurn<T>(q: seq<T>)
    ensures Rotated(q, 0) == q == Rotated(q, |q|)
  {
  }

  lemma IterateMisses<D>(q: seq<Message<D>>, ids: seq<string>, k: nat, j: nat)
    requires j < |q| && q[j].id !in ids && Iterate(q, ids, k) == Running(Rotated(q, j))
    ensures Iterate(q, ids, k + 1) == Running(Rotated(q, j + 1))
  {
    RotateOnce(q, j);
  }

  lemma TurnOnce<D>(q: seq<Message<D>>, ids: seq<string>, k: nat, j: nat)
    requires j < |q| && !Present(q, ids) && Iterate(q, ids, k) == Running(Rotated(q, j))
    ensures Iterate(q, ids, k + 1) == Running(Rotated(q, if j + 1 == |q| then 0 else j + 1))
  {
    IterateMisses(q, ids, k, j);
    FullTurn(q);
  }

  lemma {:induction false} IterateTurns<D>(q: seq<Message<D>>, ids: seq<string>, k: nat)
    requires q != [] && !Present(q, ids)
    ensures Iterate(q, ids, k) == Running(Rotated(q, Turns(k, |q|)))
  {
    if k == 0 {
      FullTurn(q);
    } else {
      IterateTurns(q, ids, k - 1);
      TurnOnce(q, ids, k - 1, Turns(k - 1, |q|));
    }
  }

  /** With nothing wanted in it, a non-empty queue is only turned, and every |q| turns restore it. */
  lemma IterateForever<D>(q: seq<Message<D>>, ids: seq<string>, k: nat)
    requires q != [] && !Present(q, ids)
    ensures Iterate(q, ids, k) == Running(Rotated(q, k % |q|))
    ensures k % |q| == 0 ==> Iterate(q, ids, k) == Running(q)
  {
    IterateTurns(q, ids, k);
    TurnsIsMod(k, |q|);
    assert Rotated(q, 0) == q;
  }

  /** On a non-empty queue the lookup loop ends exactly when a wanted message is present. */
  lemma LookupEnds<D>(q: seq<Message<D>>, ids: seq<string>)
    requires q != []
    ensures (exists k: nat :: Iterate(q, ids, k).Returned?) <==> Present(q, ids)
  {
    if Present(q, ids) {
      IterateFinds(q, ids, FirstMatch(q, ids) + 1);
    } else {
      forall k: nat
        ensures !Iterate(q, ids, k).Returned?
      {
        IterateForever(q, ids, k);
      }
    }
  }
}

/** WaitingQueue as an object. The waiting itself is in QueueMonitor: a method here describes the call
    from the moment its wait is over, and requires the condition it waited for. */
module WaitingQueue {
  import opened Collections
  import opened Rotation

  class WaitingQueue<D> {
    var queue: seq<Message<D>>
    var finished: bool
    var processed: nat

    constructor ()
      ensures queue == [] && !finished && processed == 0
    {
      queue, finished, processed := [], false, 0;
    }

    method Put(item: Message<D>)
      modifies this
      ensures queue == old(queue) + [item] && processed == old(processed) + 1 && finished == old(finished)
    {
      PutWaitingQueue(item);
      processed := processed + 1;
    }

    method PutWaitingQueue(item: Message<D>)
      modifies this`queue
      ensures queue == old(queue) + [item]
    {
      queue := queue + [item];
    }

    method Finish()
      modifies this`finished
      ensures finished
    {
      finished := true;
    }

    method PopOrWait() returns (m: Option<Message<D>>)
      requires finished || queue != []
      modifies this`queue
      ensures old(queue) == [] ==> m == None && queue == []
      ensures old(queue) != [] ==> m == Some(old(queue)[0]) && queue == old(queue)[1..]
    {
      if |queue| == 0 { return None; }
      m := Some(queue[0]);
      queue := queue[1..];
    }

    method PopBack() returns (m: Option<Message<D>>)
      modifies this`queue
      ensures old(queue) == [] ==> m == None && queue == []
      ensures old(queue) != [] ==> m.Some? && queue + [m.value] == old(queue)
    {
      if |queue| == 0 { return None; }
      m := Some(queue[|queue| - 1]);
      queue := queue[..|queue| - 1];
    }

    method HasNextNow() returns (b: bool)
      ensures b <==> queue != []
    {
      b := |queue| != 0;
    }

    method PopUnsafe() returns (m: Option<Message<D>>)
      modifies this`queue
      ensures old(queue) == [] ==> m == None && queue == []
      ensures old(queue) != [] ==> m == Some(old(queue)[0]) && queue == old(queue)[1..]
    {
      if |queue| == 0 { return None; }
      m := Some(queue[0]);
      queue := queue[1..];
    }

    /** get_or_wait_any; get_or_wait is the case of one id. When the queue is finished, not empty and
        holds none of the ids the source turns it forever, so that case is excluded. */
    method GetOrWaitAny(ids: seq<string>) returns (m: Option<Message<D>>)
      requires (finished && queue == []) || Present(queue, ids)
      modifies this`queue
      ensures old(queue) == [] ==> m == None && queue == []
      ensures old(queue) != [] ==> var i := FirstMatch(old(queue), ids);
                i < |old(queue)| && m == Some(old(queue)[i]) && queue == Without(old(queue), i)
    {
      if |queue| == 0 { return None; }
      ghost var q, i, k := queue, FirstMatch(queue, ids), 0;
      assert Rotated(q, 0) == q;
      while true
        invariant 0 <= k <= i && queue == Rotated(q, k)
        decreases i - k
      {
        RotateOnce(q, k);
        var data := PopUnsafe();
        if data.value.id in ids {
          return data;
        }
        PutWaitingQueue(data.value);
        k := k + 1;
      }
    }

    method GetOrWait(id: string) returns (m: Option<Message<D>>)
      requires (finished && queue == []) || Present(queue, [id])
      modifies this`queue
      ensures old(queue) == [] ==> m == None && queue == []
      ensures old(queue) != [] ==> var i := FirstMatch(old(queue), [id]);
                i < |old(queue)| && m == Some(old(queue)[i]) && queue == Without(old(queue), i)
    {
      m := GetOrWaitAny([id]);
    }

    method GetAllUnsafe() returns (messages: seq<Message<D>>)
      modifies this`queue
      ensures messages == old(queue) && queue == []
    {
      messages := [];
      for i := 0 to |queue|
        invariant messages == queue[..i] && queue == old(queue)
      {
        messages := messages + [queue[i]];
      }
      queue := [];
    }

    method PutAllUnsafe(messages: seq<Message<D>>)
      modifies this`queue
      ensures queue == old(queue) + messages
    {
      for i := 0 to |messages|
        invariant queue == old(queue) + messages[..i]
      {
        PutWaitingQueue(messages[i]);
      }
    }

    /** `processed` grows by the size of the vector after it was moved from, which is 0. */
    method PutAll(messages: seq<Message<D>>)
      modifies this`queue
      ensures queue == old(queue) + messages
    {
      PutAllUnsafe(messages);
    }

    method GetAllMessageIds() returns (ids: seq<string>)
      ensures |ids| == |queue| && forall i :: 0 <= i < |ids| ==> ids[i] == queue[i].id
    {
      ids := [];
      for i := 0 to |queue|
        invariant |ids| == i && forall j :: 0 <= j < i ==> ids[j] == queue[j].id
      {
        ids := ids + [queue[i].id];
      }
    }
  }
}
