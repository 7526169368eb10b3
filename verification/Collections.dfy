/** Sums, flattening and a little integer division, shared by the models. */
module Collections {

  datatype Option<+T> = None | Some(value: T)

  function Max(a: int, b: int): (r: int)
    ensures r >= a && r >= b && (r == a || r == b)
  {
    if a < b then b else a
  }

  function Sum(s: seq<nat>): nat
  {
    if s == [] then 0 else s[0] + Sum(s[1..])
  }

  lemma {:induction false} SumAppend(s: seq<nat>, t: seq<nat>)
    ensures Sum(s + t) == Sum(s) + Sum(t)
  {
    if s == [] {
      assert s + t == t;
    } else {
      SumAppend(s[1..], t);
      assert (s + t)[1..] == s[1..] + t;
    }
  }

  lemma Regroup<T>(a: seq<T>, b: seq<T>, c: seq<T>)
    ensures a + (b + c) == a + b + c
  {
  }

  function Flatten<T>(ss: seq<seq<T>>): seq<T>
  {
    if ss == [] then [] else ss[0] + Flatten(ss[1..])
  }

  lemma {:induction false} FlattenAppend<T>(ss: seq<seq<T>>, tt: seq<seq<T>>)
    ensures Flatten(ss + tt) == Flatten(ss) + Flatten(tt)
  {
    if ss == [] {
      assert ss + tt == tt;
    } else {
      FlattenAppend(ss[1..], tt);
      assert (ss + tt)[1..] == ss[1..] + tt && (ss + tt)[0] == ss[0];
      Regroup(ss[0], Flatten(ss[1..]), Flatten(tt));
    }
  }

  /** The first n sequences, flattened from the left. */
  function FlattenUpTo<T>(ss: seq<seq<T>>, n: nat): seq<T>
    requires n <= |ss|
  {
    if n == 0 then [] else FlattenUpTo(ss, n - 1) + ss[n - 1]
  }

  lemma FlattenLast<T>(ss: seq<seq<T>>, p: nat)
    requires p < |ss|
    ensures Flatten(ss[..p + 1]) == Flatten(ss[..p]) + ss[p]
  {
    assert ss[..p + 1] == ss[..p] + [ss[p]];
    FlattenAppend(ss[..p], [ss[p]]);
    assert [ss[p]][1..] == [] && ss[p] + [] == ss[p];
  }

  lemma {:induction false} FlattenUpToIsFlatten<T>(ss: seq<seq<T>>, n: nat)
    requires n <= |ss|
    ensures FlattenUpTo(ss, n) == Flatten(ss[..n])
  {
    if n == 0 {
    } else {
      FlattenUpToIsFlatten(ss, n - 1);
      FlattenLast(ss, n - 1);
    }
  }

  lemma FlattenUpToAll<T>(ss: seq<seq<T>>)
    ensures FlattenUpTo(ss, |ss|) == Flatten(ss)
  {
    FlattenUpToIsFlatten(ss, |ss|);
    assert ss[..|ss|] == ss;
  }

  function Lengths<T>(ss: seq<seq<T>>): (r: seq<nat>)
    ensures |r| == |ss| && forall i :: 0 <= i < |r| ==> r[i] == |ss[i]|
  {
    seq(|ss|, i requires 0 <= i < |ss| => |ss[i]|)
  }

  lemma {:induction false} FlattenLength<T>(ss: seq<seq<T>>)
    ensures |Flatten(ss)| == Sum(Lengths(ss))
  {
    if ss == [] {
    } else {
      FlattenLength(ss[1..]);
      assert Lengths(ss)[1..] == Lengths(ss[1..]);
    }
  }

  lemma DivMod(q: nat, r: nat, d: nat)
    requires r < d
    ensures (q * d + r) / d == q && (q * d + r) % d == r
  {
    var n := q * d + r;
    var m := n / d;
    assert n == m * d + n % d;
    assert m < q ==> (m + 1) * d <= q * d;
    assert m > q ==> (q + 1) * d <= m * d;
  }
}
