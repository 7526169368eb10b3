/** The order rows are sorted by: column by column, each ascending or descending, nulls after values. */
module SortOrder {

  datatype Order = Ascending | Descending

  datatype Cell = Null | Value(v: int)

  /** The cells of the sort columns. */
  type Key = seq<Cell>

  datatype Row = Row(key: Key, payload: int)

  type Table = seq<Row>

  predicate CellLe(a: Cell, b: Cell)
  {
    b.Null? || (a.Value? && a.v <= b.v)
  }

  function Head(k: Key): Cell { if k == [] then Null else k[0] }

  function Tail(k: Key): Key { if k == [] then [] else k[1..] }

  predicate Le(orders: seq<Order>, a: Key, b: Key)
    decreases |orders|
  {
    if orders == [] then true
    else if Head(a) == Head(b) then Le(orders[1..], Tail(a), Tail(b))
    else if orders[0].Ascending? then CellLe(Head(a), Head(b))
    else CellLe(Head(b), Head(a))
  }

  lemma {:induction false} LeTotal(orders: seq<Order>, a: Key, b: Key)
    ensures Le(orders, a, b) || Le(orders, b, a)
    decreases |orders|
  {
    if orders != [] && Head(a) == Head(b) {
      LeTotal(orders[1..], Tail(a), Tail(b));
    }
  }

  lemma {:induction false} LeTransitive(orders: seq<Order>, a: Key, b: Key, c: Key)
    requires Le(orders, a, b) && Le(orders, b, c)
    ensures Le(orders, a, c)
    decreases |orders|
  {
    if orders != [] && Head(a) == Head(b) && Head(b) == Head(c) {
      LeTransitive(orders[1..], Tail(a), Tail(b), Tail(c));
    }
  }

  function Flipped(orders: seq<Order>): (r: seq<Order>)
    ensures |r| == |orders|
    ensures forall i :: 0 <= i < |r| ==> r[i] == if orders[i].Ascending? then Descending else Ascending
  {
    seq(|orders|, i requires 0 <= i < |orders| => if orders[i].Ascending? then Descending else Ascending)
  }

  /** Turning every column around turns the whole order around, nulls included. */
  lemma {:induction false} FlipReverses(orders: seq<Order>, a: Key, b: Key)
    ensures Le(Flipped(orders), a, b) <==> Le(orders, b, a)
    decreases |orders|
  {
    if orders == [] {
    } else {
      assert Flipped(orders)[1..] == Flipped(orders[1..]);
      FlipReverses(orders[1..], Tail(a), Tail(b));
    }
  }

  // ---------------------------------------------------------------- the order, column by column

  /** The first column in which two keys differ. */
  ghost predicate FirstDiffer(a: Key, b: Key, i: nat)
  {
    i < |a| && i < |b| && a[i] != b[i] && forall j :: 0 <= j < i ==> a[j] == b[j]
  }

  /** A smaller value, or a value before a null. */
  predicate Smaller(x: Cell, y: Cell)
  {
    match (x, y)
    case (Value(v), Value(w)) => v < w
    case (Value(v), Null) => true
    case (Null, _) => false
  }

  predicate Before(order: Order, x: Cell, y: Cell)
  {
    match order
    case Ascending => Smaller(x, y)
    case Descending => Smaller(y, x)
  }

  lemma {:induction false} LeDecidedAt(orders: seq<Order>, a: Key, b: Key, i: nat)
    requires |a| == |b| == |orders| && FirstDiffer(a, b, i)
    ensures Le(orders, a, b) <==> Before(orders[i], a[i], b[i])
    decreases |orders|
  {
    if i == 0 {
    } else {
      assert a[0] == b[0];
      assert forall j :: 0 <= j < |a| - 1 ==> a[1..][j] == a[j + 1] && b[1..][j] == b[j + 1];
      LeDecidedAt(orders[1..], a[1..], b[1..], i - 1);
    }
  }

  lemma {:induction false} LeReflexive(orders: seq<Order>, a: Key)
    ensures Le(orders, a, a)
    decreases |orders|
  {
    if orders == [] {
    } else {
      LeReflexive(orders[1..], Tail(a));
    }
  }

  lemma {:induction false} FindDifference(a: Key, b: Key) returns (i: nat)
    requires |a| == |b| && a != b
    ensures FirstDiffer(a, b, i)
    decreases |a|
  {
    if a[0] != b[0] {
      i := 0;
    } else {
      assert a == [a[0]] + a[1..] && b == [b[0]] + b[1..];
      var k := FindDifference(a[1..], b[1..]);
      i := k + 1;
      assert forall j :: 1 <= j <= i ==> a[j] == a[1..][j - 1] && b[j] == b[1..][j - 1];
    }
  }

  /** Of two keys one is at most the other exactly when they are equal or, in the first column where they
      differ, it comes before: a smaller value or a value before a null, the other way round in a
      descending column. */
  lemma LeByFirstDifference(orders: seq<Order>, a: Key, b: Key)
    requires |a| == |b| == |orders|
    ensures Le(orders, a, b) <==> a == b || exists i: nat :: FirstDiffer(a, b, i) && Before(orders[i], a[i], b[i])
  {
    if a == b {
      LeReflexive(orders, a);
    } else {
      var k := FindDifference(a, b);
      LeDecidedAt(orders, a, b, k);
      if i: nat :| FirstDiffer(a, b, i) && Before(orders[i], a[i], b[i]) {
        SameDifference(a, b, i, k);
      }
    }
  }

  lemma SameDifference(a: Key, b: Key, i: nat, k: nat)
    requires FirstDiffer(a, b, i) && FirstDiffer(a, b, k)
    ensures i == k
  {
  }

  // ---------------------------------------------------------------- any total order

  /** The distributed sort is proved for every total order on keys. */
  type Leq = (Key, Key) -> bool

  function Lex(orders: seq<Order>): Leq
  {
    (a, b) => Le(orders, a, b)
  }

  /** Marks the keys that totality and transitivity are applied to. */
  ghost predicate Pair(a: Key, b: Key) { true }

  ghost predicate Chain(a: Key, b: Key, c: Key) { true }

  ghost predicate TotalOrder(le: Leq)
  {
    && (forall a, b {:trigger Pair(a, b)} :: Pair(a, b) ==> le(a, b) || le(b, a))
    && (forall a, b, c {:trigger Chain(a, b, c)} :: Chain(a, b, c) && le(a, b) && le(b, c) ==> le(a, c))
  }

  lemma LexIsTotal(orders: seq<Order>)
    ensures TotalOrder(Lex(orders))
  {
    forall a, b ensures Lex(orders)(a, b) || Lex(orders)(b, a) {
      LeTotal(orders, a, b);
    }
    forall a, b, c | Lex(orders)(a, b) && Lex(orders)(b, c) ensures Lex(orders)(a, c) {
      LeTransitive(orders, a, b, c);
    }
  }

  lemma Transitive(le: Leq, a: Key, b: Key, c: Key)
    requires TotalOrder(le) && le(a, b) && le(b, c)
    ensures le(a, c)
  {
    assert Chain(a, b, c);
  }

  lemma Total(le: Leq, a: Key, b: Key)
    requires TotalOrder(le)
    ensures le(a, b) || le(b, a)
  {
    assert Pair(a, b);
  }

  ghost predicate Sorted(le: Leq, t: Table)
  {
    forall i, j :: 0 <= i < j < |t| ==> le(t[i].key, t[j].key)
  }

  ghost predicate SortedKeys(le: Leq, ks: seq<Key>)
  {
    forall i, j :: 0 <= i < j < |ks| ==> le(ks[i], ks[j])
  }
}
