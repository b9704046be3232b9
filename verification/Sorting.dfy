/** Sorting by any total order, as `sort.Slice` and `sort.Strings` do. */
module Sorting {
  import opened Utf8

  ghost predicate Injective<T(!new)>(key: T -> Bytes) {
    forall a, b :: key(a) == key(b) ==> a == b
  }

  // ---------------------------------------------------------------- byte order

  predicate LessEq(a: Bytes, b: Bytes) {
    a == [] || (b != [] && (a[0] < b[0] || (a[0] == b[0] && LessEq(a[1..], b[1..]))))
  }

  /** The order of texts by their first difference, a text before its extensions. */
  lemma {:induction false} LessEqIff(a: Bytes, b: Bytes)
    ensures LessEq(a, b) <==> a <= b || exists k :: 0 <= k < |a| && k < |b| && a[..k] == b[..k] && a[k] < b[k]
  {
    if a != [] && b != [] && a[0] == b[0] {
      LessEqIff(a[1..], b[1..]);
      assert a == [a[0]] + a[1..] && b == [b[0]] + b[1..];
      if k :| 0 <= k < |a[1..]| && k < |b[1..]| && a[1..][..k] == b[1..][..k] && a[1..][k] < b[1..][k] {
        assert a[..k + 1] == [a[0]] + a[1..][..k] && b[..k + 1] == [b[0]] + b[1..][..k];
        assert a[k + 1] < b[k + 1];
      }
      if k :| 0 <= k < |a| && k < |b| && a[..k] == b[..k] && a[k] < b[k] {
        assert k > 0;
        assert a[1..][..k - 1] == a[..k][1..] && b[1..][..k - 1] == b[..k][1..];
        assert a[1..][k - 1] < b[1..][k - 1];
      }
      assert a <= b <==> a[1..] <= b[1..];
    } else if a != [] && b != [] {
      assert a[..0] == b[..0];
    }
  }

  lemma {:induction false} LessEqTotal(a: Bytes, b: Bytes)
    ensures LessEq(a, b) || LessEq(b, a)
    ensures LessEq(a, b) && LessEq(b, a) ==> a == b
  {
    if a != [] && b != [] {
      LessEqTotal(a[1..], b[1..]);
      if a[0] == b[0] && a[1..] == b[1..] {
        assert a == [a[0]] + a[1..] && b == [b[0]] + b[1..];
      }
    }
  }

  lemma {:induction false} LessEqTransitive(a: Bytes, b: Bytes, c: Bytes)
    requires LessEq(a, b) && LessEq(b, c)
    ensures LessEq(a, c)
  {
    if a != [] && a[0] == b[0] == c[0] {
      LessEqTransitive(a[1..], b[1..], c[1..]);
    }
  }

  // ---------------------------------------------------------------- orders

  type Order<!T> = (T, T) -> bool

  ghost predicate Total<T(!new)>(order: Order<T>) {
    forall a, b :: order(a, b) || order(b, a)
  }

  ghost predicate Transitive<T(!new)>(order: Order<T>) {
    forall a, b, c :: order(a, b) && order(b, c) ==> order(a, c)
  }

  ghost predicate Sortable<T(!new)>(order: Order<T>) {
    Total(order) && Transitive(order)
  }

  function ByKey<T>(key: T -> Bytes): Order<T> {
    (a, b) => LessEq(key(a), key(b))
  }

  function ByNumber<T>(key: T -> nat): Order<T> {
    (a, b) => key(a) <= key(b)
  }

  /** By the first order, and by the second where the first leaves a tie. */
  function Then<T>(first: Order<T>, second: Order<T>): Order<T> {
    (a, b) => first(a, b) && (first(b, a) ==> second(a, b))
  }

  lemma ByKeyIsSortable<T(!new)>(key: T -> Bytes)
    ensures Sortable(ByKey(key))
  {
    forall a, b ensures ByKey(key)(a, b) || ByKey(key)(b, a) {
      LessEqTotal(key(a), key(b));
    }
    forall a, b, c | ByKey(key)(a, b) && ByKey(key)(b, c) ensures ByKey(key)(a, c) {
      LessEqTransitive(key(a), key(b), key(c));
    }
  }

  lemma ByNumberIsSortable<T(!new)>(key: T -> nat)
    ensures Sortable(ByNumber(key))
  {
  }

  lemma ThenIsSortable<T(!new)>(first: Order<T>, second: Order<T>)
    requires Sortable(first) && Sortable(second)
    ensures Sortable(Then(first, second))
  {
    forall a, b, c | Then(first, second)(a, b) && Then(first, second)(b, c) ensures Then(first, second)(a, c) {
      assert first(a, c);
      if first(c, a) {
        assert first(b, a) && first(c, b);
      }
    }
  }

  // ---------------------------------------------------------------- sorting

  predicate Ordered<T>(order: Order<T>, items: seq<T>) {
    forall i, j :: 0 <= i < j < |items| ==> order(items[i], items[j])
  }

  function Inserted<T>(order: Order<T>, item: T, sorted: seq<T>): (r: seq<T>)
    ensures multiset(r) == multiset(sorted) + multiset{item}
  {
    if sorted == [] then [item]
    else if order(item, sorted[0]) then
      assert multiset([item] + sorted) == multiset{item} + multiset(sorted);
      [item] + sorted
    else
      assert sorted == [sorted[0]] + sorted[1..];
      [sorted[0]] + Inserted(order, item, sorted[1..])
  }

  function Sorted<T>(order: Order<T>, items: seq<T>): (r: seq<T>)
    ensures multiset(r) == multiset(items)
  {
    if items == [] then []
    else
      assert items == [items[0]] + items[1..];
      Inserted(order, items[0], Sorted(order, items[1..]))
  }

  lemma {:induction false} InsertedIsOrdered<T(!new)>(order: Order<T>, item: T, sorted: seq<T>)
    requires Sortable(order) && Ordered(order, sorted)
    ensures Ordered(order, Inserted(order, item, sorted))
  {
    var r := Inserted(order, item, sorted);
    if sorted != [] && order(item, sorted[0]) {
      forall i, j | 0 <= i < j < |r| ensures order(r[i], r[j]) {
        if i == 0 && j > 1 {
          assert order(sorted[0], sorted[j - 1]);
        }
      }
    } else if sorted != [] {
      var tail := sorted[1..];
      var rest := Inserted(order, item, tail);
      TailIsOrdered(order, sorted);
      InsertedIsOrdered(order, item, tail);
      forall j | 0 <= j < |rest| ensures order(sorted[0], rest[j]) {
        assert rest[j] in multiset(rest);
        if rest[j] != item {
          assert rest[j] in multiset(tail);
          var k :| 0 <= k < |tail| && tail[k] == rest[j];
          assert order(sorted[0], sorted[k + 1]);
        }
      }
    }
  }

  lemma {:induction false} SortedIsOrdered<T(!new)>(order: Order<T>, items: seq<T>)
    requires Sortable(order)
    ensures Ordered(order, Sorted(order, items))
  {
    if items != [] {
      SortedIsOrdered(order, items[1..]);
      InsertedIsOrdered(order, items[0], Sorted(order, items[1..]));
    }
  }

  lemma TailMultiset<T>(a: seq<T>)
    requires a != []
    ensures multiset(a[1..]) == multiset(a) - multiset{a[0]}
  {
    assert a == [a[0]] + a[1..];
  }

  lemma TailIsOrdered<T>(order: Order<T>, a: seq<T>)
    requires Ordered(order, a) && a != []
    ensures Ordered(order, a[1..])
  {
    forall i, j | 0 <= i < j < |a| - 1 ensures order(a[1..][i], a[1..][j]) {
      assert order(a[i + 1], a[j + 1]);
    }
  }

  /** The order leaves no ties between different items. */
  ghost predicate Strict<T(!new)>(order: Order<T>, items: seq<T>) {
    forall a, b :: a in items && b in items && order(a, b) && order(b, a) ==> a == b
  }

  /** Two orderings of the same items are the same list when there are no ties. */
  lemma {:induction false} OrderingIsUnique<T(!new)>(order: Order<T>, a: seq<T>, b: seq<T>)
    requires Ordered(order, a) && Ordered(order, b) && Strict(order, a)
    requires multiset(a) == multiset(b)
    ensures a == b
  {
    assert |a| == |multiset(a)| == |multiset(b)| == |b|;
    if a != [] {
      FirstsAgree(order, a, b);
      TailMultiset(a);
      TailMultiset(b);
      TailIsOrdered(order, a);
      TailIsOrdered(order, b);
      assert a == [a[0]] + a[1..] && b == [b[0]] + b[1..];
      OrderingIsUnique(order, a[1..], b[1..]);
    }
  }

  lemma FirstsAgree<T(!new)>(order: Order<T>, a: seq<T>, b: seq<T>)
    requires Ordered(order, a) && Ordered(order, b) && Strict(order, a)
    requires multiset(a) == multiset(b) && a != [] && b != []
    ensures a[0] == b[0]
  {
    assert a[0] in multiset(b) && b[0] in multiset(a);
    var i :| 0 <= i < |b| && b[i] == a[0];
    var j :| 0 <= j < |a| && a[j] == b[0];
    if i > 0 && j > 0 {
      assert order(b[0], b[i]) && order(a[0], a[j]);
    }
  }

  /** A key that tells all items apart leaves no ties. */
  lemma KeyedIsStrict<T(!new)>(key: T -> Bytes, items: seq<T>)
    requires forall a, b :: a in items && b in items && key(a) == key(b) ==> a == b
    ensures Strict(ByKey(key), items)
  {
    forall a, b | a in items && b in items && ByKey(key)(a, b) && ByKey(key)(b, a) ensures a == b {
      LessEqTotal(key(a), key(b));
    }
  }
}
