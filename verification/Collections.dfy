/** Facts about finite sets and sequences that several parts of the model share. */
module Collections {

  predicate NoRepeat<T(==)>(items: seq<T>) {
    forall i, j :: 0 <= i < j < |items| ==> items[i] != items[j]
  }

  lemma SubsetCard<T>(a: set<T>, b: set<T>)
    requires a <= b
    ensures |a| <= |b|
  {
    assert b == a + (b - a);
  }

  lemma SameSize<T>(small: set<T>, large: set<T>)
    requires small <= large && |small| == |large|
    ensures small == large
  {
    assert large == small + (large - small);
  }

  lemma CardAfter<T>(a: set<T>, x: T)
    ensures |a + {x}| == (if x in a then |a| else |a| + 1)
    ensures |a - {x}| == (if x in a then |a| - 1 else |a|)
  {
    if x in a {
      assert a + {x} == a;
    } else {
      assert a - {x} == a;
    }
  }

  lemma Inhabited<T>(a: set<T>)
    ensures |a| > 0 <==> exists x :: x in a
  {
    if |a| > 0 {
      var x :| x in a;
    }
  }

  lemma Another<T>(a: set<T>, x: T)
    requires |a| > 1
    ensures exists y :: y in a && y != x
  {
    if forall y :: y in a ==> y == x {
      assert a <= {x};
      SubsetCard(a, {x});
    }
  }

  lemma {:induction false} RepeatFree<T>(items: seq<T>)
    requires NoRepeat(items)
    ensures forall x :: multiset(items)[x] <= 1
    ensures forall x :: x in items <==> multiset(items)[x] == 1
  {
    if items != [] {
      var last := items[|items| - 1];
      var front := items[..|items| - 1];
      RepeatFree(front);
      assert items == front + [last];
      assert last !in front;
    }
  }

  /** Lists without repetition that hold the same items are rearrangements of each other. */
  lemma SameItemsSameMultiset<T>(a: seq<T>, b: seq<T>)
    requires NoRepeat(a) && NoRepeat(b) && forall x :: x in a <==> x in b
    ensures multiset(a) == multiset(b)
  {
    RepeatFree(a);
    RepeatFree(b);
    forall x ensures multiset(a)[x] == multiset(b)[x] {
      assert x in a <==> x in b;
      assert x in multiset(a) <==> multiset(a)[x] == 1;
      assert x in multiset(b) <==> multiset(b)[x] == 1;
    }
  }

  lemma TwiceCounts<T>(items: seq<T>, i: nat, j: nat)
    requires i < j < |items|
    ensures items[i] == items[j] ==> multiset(items)[items[i]] >= 2
  {
    var left, right := items[..j], items[j..];
    assert items == left + right;
    assert left[i] in multiset(left) && right[0] in multiset(right);
  }

  lemma RearrangedNoRepeat<T>(a: seq<T>, b: seq<T>)
    requires NoRepeat(a) && multiset(a) == multiset(b)
    ensures NoRepeat(b)
  {
    RepeatFree(a);
    forall i, j | 0 <= i < j < |b| ensures b[i] != b[j] {
      TwiceCounts(b, i, j);
    }
  }
}
