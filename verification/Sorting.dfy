// A stable sort, as Python's `sorted` does it: insertion of one item after the other.
module Sorting {

  /** Whether the first item may stand before the second. */
  type Order<!T> = (T, T) -> bool

  ghost predicate TotalOrder<T(!new)>(le: Order<T>) {
    && (forall a, b :: le(a, b) || le(b, a))
    && forall a, b, c :: le(a, b) && le(b, c) ==> le(a, c)
  }

  /** Put `x` after everything that may stand before it. */
  function Insert<T>(le: Order<T>, sorted: seq<T>, x: T): seq<T> {
    if |sorted| == 0 then [x]
    else if le(sorted[|sorted| - 1], x) then sorted + [x]
    else Insert(le, sorted[..|sorted| - 1], x) + [sorted[|sorted| - 1]]
  }

  function Sort<T>(le: Order<T>, items: seq<T>): seq<T> {
    if |items| == 0 then [] else Insert(le, Sort(le, items[..|items| - 1]), items[|items| - 1])
  }

  predicate InOrder<T>(le: Order<T>, items: seq<T>) {
    forall i, j | 0 <= i < j < |items| :: le(items[i], items[j])
  }

  lemma {:induction false} InsertKeepsAll<T>(le: Order<T>, sorted: seq<T>, x: T)
    ensures multiset(Insert(le, sorted, x)) == multiset(sorted) + multiset{x}
    ensures |Insert(le, sorted, x)| == |sorted| + 1
  {
    if |sorted| != 0 {
      assert sorted == sorted[..|sorted| - 1] + [sorted[|sorted| - 1]];
      InsertKeepsAll(le, sorted[..|sorted| - 1], x);
    }
  }

  lemma InOrderSnoc<T>(le: Order<T>, items: seq<T>, last: T)
    requires InOrder(le, items) && forall x <- items :: le(x, last)
    ensures InOrder(le, items + [last])
  {
  }

  lemma {:induction false} InsertSorts<T(!new)>(le: Order<T>, sorted: seq<T>, x: T)
    requires TotalOrder(le) && InOrder(le, sorted)
    ensures InOrder(le, Insert(le, sorted, x))
  {
    if |sorted| != 0 {
      var front, last := sorted[..|sorted| - 1], sorted[|sorted| - 1];
      if le(last, x) {
        forall y <- sorted ensures le(y, x) {
          assert y == last || le(y, last);
        }
        InOrderSnoc(le, sorted, x);
      } else {
        InsertSorts(le, front, x);
        InsertKeepsAll(le, front, x);
        var r := Insert(le, front, x);
        forall y <- r ensures le(y, last) {
          assert y in multiset(r);
          assert y in front || y == x;
        }
        InOrderSnoc(le, r, last);
      }
    }
  }

  /** The result is a permutation in order. */
  lemma {:induction false} SortSorts<T(!new)>(le: Order<T>, items: seq<T>)
    requires TotalOrder(le)
    ensures InOrder(le, Sort(le, items))
    ensures multiset(Sort(le, items)) == multiset(items) && |Sort(le, items)| == |items|
  {
    if |items| != 0 {
      var front, last := items[..|items| - 1], items[|items| - 1];
      SortSorts(le, front);
      InsertSorts(le, Sort(le, front), last);
      InsertKeepsAll(le, Sort(le, front), last);
      assert items == front + [last];
    }
  }

  lemma SortHasSame<T(!new)>(le: Order<T>, items: seq<T>)
    requires TotalOrder(le)
    ensures forall x :: x in Sort(le, items) <==> x in items
  {
    SortSorts(le, items);
    assert forall x :: x in Sort(le, items) <==> x in multiset(Sort(le, items));
    assert forall x :: x in items <==> x in multiset(items);
  }

  /** The items that stand level with a given one. */
  function Level<T>(le: Order<T>, items: seq<T>, key: T): seq<T> {
    if |items| == 0 then []
    else
      var before, last := Level(le, items[..|items| - 1], key), items[|items| - 1];
      if le(last, key) && le(key, last) then before + [last] else before
  }

  lemma {:induction false} InsertIsStable<T(!new)>(le: Order<T>, sorted: seq<T>, x: T, key: T)
    requires TotalOrder(le) && InOrder(le, sorted)
    ensures Level(le, Insert(le, sorted, x), key) == Level(le, sorted + [x], key)
  {
    assert (sorted + [x])[..|sorted|] == sorted;
    if |sorted| != 0 {
      var front, last := sorted[..|sorted| - 1], sorted[|sorted| - 1];
      if !le(last, x) {
        InsertIsStable(le, front, x, key);
        assert (front + [x])[..|front|] == front;
        var r := Insert(le, front, x) + [last];
        assert r[..|r| - 1] == Insert(le, front, x);
      }
    }
  }

  /** Items that stand level keep the order they came in. */
  lemma {:induction false} SortIsStable<T(!new)>(le: Order<T>, items: seq<T>, key: T)
    requires TotalOrder(le)
    ensures Level(le, Sort(le, items), key) == Level(le, items, key)
  {
    if |items| != 0 {
      var front, last := items[..|items| - 1], items[|items| - 1];
      SortIsStable(le, front, key);
      SortSorts(le, front);
      InsertIsStable(le, Sort(le, front), last, key);
      assert (Sort(le, front) + [last])[..|front|] == Sort(le, front);
    }
  }

  /** No two different items stand level. */
  ghost predicate Antisymmetric<T>(le: Order<T>, items: seq<T>) {
    forall x <- items, y <- items | le(x, y) && le(y, x) :: x == y
  }

  lemma LastIsGreatest<T>(le: Order<T>, items: seq<T>, x: T)
    requires InOrder(le, items) && x in items
    ensures x == items[|items| - 1] || le(x, items[|items| - 1])
  {
    var k :| 0 <= k < |items| && items[k] == x;
  }

  lemma WithoutLast<T>(items: seq<T>)
    requires |items| != 0
    ensures multiset(items[..|items| - 1]) == multiset(items) - multiset{items[|items| - 1]}
  {
    assert items == items[..|items| - 1] + [items[|items| - 1]];
  }

  lemma SameLast<T>(le: Order<T>, a: seq<T>, b: seq<T>)
    requires InOrder(le, a) && InOrder(le, b) && |a| != 0 && |b| != 0
    requires multiset(a) == multiset(b) && Antisymmetric(le, a)
    ensures a[|a| - 1] == b[|b| - 1]
  {
    var x, y := a[|a| - 1], b[|b| - 1];
    assert x in multiset(b) && y in multiset(a);
    LastIsGreatest(le, a, y);
    LastIsGreatest(le, b, x);
  }

  lemma FrontKeepsOrder<T>(le: Order<T>, items: seq<T>)
    requires |items| != 0 && InOrder(le, items)
    ensures InOrder(le, items[..|items| - 1])
    ensures Antisymmetric(le, items) ==> Antisymmetric(le, items[..|items| - 1])
  {
    assert forall x <- items[..|items| - 1] :: x in items;
  }

  /** Two orders of the same items. */
  ghost predicate SameItems<T>(le: Order<T>, a: seq<T>, b: seq<T>) {
    InOrder(le, a) && InOrder(le, b) && multiset(a) == multiset(b) && Antisymmetric(le, a)
  }

  lemma FrontsAgree<T>(le: Order<T>, a: seq<T>, b: seq<T>)
    requires SameItems(le, a, b) && |a| != 0
    ensures |b| != 0 && a[|a| - 1] == b[|b| - 1]
    ensures SameItems(le, a[..|a| - 1], b[..|b| - 1])
  {
    assert |a| == |multiset(a)| && |b| == |multiset(b)|;
    SameLast(le, a, b);
    WithoutLast(a);
    WithoutLast(b);
    FrontKeepsOrder(le, a);
    FrontKeepsOrder(le, b);
  }

  lemma AppendLast<T>(a: seq<T>, b: seq<T>)
    requires |a| != 0 && |b| != 0 && a[|a| - 1] == b[|b| - 1] && a[..|a| - 1] == b[..|b| - 1]
    ensures a == b
  {
    assert a == a[..|a| - 1] + [a[|a| - 1]] && b == b[..|b| - 1] + [b[|b| - 1]];
  }

  /** Where no two items stand level there is one order only. */
  lemma {:induction false} OrderIsUnique<T>(le: Order<T>, a: seq<T>, b: seq<T>)
    requires SameItems(le, a, b)
    ensures a == b
    decreases |a|
  {
    if |a| == 0 {
      assert |b| == |multiset(b)| && |a| == |multiset(a)|;
    } else {
      FrontsAgree(le, a, b);
      OrderIsUnique(le, a[..|a| - 1], b[..|b| - 1]);
      AppendLast(a, b);
    }
  }

  // ----- Distinct keys -----

  predicate DistinctBy<T, K(==)>(key: T -> K, items: seq<T>) {
    forall i, j | 0 <= i < j < |items| :: key(items[i]) != key(items[j])
  }

  lemma TwiceIsTwice<T>(items: seq<T>, i: nat, j: nat)
    requires i < j < |items| && items[i] == items[j]
    ensures multiset(items)[items[i]] >= 2
  {
    assert items == items[..i] + [items[i]] + items[i + 1..j] + [items[j]] + items[j + 1..];
  }

  lemma OnceIsOnce<T, K>(key: T -> K, items: seq<T>, p: nat)
    requires p < |items| && DistinctBy(key, items)
    ensures multiset(items)[items[p]] == 1
  {
    assert items == items[..p] + [items[p]] + items[p + 1..];
    forall k | 0 <= k < |items| && k != p ensures items[k] != items[p] {
      assert key(items[k]) != key(items[p]);
    }
    assert items[p] !in items[..p] && items[p] !in items[p + 1..];
  }

  /** Distinct keys stay distinct in every permutation. */
  lemma PermutationKeepsDistinct<T, K>(key: T -> K, a: seq<T>, b: seq<T>)
    requires multiset(a) == multiset(b) && DistinctBy(key, a)
    ensures DistinctBy(key, b)
  {
    forall i, j | 0 <= i < j < |b| ensures key(b[i]) != key(b[j]) {
      if key(b[i]) == key(b[j]) {
        assert b[i] in multiset(a) && b[j] in multiset(a);
        var p :| 0 <= p < |a| && a[p] == b[i];
        var q :| 0 <= q < |a| && a[q] == b[j];
        assert p == q;
        TwiceIsTwice(b, i, j);
        OnceIsOnce(key, a, p);
        assert false;
      }
    }
  }
}
