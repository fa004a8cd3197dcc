/**
 * The ordering afterPropertiesSet gives the load-user callbacks:
 * Collections.sort with Spring's OrderComparator, a stable sort in which
 * beans implementing PriorityOrdered come first and the rest follow by
 * ascending order value.
 */
module CallbackOrder {

  /**
   * A callback bean: its bean name, whether it implements PriorityOrdered,
   * and the order value OrderComparator reads from it (Integer.MAX_VALUE,
   * Ordered.LOWEST_PRECEDENCE, for a bean that does not implement Ordered).
   */
  datatype CallBack = CallBack(beanName: string, priorityOrdered: bool, order: int)

  /** What OrderComparator compares. */
  datatype OrderKey = OrderKey(priorityOrdered: bool, order: int)

  function Key(c: CallBack): OrderKey
  {
    OrderKey(c.priorityOrdered, c.order)
  }

  /** OrderComparator.compare(a, b) <= 0. */
  predicate NoLater(a: OrderKey, b: OrderKey)
  {
    (a.priorityOrdered && !b.priorityOrdered) || (a.priorityOrdered == b.priorityOrdered && a.order <= b.order)
  }

  /** Non-decreasing in OrderComparator's order. */
  predicate Sorted(s: seq<CallBack>)
  {
    forall i, j :: 0 <= i < j < |s| ==> NoLater(Key(s[i]), Key(s[j]))
  }

  /** The callbacks of `s` whose key is `k`, in their order in `s`. */
  function WithKey(s: seq<CallBack>, k: OrderKey): seq<CallBack>
  {
    if |s| == 0 then []
    else WithKey(s[..|s| - 1], k) + (if Key(s[|s| - 1]) == k then [s[|s| - 1]] else [])
  }

  lemma {:induction false} WithKeyAppend(a: seq<CallBack>, b: seq<CallBack>, k: OrderKey)
    ensures WithKey(a + b, k) == WithKey(a, k) + WithKey(b, k)
  {
    if |b| > 0 {
      WithKeyAppend(a, b[..|b| - 1], k);
      assert (a + b)[..|a + b| - 1] == a + b[..|b| - 1];
      assert (a + b)[|a + b| - 1] == b[|b| - 1];
    } else {
      assert a + b == a;
    }
  }

  lemma {:induction false} WithKeyNone(s: seq<CallBack>, k: OrderKey)
    requires forall i :: 0 <= i < |s| ==> Key(s[i]) != k
    ensures WithKey(s, k) == []
  {
    if |s| > 0 {
      WithKeyNone(s[..|s| - 1], k);
    }
  }

  lemma {:induction false} WithKeySome(s: seq<CallBack>, i: int)
    requires 0 <= i < |s|
    ensures WithKey(s, Key(s[i])) != []
  {
    if i < |s| - 1 {
      WithKeySome(s[..|s| - 1], i);
    }
  }

  /** Every callback of WithKey(s, k) is in s and carries key k. */
  lemma {:induction false} WithKeyFrom(s: seq<CallBack>, k: OrderKey, c: CallBack)
    requires c in WithKey(s, k)
    ensures c in s && Key(c) == k
  {
    if |s| > 0 && c in WithKey(s[..|s| - 1], k) {
      WithKeyFrom(s[..|s| - 1], k, c);
    }
  }

  /** `x` placed between a part no later than it and a part later than it keeps the order. */
  lemma InsertSorted(left: seq<CallBack>, x: CallBack, right: seq<CallBack>)
    requires Sorted(left + right)
    requires forall m :: 0 <= m < |left| ==> NoLater(Key(left[m]), Key(x))
    requires forall m :: 0 <= m < |right| ==> !NoLater(Key(right[m]), Key(x))
    ensures Sorted(left + [x] + right)
  {
    var r := left + [x] + right;
    forall i, j | 0 <= i < j < |r|
      ensures NoLater(Key(r[i]), Key(r[j]))
    {
      if i < |left| && j > |left| {
        assert r[i] == (left + right)[i] && r[j] == (left + right)[j - 1];
      } else if i > |left| {
        assert r[i] == (left + right)[i - 1] && r[j] == (left + right)[j - 1];
      } else if j < |left| {
        assert r[i] == (left + right)[i] && r[j] == (left + right)[j];
      }
    }
  }

  /** Under every key, inserting `x` there appends `x` to that key's callbacks and changes no other key's. */
  lemma InsertWithKey(left: seq<CallBack>, x: CallBack, right: seq<CallBack>, k: OrderKey)
    requires forall m :: 0 <= m < |right| ==> Key(right[m]) != Key(x)
    ensures WithKey(left + [x] + right, k) == WithKey(left + right, k) + WithKey([x], k)
  {
    var l, xs, r := WithKey(left, k), WithKey([x], k), WithKey(right, k);
    WithKeyAppend(left + [x], right, k);
    WithKeyAppend(left, [x], k);
    WithKeyAppend(left, right, k);
    if k == Key(x) {
      WithKeyNone(right, k);
      assert r == [] && l + r == l && (l + xs) + r == l + xs;
    } else {
      WithKeyNone([x], k);
      assert xs == [] && l + xs == l && (l + r) + xs == l + r;
    }
  }

  /** Puts `x` after every callback that does not come later than it. */
  method InsertStable(sorted: seq<CallBack>, x: CallBack) returns (r: seq<CallBack>)
    requires Sorted(sorted)
    ensures Sorted(r)
    ensures multiset(r) == multiset(sorted) + multiset{x}
    ensures forall k :: WithKey(r, k) == WithKey(sorted, k) + WithKey([x], k)
  {
    var j := 0;
    while j < |sorted| && NoLater(Key(sorted[j]), Key(x))
      invariant 0 <= j <= |sorted|
      invariant forall m :: 0 <= m < j ==> NoLater(Key(sorted[m]), Key(x))
    {
      j := j + 1;
    }
    var left, right := sorted[..j], sorted[j..];
    assert sorted == left + right;
    assert forall m :: 0 <= m < |right| ==> !NoLater(Key(right[m]), Key(x)) by {
      forall m | 0 <= m < |right|
        ensures !NoLater(Key(right[m]), Key(x))
      {
        assert right[0] == sorted[j] && right[m] == sorted[j + m];
      }
    }
    InsertSorted(left, x, right);
    assert forall m :: 0 <= m < |right| ==> Key(right[m]) != Key(x);
    forall k
      ensures WithKey(left + [x] + right, k) == WithKey(sorted, k) + WithKey([x], k)
    {
      InsertWithKey(left, x, right, k);
    }
    r := left + [x] + right;
  }

  /**
   * Collections.sort(list, OrderComparator.INSTANCE): the result is in
   * non-decreasing order, is a permutation of the list, and keeps the list
   * order among callbacks with equal keys.
   */
  method SortByOrder(list: seq<CallBack>) returns (sorted: seq<CallBack>)
    ensures Sorted(sorted)
    ensures multiset(sorted) == multiset(list)
    ensures forall k :: WithKey(sorted, k) == WithKey(list, k)
  {
    sorted := [];
    for i := 0 to |list|
      invariant Sorted(sorted)
      invariant multiset(sorted) == multiset(list[..i])
      invariant forall k :: WithKey(sorted, k) == WithKey(list[..i], k)
    {
      sorted := InsertStable(sorted, list[i]);
      assert list[..i + 1] == list[..i] + [list[i]];
      forall k
        ensures WithKey(sorted, k) == WithKey(list[..i + 1], k)
      {
        WithKeyAppend(list[..i], [list[i]], k);
      }
    }
    assert list[..|list|] == list;
  }

  /** The last callback of a list is the last one listed under its key. */
  lemma WithKeyLast(s: seq<CallBack>)
    requires |s| > 0
    ensures WithKey(s, Key(s[|s| - 1])) == WithKey(s[..|s| - 1], Key(s[|s| - 1])) + [s[|s| - 1]]
  {
  }

  /** In a sorted list no callback comes later than the last one. */
  lemma NoLaterThanLast(s: seq<CallBack>, c: CallBack)
    requires Sorted(s) && c in s
    ensures NoLater(Key(c), Key(s[|s| - 1]))
  {
    var i :| 0 <= i < |s| && s[i] == c;
    if i < |s| - 1 {
      assert NoLater(Key(s[i]), Key(s[|s| - 1]));
    }
  }

  /** Two sorted lists with the same callbacks under every key end with the same key. */
  lemma SameLastKey(a: seq<CallBack>, b: seq<CallBack>)
    requires Sorted(a) && Sorted(b) && |a| > 0 && |b| > 0
    requires forall k :: WithKey(a, k) == WithKey(b, k)
    ensures Key(a[|a| - 1]) == Key(b[|b| - 1])
  {
    var x, y := a[|a| - 1], b[|b| - 1];
    WithKeySome(a, |a| - 1);
    assert WithKey(b, Key(x)) != [];
    var bx := WithKey(b, Key(x))[0];
    WithKeyFrom(b, Key(x), bx);
    NoLaterThanLast(b, bx);
    WithKeySome(b, |b| - 1);
    assert WithKey(a, Key(y)) != [];
    var ay := WithKey(a, Key(y))[0];
    WithKeyFrom(a, Key(y), ay);
    NoLaterThanLast(a, ay);
  }

  /** Dropping the same last callback from two lists keeps their equal callbacks under `k` equal. */
  lemma WithKeyDropLast(a: seq<CallBack>, b: seq<CallBack>, k: OrderKey)
    requires |a| > 0 && |b| > 0 && a[|a| - 1] == b[|b| - 1]
    requires WithKey(a, k) == WithKey(b, k)
    ensures WithKey(a[..|a| - 1], k) == WithKey(b[..|b| - 1], k)
  {
    var last := a[|a| - 1];
    var t := if Key(last) == k then [last] else [];
    var wa, wb := WithKey(a[..|a| - 1], k), WithKey(b[..|b| - 1], k);
    assert wa + t == wb + t;
    assert wa == (wa + t)[..|wa|] && wb == (wb + t)[..|wb|];
  }

  /**
   * A stable sort has only one possible result: two sorted lists that hold
   * the same callbacks under every key, in the same order, are equal. So
   * SortByOrder gives exactly what Java's merge sort gives.
   */
  lemma {:induction false} StableSortUnique(a: seq<CallBack>, b: seq<CallBack>)
    requires Sorted(a) && Sorted(b)
    requires forall k :: WithKey(a, k) == WithKey(b, k)
    ensures a == b
  {
    if |a| == 0 || |b| == 0 {
      if |a| > 0 {
        WithKeySome(a, |a| - 1);
        assert false;
      } else if |b| > 0 {
        WithKeySome(b, |b| - 1);
        assert false;
      }
      return;
    }
    var x, y := a[|a| - 1], b[|b| - 1];
    var a', b' := a[..|a| - 1], b[..|b| - 1];
    SameLastKey(a, b);
    WithKeyLast(a);
    WithKeyLast(b);
    var wa, wb := WithKey(a, Key(x)), WithKey(b, Key(y));
    assert wa == wb;
    assert wa[|wa| - 1] == x && wb[|wb| - 1] == y;
    forall k
      ensures WithKey(a', k) == WithKey(b', k)
    {
      WithKeyDropLast(a, b, k);
    }
    StableSortUnique(a', b');
    assert a == a' + [x] && b == b' + [y];
  }
}
