/** The `.sort((a, b) => b.totalAbsences - a.totalAbsences)` calls of
    `processData` (generate-html.js:717-718 and 735): `Array.prototype.sort`
    is stable, so the result is ordered by descending key and, among equal
    keys, by original position.  The sort is modelled as an insertion sort
    of positions under exactly that order. */
module Sorting {
  import opened Common

  /** Position `x` goes before position `y`: a larger key, or the same key
      and an earlier position. */
  predicate Before(keys: seq<nat>, x: nat, y: nat) {
    x < |keys| && y < |keys| && (keys[x] > keys[y] || (keys[x] == keys[y] && x < y))
  }

  /** A sequence of positions that is strictly increasing under `Before`. */
  ghost predicate Ordered(keys: seq<nat>, s: seq<nat>) {
    && (forall i :: 0 <= i < |s| ==> s[i] < |keys|)
    && (forall i, j :: 0 <= i < j < |s| ==> Before(keys, s[i], s[j]))
  }

  /** Every position in `s` is below `n`. */
  ghost predicate Below(s: seq<nat>, n: nat) {
    forall i :: 0 <= i < |s| ==> s[i] < n
  }

  /** Where `x` goes in `s`: after every position that `x` does not go
      before, at the first one it does. */
  function Slot(keys: seq<nat>, x: nat, s: seq<nat>): (k: nat)
    ensures k <= |s|
    ensures forall i :: 0 <= i < k ==> !Before(keys, x, s[i])
    ensures k < |s| ==> Before(keys, x, s[k])
    decreases |s|
  {
    if |s| == 0 || Before(keys, x, s[0]) then 0
    else
      var k := Slot(keys, x, s[1..]);
      assert forall i :: 1 <= i <= k ==> s[i] == s[1..][i - 1];
      1 + k
  }

  /** Inserts position `x` at its slot. */
  function Insert(keys: seq<nat>, x: nat, s: seq<nat>): (r: seq<nat>)
    ensures |r| == |s| + 1
    ensures forall y :: y in r <==> y == x || y in s
  {
    var k := Slot(keys, x, s);
    assert s == s[..k] + s[k..];
    s[..k] + [x] + s[k..]
  }

  /** Inserting a new position into an ordered sequence keeps it ordered. */
  lemma InsertOrdered(keys: seq<nat>, x: nat, s: seq<nat>)
    requires x < |keys| && Ordered(keys, s) && x !in s
    ensures Ordered(keys, Insert(keys, x, s))
  {
    var k := Slot(keys, x, s);
    var r := Insert(keys, x, s);
    assert r == s[..k] + [x] + s[k..];
    forall i | 0 <= i < |r|
      ensures r[i] == (if i < k then s[i] else if i == k then x else s[i - 1])
    {
    }
    forall i, j | 0 <= i < j < |r|
      ensures Before(keys, r[i], r[j])
    {
      if j < k || i > k {
      } else if j == k {
        assert s[i] in s;
      } else if i == k {
        if j - 1 > k {
          assert Before(keys, s[k], s[j - 1]);
        }
      } else {
        assert i < j - 1;
      }
    }
  }

  /** The positions `0 .. n - 1` in sorted order. */
  function SortIdx(keys: seq<nat>, n: nat): (r: seq<nat>)
    requires n <= |keys|
    ensures Ordered(keys, r)
    ensures |r| == n
    ensures forall y :: y in r <==> 0 <= y < n
    decreases n
  {
    if n == 0 then []
    else
      var s := SortIdx(keys, n - 1);
      InsertOrdered(keys, n - 1, s);
      Insert(keys, n - 1, s)
  }

  /** The key of every item. */
  function Keys<T>(items: seq<T>, key: T -> nat): (r: seq<nat>)
    ensures |r| == |items|
    ensures forall i :: 0 <= i < |items| ==> r[i] == key(items[i])
  {
    seq(|items|, i requires 0 <= i < |items| => key(items[i]))
  }

  /** The items at the given positions. */
  function Pick<T>(items: seq<T>, s: seq<nat>): (r: seq<T>)
    requires Below(s, |items|)
    ensures |r| == |s|
    ensures forall k :: 0 <= k < |s| ==> r[k] == items[s[k]]
  {
    seq(|s|, k requires 0 <= k < |s| => items[s[k]])
  }

  /** Where each item of the sorted result came from. */
  function Order<T>(items: seq<T>, key: T -> nat): (r: seq<nat>)
    ensures Ordered(Keys(items, key), r)
    ensures |r| == |items|
    ensures forall y :: y in r <==> 0 <= y < |items|
  {
    SortIdx(Keys(items, key), |items|)
  }

  /** The stable sort by descending key: a rearrangement of the items (same
      multiset, same key sum, every item kept) that is non-increasing in the
      key and keeps items with equal keys in their original order. */
  function SortDescending<T>(items: seq<T>, key: T -> nat): (r: seq<T>)
    ensures |r| == |items|
    ensures forall k :: 0 <= k < |r| ==> Order(items, key)[k] < |items| &&
                                          r[k] == items[Order(items, key)[k]]
    ensures forall i, j :: 0 <= i < j < |r| ==> key(r[i]) >= key(r[j])
    ensures forall i, j :: 0 <= i < j < |r| && key(r[i]) == key(r[j]) ==>
              Order(items, key)[i] < Order(items, key)[j]
    ensures multiset(r) == multiset(items)
    ensures SumOf(r, key) == SumOf(items, key)
  {
    var r := Pick(items, Order(items, key));
    PickOrdered(items, key);
    PickSorted(items, key, |items|);
    PickSortedSum(items, key, |items|);
    assert items[..|items|] == items;
    r
  }

  /** The picked items are in the order the positions are. */
  lemma PickOrdered<T>(items: seq<T>, key: T -> nat)
    ensures var idx := Order(items, key);
      var r := Pick(items, idx);
      && (forall i, j :: 0 <= i < j < |r| ==> key(r[i]) >= key(r[j]))
      && (forall i, j :: 0 <= i < j < |r| && key(r[i]) == key(r[j]) ==> idx[i] < idx[j])
  {
    var keys := Keys(items, key);
    var idx := Order(items, key);
    var r := Pick(items, idx);
    forall i, j | 0 <= i < j < |r|
      ensures key(r[i]) >= key(r[j]) && (key(r[i]) == key(r[j]) ==> idx[i] < idx[j])
    {
      assert Before(keys, idx[i], idx[j]);
      assert keys[idx[i]] == key(r[i]) && keys[idx[j]] == key(r[j]);
    }
  }

  /** Picking the sorted positions `0 .. n - 1` rearranges `items[..n]`. */
  lemma {:induction false} PickSorted<T>(items: seq<T>, key: T -> nat, n: nat)
    requires n <= |items|
    ensures multiset(Pick(items, SortIdx(Keys(items, key), n))) == multiset(items[..n])
    decreases n
  {
    if n > 0 {
      var keys := Keys(items, key);
      var s := SortIdx(keys, n - 1);
      assert SortIdx(keys, n) == Insert(keys, n - 1, s);
      assert Below(s, |items|);
      PickSorted(items, key, n - 1);
      PickInsert(items, key, n - 1, s);
      TakeLast(items, n);
    }
  }

  /** The same rearrangement keeps the sum of the keys. */
  lemma {:induction false} PickSortedSum<T>(items: seq<T>, key: T -> nat, n: nat)
    requires n <= |items|
    ensures SumOf(Pick(items, SortIdx(Keys(items, key), n)), key) == SumOf(items[..n], key)
    decreases n
  {
    if n > 0 {
      PickSortedSum(items, key, n - 1);
      PickSortedSumStep(items, key, n);
    }
  }

  /** One more position adds one more key on both sides. */
  lemma PickSortedSumStep<T>(items: seq<T>, key: T -> nat, n: nat)
    requires 0 < n <= |items|
    requires SumOf(Pick(items, SortIdx(Keys(items, key), n - 1)), key) == SumOf(items[..n - 1], key)
    ensures SumOf(Pick(items, SortIdx(Keys(items, key), n)), key) == SumOf(items[..n], key)
  {
    var keys := Keys(items, key);
    var s := SortIdx(keys, n - 1);
    assert SortIdx(keys, n) == Insert(keys, n - 1, s);
    assert Below(s, |items|);
    PickInsert(items, key, n - 1, s);
    SumOfTake(items, key, n);
  }

  lemma TakeLast<T>(s: seq<T>, n: nat)
    requires 0 < n <= |s|
    ensures s[..n] == s[..n - 1] + [s[n - 1]]
  {
  }

  lemma SumOfTake<T>(s: seq<T>, key: T -> nat, n: nat)
    requires 0 < n <= |s|
    ensures SumOf(s[..n], key) == SumOf(s[..n - 1], key) + key(s[n - 1])
  {
    assert s[..n][..n - 1] == s[..n - 1];
  }

  lemma SumOfSingle<T>(x: T, key: T -> nat)
    ensures SumOf([x], key) == key(x)
  {
    assert [x][..0] == [];
  }

  /** Picking joined runs of positions joins the picked items. */
  lemma PickAppend<T>(items: seq<T>, a: seq<nat>, b: seq<nat>)
    requires Below(a, |items|) && Below(b, |items|)
    ensures Below(a + b, |items|) && Pick(items, a + b) == Pick(items, a) + Pick(items, b)
  {
    assert forall i :: |a| <= i < |a + b| ==> (a + b)[i] == b[i - |a|];
  }

  /** Inserting a position adds its item to the picked items, and its key
      to their sum. */
  lemma PickInsert<T>(items: seq<T>, key: T -> nat, x: nat, s: seq<nat>)
    requires x < |items| && Below(s, |items|)
    ensures Below(Insert(Keys(items, key), x, s), |items|)
    ensures multiset(Pick(items, Insert(Keys(items, key), x, s))) ==
              multiset(Pick(items, s)) + multiset{items[x]}
    ensures SumOf(Pick(items, Insert(Keys(items, key), x, s)), key) ==
              SumOf(Pick(items, s), key) + key(items[x])
  {
    var k := Slot(Keys(items, key), x, s);
    var a, b := s[..k], s[k..];
    assert s == a + b;
    assert Below(a, |items|) && Below(b, |items|);
    assert Pick(items, [x]) == [items[x]];
    PickAppend(items, a, [x]);
    PickAppend(items, a + [x], b);
    PickAppend(items, a, b);
    var pa, pb := Pick(items, a), Pick(items, b);
    assert Insert(Keys(items, key), x, s) == a + [x] + b;
    SumOfAppend(pa, [items[x]], key);
    SumOfAppend(pa + [items[x]], pb, key);
    SumOfAppend(pa, pb, key);
    SumOfSingle(items[x], key);
  }

  /** No item is taken twice. */
  lemma OrderInjective<T>(items: seq<T>, key: T -> nat, i: nat, j: nat)
    requires i < j < |items|
    ensures Order(items, key)[i] != Order(items, key)[j]
  {
    assert Before(Keys(items, key), Order(items, key)[i], Order(items, key)[j]);
  }

  /** Every item appears in the result. */
  lemma SortCovers<T>(items: seq<T>, key: T -> nat, b: nat)
    requires b < |items|
    ensures exists k :: 0 <= k < |items| && SortDescending(items, key)[k] == items[b]
  {
    var idx := Order(items, key);
    assert b in idx;
    var k :| 0 <= k < |idx| && idx[k] == b;
    assert SortDescending(items, key)[k] == items[b];
  }

  /** Two items with the keys 1 and 2 swap; equal keys keep their order. */
  lemma SortExample()
    ensures SortDescending([(1, "a"), (2, "b"), (2, "c")], (p: (nat, string)) => p.0) ==
              [(2, "b"), (2, "c"), (1, "a")]
  {
    var items: seq<(nat, string)> := [(1, "a"), (2, "b"), (2, "c")];
    var key := (p: (nat, string)) => p.0;
    var keys := Keys(items, key);
    assert keys == [1, 2, 2];
    assert Slot(keys, 0, []) == 0;
    assert SortIdx(keys, 1) == [0];
    assert Slot(keys, 1, [0]) == 0;
    assert SortIdx(keys, 2) == [1, 0];
    assert Slot(keys, 2, [0]) == 0;
    assert Slot(keys, 2, [1, 0]) == 1 by {
      assert [1, 0][1..] == [0];
    }
    assert SortIdx(keys, 3) == [1, 2, 0];
  }
}
