/** Small shared vocabulary: optional values, the outcome of one network
    attempt, and a few sequence helpers used by several components. */
module Common {

  /** JavaScript `null`/`undefined` versus a present value. */
  datatype Option<+T> = None | Some(value: T) {
    function GetOr(default: T): T {
      match this
      case Some(v) => v
      case None => default
    }
  }

  /** The outcome of one network round trip: a body, or the error that the
      request rejected with (non-200 status, transport error, timeout). */
  datatype Attempt<+T> = Ok(body: T) | Err(message: string)

  /** No element occurs twice. */
  ghost predicate NoDup<T>(s: seq<T>) {
    forall i, j :: 0 <= i < j < |s| ==> s[i] != s[j]
  }

  /** Appending a new element keeps a sequence free of duplicates. */
  lemma NoDupSnoc<T>(s: seq<T>, x: T)
    requires NoDup(s) && x !in s
    ensures NoDup(s + [x])
  {
    forall i, j | 0 <= i < j < |s| + 1
      ensures (s + [x])[i] != (s + [x])[j]
    {
      assert (s + [x])[i] == s[i];
    }
  }

  /** Sum of `f` over a sequence. */
  function SumOf<T>(s: seq<T>, f: T -> nat): nat
    decreases |s|
  {
    if |s| == 0 then 0 else SumOf(s[..|s| - 1], f) + f(s[|s| - 1])
  }

  lemma {:induction false} SumOfAppend<T>(a: seq<T>, b: seq<T>, f: T -> nat)
    ensures SumOf(a + b, f) == SumOf(a, f) + SumOf(b, f)
    decreases |b|
  {
    if |b| == 0 {
      assert a + b == a;
    } else {
      assert (a + b)[..|a + b| - 1] == a + b[..|b| - 1];
      SumOfAppend(a, b[..|b| - 1], f);
    }
  }

  /** Replacing one element changes the sum by the difference. */
  lemma {:induction false} SumOfUpdate<T>(s: seq<T>, i: nat, x: T, f: T -> nat)
    requires i < |s|
    ensures SumOf(s[i := x], f) + f(s[i]) == SumOf(s, f) + f(x)
    decreases |s|
  {
    var n := |s| - 1;
    if i == n {
      assert s[i := x][..n] == s[..n];
    } else {
      assert s[i := x][..n] == s[..n][i := x];
      SumOfUpdate(s[..n], i, x, f);
    }
  }

  /** The elements of `s` satisfying `p`, in order (`Array.prototype.filter`). */
  function Filter<T>(s: seq<T>, p: T -> bool): (r: seq<T>)
    ensures |r| <= |s|
    ensures forall i :: 0 <= i < |r| ==> r[i] in s && p(r[i])
    ensures forall i :: 0 <= i < |s| && p(s[i]) ==> s[i] in r
    decreases |s|
  {
    if |s| == 0 then []
    else (if p(s[0]) then [s[0]] else []) + Filter(s[1..], p)
  }

  lemma FilterHead<T>(s: seq<T>, p: T -> bool)
    requires |s| > 0
    ensures p(s[0]) ==> Filter(s, p) == [s[0]] + Filter(s[1..], p)
    ensures !p(s[0]) ==> Filter(s, p) == Filter(s[1..], p)
  {
  }

  lemma {:induction false} FilterAppend<T>(a: seq<T>, b: seq<T>, p: T -> bool)
    ensures Filter(a + b, p) == Filter(a, p) + Filter(b, p)
    decreases |a|
  {
    if |a| == 0 {
      assert a + b == b;
    } else {
      assert (a + b)[1..] == a[1..] + b;
      FilterAppend(a[1..], b, p);
    }
  }

  /** `rel` holds between the elements of `xs` and `ys` at every position. */
  ghost predicate Pairwise<A, B>(xs: seq<A>, ys: seq<B>, rel: (A, B) -> bool) {
    |xs| == |ys| && forall i :: 0 <= i < |xs| ==> rel(xs[i], ys[i])
  }

  lemma PairwiseCons<A, B>(x: A, y: B, xs: seq<A>, ys: seq<B>, rel: (A, B) -> bool)
    requires rel(x, y) && Pairwise(xs, ys, rel)
    ensures Pairwise([x] + xs, [y] + ys, rel)
  {
    forall i | 0 < i < |xs| + 1
      ensures ([x] + xs)[i] == xs[i - 1] && ([y] + ys)[i] == ys[i - 1]
    {
    }
  }

  lemma HeadTail<T>(s: seq<T>)
    requires |s| > 0
    ensures [s[0]] + s[1..] == s
  {
  }

  /** `ms` is a chain of states through the steps `xs` with outputs `ys`:
      step `i` leads from state `ms[i]` to `ms[i + 1]` and emits `ys[i]`. */
  ghost predicate Chained<S, A, B>(ms: seq<S>, xs: seq<A>, ys: seq<B>, step: (S, A, S, B) -> bool) {
    && |ms| == |xs| + 1 && |ys| == |xs|
    && forall i :: 0 <= i < |xs| ==> step(ms[i], xs[i], ms[i + 1], ys[i])
  }

  lemma ChainedCons<S, A, B>(m: S, x: A, y: B, ms: seq<S>, xs: seq<A>, ys: seq<B>, step: (S, A, S, B) -> bool)
    requires Chained(ms, xs, ys, step) && step(m, x, ms[0], y)
    ensures Chained([m] + ms, [x] + xs, [y] + ys, step)
    ensures ([m] + ms)[0] == m && ([m] + ms)[|[m] + ms| - 1] == ms[|ms| - 1]
  {
    forall i | 0 < i < |xs| + 1
      ensures ([m] + ms)[i] == ms[i - 1] && ([m] + ms)[i + 1] == ms[i]
      ensures ([x] + xs)[i] == xs[i - 1] && ([y] + ys)[i] == ys[i - 1]
    {
    }
  }

  lemma ChainedSnoc<S, A, B>(ms: seq<S>, xs: seq<A>, ys: seq<B>, step: (S, A, S, B) -> bool, x: A, m: S, y: B)
    requires Chained(ms, xs, ys, step) && step(ms[|ms| - 1], x, m, y)
    ensures Chained(ms + [m], xs + [x], ys + [y], step)
  {
    forall i | 0 <= i < |xs| + 1
      ensures step((ms + [m])[i], (xs + [x])[i], (ms + [m])[i + 1], (ys + [y])[i])
    {
      if i < |xs| {
        assert (ms + [m])[i] == ms[i] && (ms + [m])[i + 1] == ms[i + 1];
        assert (xs + [x])[i] == xs[i] && (ys + [y])[i] == ys[i];
      }
    }
  }
}
