/** Retry with exponential backoff, as `fetchPage` (scraper.js:22-52) and
    `fetchApiPage` (scraper.js:54-107) do it: on a rejected request the call
    waits `baseBackoff * 2^retryCount` milliseconds and tries again, up to
    `maxRetries` retries; the error of the last attempt is rethrown.

    The transport is abstract: `respond(r)` is the outcome of attempt `r`
    (numbered from 0) for the one URL being fetched.  The waits are not
    performed; their lengths are reported in `delays`. */
module Fetch {
  import opened Common

  const MaxRetries: nat := 3
  const BaseBackoff: nat := 1000

  function Pow2(n: nat): (p: nat)
    ensures p >= 1
  {
    if n == 0 then 1 else 2 * Pow2(n - 1)
  }

  /** The wait before retry `r + 1`. */
  function Backoff(r: nat): nat {
    BaseBackoff * Pow2(r)
  }

  /** What one `fetchPage(url)` call amounts to: its result (the body, or the
      error it throws), how many requests it made and the waits between
      them, in order. */
  datatype Outcome<T> = Outcome(result: Attempt<T>, attempts: nat, delays: seq<nat>)

  /** `fetchPage(url, r)`: attempts `r`, `r + 1`, … until one succeeds or the
      retries are used up.  The result is the response of the last attempt
      made; every attempt before it failed, and a failure is only returned
      from attempt `MaxRetries`. */
  function RetryFrom<T>(respond: nat -> Attempt<T>, r: nat): (o: Outcome<T>)
    requires r <= MaxRetries
    ensures 1 <= o.attempts <= MaxRetries + 1 - r
    ensures o.result == respond(r + o.attempts - 1)
    ensures forall k :: r <= k < r + o.attempts - 1 ==> respond(k).Err?
    ensures o.result.Err? ==> r + o.attempts - 1 == MaxRetries
    ensures |o.delays| == o.attempts - 1
    ensures forall i :: 0 <= i < |o.delays| ==> o.delays[i] == Backoff(r + i)
    decreases MaxRetries - r
  {
    if respond(r).Ok? || r == MaxRetries then Outcome(respond(r), 1, [])
    else
      var o := RetryFrom(respond, r + 1);
      Outcome(o.result, o.attempts + 1, [Backoff(r)] + o.delays)
  }

  /** `fetchPage(url)` with the default `retryCount = 0`. */
  function Fetch<T>(respond: nat -> Attempt<T>): Outcome<T> {
    RetryFrom(respond, 0)
  }

  /** The call succeeds exactly when one of the four attempts does, and then
      returns the body of the first successful one. */
  lemma FetchOkIff<T>(respond: nat -> Attempt<T>)
    ensures Fetch(respond).result.Ok? <==> exists k :: 0 <= k <= MaxRetries && respond(k).Ok?
    ensures forall k :: (0 <= k <= MaxRetries && respond(k).Ok? &&
                         forall j :: 0 <= j < k ==> respond(j).Err?) ==>
              Fetch(respond).result == respond(k) && Fetch(respond).attempts == k + 1
  {
    var o := Fetch(respond);
    var last := o.attempts - 1;
    assert forall k :: 0 <= k < last ==> respond(k).Err?;
    assert o.result.Err? ==> respond(last).Err? && last == MaxRetries;
  }

  /** When every attempt fails the caller sees the error of the fourth
      attempt, after waiting 1000, 2000 and 4000 ms. */
  lemma AllFail<T>(respond: nat -> Attempt<T>)
    requires forall k :: 0 <= k <= MaxRetries ==> respond(k).Err?
    ensures Fetch(respond) == Outcome(respond(3), 4, [1000, 2000, 4000])
  {
    var o := Fetch(respond);
    assert respond(o.attempts - 1).Err?;
    assert Backoff(1) == 2000 && Backoff(2) == 4000;
  }

  /** The same retry schedule as an explicit bounded loop with an attempt
      counter; it makes the same requests and waits as `Fetch`. */
  method FetchLoop<T>(respond: nat -> Attempt<T>) returns (result: Attempt<T>, attempts: nat, delays: seq<nat>)
    ensures Outcome(result, attempts, delays) == Fetch(respond)
  {
    var r: nat := 0;
    ghost var whole := Fetch(respond);
    delays := [];
    result := respond(0);
    while result.Err? && r < MaxRetries
      invariant r <= MaxRetries
      invariant result == respond(r)
      invariant r < whole.attempts
      invariant RetryFrom(respond, r) == Outcome(whole.result, whole.attempts - r, whole.delays[r..])
      invariant delays == whole.delays[..r]
      decreases MaxRetries - r
    {
      delays := delays + [Backoff(r)];
      r := r + 1;
      result := respond(r);
    }
    attempts := r + 1;
  }
}
