/** RetryMiddleware and ChainMiddleware of app/middlewares/kafka_message_handler_middleware.go.

    The backoff is one captured variable, doubled after every completed wait whatever message it was for,
    and is a 64-bit duration. */
module Retry {
  import opened Int64

  function Pow2(k: nat): nat {
    if k == 0 then 1 else 2 * Pow2(k - 1)
  }

  /** What an attempt meets: the handler's verdict and, when it fails, whether the context is done
      before the timer fires. */
  datatype Attempt = Attempt(succeeds: bool, cancelled: bool)

  datatype Outcome = Nil | ContextError | Exhausted

  function Backoff(initial: int, waits: nat): int {
    Wrap64(initial * Pow2(waits))
  }

  /** Time spent in the first waits; a timer set to a negative duration fires at once. */
  function TimeWaited(initial: int, waits: nat): int {
    if waits == 0 then 0
    else
      var last := Backoff(initial, waits - 1);
      TimeWaited(initial, waits - 1) + (if last < 0 then 0 else last)
  }

  class RetryMiddleware {
    const maxRetries: int
    const initial: int
    var backoff: int
    ghost var waits: nat
    ghost var waited: int

    /** However many messages there were, the state depends only on the number of completed waits. */
    ghost predicate Valid()
      reads this
    {
      backoff == Backoff(initial, waits) && waited == TimeWaited(initial, waits)
    }

    constructor (maxRetries: int, backoff: int)
      requires -MAX_INT64 - 1 <= backoff <= MAX_INT64
      ensures Valid() && waits == 0
      ensures this.maxRetries == maxRetries && initial == backoff == this.backoff
    {
      this.maxRetries := maxRetries;
      initial := backoff;
      this.backoff := backoff;
      waits, waited := 0, 0;
      new;
      assert Pow2(0) == 1;
    }

    /** The timer fires and the backoff doubles. */
    method Wait()
      requires Valid()
      modifies this
      ensures Valid() && waits == old(waits) + 1
    {
      waited := waited + if backoff < 0 then 0 else backoff;
      backoff := Wrap64(backoff * 2);
      DoublingWraps(initial * Pow2(waits));
      waits := waits + 1;
      assert initial * Pow2(waits) == 2 * (initial * Pow2(waits - 1));
    }

    /** One message; `script(a)` is what its attempt number a meets. */
    method Handle(script: int -> Attempt) returns (result: Outcome, calls: nat)
      requires Valid()
      modifies this
      ensures Valid()
      ensures calls <= if maxRetries < 0 then 0 else maxRetries
      ensures forall a :: 1 <= a < calls ==> !script(a).succeeds && !script(a).cancelled
      ensures result == Nil <==> calls >= 1 && script(calls).succeeds
      ensures result == ContextError <==> calls >= 1 && !script(calls).succeeds && script(calls).cancelled
      ensures result == Exhausted ==> calls == if maxRetries < 0 then 0 else maxRetries
      ensures waits == old(waits) + (if result == Exhausted then calls else calls - 1)
    {
      calls := 0;
      var attempt := 1;
      while attempt <= maxRetries
        invariant Valid() && 1 <= attempt && calls == attempt - 1
        invariant maxRetries >= 0 ==> attempt <= maxRetries + 1
        invariant maxRetries < 0 ==> attempt == 1
        invariant forall a :: 1 <= a < attempt ==> !script(a).succeeds && !script(a).cancelled
        invariant waits == old(waits) + calls
      {
        calls := calls + 1;
        if script(attempt).succeeds {
          return Nil, calls;
        }
        if script(attempt).cancelled {
          return ContextError, calls;
        }
        Wait();
        attempt := attempt + 1;
      }
      return Exhausted, calls;
    }
  }

  /** Wrapping between doublings is wrapping once at the end. */
  lemma DoublingWraps(n: int)
    ensures Wrap64(Wrap64(n) * 2) == Wrap64(2 * n)
  {
    var q := n / TWO_64;
    var m := n % TWO_64;
    assert n == q * TWO_64 + m;
    var w := Wrap64(n);
    assert w * 2 - 2 * n == TWO_64 * (if m > MAX_INT64 then -2 * q - 2 else -2 * q);
    SameResidue(w * 2, 2 * n, if m > MAX_INT64 then -2 * q - 2 else -2 * q);
  }

  lemma SameResidue(a: int, b: int, k: int)
    requires a == b + TWO_64 * k
    ensures a % TWO_64 == b % TWO_64
  {
  }

  lemma Doubled(initial: int, k: nat)
    ensures initial * Pow2(k + 1) == 2 * (initial * Pow2(k))
  {
    var p := Pow2(k);
    assert Pow2(k + 1) == 2 * p;
    assert initial * (2 * p) == 2 * (initial * p);
  }

  lemma TimesPred(a: int, p: int)
    ensures a * (p - 1) == a * p - a
  {
  }

  lemma WrapAtMost(n: nat)
    ensures Wrap64(n) <= n
    ensures Wrap64(n) == n <==> n <= MAX_INT64
  {
  }

  /** The waits never take longer than unbounded doubling would, and exactly as long if and only if the last
      backoff waited for still fits. */
  lemma {:induction false} WaitedAtMost(initial: nat, k: nat)
    ensures 0 <= initial * Pow2(k)
    ensures TimeWaited(initial, k) <= initial * Pow2(k) - initial
    ensures TimeWaited(initial, k) == initial * Pow2(k) - initial <==>
      k == 0 || initial * Pow2(k - 1) <= MAX_INT64
  {
    if k == 0 {
      assert Pow2(0) == 1;
    } else {
      WaitedAtMost(initial, k - 1);
      Doubled(initial, k - 1);
      WrapAtMost(initial * Pow2(k - 1));
      if k > 1 {
        WaitedAtMost(initial, k - 2);
        Doubled(initial, k - 2);
      }
    }
  }

  /** The variable holds initial * 2^k, and the k waits took initial * (2^k - 1) in all, exactly as long as
      these doublings fit 64 bits. */
  lemma BackoffExactIff(initial: nat, k: nat)
    ensures Backoff(initial, k) == initial * Pow2(k) <==> initial * Pow2(k) <= MAX_INT64
    ensures TimeWaited(initial, k) == initial * (Pow2(k) - 1) <==> k == 0 || initial * Pow2(k - 1) <= MAX_INT64
  {
    hide TimeWaited, Pow2, Wrap64;
    WaitedAtMost(initial, k);
    WrapAtMost(initial * Pow2(k));
    TimesPred(initial, Pow2(k));
  }

  lemma {:induction false} Pow2Sum(j: nat, k: nat)
    ensures Pow2(j + k) == Pow2(j) * Pow2(k)
  {
    if k > 0 {
      Pow2Sum(j, k - 1);
    }
  }

  lemma PowerOf64()
    ensures Pow2(64) == TWO_64
  {
    assert Pow2(8) == 0x100;
    Pow2Sum(8, 8);
    Pow2Sum(16, 16);
    Pow2Sum(32, 32);
  }

  /** After 64 completed waits, over all messages together, every later retry follows at once: the
      shared variable has wrapped to zero and stays there. */
  lemma BackoffVanishes(initial: int, k: nat)
    requires k >= 64
    ensures Backoff(initial, k) == 0
  {
    PowerOf64();
    Pow2Sum(k - 64, 64);
    var m := initial * Pow2(k - 64);
    assert initial * Pow2(k) == m * TWO_64;
    SameResidue(TWO_64 * m, 0, m);
  }

  // ---------- ChainMiddleware ----------

  function Chained<H>(handler: H, middlewares: seq<H -> H>): H {
    if middlewares == [] then handler else middlewares[0](Chained(handler, middlewares[1..]))
  }

  method ChainMiddleware<H>(handler: H, middlewares: seq<H -> H>) returns (chained: H)
    ensures chained == Chained(handler, middlewares)
  {
    chained := handler;
    var i := |middlewares| - 1;
    while i >= 0
      invariant -1 <= i < |middlewares|
      invariant chained == Chained(handler, middlewares[i + 1..])
    {
      chained := middlewares[i](chained);
      assert middlewares[i..][1..] == middlewares[i + 1..];
      i := i - 1;
    }
  }

  /** The first middleware is the outermost: chaining a list is chaining its front around its back. */
  lemma {:induction false} ChainConcat<H>(handler: H, outer: seq<H -> H>, inner: seq<H -> H>)
    ensures Chained(handler, outer + inner) == Chained(Chained(handler, inner), outer)
  {
    if outer == [] {
      assert outer + inner == inner;
    } else {
      ChainConcat(handler, outer[1..], inner);
      assert (outer + inner)[1..] == outer[1..] + inner;
    }
  }

  /** Every middleware takes part exactly once, in the order of the list and before the handler: told by
      middlewares that leave their name on what they pass on. */
  lemma {:induction false} ChainOrder(names: seq<int>, middlewares: seq<seq<int> -> seq<int>>, handler: seq<int>)
    requires |middlewares| == |names|
    requires forall i, trace :: 0 <= i < |names| ==> middlewares[i](trace) == [names[i]] + trace
    ensures Chained(handler, middlewares) == names + handler
  {
    if names == [] {
      assert names + handler == handler;
    } else {
      ChainOrder(names[1..], middlewares[1..], handler);
      assert names + handler == [names[0]] + (names[1..] + handler);
    }
  }
}
