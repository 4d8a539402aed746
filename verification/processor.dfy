/**
 The processing-function contract shared by the three stability decorators.

 A processing function takes one opaque input and answers with a pair
 (result, error), exactly like the Go `ProcessFn`. Values are modelled as a
 small tagged union standing for Go's `interface{}`; errors are either the two
 decorator-produced errors or an application error raised by the wrapped code.
 Durations and timestamps are whole milliseconds.
 */
module Processor {

  datatype Option<+T> = None | Some(value: T)

  /** The dynamic values the decorators pass through untouched (Go `interface{}`). */
  datatype Value = Nil | Int(i: int) | Str(s: string)

  /** Errors a processing function can return. */
  datatype Error =
    | OpenState              // the breaker refused the call (`ErrOpenState`)
    | TooManyCalls           // the throttle refused the call ("too many calls")
    | Failure(msg: string)   // any error of the wrapped function itself

  /** The (result, error) pair of one call; `err == None` is Go's nil error. */
  datatype Reply = Reply(res: Value, err: Option<Error>) {
    predicate Failed() { err.Some? }
  }

  /** A wrapped processing function, possibly stateful: `inner(n, x)` is its
      reply when it is invoked for the n-th time (counting from 0) on input x. */
  type Inner = (nat, Value) -> Reply

  /** A backoff function: attempt or overshoot index to a wait in milliseconds.
      Go durations are signed, so a user-supplied one may be negative. */
  type ExpiryFn = nat -> int

  function Pow2(k: nat): (r: nat)
    ensures r >= 1
  {
    if k == 0 then 1 else 2 * Pow2(k - 1)
  }

  /** The default backoff of both the breaker and the retry decorator:
      `(2 << k) * 10` milliseconds. */
  function DefaultExpiry(k: nat): (r: int)
    ensures r >= 20
    ensures k == 0 ==> r == 20
    ensures k > 0 ==> r == 2 * DefaultExpiry(k - 1)
  {
    2 * Pow2(k) * 10
  }

  lemma {:induction false} Pow2Increasing(j: nat, k: nat)
    requires j < k
    ensures Pow2(j) < Pow2(k)
  {
    if j + 1 < k {
      Pow2Increasing(j, k - 1);
    }
  }

  /** The default backoff strictly grows with its argument. */
  lemma {:induction false} DefaultExpiryIncreasing(j: nat, k: nat)
    requires j < k
    ensures DefaultExpiry(j) < DefaultExpiry(k)
  {
    Pow2Increasing(j, k);
  }
}
