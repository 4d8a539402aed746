/**
 Retry: a decorator that re-invokes a failing processing function.

 Attempt indices run from 0. Each attempt invokes the wrapped function on the
 same input; a success, or a failure at an index that has reached the retry
 threshold, ends the call with exactly that attempt's (result, error) pair.
 Otherwise the caller sleeps `expiry(index)` and tries again. Instead of
 sleeping, the model reports the list of requested sleeps.
 */
module Retry {
  import opened Processor

  const DefaultRetryThreshold: nat := 3

  /** What a user passes to the constructor; `expiryFn == None` is Go's nil. */
  datatype Settings = Settings(name: string, retryThreshold: nat, expiryFn: Option<ExpiryFn>)

  datatype Config = Config(retryThreshold: nat, expiry: ExpiryFn)

  /** One call through the retry wrapper: the reply handed back, how many
      times the wrapped function was invoked, and the sleeps in between. */
  datatype Outcome = Outcome(reply: Reply, attempts: nat, sleeps: seq<int>)

  predicate Valid(c: Config) {
    c.retryThreshold >= 1
  }

  /** A zero threshold becomes 3 and a missing backoff becomes the default. */
  function New(s: Settings): (c: Config)
    ensures Valid(c)
    ensures s.retryThreshold > 0 ==> c.retryThreshold == s.retryThreshold
    ensures s.retryThreshold == 0 ==> c.retryThreshold == DefaultRetryThreshold
    ensures s.expiryFn.None? ==> forall k :: c.expiry(k) == DefaultExpiry(k)
    ensures s.expiryFn.Some? ==> forall k :: c.expiry(k) == s.expiryFn.value(k)
  {
    var threshold := if s.retryThreshold <= 0 then DefaultRetryThreshold else s.retryThreshold;
    var expiry := if s.expiryFn.None? then DefaultExpiry else s.expiryFn.value;
    Config(threshold, expiry)
  }

  /** The sleeps after attempts i .. k-1, in order. */
  function Backoffs(expiry: ExpiryFn, i: nat, k: nat): (s: seq<int>)
    requires i <= k
    ensures |s| == k - i
    ensures forall j :: 0 <= j < |s| ==> s[j] == expiry(i + j)
    decreases k - i
  {
    if i == k then [] else [expiry(i)] + Backoffs(expiry, i + 1, k)
  }

  /** One more failed attempt appends its sleep at the end. */
  lemma {:induction false} BackoffsSnoc(expiry: ExpiryFn, i: nat, k: nat)
    requires i <= k
    ensures Backoffs(expiry, i, k) + [expiry(k)] == Backoffs(expiry, i, k + 1)
    decreases k - i
  {
    if i < k {
      BackoffsSnoc(expiry, i + 1, k);
      assert [expiry(i)] + Backoffs(expiry, i + 1, k) + [expiry(k)]
          == [expiry(i)] + (Backoffs(expiry, i + 1, k) + [expiry(k)]);
    }
  }

  function Max(a: nat, b: nat): nat {
    if a >= b then a else b
  }

  /** The retry loop from attempt index `i` on, for a call on `input` made
      after the wrapped function has already been invoked `base` times.
      The final attempt's reply is returned as it is; every earlier attempt
      failed; a failure is returned only once the index reached the threshold;
      and one sleep of `expiry(j)` follows each failed attempt j but the last. */
  function Attempt(c: Config, inner: Inner, base: nat, input: Value, i: nat): (o: Outcome)
    ensures i < o.attempts <= Max(i, c.retryThreshold) + 1
    ensures o.reply == inner(base + o.attempts - 1, input)
    ensures forall n :: base + i <= n < base + o.attempts - 1 ==> inner(n, input).Failed()
    ensures o.reply.Failed() ==> o.attempts - 1 >= c.retryThreshold
    ensures o.sleeps == Backoffs(c.expiry, i, o.attempts - 1)
    decreases c.retryThreshold - i
  {
    var r := inner(base + i, input);
    if !r.Failed() || i >= c.retryThreshold then Outcome(r, i + 1, [])
    else
      var rest := Attempt(c, inner, base, input, i + 1);
      Outcome(rest.reply, rest.attempts, [c.expiry(i)] + rest.sleeps)
  }

  /** A whole call through the retry wrapper: between 1 and threshold + 1
      invocations of the wrapped function, all on the same input. */
  function Process(c: Config, inner: Inner, base: nat, input: Value): (o: Outcome)
    ensures 1 <= o.attempts <= c.retryThreshold + 1
    ensures o.reply == inner(base + o.attempts - 1, input)
    ensures forall n :: base <= n < base + o.attempts - 1 ==> inner(n, input).Failed()
    ensures o.reply.Failed() ==> o.attempts == c.retryThreshold + 1
    ensures o.sleeps == Backoffs(c.expiry, 0, o.attempts - 1)
  {
    Attempt(c, inner, base, input, 0)
  }

  /** A wrapped function that first succeeds on attempt k (k <= threshold)
      is invoked exactly k + 1 times, and that success is what the caller gets. */
  lemma {:induction false} FirstSuccessEndsCall(c: Config, inner: Inner, base: nat, input: Value, k: nat)
    requires k <= c.retryThreshold
    requires forall n :: base <= n < base + k ==> inner(n, input).Failed()
    requires !inner(base + k, input).Failed()
    ensures Process(c, inner, base, input) == Outcome(inner(base + k, input), k + 1, Backoffs(c.expiry, 0, k))
  {
    var o := Process(c, inner, base, input);
    assert o.attempts == k + 1;
    assert o.reply == inner(base + k, input);
    assert o.sleeps == Backoffs(c.expiry, 0, k);
  }

  /** A wrapped function that keeps failing is invoked exactly threshold + 1
      times, and the caller gets the last failure unchanged. */
  lemma {:induction false} PermanentFailureExhaustsRetries(c: Config, inner: Inner, base: nat, input: Value)
    requires forall n :: base <= n <= base + c.retryThreshold ==> inner(n, input).Failed()
    ensures Process(c, inner, base, input)
            == Outcome(inner(base + c.retryThreshold, input), c.retryThreshold + 1, Backoffs(c.expiry, 0, c.retryThreshold))
  {
    var o := Process(c, inner, base, input);
    assert inner(base + o.attempts - 1, input).Failed();
    assert o.attempts == c.retryThreshold + 1;
    assert o.reply == inner(base + c.retryThreshold, input);
    assert o.sleeps == Backoffs(c.expiry, 0, c.retryThreshold);
  }

  /** With a valid configuration a first failure is always retried, after
      sleeping `expiry(0)`. */
  lemma FirstFailureIsRetried(c: Config, inner: Inner, base: nat, input: Value)
    requires Valid(c)
    requires inner(base, input).Failed()
    ensures var o := Process(c, inner, base, input);
            && o.attempts >= 2
            && o.sleeps[0] == c.expiry(0)
  {
  }

  /** The loop as the source writes it, with the sleeps collected instead of taken. */
  method Call(c: Config, inner: Inner, base: nat, input: Value) returns (o: Outcome)
    ensures o == Process(c, inner, base, input)
  {
    var sleeps: seq<int> := [];
    var i: nat := 0;
    while true
      invariant i <= c.retryThreshold
      invariant sleeps == Backoffs(c.expiry, 0, i)
      invariant forall n :: base <= n < base + i ==> inner(n, input).Failed()
      decreases c.retryThreshold - i
    {
      var r := inner(base + i, input);
      if !r.Failed() {
        FirstSuccessEndsCall(c, inner, base, input, i);
        o := Outcome(r, i + 1, sleeps);
        return;
      }
      if i >= c.retryThreshold {
        PermanentFailureExhaustsRetries(c, inner, base, input);
        o := Outcome(r, i + 1, sleeps);
        return;
      }
      BackoffsSnoc(c.expiry, 0, i);
      sleeps := sleeps + [c.expiry(i)];
      i := i + 1;
    }
  }

  /** The test double of the repository's retry test: it fails on its first
      two invocations, handing back its input with an error, and from the
      third on answers with an "ftp://" URL. */
  function EmulateConnection(): Inner {
    (n: nat, x: Value) =>
      if n >= 2 then Reply(Str("ftp://" + (if x.Str? then x.s else "")), None)
      else Reply(x, Some(Failure("INTENTIONAL FAIL!")))
  }

  /** Threshold 5 with the default backoff: the first call succeeds on its
      third attempt after sleeping 20 ms and 40 ms; the next call succeeds at once. */
  lemma RetryTestScenario()
    ensures var c := New(Settings("BreakerSettingsTest", 5, None));
            && Process(c, EmulateConnection(), 0, Str("url1.com"))
               == Outcome(Reply(Str("ftp://url1.com"), None), 3, [20, 40])
            && Process(c, EmulateConnection(), 3, Str("url2.com"))
               == Outcome(Reply(Str("ftp://url2.com"), None), 1, [])
  {
    var c := New(Settings("BreakerSettingsTest", 5, None));
    assert "ftp://" + "url1.com" == "ftp://url1.com";
    assert "ftp://" + "url2.com" == "ftp://url2.com";
    FirstSuccessEndsCall(c, EmulateConnection(), 0, Str("url1.com"), 2);
    FirstSuccessEndsCall(c, EmulateConnection(), 3, Str("url2.com"), 0);
    assert Backoffs(c.expiry, 0, 2) == [c.expiry(0), c.expiry(1)];
    assert DefaultExpiry(1) == 40;
  }
}
