# Stability decorators: a verified functional model

This project models the three fault-tolerance decorators of the Go package
`pkg/stability`: the circuit breaker, the token-bucket throttle and the retry
wrapper. Each one wraps a processing function (`ProcessFn`: one input, a
`(result, error)` pair back) and yields a function of the same shape.

In the model every decorator is a pure state machine over explicit inputs:

- time is a natural-number clock reading in milliseconds;
- durations are integer milliseconds, since Go durations are signed;
- the wrapped function is `Inner = (nat, Value) -> Reply`, its reply on its
  n-th invocation for a given input, so stateful test doubles can be written
  down;
- Go's `interface{}` values are the `Value` union, and the nil error is `None`.

Files:

- `processor.dfy` (module `Processor`): the shared `Value`, `Error`, `Reply`
  and `Inner` types, and the default exponential backoff `(2 << k) * 10` ms.
- `breaker.dfy` (module `Breaker`): settings and defaults, the pre-check
  `Before`, the post-update `After`, one whole `Call`, and sequential call
  traces (`Run`).
- `throttle.dfy` (module `Throttle`): settings and defaults, `Refill`, one
  `Call`, and traces of call and refill events. The background ticker becomes
  an explicit `RefillEvent`.
- `retry.dfy` (module `Retry`): settings and defaults, and the retry loop.
  The loop appears as a recursive reference (`Attempt` / `Process`) and as the
  source's `for` loop (`Call`). It returns the number of attempts, the sleeps
  it asked for and the final reply.

## Model

| member | source | states |
|---|---|---|
| Processor.DefaultExpiry | pkg/stability/breaker.go:11-13 | The default backoff is 20 ms at index 0 and doubles with every step. `defaultRetryExpiryFn` (retry.go:15-17) is the same function. |
| Processor.DefaultExpiryIncreasing | pkg/stability/retry.go:15-17 | The default backoff strictly increases with its index, so a larger overshoot or a later attempt never waits less. |
| Breaker.New | pkg/stability/breaker.go:35-49 | A zero failure threshold becomes 1 and a nil backoff becomes the default. Every constructed breaker has a threshold of at least 1. |
| Breaker.Before | pkg/stability/breaker.go:83-101 | The closed regime (counter below threshold) always admits. A call is refused exactly when a probe time exists and the clock is strictly before it. |
| Breaker.After | pkg/stability/breaker.go:68-81 | Every completed call stamps the last attempt with its completion time. A failure adds exactly one to the counter and a success resets it to 0. |
| Breaker.Call | pkg/stability/breaker.go:51-66 | A refused call answers `(nil, ErrOpenState)`, leaves the state unchanged and skips the wrapped function. An admitted call answers a success unchanged and a failure as `(nil, err)` with the inner error verbatim. `ErrOpenState` comes from the pre-check unless the wrapped function returned it. |
| Breaker.FailedCallExtendsBackoff | pkg/stability/breaker.go:72-97 | A failed call at or past the threshold raises the overshoot by exactly one. It then refuses every call before completion + `expiry(new overshoot)` and admits every later one. |
| Breaker.SuccessfulCallCloses | pkg/stability/breaker.go:74-91 | A successful call puts the breaker back into the closed regime, where every next call is admitted. |
| Breaker.Step | pkg/stability/breaker.go:51-66 | One call makes the reply and flag lists one longer. It invokes the wrapped function exactly when the pre-check admits the call. A refused call answers `ErrOpenState` and leaves the state unchanged. |
| Breaker.StepAppendsCall | pkg/stability/breaker.go:51-81 | One call keeps every earlier reply and flag. It appends the reply of `Call` (the pass-through or `(nil, err)` of breaker.go:58-64) and a flag equal to the pre-check's verdict. It leaves the state `Call` gives, which is the post-update of breaker.go:72-78 on an admitted call. |
| Breaker.Run | pkg/stability/breaker.go:51-81 | Sequential calls give one reply and one admission flag per call. The wrapped function is invoked at most once per call, and the counter never exceeds the number of invocations. Every refused call answers `ErrOpenState`. |
| Breaker.RunEntries | pkg/stability/breaker.go:51-66 | Call i of a trace is admitted exactly when the pre-check admits it on the state the first i calls left. Its reply is the one `Call` gives on that state. |
| Breaker.RunHistory | pkg/stability/breaker.go:51-81 | The state summarises the call history. The invocations equal the number of admitted calls. The last attempt is the completion time of the last admitted call, or the zero time if there is none. The counter is the number of failed admitted calls since the last successful one, with refused calls skipped. |
| Breaker.ClosedRunCountsFailures | pkg/stability/breaker.go:72-78 | While the breaker stays closed, an always-failing wrapped function is invoked on every call. Each failure adds one to the counter, and the last completion time is recorded. |
| Breaker.TripsAfterThresholdFailures | pkg/stability/breaker.go:54-56 | After `threshold` consecutive failures from a fresh breaker, a call made before `expiry(0)` has elapsed answers `ErrOpenState` without invoking the wrapped function or changing the state. |
| Breaker.FailAfterThreeTrace | test/breaker_test.go:20-33 | Against a function that fails after three calls, any breaker and any clock readings give exactly three leading successes, each returning its own input, then only failures. |
| Breaker.BreakerTestScenario | test/breaker_test.go:59-81 | With threshold 5 and a backoff of `2 << k` seconds, five calls succeed on calls 0-2 and fail on calls 3-4. |
| Throttle.New | pkg/stability/throttle.go:59-79 | Zero settings become max 1, refill 1 and interval 1 s. A non-positive interval also becomes 1 s. The bucket starts full. |
| Throttle.Refill | pkg/stability/throttle.go:38-44 | A refill never overfills the bucket and never removes tokens from a valid bucket. It gives the maximum exactly when tokens + refill reach it, and the plain sum otherwise. |
| Throttle.RefillAsWritten | pkg/stability/throttle.go:41-43 | The `uint32` refill as written still stays within the maximum and within 32 bits. |
| Throttle.RefillAsWrittenWithoutWrap | pkg/stability/throttle.go:41-43 | When the sum fits in 32 bits, the written refill equals the clamping refill. |
| Throttle.RefillAsWrittenEmptiesFullBucket | pkg/stability/throttle.go:40-43 | With max = 2^32 - 1 and refill 1, one refill of a full bucket gives 0 tokens instead of a full bucket. |
| Throttle.Call | pkg/stability/throttle.go:99-105 | The admission step, using `isTokenBucketEmpty` and `decreaseTokensInBucket` (throttle.go:46-57). On an empty bucket the call answers `("", too many calls)`, keeps the count and skips the wrapped function. Otherwise it takes exactly one token, even if the wrapped function fails, and returns the inner reply verbatim. |
| Throttle.Run | pkg/stability/throttle.go:81-107 | Over any trace of calls and refills, every call is either admitted or refused, and earlier replies are kept. A bucket that starts within `maxTokens` stays within it. |
| Throttle.RunConcat | pkg/stability/throttle.go:83-105 | Applying two event traces one after the other has the same effect as applying their concatenation. |
| Throttle.DrainCounts | pkg/stability/throttle.go:99-105 | Without refills, n calls against k tokens admit exactly min(n, k) calls, refuse the rest, and leave k - min(n, k) tokens. |
| Throttle.DrainReplies | pkg/stability/throttle.go:99-103 | Without refills, the first k calls get the wrapped function's reply on their own input. Every later call gets the refusal. |
| Throttle.RefillTimesClosedForm | pkg/stability/throttle.go:38-43 | From a bucket within its maximum, n refill ticks leave min(tokens + n * refill, max) tokens. |
| Throttle.RefillsOnly | pkg/stability/throttle.go:38-43 | A trace of n refill ticks refills the bucket n times and leaves the counters and the replies unchanged. |
| Throttle.TickAdmitsNextCall | pkg/stability/throttle.go:38-57 | With a valid configuration, one tick always reopens the bucket. The call right after it reaches the wrapped function and gets that function's reply, whatever the bucket held before. |
| Throttle.MaxOneScenario | test/throttle_test.go:20-46 | Max 1, refill 1: any 100 back-to-back calls from a fresh throttle give 1 admitted and 99 refused. |
| Throttle.MaxTenScenario | test/throttle_test.go:59-85 | Max 10, refill 10: any 100 back-to-back calls from a fresh throttle give 10 admitted and 90 refused. |
| Throttle.RefillScenario | test/throttle_test.go:228-265 | Max 5, refill 1: any 10 calls, 3 refill ticks, then any 10 calls give 8 admitted and 12 refused. |
| Retry.New | pkg/stability/retry.go:34-48 | A zero threshold becomes 3 and a nil backoff becomes the default. |
| Retry.Attempt | pkg/stability/retry.go:53-59 | From attempt i, the loop returns the final attempt's reply unchanged, and every earlier attempt failed. It returns a failure only once the index reached the threshold. It sleeps `expiry(j)` after each failed attempt j except the last. |
| Retry.Process | pkg/stability/retry.go:50-62 | A whole call makes between 1 and threshold + 1 invocations, all on the same input. A failure is returned only after exactly threshold + 1 attempts. The sleeps are `expiry(0) ... expiry(attempts - 2)`. |
| Retry.FirstFailureIsRetried | pkg/stability/retry.go:53-59 | With a valid configuration (threshold at least 1), a failing first attempt is always retried, after a sleep of `expiry(0)`. |
| Retry.Call | pkg/stability/retry.go:53-60 | The imperative loop, with sleeps collected instead of taken, produces exactly the outcome of the recursive reference. |
| Retry.FirstSuccessEndsCall | pkg/stability/retry.go:54-57 | If the first success comes on attempt k (k <= threshold), the wrapper invokes the function exactly k + 1 times. It returns that success after sleeping `expiry(0) ... expiry(k - 1)`. |
| Retry.PermanentFailureExhaustsRetries | pkg/stability/retry.go:53-59 | A function that keeps failing is invoked exactly threshold + 1 times. The caller gets the last failure's pair unchanged, after threshold sleeps. |
| Retry.RetryTestScenario | test/retry_test.go:14-57 | Threshold 5 with the default backoff, against a function that fails twice. The first call returns "ftp://url1.com" after 3 attempts and sleeps of 20 and 40 ms. The next call succeeds at once. |

## Left out

- Concurrency is not modelled: mutexes, goroutines and interleavings inside one call. The breaker's pre-check and post-update are separate critical sections (breaker.go:54-60), and so are the throttle's emptiness check and decrement (throttle.go:99-103). Under concurrent callers this can admit extra probes or calls, and the throttle's `uint32` counter can underflow. Only whole sequential calls are modelled.
- The throttle's background refill goroutine, its ticker and its `sync.Once` start (throttle.go:84-97) are replaced by explicit `RefillEvent`s in a trace. `refillInterval` is kept in the configuration only.
- `time.Now`, `time.Sleep` and `time.Duration` are not modelled. Clock readings are parameters. Retry returns its list of sleeps instead of sleeping. Durations are whole milliseconds instead of nanoseconds.
- Breaker.After: `consecutiveFailures` is a `nat`. The `uint32` wrap after 2^32 failures (breaker.go:75) is not modelled.
- Throttle.Refill: counters are `nat`, and `Run` uses this clamping refill, not the source's `uint32` one. So `Throttle.Run`, `Throttle.RefillTimesClosedForm`, `Throttle.RefillsOnly`, `Throttle.TickAdmitsNextCall` and `Throttle.RefillScenario` describe the intended refill. With `MaxTokens = 2^32 - 1` and refill 1, the source empties a full bucket on a tick, so the next call is refused there; `TickAdmitsNextCall` holds for the clamping refill only. The `uint32` behaviour of the sum is modelled separately in `RefillAsWritten` (see Findings).
- Processor.DefaultExpiry: the `int64` overflow of `(2 << k) * 10` ms in nanoseconds for k >= 39 is not modelled. Reaching it takes backoffs that already exceed a century.
- The `name` fields, the unused `ErrRetry` and the unused `lastAttempt`/`mutex` fields of `Retry` are left out. So is the commented-out `Breaker___`.
- Nesting decorators around each other is not modelled. Each decorator is modelled against an arbitrary wrapped function, which may itself return `OpenState` or `TooManyCalls`.
- The timing-dependent tests (TestBreakerOpenClose, TestThrottleQuickRefill, TestThrottleFrequency5Seconds, TestThrottleMax10Refill3Times) and the pipeline fan-out test depend on wall-clock timing and an external library. They are not modelled.

## Findings

| source | as written | input that shows it | evidently intended | confidence | as-written member | corrected member |
|---|---|---|---|---|---|---|
| pkg/stability/throttle.go:41-43 | `tokensInBucket += refillTokensCnt` wraps modulo 2^32 before it is compared with `maxTokens` | `MaxTokens = 4294967295`, `RefillTokensCnt = 1`: a tick that finds the bucket full (the second tick if no call comes between) leaves 0 tokens | the sum is clamped at `maxTokens`, so a refill never removes tokens | not executed; high | Throttle.RefillAsWritten (shown by Throttle.RefillAsWrittenEmptiesFullBucket) | Throttle.Refill |
