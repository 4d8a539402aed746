/**
 Circuit breaker: a decorator that counts consecutive failures of the wrapped
 function and, once the count reaches the failure threshold, refuses calls
 until a backoff window measured from the last completed call has passed.

 The regimes are implicit in the counter: with `d = failures - threshold`,
 the breaker is closed while `d < 0`; while `d >= 0` a call made before
 `lastAttempt + expiry(d)` is refused with `OpenState`, and a call made at or
 after that instant goes through as a probe.
 */
module Breaker {
  import opened Processor

  const DefaultFailureThreshold: nat := 1

  /** What a user passes to the constructor; `expiryFn == None` is Go's nil. */
  datatype Settings = Settings(name: string, failureThreshold: nat, expiryFn: Option<ExpiryFn>)

  /** The immutable configuration a constructed breaker holds. */
  datatype Config = Config(failureThreshold: nat, expiry: ExpiryFn)

  /** The mutable bookkeeping, guarded by the breaker's mutex in the source. */
  datatype State = State(consecutiveFailures: nat, lastAttempt: nat)

  /** Outcome of the pre-check. */
  datatype Gate = Admit | Reject

  /** Everything one call through the breaker produces. */
  datatype Outcome = Outcome(reply: Reply, state: State, invoked: bool)

  predicate Valid(c: Config) {
    c.failureThreshold >= 1
  }

  /** A zero threshold becomes 1 and a missing backoff becomes the default. */
  function New(s: Settings): (c: Config)
    ensures Valid(c)
    ensures s.failureThreshold > 0 ==> c.failureThreshold == s.failureThreshold
    ensures s.failureThreshold == 0 ==> c.failureThreshold == DefaultFailureThreshold
    ensures s.expiryFn.None? ==> forall k :: c.expiry(k) == DefaultExpiry(k)
    ensures s.expiryFn.Some? ==> forall k :: c.expiry(k) == s.expiryFn.value(k)
  {
    var threshold := if s.failureThreshold <= 0 then DefaultFailureThreshold else s.failureThreshold;
    var expiry := if s.expiryFn.None? then DefaultExpiry else s.expiryFn.value;
    Config(threshold, expiry)
  }

  /** A fresh breaker: no failures recorded, last attempt at the zero time. */
  const Init: State := State(0, 0)

  /** The overshoot `d` of the failure counter past the threshold. */
  function Overshoot(c: Config, st: State): int {
    st.consecutiveFailures - c.failureThreshold
  }

  predicate Closed(c: Config, st: State) {
    st.consecutiveFailures < c.failureThreshold
  }

  /** The instant from which a probe is let through, or None when closed. */
  function RetryAt(c: Config, st: State): Option<int> {
    if Closed(c, st) then None
    else Some(st.lastAttempt + c.expiry(Overshoot(c, st)))
  }

  /** The pre-check, made at clock reading `now`. */
  function Before(c: Config, st: State, now: nat): (g: Gate)
    ensures Closed(c, st) ==> g == Admit
    ensures g == Reject <==> RetryAt(c, st).Some? && now < RetryAt(c, st).value
  {
    var d := st.consecutiveFailures as int - c.failureThreshold as int;
    if d >= 0 && now < st.lastAttempt + c.expiry(d) then Reject else Admit
  }

  /** The post-update after the wrapped function returned `err` at clock reading `now`. */
  function After(st: State, err: Option<Error>, now: nat): (st': State)
    ensures st'.lastAttempt == now
    ensures err.Some? ==> st'.consecutiveFailures == st.consecutiveFailures + 1
    ensures err.None? ==> st'.consecutiveFailures == 0
  {
    if err.Some? then State(st.consecutiveFailures + 1, now)
    else State(0, now)
  }

  /** One call through the breaker. `start` is the clock at the pre-check,
      `inner` what the wrapped function replies if it is invoked, and
      `finish` the clock when it has returned. */
  function Call(c: Config, st: State, start: nat, inner: Reply, finish: nat): (o: Outcome)
    ensures Before(c, st, start) == Reject ==>
              o == Outcome(Reply(Nil, Some(OpenState)), st, false)
    ensures Before(c, st, start) == Admit ==>
              o.invoked && o.state == After(st, inner.err, finish)
    ensures o.invoked && !inner.Failed() ==> o.reply == inner
    ensures o.invoked && inner.Failed() ==> o.reply == Reply(Nil, inner.err)
    ensures o.reply.Failed() <==> !o.invoked || inner.Failed()
    ensures o.reply.err == Some(OpenState) ==> !o.invoked || inner.err == Some(OpenState)
  {
    match Before(c, st, start)
    case Reject => Outcome(Reply(Nil, Some(OpenState)), st, false)
    case Admit =>
      var st' := After(st, inner.err, finish);
      if inner.err.Some? then Outcome(Reply(Nil, inner.err), st', true)
      else Outcome(Reply(inner.res, None), st', true)
  }

  /** A failed admitted call that leaves the counter at or past the threshold
      opens the breaker for `expiry(d)` after its completion, where `d` is the
      new overshoot: one more than before. Repeated failed probes therefore
      walk the backoff argument up one step at a time. */
  lemma FailedCallExtendsBackoff(c: Config, st: State, start: nat, inner: Reply, finish: nat)
    requires Before(c, st, start) == Admit
    requires inner.Failed()
    requires st.consecutiveFailures + 1 >= c.failureThreshold
    ensures var o := Call(c, st, start, inner, finish);
            && Overshoot(c, o.state) == Overshoot(c, st) + 1
            && RetryAt(c, o.state) == Some(finish + c.expiry(Overshoot(c, st) + 1))
            && forall now: nat :: Before(c, o.state, now) == Reject <==>
                                   now < finish + c.expiry(Overshoot(c, st) + 1)
  {
  }

  /** A successful admitted call closes the breaker: every next call is admitted. */
  lemma SuccessfulCallCloses(c: Config, st: State, start: nat, inner: Reply, finish: nat)
    requires Valid(c)
    requires Before(c, st, start) == Admit
    requires !inner.Failed()
    ensures var o := Call(c, st, start, inner, finish);
            && Closed(c, o.state)
            && forall now: nat :: Before(c, o.state, now) == Admit
  {
  }

  /** A request of the caller: its input and the two clock readings of the call. */
  datatype Request = Request(input: Value, start: nat, finish: nat)

  /** The state after a sequence of whole calls, the number of times the
      wrapped function was invoked, the reply of each call, and whether each
      call was admitted. */
  datatype Trace = Trace(state: State, invocations: nat, replies: seq<Reply>, admitted: seq<bool>)

  /** The number of admitted calls. */
  function AdmittedCount(admitted: seq<bool>): (n: nat)
    ensures n <= |admitted|
  {
    if admitted == [] then 0
    else AdmittedCount(admitted[..|admitted| - 1]) + (if admitted[|admitted| - 1] then 1 else 0)
  }

  /** The completion time of the last admitted call, or the zero time when
      every call was refused. */
  function LastAdmittedFinish(rqs: seq<Request>, admitted: seq<bool>): nat
    requires |rqs| == |admitted|
  {
    if rqs == [] then 0
    else if admitted[|rqs| - 1] then rqs[|rqs| - 1].finish
    else LastAdmittedFinish(rqs[..|rqs| - 1], admitted[..|rqs| - 1])
  }

  /** The number of failed admitted calls since the last successful one;
      refused calls are skipped. */
  function TrailingFailures(replies: seq<Reply>, admitted: seq<bool>): (n: nat)
    requires |replies| == |admitted|
    ensures n <= AdmittedCount(admitted)
  {
    if replies == [] then 0
    else
      var n := TrailingFailures(replies[..|replies| - 1], admitted[..|replies| - 1]);
      if !admitted[|replies| - 1] then n
      else if replies[|replies| - 1].Failed() then n + 1
      else 0
  }

  /** One call appended to a trace: exactly one reply and one admission flag
      more, and one more invocation exactly when the pre-check admits the
      call; a refused call answers `OpenState` and leaves the state alone. */
  function Step(c: Config, inner: Inner, t: Trace, rq: Request): (t': Trace)
    ensures |t'.replies| == |t.replies| + 1 && |t'.admitted| == |t.admitted| + 1
    ensures t'.invocations == t.invocations + (if Before(c, t.state, rq.start) == Admit then 1 else 0)
    ensures Before(c, t.state, rq.start) == Reject ==>
              t'.state == t.state && t'.replies[|t.replies|] == Reply(Nil, Some(OpenState))
  {
    var o := Call(c, t.state, rq.start, inner(t.invocations, rq.input), rq.finish);
    Trace(o.state, if o.invoked then t.invocations + 1 else t.invocations,
          t.replies + [o.reply], t.admitted + [o.invoked])
  }

  /** What one call appends to a trace: the reply `Call` gives, an admission
      flag that is exactly the pre-check's verdict, and the state `Call`
      leaves; earlier replies and flags are kept. */
  lemma StepAppendsCall(c: Config, inner: Inner, t: Trace, rq: Request)
    ensures var t' := Step(c, inner, t, rq);
            var o := Call(c, t.state, rq.start, inner(t.invocations, rq.input), rq.finish);
            && t'.replies == t.replies + [o.reply]
            && t'.admitted == t.admitted + [Before(c, t.state, rq.start) == Admit]
            && t'.state == o.state
  {
  }

  /** Sequential calls through one fresh breaker wrapping `inner`: one reply
      and one admission flag per call, at most one invocation per call, a
      counter no larger than the number of invocations, and `OpenState` as
      the answer of every refused call. */
  function Run(c: Config, inner: Inner, rqs: seq<Request>): (t: Trace)
    ensures |t.replies| == |rqs| && |t.admitted| == |rqs|
    ensures t.state.consecutiveFailures <= t.invocations <= |rqs|
    ensures forall i :: 0 <= i < |rqs| && !t.admitted[i] ==> t.replies[i] == Reply(Nil, Some(OpenState))
  {
    if rqs == [] then Trace(Init, 0, [], [])
    else
      var prefix := rqs[..|rqs| - 1];
      var t := Run(c, inner, prefix);
      var t' := Step(c, inner, t, rqs[|rqs| - 1]);
      assert t'.replies[..|prefix|] == t.replies;
      t'
  }

  /** The breaker's state is a summary of the call history: the wrapped
      function was invoked once per admitted call, the last attempt is the
      completion time of the last admitted call, and the counter is the
      number of failed admitted calls since the last successful one, refused
      calls skipped. */
  lemma {:induction false} RunHistory(c: Config, inner: Inner, rqs: seq<Request>)
    ensures var t := Run(c, inner, rqs);
            && t.invocations == AdmittedCount(t.admitted)
            && t.state.lastAttempt == LastAdmittedFinish(rqs, t.admitted)
            && t.state.consecutiveFailures == TrailingFailures(t.replies, t.admitted)
  {
    if rqs != [] {
      var prefix := rqs[..|rqs| - 1];
      RunHistory(c, inner, prefix);
      var t := Run(c, inner, prefix);
      var t' := Run(c, inner, rqs);
      assert t' == Step(c, inner, t, rqs[|rqs| - 1]);
      assert t'.replies[..|prefix|] == t.replies && t'.admitted[..|prefix|] == t.admitted;
    }
  }

  /** Call i of a trace is exactly one `Call` on the state the first i calls
      left: it is admitted exactly when the pre-check on that state admits
      it, and its reply is the one `Call` gives. */
  lemma {:induction false} RunEntries(c: Config, inner: Inner, rqs: seq<Request>, i: nat)
    requires i < |rqs|
    ensures var t := Run(c, inner, rqs);
            var p := Run(c, inner, rqs[..i]);
            && (t.admitted[i] <==> Before(c, p.state, rqs[i].start) == Admit)
            && t.replies[i] == Call(c, p.state, rqs[i].start, inner(p.invocations, rqs[i].input), rqs[i].finish).reply
  {
    var prefix := rqs[..|rqs| - 1];
    var tp := Run(c, inner, prefix);
    assert Run(c, inner, rqs) == Step(c, inner, tp, rqs[|rqs| - 1]);
    StepAppendsCall(c, inner, tp, rqs[|rqs| - 1]);
    if i < |rqs| - 1 {
      RunEntries(c, inner, prefix, i);
      assert prefix[..i] == rqs[..i] && prefix[i] == rqs[i];
    } else {
      assert prefix == rqs[..i];
    }
  }

  /** The test double that answers its first `n` invocations with the input
      and fails every later one. */
  function FailAfter(n: nat): Inner {
    (k: nat, x: Value) => if k < n then Reply(x, None) else Reply(Nil, Some(Failure("INTENTIONAL FAIL!")))
  }

  /** One more call against a function failing after three calls, given a
      trace of the expected shape so far: the call is the fourth or later
      exactly when it fails, and an early call answers its own input. */
  lemma FailAfterThreeStep(c: Config, t: Trace, rq: Request)
    requires Valid(c)
    requires |t.replies| <= 3 ==> t.invocations == |t.replies| && t.state.consecutiveFailures == 0
    requires |t.replies| >= 3 ==> t.invocations >= 3
    ensures var t' := Step(c, FailAfter(3), t, rq);
            && (|t'.replies| <= 3 ==> t'.invocations == |t'.replies| && t'.state.consecutiveFailures == 0)
            && (|t'.replies| >= 3 ==> t'.invocations >= 3)
            && (t'.replies[|t.replies|].Failed() <==> |t.replies| >= 3)
            && (|t.replies| < 3 ==> t'.replies[|t.replies|] == Reply(rq.input, None))
  {
    if |t.replies| < 3 {
      assert Closed(c, t.state);
    }
  }

  /** Against a function failing after three calls, any breaker and any clock
      readings give three leading successes that answer their own input, and
      only failures after them. */
  lemma {:induction false} FailAfterThreeTrace(c: Config, rqs: seq<Request>)
    requires Valid(c)
    ensures var t := Run(c, FailAfter(3), rqs);
            && (|rqs| <= 3 ==> t.invocations == |rqs| && t.state.consecutiveFailures == 0)
            && (|rqs| >= 3 ==> t.invocations >= 3)
            && forall i :: 0 <= i < |rqs| ==>
                 (t.replies[i].Failed() <==> i >= 3)
                 && (i < 3 ==> t.replies[i] == Reply(rqs[i].input, None))
  {
    if rqs != [] {
      var prefix, last := rqs[..|rqs| - 1], |rqs| - 1;
      FailAfterThreeTrace(c, prefix);
      var t := Run(c, FailAfter(3), prefix);
      FailAfterThreeStep(c, t, rqs[last]);
      var t' := Run(c, FailAfter(3), rqs);
      assert t' == Step(c, FailAfter(3), t, rqs[last]);
      forall i | 0 <= i < last
        ensures t'.replies[i] == t.replies[i] && prefix[i] == rqs[i]
      {
        assert t'.replies[..|prefix|] == t.replies;
      }
    }
  }

  /** The breaker settings of the repository's own breaker test:
      threshold 5, backoff `2 << k` seconds. */
  function TestSettings(): Settings {
    Settings("BreakerSettingsTest", 5, Some((k: nat) => 1000 * (2 * Pow2(k))))
  }

  /** Five back-to-back calls (inputs 0..4, all at the same instant) against a
      wrapped function failing after three calls: calls 0-2 succeed, 3-4 fail. */
  lemma BreakerTestScenario()
    ensures var rqs := seq(5, i => Request(Int(i), 0, 0));
            var t := Run(New(TestSettings()), FailAfter(3), rqs);
            forall i :: 0 <= i < 5 ==> (t.replies[i].Failed() <==> i >= 3)
  {
    var rqs := seq(5, i => Request(Int(i), 0, 0));
    FailAfterThreeTrace(New(TestSettings()), rqs);
  }

  /** While the breaker stays closed, an always-failing wrapped function is
      invoked on every call and each failure adds one to the counter. */
  lemma {:induction false} ClosedRunCountsFailures(c: Config, inner: Inner, rqs: seq<Request>)
    requires forall n, x :: inner(n, x).Failed()
    requires |rqs| <= c.failureThreshold
    ensures var t := Run(c, inner, rqs);
            && t.state.consecutiveFailures == |rqs|
            && t.invocations == |rqs|
            && (|rqs| > 0 ==> t.state.lastAttempt == rqs[|rqs| - 1].finish)
  {
    if rqs != [] {
      ClosedRunCountsFailures(c, inner, rqs[..|rqs| - 1]);
    }
  }

  /** After `failureThreshold` consecutive failures from a fresh breaker, a
      call made before `expiry(0)` has passed since the last completion is
      refused with `OpenState` and does not reach the wrapped function. */
  lemma TripsAfterThresholdFailures(c: Config, inner: Inner, rqs: seq<Request>, next: Request)
    requires Valid(c)
    requires forall n, x :: inner(n, x).Failed()
    requires |rqs| == c.failureThreshold
    requires next.start < rqs[|rqs| - 1].finish + c.expiry(0)
    ensures var before := Run(c, inner, rqs);
            var after := Run(c, inner, rqs + [next]);
            && after.replies[|rqs|] == Reply(Nil, Some(OpenState))
            && after.invocations == before.invocations
            && after.state == before.state
  {
    ClosedRunCountsFailures(c, inner, rqs);
    var all := rqs + [next];
    assert all[..|all| - 1] == rqs;
    assert Before(c, Run(c, inner, rqs).state, next.start) == Reject;
  }
}
