/**
 Throttle: a token-bucket rate limiter in front of a processing function.

 A call on an empty bucket is refused with ("", "too many calls") and does not
 reach the wrapped function; otherwise it takes one token and forwards the
 call. A background ticker adds `refillTokensCnt` tokens every
 `refillInterval`, never beyond `maxTokens`. Here the ticker is an explicit
 `RefillEvent` in a trace of events, and calls are whole (sequential) events.
 */
module Throttle {
  import opened Processor

  const DefaultMaxTokens: nat := 1
  const DefaultRefillTokensCnt: nat := 1
  /** One second, in milliseconds. */
  const DefaultRefillInterval: nat := 1000

  /** The number of values of Go's `uint32`, the type of the token counters. */
  const Uint32Modulus: nat := 0x1_0000_0000

  /** What a user passes to the constructor; the interval is a signed Go duration. */
  datatype Settings = Settings(name: string, maxTokens: nat, refillTokensCnt: nat, refillInterval: int)

  datatype Config = Config(maxTokens: nat, refillTokensCnt: nat, refillInterval: nat)

  /** A constructed throttle: its configuration and the tokens in its bucket. */
  datatype Limiter = Limiter(config: Config, tokens: nat)

  predicate Valid(c: Config) {
    c.maxTokens >= 1 && c.refillTokensCnt >= 1 && c.refillInterval >= 1
  }

  /** Zero (or, for the interval, non-positive) settings become the defaults;
      the bucket starts full. */
  function New(s: Settings): (t: Limiter)
    ensures Valid(t.config)
    ensures t.tokens == t.config.maxTokens
    ensures t.config.maxTokens == (if s.maxTokens == 0 then DefaultMaxTokens else s.maxTokens)
    ensures t.config.refillTokensCnt == (if s.refillTokensCnt == 0 then DefaultRefillTokensCnt else s.refillTokensCnt)
    ensures s.refillInterval <= 0 ==> t.config.refillInterval == DefaultRefillInterval
    ensures s.refillInterval > 0 ==> t.config.refillInterval == s.refillInterval
  {
    var maxTokens := if s.maxTokens <= 0 then DefaultMaxTokens else s.maxTokens;
    var refillCnt := if s.refillTokensCnt <= 0 then DefaultRefillTokensCnt else s.refillTokensCnt;
    var interval := if s.refillInterval <= 0 then DefaultRefillInterval else s.refillInterval as nat;
    Limiter(Config(maxTokens, refillCnt, interval), maxTokens)
  }

  /** One tick of the refill timer: add the refill count, clamped at the maximum. */
  function Refill(c: Config, tokens: nat): (r: nat)
    ensures r <= c.maxTokens
    ensures r == c.maxTokens <==> tokens + c.refillTokensCnt >= c.maxTokens
    ensures r != c.maxTokens ==> r == tokens + c.refillTokensCnt
    ensures tokens <= c.maxTokens ==> tokens <= r
  {
    var sum := tokens + c.refillTokensCnt;
    if sum > c.maxTokens then c.maxTokens else sum
  }

  /** The refill as written for `uint32` counters: the sum wraps around
      before it is compared with the maximum. */
  function RefillAsWritten(c: Config, tokens: nat): (r: nat)
    requires tokens < Uint32Modulus && c.refillTokensCnt < Uint32Modulus
    ensures r <= c.maxTokens
    ensures r < Uint32Modulus
  {
    var sum := (tokens + c.refillTokensCnt) % Uint32Modulus;
    if sum > c.maxTokens then c.maxTokens else sum
  }

  /** When the sum fits in 32 bits the wrapping refill is the clamping one. */
  lemma RefillAsWrittenWithoutWrap(c: Config, tokens: nat)
    requires tokens + c.refillTokensCnt < Uint32Modulus
    ensures RefillAsWritten(c, tokens) == Refill(c, tokens)
  {
  }

  /** With the largest bucket `uint32` allows, one refill of a full bucket
      empties it instead of leaving it full. */
  lemma RefillAsWrittenEmptiesFullBucket()
    ensures var c := Config(Uint32Modulus - 1, 1, DefaultRefillInterval);
            && Refill(c, c.maxTokens) == c.maxTokens
            && RefillAsWritten(c, c.maxTokens) == 0
  {
  }

  /** The reply of a refused call. */
  const Rejection: Reply := Reply(Str(""), Some(TooManyCalls))

  datatype Outcome = Outcome(reply: Reply, tokens: nat, invoked: bool)

  /** One call through the throttle; `inner` is what the wrapped function
      replies if it is invoked. */
  function Call(tokens: nat, inner: Reply): (o: Outcome)
    ensures tokens == 0 ==> o == Outcome(Rejection, tokens, false)
    ensures tokens > 0 ==> o.invoked && o.tokens + 1 == tokens && o.reply == inner
  {
    if tokens <= 0 then Outcome(Rejection, tokens, false)
    else Outcome(inner, tokens - 1, true)
  }

  /** What can happen to a throttle: a caller's call, or a tick of the refill timer. */
  datatype Event = CallEvent(input: Value) | RefillEvent

  /** Tokens left, invocations of the wrapped function, refused calls, and the reply of each call. */
  datatype Trace = Trace(tokens: nat, invocations: nat, rejections: nat, replies: seq<Reply>)

  function CallCount(evs: seq<Event>): (n: nat)
    ensures n <= |evs|
  {
    if evs == [] then 0
    else (if evs[0].CallEvent? then 1 else 0) + CallCount(evs[1..])
  }

  function Apply(c: Config, inner: Inner, t: Trace, e: Event): Trace {
    match e
    case RefillEvent => t.(tokens := Refill(c, t.tokens))
    case CallEvent(x) =>
      var o := Call(t.tokens, inner(t.invocations, x));
      Trace(o.tokens,
            if o.invoked then t.invocations + 1 else t.invocations,
            if o.invoked then t.rejections else t.rejections + 1,
            t.replies + [o.reply])
  }

  /** The events applied in order to a throttle wrapping `inner`: every call
      is either admitted or refused, earlier replies stay as they were, and
      the bucket never holds more than `maxTokens`. */
  function Run(c: Config, inner: Inner, t: Trace, evs: seq<Event>): (r: Trace)
    ensures r.invocations + r.rejections == t.invocations + t.rejections + CallCount(evs)
    ensures |r.replies| == |t.replies| + CallCount(evs)
    ensures r.replies[..|t.replies|] == t.replies
    ensures t.tokens <= c.maxTokens ==> r.tokens <= c.maxTokens
    decreases |evs|
  {
    if evs == [] then t
    else Run(c, inner, Apply(c, inner, t, evs[0]), evs[1..])
  }

  /** Running two traces one after the other is running their concatenation. */
  lemma {:induction false} RunConcat(c: Config, inner: Inner, t: Trace, a: seq<Event>, b: seq<Event>)
    ensures Run(c, inner, t, a + b) == Run(c, inner, Run(c, inner, t, a), b)
    decreases |a|
  {
    if a == [] {
      assert a + b == b;
    } else {
      assert (a + b)[0] == a[0];
      assert (a + b)[1..] == a[1..] + b;
      RunConcat(c, inner, Apply(c, inner, t, a[0]), a[1..], b);
    }
  }

  /** With a valid configuration a tick always reopens the bucket: the call
      right after a tick reaches the wrapped function, whatever came before. */
  lemma TickAdmitsNextCall(c: Config, inner: Inner, t: Trace, x: Value)
    requires Valid(c)
    ensures var r := Run(c, inner, t, [RefillEvent, CallEvent(x)]);
            && r.invocations == t.invocations + 1
            && r.replies == t.replies + [inner(t.invocations, x)]
  {
    var evs := [RefillEvent, CallEvent(x)];
    var t1 := Apply(c, inner, t, RefillEvent);
    assert t1.tokens >= 1;
    assert evs[1..] == [CallEvent(x)] && [CallEvent(x)][1..] == [];
    assert Run(c, inner, t, evs) == Run(c, inner, t1, [CallEvent(x)]);
    assert Run(c, inner, t1, [CallEvent(x)]) == Apply(c, inner, t1, CallEvent(x));
  }

  predicate OnlyCalls(evs: seq<Event>) {
    forall i :: 0 <= i < |evs| ==> evs[i].CallEvent?
  }

  predicate OnlyRefills(evs: seq<Event>) {
    forall i :: 0 <= i < |evs| ==> evs[i].RefillEvent?
  }

  function Min(a: nat, b: nat): nat {
    if a <= b then a else b
  }

  lemma OnlyCallsTail(evs: seq<Event>)
    requires OnlyCalls(evs) && evs != []
    ensures OnlyCalls(evs[1..])
  {
    forall i | 0 <= i < |evs[1..]| ensures evs[1..][i].CallEvent? {
      assert evs[1..][i] == evs[i + 1];
    }
  }

  /** Without refills, n calls against a bucket of k tokens admit exactly
      min(n, k) calls and refuse the others. */
  lemma {:induction false} DrainCounts(c: Config, inner: Inner, t: Trace, evs: seq<Event>)
    requires OnlyCalls(evs)
    ensures var r := Run(c, inner, t, evs);
            var admitted := Min(|evs|, t.tokens);
            && r.tokens == t.tokens - admitted
            && r.invocations == t.invocations + admitted
            && r.rejections == t.rejections + (|evs| - admitted)
    decreases |evs|
  {
    if evs != [] {
      OnlyCallsTail(evs);
      DrainCounts(c, inner, Apply(c, inner, t, evs[0]), evs[1..]);
    }
  }

  /** Without refills, the first k of n calls against a bucket of k tokens are
      answered by the wrapped function, on their own input, and every later
      one is refused. */
  lemma {:induction false} DrainReplies(c: Config, inner: Inner, t: Trace, evs: seq<Event>)
    requires OnlyCalls(evs)
    ensures var r := Run(c, inner, t, evs);
            && |r.replies| == |t.replies| + |evs|
            && (forall j :: |t.replies| + t.tokens <= j < |r.replies| ==>
                  r.replies[j] == Rejection)
            && (forall j :: |t.replies| <= j < |r.replies| && j < |t.replies| + t.tokens ==>
                  r.replies[j] == inner(t.invocations + (j - |t.replies|), evs[j - |t.replies|].input))
    decreases |evs|
  {
    AllCallsCounted(evs);
    if evs != [] {
      var t' := Apply(c, inner, t, evs[0]);
      var rest := evs[1..];
      OnlyCallsTail(evs);
      DrainReplies(c, inner, t', rest);
      var r := Run(c, inner, t, evs);
      assert r == Run(c, inner, t', rest);
      assert r.replies[|t.replies|] == t'.replies[|t.replies|] by {
        assert r.replies[..|t'.replies|] == t'.replies;
      }
    }
  }

  lemma {:induction false} AllCallsCounted(evs: seq<Event>)
    requires OnlyCalls(evs)
    ensures CallCount(evs) == |evs|
  {
    if evs != [] {
      OnlyCallsTail(evs);
      AllCallsCounted(evs[1..]);
    }
  }

  /** The bucket after n ticks of the refill timer. */
  function RefillTimes(c: Config, tokens: nat, n: nat): nat
    decreases n
  {
    if n == 0 then tokens else RefillTimes(c, Refill(c, tokens), n - 1)
  }

  /** n ticks add n times the refill count, clamped at the maximum. */
  lemma {:induction false} RefillTimesClosedForm(c: Config, tokens: nat, n: nat)
    requires tokens <= c.maxTokens
    ensures RefillTimes(c, tokens, n) == Min(tokens + n * c.refillTokensCnt, c.maxTokens)
    decreases n
  {
    if n > 0 {
      RefillTimesClosedForm(c, Refill(c, tokens), n - 1);
      assert n * c.refillTokensCnt == c.refillTokensCnt + (n - 1) * c.refillTokensCnt;
    }
  }

  /** n refill ticks refill the bucket n times and touch nothing else. */
  lemma {:induction false} RefillsOnly(c: Config, inner: Inner, t: Trace, evs: seq<Event>)
    requires OnlyRefills(evs)
    ensures Run(c, inner, t, evs) == t.(tokens := RefillTimes(c, t.tokens, |evs|))
    decreases |evs|
  {
    if evs != [] {
      var t' := Apply(c, inner, t, evs[0]);
      var rest := evs[1..];
      assert OnlyRefills(rest) by {
        forall i | 0 <= i < |rest| ensures rest[i].RefillEvent? {
          assert rest[i] == evs[i + 1];
        }
      }
      RefillsOnly(c, inner, t', rest);
    }
  }

  /** The trace of a freshly constructed throttle, before any event. */
  function Fresh(t: Limiter): Trace {
    Trace(t.tokens, 0, 0, [])
  }

  /** A bucket of 1 token with no refill in between: 100 calls give 1 admitted and 99 refused. */
  lemma MaxOneScenario(inner: Inner, calls: seq<Event>)
    requires |calls| == 100 && OnlyCalls(calls)
    ensures var th := New(Settings("TestThrottleMax1", 1, 1, 1000));
            var r := Run(th.config, inner, Fresh(th), calls);
            r.invocations == 1 && r.rejections == 99
  {
    var th := New(Settings("TestThrottleMax1", 1, 1, 1000));
    DrainCounts(th.config, inner, Fresh(th), calls);
  }

  /** A bucket of 10 tokens with no refill in between: 100 calls give 10 admitted and 90 refused. */
  lemma MaxTenScenario(inner: Inner, calls: seq<Event>)
    requires |calls| == 100 && OnlyCalls(calls)
    ensures var th := New(Settings("TestThrottleMax1", 10, 10, 1000));
            var r := Run(th.config, inner, Fresh(th), calls);
            r.invocations == 10 && r.rejections == 90
  {
    var th := New(Settings("TestThrottleMax1", 10, 10, 1000));
    DrainCounts(th.config, inner, Fresh(th), calls);
  }

  /** A bucket of 5 refilled by 1: ten calls, three ticks, ten more calls
      give 8 admitted and 12 refused calls. */
  lemma RefillScenario(inner: Inner, first: seq<Event>, ticks: seq<Event>, second: seq<Event>)
    requires |first| == 10 && OnlyCalls(first)
    requires |ticks| == 3 && OnlyRefills(ticks)
    requires |second| == 10 && OnlyCalls(second)
    ensures var th := New(Settings("TestThrottleMax1", 5, 1, 1000));
            var r := Run(th.config, inner, Run(th.config, inner, Run(th.config, inner, Fresh(th), first), ticks), second);
            r.invocations == 8 && r.rejections == 12
  {
    var th := New(Settings("TestThrottleMax1", 5, 1, 1000));
    var c := th.config;
    DrainCounts(c, inner, Fresh(th), first);
    var t1 := Run(c, inner, Fresh(th), first);
    assert t1.tokens == 0 && t1.invocations == 5 && t1.rejections == 5;
    RefillsOnly(c, inner, t1, ticks);
    RefillTimesClosedForm(c, 0, 3);
    var t2 := Run(c, inner, t1, ticks);
    assert t2.tokens == 3 && t2.invocations == 5 && t2.rejections == 5;
    DrainCounts(c, inner, t2, second);
  }
}
