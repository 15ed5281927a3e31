/** The retry loop. */
module Retry {
  import opened Words
  import opened Wrappers

  /** A signed span of time, in nanoseconds; its milliseconds fit 64 bits. */
  type Duration = d: int | DURATION_MIN <= d <= DURATION_MAX

  const DURATION_MAX := I64_MAX * 1_000_000
  const DURATION_MIN := I64_MIN * 1_000_000
  const SECOND: Duration := 1_000_000_000

  /** The whole seconds of a duration, rounded toward zero. */
  function NumSeconds(d: Duration): (n: int)
    ensures d >= 0 ==> SECOND * n <= d < SECOND * (n + 1)
    ensures d <= 0 ==> SECOND * (n - 1) < d <= SECOND * n
  {
    var n: int := d;
    if n >= 0 then n / SECOND else -(-n / SECOND)
  }

  datatype Backoff = Constant(delay: Duration) | Exponential(base: Duration)

  datatype RetryControl<+T> =
    | Success(value: T)
    | Fail(value: T)
    | Retry(value: T, delay: Option<Duration>)

  datatype RetryBuilder<!T, R> = RetryBuilder(
    maxRetries: byte,
    backoff: Backoff,
    successHandler: T -> R,
    failureHandler: (T, bool) -> R)
  {
    function WithMaxRetries(n: byte): RetryBuilder<T, R> { this.(maxRetries := n) }
  }

  /** `retry()` */
  function Default<T>(): RetryBuilder<T, T> {
    RetryBuilder(3, Exponential(SECOND), v => v, (v, _) => v)
  }

  datatype Panic = UnwrapOfNone | PowerOverflow | DurationOutOfBounds | NegativeSleep

  datatype Outcome<+R> = Returned(value: R) | Panicked(cause: Panic)

  /** `2u8.pow(i)`: from 8 on it overflows, which panics or wraps to zero, as built. */
  function PowerOfTwo(overflowChecks: bool, i: nat): Option<nat> {
    if i < 8 then Some(Exp2(i)) else if overflowChecks then None else Some(0)
  }

  function Exp2(i: nat): (p: nat)
    ensures p > 0
  {
    if i == 0 then 1 else 2 * Exp2(i - 1)
  }

  function SaturatingMul(a: int, b: int): int {
    if a * b > I64_MAX then I64_MAX else if a * b < I64_MIN then I64_MIN else a * b
  }

  /** `Duration::seconds` */
  function Seconds(n: int): Result<Duration, Panic> {
    if DURATION_MIN <= SECOND * n <= DURATION_MAX then Ok(SECOND * n) else Err(DurationOutOfBounds)
  }

  /** The delay after attempt `i` asked for a retry, or why there is none: the power overflows,
      the product is no duration, or a negative delay cannot be turned into a sleep. */
  function Delay(backoff: Backoff, overflowChecks: bool, asked: Option<Duration>, i: nat)
    : (r: Result<nat, Panic>)
    ensures r.Ok? ==> r.value <= DURATION_MAX
  {
    match asked
    case Some(d) => Sleep(d)
    case None =>
      match backoff
      case Constant(d) => Sleep(d)
      case Exponential(base) =>
        match PowerOfTwo(overflowChecks, i)
        case None => Err(PowerOverflow)
        case Some(p) =>
          match Seconds(SaturatingMul(NumSeconds(base), p))
          case Err(panic) => Err(panic)
          case Ok(d) => Sleep(d)
  }

  function Sleep(d: Duration): (r: Result<nat, Panic>)
    ensures r.Ok? ==> r.value == d
  {
    if d < 0 then Err(NegativeSleep) else Ok(d)
  }

  // ----- the specification

  /** What a run of the loop came to: its result, the state its payload left, how often the
      payload was called, and the sleeps in between. */
  datatype Run<+S, +R> = Run(outcome: Outcome<R>, state: S, calls: nat, sleeps: seq<nat>)

  /** The loop from attempt `i` on; `payload` maps the state of the outside to an outcome and
      the next state, `last` is the value of the latest retry. */
  function Attempts<S, T, R>(
      b: RetryBuilder<T, R>, overflowChecks: bool, payload: S -> (RetryControl<T>, S), s: S, i: nat, last: Option<T>)
    : Run<S, R>
    decreases b.maxRetries - i
  {
    if i >= b.maxRetries then
      Run(if last.Some? then Returned(b.failureHandler(last.value, true)) else Panicked(UnwrapOfNone), s, 0, [])
    else
      var (control, s') := payload(s);
      match control
      case Success(v) => Run(Returned(b.successHandler(v)), s', 1, [])
      case Fail(v) => Run(Returned(b.failureHandler(v, false)), s', 1, [])
      case Retry(v, asked) =>
        match Delay(b.backoff, overflowChecks, asked, i)
        case Err(p) => Run(Panicked(p), s', 1, [])
        case Ok(d) =>
          var rest := Attempts(b, overflowChecks, payload, s', i + 1, Some(v));
          Run(rest.outcome, rest.state, rest.calls + 1, [d] + rest.sleeps)
  }

  /** The payload of `run_with_context`, closed over its context. */
  function Bound<Ctx, S, T>(ctx: Ctx, payload: (Ctx, S) -> (RetryControl<T>, S)): S -> (RetryControl<T>, S) {
    s => payload(ctx, s)
  }

  // ----- the two loops

  /** A run after `calls` attempts and the given sleeps. */
  function Extend<S, R>(calls: nat, sleeps: seq<nat>, rest: Run<S, R>): Run<S, R> {
    Run(rest.outcome, rest.state, calls + rest.calls, sleeps + rest.sleeps)
  }

  lemma EmptyPrefix<S, R>(run: Run<S, R>)
    ensures Extend(0, [], run) == run
  {
    assert [] + run.sleeps == run.sleeps;
  }

  /** One turn of the loop. */
  lemma LoopStep<S, T, R>(
      b: RetryBuilder<T, R>, overflowChecks: bool, payload: S -> (RetryControl<T>, S), s: S, i: nat, last: Option<T>,
      sleeps: seq<nat>)
    requires i < b.maxRetries
    ensures var (control, s') := payload(s);
            Extend(i, sleeps, Attempts(b, overflowChecks, payload, s, i, last)) ==
            match control {
              case Success(v) => Run(Returned(b.successHandler(v)), s', i + 1, sleeps)
              case Fail(v) => Run(Returned(b.failureHandler(v, false)), s', i + 1, sleeps)
              case Retry(v, asked) =>
                match Delay(b.backoff, overflowChecks, asked, i)
                case Err(p) => Run(Panicked(p), s', i + 1, sleeps)
                case Ok(d) => Extend(i + 1, sleeps + [d], Attempts(b, overflowChecks, payload, s', i + 1, Some(v)))
            }
  {
    var (control, s') := payload(s);
    if control.Retry? {
      var d := Delay(b.backoff, overflowChecks, control.delay, i);
      if d.Ok? {
        var rest := Attempts(b, overflowChecks, payload, s', i + 1, Some(control.value));
        assert sleeps + ([d.value] + rest.sleeps) == sleeps + [d.value] + rest.sleeps;
      }
    }
    assert sleeps + [] == sleeps;
  }

  method RunWithContext<Ctx, S, T, R>(
      b: RetryBuilder<T, R>, overflowChecks: bool, ctx: Ctx, payload: (Ctx, S) -> (RetryControl<T>, S), s0: S)
    returns (r: Run<S, R>)
    ensures r == Attempts(b, overflowChecks, Bound(ctx, payload), s0, 0, None)
  {
    ghost var spec := Attempts(b, overflowChecks, Bound(ctx, payload), s0, 0, None);
    var finalValue: Option<T> := None;
    var s := s0;
    var sleeps: seq<nat> := [];
    EmptyPrefix(spec);
    for i := 0 to b.maxRetries
      invariant spec == Extend(i, sleeps, Attempts(b, overflowChecks, Bound(ctx, payload), s, i, finalValue))
    {
      LoopStep(b, overflowChecks, Bound(ctx, payload), s, i, finalValue, sleeps);
      var (control, s') := payload(ctx, s);
      s := s';
      match control {
        case Success(value) =>
          return Run(Returned(b.successHandler(value)), s, i + 1, sleeps);
        case Fail(value) =>
          return Run(Returned(b.failureHandler(value, false)), s, i + 1, sleeps);
        case Retry(value, asked) =>
          finalValue := Some(value);
          match Delay(b.backoff, overflowChecks, asked, i) {
            case Err(p) =>
              return Run(Panicked(p), s, i + 1, sleeps);
            case Ok(d) =>
              sleeps := sleeps + [d];
          }
      }
    }
    assert sleeps + [] == sleeps;
    if finalValue.None? {
      return Run(Panicked(UnwrapOfNone), s, b.maxRetries, sleeps);
    }
    r := Run(Returned(b.failureHandler(finalValue.value, true)), s, b.maxRetries, sleeps);
  }

  method RunLoop<S, T, R>(b: RetryBuilder<T, R>, overflowChecks: bool, payload: S -> (RetryControl<T>, S), s0: S)
    returns (r: Run<S, R>)
    ensures r == Attempts(b, overflowChecks, payload, s0, 0, None)
  {
    ghost var spec := Attempts(b, overflowChecks, payload, s0, 0, None);
    var finalValue: Option<T> := None;
    var s := s0;
    var sleeps: seq<nat> := [];
    EmptyPrefix(spec);
    for i := 0 to b.maxRetries
      invariant spec == Extend(i, sleeps, Attempts(b, overflowChecks, payload, s, i, finalValue))
    {
      LoopStep(b, overflowChecks, payload, s, i, finalValue, sleeps);
      var (control, s') := payload(s);
      s := s';
      match control {
        case Success(value) =>
          return Run(Returned(b.successHandler(value)), s, i + 1, sleeps);
        case Fail(value) =>
          return Run(Returned(b.failureHandler(value, false)), s, i + 1, sleeps);
        case Retry(value, asked) =>
          finalValue := Some(value);
          match Delay(b.backoff, overflowChecks, asked, i) {
            case Err(p) =>
              return Run(Panicked(p), s, i + 1, sleeps);
            case Ok(d) =>
              sleeps := sleeps + [d];
          }
      }
    }
    assert sleeps + [] == sleeps;
    if finalValue.None? {
      return Run(Panicked(UnwrapOfNone), s, b.maxRetries, sleeps);
    }
    r := Run(Returned(b.failureHandler(finalValue.value, true)), s, b.maxRetries, sleeps);
  }

  // ----- what every run comes to

  /** The state of the outside before attempt `k`, and what that attempt answers. */
  function StateAt<S, T>(payload: S -> (RetryControl<T>, S), s: S, k: nat): S {
    if k == 0 then s else payload(StateAt(payload, s, k - 1)).1
  }

  function ControlAt<S, T>(payload: S -> (RetryControl<T>, S), s: S, k: nat): RetryControl<T> {
    payload(StateAt(payload, s, k)).0
  }

  /** Attempt `k` asks for a retry and is granted a sleep. */
  predicate RetriesAt<S, T, R>(
      b: RetryBuilder<T, R>, overflowChecks: bool, payload: S -> (RetryControl<T>, S), s: S, k: nat)
  {
    var c := ControlAt(payload, s, k);
    c.Retry? && Delay(b.backoff, overflowChecks, c.delay, k).Ok?
  }

  /** Attempt `k` asks for a retry and is granted a sleep of `d`. */
  predicate SleepsAt<S, T, R>(
      b: RetryBuilder<T, R>, overflowChecks: bool, payload: S -> (RetryControl<T>, S), s: S, k: nat, d: nat)
  {
    var c := ControlAt(payload, s, k);
    c.Retry? && Delay(b.backoff, overflowChecks, c.delay, k) == Ok(d)
  }

  /** How an attempt that is not retried ends the run. */
  function Verdict<T, R>(b: RetryBuilder<T, R>, overflowChecks: bool, c: RetryControl<T>, k: nat): Outcome<R>
    requires !(c.Retry? && Delay(b.backoff, overflowChecks, c.delay, k).Ok?)
  {
    match c
    case Success(v) => Returned(b.successHandler(v))
    case Fail(v) => Returned(b.failureHandler(v, false))
    case Retry(_, asked) => Panicked(Delay(b.backoff, overflowChecks, asked, k).error)
  }

  /** A run of the loop from attempt `i` on whose first attempt that is not retried is `k`. */
  ghost predicate EndsAt<S, T, R>(
      b: RetryBuilder<T, R>, overflowChecks: bool, payload: S -> (RetryControl<T>, S), s: S, i: nat,
      run: Run<S, R>, k: nat)
  {
    && i <= k <= b.maxRetries
    && |run.sleeps| == k - i
    && (forall n | 0 <= n < |run.sleeps| :: SleepsAt(b, overflowChecks, payload, s, i + n, run.sleeps[n]))
    && run.state == StateAt(payload, s, i + run.calls)
    && (k < b.maxRetries ==>
          && !RetriesAt(b, overflowChecks, payload, s, k) && run.calls == k + 1 - i
          && run.outcome == Verdict(b, overflowChecks, ControlAt(payload, s, k), k))
    && (k == b.maxRetries ==>
          && run.calls == k - i
          && run.outcome == if k == 0 then Panicked(UnwrapOfNone)
                            else Returned(b.failureHandler(ControlAt(payload, s, k - 1).value, true)))
  }

  lemma EndsAtEarlier<S, T, R>(
      b: RetryBuilder<T, R>, overflowChecks: bool, payload: S -> (RetryControl<T>, S), s: S, i: nat,
      rest: Run<S, R>, k: nat, d: nat)
    requires EndsAt(b, overflowChecks, payload, s, i + 1, rest, k) && SleepsAt(b, overflowChecks, payload, s, i, d)
    ensures EndsAt(b, overflowChecks, payload, s, i,
                   Run(rest.outcome, rest.state, rest.calls + 1, [d] + rest.sleeps), k)
  {
    var sleeps := [d] + rest.sleeps;
    forall n | 0 <= n < |sleeps| ensures SleepsAt(b, overflowChecks, payload, s, i + n, sleeps[n]) {
      if n > 0 {
        assert SleepsAt(b, overflowChecks, payload, s, i + 1 + (n - 1), rest.sleeps[n - 1]);
      }
    }
  }

  lemma {:induction false} RunFrom<S, T, R>(
      b: RetryBuilder<T, R>, overflowChecks: bool, payload: S -> (RetryControl<T>, S), s: S, i: nat, last: Option<T>)
    returns (k: nat)
    requires i <= b.maxRetries && (i == 0 ==> last.None?)
    requires i > 0 ==> ControlAt(payload, s, i - 1).Retry? && last == Some(ControlAt(payload, s, i - 1).value)
    ensures EndsAt(b, overflowChecks, payload, s, i,
                   Attempts(b, overflowChecks, payload, StateAt(payload, s, i), i, last), k)
    decreases b.maxRetries - i
  {
    if i == b.maxRetries || !RetriesAt(b, overflowChecks, payload, s, i) {
      k := i;
      StopAt(b, overflowChecks, payload, s, i, last);
    } else {
      var c := ControlAt(payload, s, i);
      k := RunFrom(b, overflowChecks, payload, s, i + 1, Some(c.value));
      RetryAt(b, overflowChecks, payload, s, i, last);
      var rest := Attempts(b, overflowChecks, payload, StateAt(payload, s, i + 1), i + 1, Some(c.value));
      EndsAtEarlier(b, overflowChecks, payload, s, i, rest, k, Delay(b.backoff, overflowChecks, c.delay, i).value);
    }
  }

  lemma StopAt<S, T, R>(
      b: RetryBuilder<T, R>, overflowChecks: bool, payload: S -> (RetryControl<T>, S), s: S, i: nat, last: Option<T>)
    requires i <= b.maxRetries
    requires i < b.maxRetries ==> !RetriesAt(b, overflowChecks, payload, s, i)
    ensures Attempts(b, overflowChecks, payload, StateAt(payload, s, i), i, last) ==
            if i < b.maxRetries
            then Run(Verdict(b, overflowChecks, ControlAt(payload, s, i), i), StateAt(payload, s, i + 1), 1, [])
            else Run(if last.Some? then Returned(b.failureHandler(last.value, true)) else Panicked(UnwrapOfNone),
                     StateAt(payload, s, i), 0, [])
  {
  }

  lemma RetryAt<S, T, R>(
      b: RetryBuilder<T, R>, overflowChecks: bool, payload: S -> (RetryControl<T>, S), s: S, i: nat, last: Option<T>)
    requires i < b.maxRetries && RetriesAt(b, overflowChecks, payload, s, i)
    ensures var c := ControlAt(payload, s, i);
            var rest := Attempts(b, overflowChecks, payload, StateAt(payload, s, i + 1), i + 1, Some(c.value));
            Attempts(b, overflowChecks, payload, StateAt(payload, s, i), i, last) ==
            Run(rest.outcome, rest.state, rest.calls + 1,
                [Delay(b.backoff, overflowChecks, c.delay, i).value] + rest.sleeps)
  {
    assert payload(StateAt(payload, s, i)) == (ControlAt(payload, s, i), StateAt(payload, s, i + 1));
  }

  /** Every run, over every trace of outcomes: with `k` the first attempt that is not retried,
      the payload is called `k + 1` times with `k` sleeps between, and attempt `k` decides; if
      all `max_retries` attempts are retried there are exactly that many calls and sleeps, and
      the failure handler gets the last value and the flag, or, when there were none, the
      final unwrap panics. */
  lemma EveryRun<S, T, R>(b: RetryBuilder<T, R>, overflowChecks: bool, payload: S -> (RetryControl<T>, S), s: S)
    returns (k: nat)
    ensures var run := Attempts(b, overflowChecks, payload, s, 0, None);
            && k <= b.maxRetries
            && |run.sleeps| == k
            && (forall n | 0 <= n < k :: SleepsAt(b, overflowChecks, payload, s, n, run.sleeps[n]))
            && run.state == StateAt(payload, s, run.calls)
            && (k < b.maxRetries ==>
                  && !RetriesAt(b, overflowChecks, payload, s, k) && run.calls == k + 1
                  && run.outcome == Verdict(b, overflowChecks, ControlAt(payload, s, k), k))
            && (k == b.maxRetries ==>
                  && run.calls == k
                  && run.outcome == if k == 0 then Panicked(UnwrapOfNone)
                                    else Returned(b.failureHandler(ControlAt(payload, s, k - 1).value, true)))
  {
    k := RunFrom(b, overflowChecks, payload, s, 0, None);
    var run := Attempts(b, overflowChecks, payload, s, 0, None);
    forall n | 0 <= n < k ensures SleepsAt(b, overflowChecks, payload, s, n, run.sleeps[n]) {
      assert SleepsAt(b, overflowChecks, payload, s, 0 + n, run.sleeps[n]);
    }
  }

  /** The final unwrap panics exactly when no attempt was allowed. */
  lemma UnwrapPanicsIff<S, T, R>(b: RetryBuilder<T, R>, overflowChecks: bool, payload: S -> (RetryControl<T>, S), s: S)
    ensures Attempts(b, overflowChecks, payload, s, 0, None).outcome == Panicked(UnwrapOfNone) <==> b.maxRetries == 0
  {
    var k := EveryRun(b, overflowChecks, payload, s);
  }

  // ----- backoff

  /** Every attempt asks for a retry without naming a delay. */
  ghost predicate AlwaysRetries<S(!new), T>(payload: S -> (RetryControl<T>, S)) {
    forall s :: payload(s).0.Retry? && payload(s).0.delay.None?
  }

  function Sum(xs: seq<nat>): nat {
    if xs == [] then 0 else Sum(xs[..|xs| - 1]) + xs[|xs| - 1]
  }

  lemma MulDistributes(a: int, b: int, c: int)
    ensures a * (b + c) == a * b + a * c
  {
  }

  lemma MulMonotone(a: nat, b: nat, c: nat)
    requires b <= c
    ensures 0 <= a * b <= a * c
  {
    MulDistributes(a, b, c - b);
    assert a * (c - b) >= 0;
  }

  lemma {:induction false} GeometricSum(xs: seq<nat>, base: nat)
    requires forall i | 0 <= i < |xs| :: xs[i] == base * Exp2(i)
    ensures Sum(xs) == base * (Exp2(|xs|) - 1)
  {
    if xs != [] {
      var n := |xs| - 1;
      GeometricSum(xs[..n], base);
      MulDistributes(base, Exp2(n) - 1, Exp2(n));
    }
  }

  lemma {:induction false} Exp2Monotone(i: nat, j: nat)
    requires i <= j
    ensures Exp2(i) <= Exp2(j)
    decreases j
  {
    if i < j { Exp2Monotone(i, j - 1); }
  }

  lemma MulAssociative(a: int, b: int, c: int)
    ensures a * (b * c) == (a * b) * c
  {
  }

  /** The base is short enough for the multiplication never to saturate within eight attempts. */
  lemma NeverSaturates(base: Duration, i: nat)
    requires i < 8
    ensures SaturatingMul(NumSeconds(base), Exp2(i)) == NumSeconds(base) * Exp2(i)
    ensures base >= 0 ==> NumSeconds(base) >= 0
  {
    var n := NumSeconds(base);
    Exp2Monotone(i, 7);
    assert Exp2(7) == 128;
    if n >= 0 {
      MulMonotone(n, 0, Exp2(i));
      MulMonotone(n, Exp2(i), 128);
    } else {
      MulMonotone(-n, 0, Exp2(i));
      MulMonotone(-n, Exp2(i), 128);
      assert n * Exp2(i) == -(-n * Exp2(i));
    }
  }

  /** The delay of attempt `i` is a duration; otherwise constructing it panics. */
  predicate Fits(base: nat, i: nat) {
    SECOND * (base * Exp2(i)) <= DURATION_MAX
  }

  /** The longest base, in seconds, for which all of eight attempts have a delay. */
  lemma LongestBase(base: nat)
    ensures Fits(base, 7) <==> base <= 72_057_594_037_927
  {
    assert Exp2(7) == 128;
  }

  lemma FitsEarlier(base: nat, i: nat, j: nat)
    requires i <= j && Fits(base, j)
    ensures Fits(base, i)
  {
    Exp2Monotone(i, j);
    MulMonotone(base, Exp2(i), Exp2(j));
  }

  /** What a product of the whole seconds of a base comes to as a delay. */
  lemma ProductDelay(base: Duration, overflowChecks: bool, i: nat)
    requires i < 8
    ensures var d := SECOND * (NumSeconds(base) * Exp2(i));
            Delay(Exponential(base), overflowChecks, None, i) ==
            if d < DURATION_MIN || d > DURATION_MAX then Err(DurationOutOfBounds)
            else if d < 0 then Err(NegativeSleep) else Ok(d)
  {
    NeverSaturates(base, i);
  }

  /** Every granted sleep of every run, whatever the trace: the delay the attempt asked for, if it
      asked for one, whatever the backoff; the constant of a constant backoff; and otherwise the
      whole seconds of the base times `2^n` as long as that power fits a byte, or nothing. */
  lemma EverySleep<S, T, R>(
      b: RetryBuilder<T, R>, overflowChecks: bool, payload: S -> (RetryControl<T>, S), s: S, n: nat)
    requires n < |Attempts(b, overflowChecks, payload, s, 0, None).sleeps|
    ensures var d, c := Attempts(b, overflowChecks, payload, s, 0, None).sleeps[n], ControlAt(payload, s, n);
            && c.Retry? && d <= DURATION_MAX
            && (c.delay.Some? ==> d == c.delay.value)
            && (c.delay.None? && b.backoff.Constant? ==> d == b.backoff.delay)
            && (c.delay.None? && b.backoff.Exponential? && n < 8 ==>
                  d == SECOND * (NumSeconds(b.backoff.base) * Exp2(n)))
            && (c.delay.None? && b.backoff.Exponential? && n >= 8 ==> !overflowChecks && d == 0)
  {
    var k := EveryRun(b, overflowChecks, payload, s);
    assert SleepsAt(b, overflowChecks, payload, s, n, Attempts(b, overflowChecks, payload, s, 0, None).sleeps[n]);
    if b.backoff.Exponential? && n < 8 {
      ProductDelay(b.backoff.base, overflowChecks, n);
    }
  }

  /** How every run ends, whatever the trace. With `k` sleeps made, either all attempts are used
      up, and the failure handler gets the last value and the flag; or attempt `k` succeeds or
      fails, and its value goes to its handler; or it asks for a retry whose delay is negative,
      too long for a duration, or has no power that fits a byte, and the run panics. */
  lemma EveryEnd<S, T, R>(
      b: RetryBuilder<T, R>, overflowChecks: bool, payload: S -> (RetryControl<T>, S), s: S)
    ensures var run := Attempts(b, overflowChecks, payload, s, 0, None);
            var k := |run.sleeps|;
            && k <= b.maxRetries
            && (k == b.maxRetries ==>
                  && run.calls == k
                  && run.outcome == if k == 0 then Panicked(UnwrapOfNone)
                                    else Returned(b.failureHandler(ControlAt(payload, s, k - 1).value, true)))
            && (k < b.maxRetries ==>
                  var c := ControlAt(payload, s, k);
                  && run.calls == k + 1
                  && (c.Success? ==> run.outcome == Returned(b.successHandler(c.value)))
                  && (c.Fail? ==> run.outcome == Returned(b.failureHandler(c.value, false)))
                  && (c.Retry? && c.delay.Some? ==> c.delay.value < 0 && run.outcome == Panicked(NegativeSleep))
                  && (c.Retry? && c.delay.None? && b.backoff.Constant? ==>
                        b.backoff.delay < 0 && run.outcome == Panicked(NegativeSleep))
                  && (c.Retry? && c.delay.None? && b.backoff.Exponential? && k >= 8 ==>
                        overflowChecks && run.outcome == Panicked(PowerOverflow))
                  && (c.Retry? && c.delay.None? && b.backoff.Exponential? && k < 8 ==>
                        var d := SECOND * (NumSeconds(b.backoff.base) * Exp2(k));
                        || (DURATION_MIN <= d < 0 && run.outcome == Panicked(NegativeSleep))
                        || ((d < DURATION_MIN || d > DURATION_MAX) && run.outcome == Panicked(DurationOutOfBounds))))
  {
    var k := EveryRun(b, overflowChecks, payload, s);
    if b.backoff.Exponential? && k < 8 {
      ProductDelay(b.backoff.base, overflowChecks, k);
    }
  }

  // ----- backoff against a payload that always asks for a retry

  lemma DoublesAddUp(sleeps: seq<nat>, base: nat)
    requires forall i | 0 <= i < |sleeps| :: sleeps[i] == SECOND * (base * Exp2(i))
    ensures Sum(sleeps) == SECOND * base * (Exp2(|sleeps|) - 1)
  {
    forall i | 0 <= i < |sleeps| ensures sleeps[i] == (SECOND * base) * Exp2(i) {
      MulAssociative(SECOND, base, Exp2(i));
    }
    GeometricSum(sleeps, SECOND * base);
  }

  lemma BackoffFits<S(!new), T, R>(
      b: RetryBuilder<T, R>, overflowChecks: bool, payload: S -> (RetryControl<T>, S), s: S, i: nat)
    requires AlwaysRetries(payload) && b.backoff.Exponential? && b.backoff.base >= 0
    requires i < |Attempts(b, overflowChecks, payload, s, 0, None).sleeps| && i < 8
    ensures Fits(NumSeconds(b.backoff.base), i)
    ensures Attempts(b, overflowChecks, payload, s, 0, None).sleeps[i]
            == SECOND * (NumSeconds(b.backoff.base) * Exp2(i))
  {
    EverySleep(b, overflowChecks, payload, s, i);
  }

  /** Where a run with exponential backoff ends: at its first delay that is no duration, at its
      ninth attempt, or when its attempts are used up. */
  lemma BackoffEnds<S(!new), T, R>(
      b: RetryBuilder<T, R>, overflowChecks: bool, payload: S -> (RetryControl<T>, S), s: S)
    requires AlwaysRetries(payload) && b.backoff.Exponential? && b.backoff.base >= 0
    ensures var run := Attempts(b, overflowChecks, payload, s, 0, None);
            var k := |run.sleeps|;
            && k <= b.maxRetries
            && (k == b.maxRetries ==> run.calls == k && (run.outcome.Returned? <==> k > 0))
            && (k < b.maxRetries ==> run.calls == k + 1)
            && (k < b.maxRetries && k < 8 ==>
                  !Fits(NumSeconds(b.backoff.base), k) && run.outcome == Panicked(DurationOutOfBounds))
            && (k < b.maxRetries && k >= 8 ==> overflowChecks && run.outcome == Panicked(PowerOverflow))
            && (overflowChecks ==> k <= 8)
  {
    var k := |Attempts(b, overflowChecks, payload, s, 0, None).sleeps|;
    EveryEnd(b, overflowChecks, payload, s);
    MulMonotone(NumSeconds(b.backoff.base), 0, Exp2(k));
    if k > 8 {
      EverySleep(b, overflowChecks, payload, s, 8);
    }
  }

  /** Exponential backoff against a payload that always asks for a retry: within eight attempts
      no power overflows and no product saturates; sleep `i` is the whole seconds of the base
      times `2^i` and the sleeps add up to the base times `2^k - 1`. All attempts are made
      unless a delay is too long for a duration, where the run ends in a panic. */
  lemma ExponentialBackoff<S(!new), T, R>(
      b: RetryBuilder<T, R>, overflowChecks: bool, payload: S -> (RetryControl<T>, S), s: S)
    requires AlwaysRetries(payload) && b.backoff.Exponential? && b.backoff.base >= 0 && b.maxRetries <= 8
    ensures var run, base := Attempts(b, overflowChecks, payload, s, 0, None), NumSeconds(b.backoff.base);
            var k := |run.sleeps|;
            && k <= b.maxRetries
            && (forall i | 0 <= i < k :: run.sleeps[i] == SECOND * (base * Exp2(i)))
            && Sum(run.sleeps) == SECOND * base * (Exp2(k) - 1)
            && (k == b.maxRetries <==> b.maxRetries == 0 || Fits(base, b.maxRetries - 1))
            && (k == b.maxRetries ==> run.calls == k && (run.outcome.Returned? <==> k > 0))
            && (k < b.maxRetries ==>
                  !Fits(base, k) && run.calls == k + 1 && run.outcome == Panicked(DurationOutOfBounds))
  {
    BackoffEnds(b, overflowChecks, payload, s);
    BackoffSum(b, overflowChecks, payload, s);
    BackoffLength(b, overflowChecks, payload, s);
  }

  lemma BackoffLength<S(!new), T, R>(
      b: RetryBuilder<T, R>, overflowChecks: bool, payload: S -> (RetryControl<T>, S), s: S)
    requires AlwaysRetries(payload) && b.backoff.Exponential? && b.backoff.base >= 0 && b.maxRetries <= 8
    ensures |Attempts(b, overflowChecks, payload, s, 0, None).sleeps| == b.maxRetries
       <==> b.maxRetries == 0 || Fits(NumSeconds(b.backoff.base), b.maxRetries - 1)
  {
    var k, base := |Attempts(b, overflowChecks, payload, s, 0, None).sleeps|, NumSeconds(b.backoff.base);
    BackoffEnds(b, overflowChecks, payload, s);
    if k < b.maxRetries {
      if Fits(base, b.maxRetries - 1) {
        FitsEarlier(base, k, b.maxRetries - 1);
      }
    } else if k > 0 {
      BackoffFits(b, overflowChecks, payload, s, k - 1);
    }
  }

  lemma BackoffSum<S(!new), T, R>(
      b: RetryBuilder<T, R>, overflowChecks: bool, payload: S -> (RetryControl<T>, S), s: S)
    requires AlwaysRetries(payload) && b.backoff.Exponential? && b.backoff.base >= 0 && b.maxRetries <= 8
    ensures var sleeps, base := Attempts(b, overflowChecks, payload, s, 0, None).sleeps, NumSeconds(b.backoff.base);
            && (forall i | 0 <= i < |sleeps| :: sleeps[i] == SECOND * (base * Exp2(i)))
            && Sum(sleeps) == SECOND * base * (Exp2(|sleeps|) - 1)
  {
    var sleeps, base := Attempts(b, overflowChecks, payload, s, 0, None).sleeps, NumSeconds(b.backoff.base);
    EveryEnd(b, overflowChecks, payload, s);
    forall i | 0 <= i < |sleeps| ensures sleeps[i] == SECOND * (base * Exp2(i)) {
      BackoffFits(b, overflowChecks, payload, s, i);
    }
    DoublesAddUp(sleeps, base);
  }

  /** Past eight attempts whose delays are durations, the ninth ends the run with a panic when
      overflow is checked, and is followed by no delay when it is not. */
  lemma NinthAttempt<S(!new), T, R>(
      b: RetryBuilder<T, R>, overflowChecks: bool, payload: S -> (RetryControl<T>, S), s: S)
    requires AlwaysRetries(payload) && b.backoff.Exponential? && b.backoff.base >= 0 && b.maxRetries > 8
    ensures var run := Attempts(b, overflowChecks, payload, s, 0, None);
            if Fits(NumSeconds(b.backoff.base), 7) then
              && |run.sleeps| == (if overflowChecks then 8 else b.maxRetries)
              && (if overflowChecks then run.outcome == Panicked(PowerOverflow) && run.calls == 9
                  else run.outcome.Returned? && run.calls == b.maxRetries && run.sleeps[8] == 0)
            else
              |run.sleeps| < 8 && run.outcome == Panicked(DurationOutOfBounds)
  {
    var run, base := Attempts(b, overflowChecks, payload, s, 0, None), NumSeconds(b.backoff.base);
    BackoffEnds(b, overflowChecks, payload, s);
    if |run.sleeps| > 7 {
      BackoffFits(b, overflowChecks, payload, s, 7);
    } else if Fits(base, 7) {
      FitsEarlier(base, |run.sleeps|, 7);
    }
    if |run.sleeps| > 8 {
      EverySleep(b, overflowChecks, payload, s, 8);
    }
  }

  /** The backoff nobody configures: three attempts, and sleeps of one, two and four seconds. */
  lemma DefaultSleeps<S(!new), T>(overflowChecks: bool, payload: S -> (RetryControl<T>, S), s: S)
    requires AlwaysRetries(payload)
    ensures var run := Attempts(Default<T>(), overflowChecks, payload, s, 0, None);
            && run.calls == 3
            && run.sleeps == [1_000_000_000, 2_000_000_000, 4_000_000_000]
            && run.outcome == Returned(ControlAt(payload, s, 2).value)
  {
    var b := Default<T>();
    EveryEnd(b, overflowChecks, payload, s);
    BackoffEnds(b, overflowChecks, payload, s);
    assert Exp2(0) == 1 && Exp2(1) == 2 && Exp2(2) == 4;
    EverySleep(b, overflowChecks, payload, s, 0);
    EverySleep(b, overflowChecks, payload, s, 1);
    EverySleep(b, overflowChecks, payload, s, 2);
  }
}
