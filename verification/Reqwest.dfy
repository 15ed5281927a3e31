/** Requests over the retry loop. */
module Reqwest {
  import opened MockHttp
  import opened Retry
  import opened Words
  import opened Wrappers

  /** What the callers look at: the status, a Retry-After delay, and the network height that
      the body of an info response parses to. */
  datatype Response = Response(status: nat, retryAfter: Option<Duration>, height: Option<u128>)

  type Reply = Result<Response, MockError>

  predicate IsServerError(res: Response) { 500 <= res.status < 600 }

  /** How `execute_with_retry` takes a reply: a Retry-After header asks for a retry whatever
      the status, a server error does without one, an error of the client ends it. */
  function Classify(reply: Reply): RetryControl<Reply> {
    match reply
    case Err(_) => RetryControl.Fail(reply)
    case Ok(res) =>
      if res.retryAfter.Some? then RetryControl.Retry(reply, res.retryAfter)
      else if IsServerError(res) then RetryControl.Retry(reply, None)
      else RetryControl.Success(reply)
  }

  /** One attempt with a client, whose answers may depend on a state that they change, as the
      loop's payload closed over the request. */
  function Trial<Req, S>(client: (Req, S) -> (Reply, S), req: Req): S -> (RetryControl<Reply>, S) {
    s => (Classify(client(req, s).0), client(req, s).1)
  }

  /** The loop of `execute_with_retry` with any client; `max_retries as u8` keeps the low byte. */
  function RequestsTo<Req, S>(
      client: (Req, S) -> (Reply, S), overflowChecks: bool, s: S, maxRetries: nat, req: Req): Run<S, Reply>
  {
    Attempts(Default().WithMaxRetries(maxRetries % 256), overflowChecks, Trial(client, req), s, 0, None)
  }

  /** The client double, over its ledger. */
  function MockAnswer<Req>(handlers: seq<Handler<Req, Response>>, eq: (Req, Req) -> bool)
    : (Req, seq<Call<Req>>) -> (Reply, seq<Call<Req>>)
  {
    (req, calls) => Answer(handlers, eq, calls, req)
  }

  function Attempt<Req>(handlers: seq<Handler<Req, Response>>, eq: (Req, Req) -> bool, req: Req)
    : seq<Call<Req>> -> (RetryControl<Reply>, seq<Call<Req>>)
  {
    Trial(MockAnswer(handlers, eq), req)
  }

  /** The loop with the client double. */
  function Requests<Req>(
      handlers: seq<Handler<Req, Response>>, eq: (Req, Req) -> bool, overflowChecks: bool,
      calls: seq<Call<Req>>, maxRetries: nat, req: Req)
    : Run<seq<Call<Req>>, Reply>
  {
    RequestsFrom(handlers, eq, overflowChecks, calls, maxRetries % 256, req, 0, None)
  }

  /** The same, from attempt `i` on. */
  function RequestsFrom<Req>(
      handlers: seq<Handler<Req, Response>>, eq: (Req, Req) -> bool, overflowChecks: bool,
      calls: seq<Call<Req>>, n: byte, req: Req, i: nat, last: Option<Reply>)
    : Run<seq<Call<Req>>, Reply>
  {
    Attempts(Default().WithMaxRetries(n), overflowChecks, Attempt(handlers, eq, req), calls, i, last)
  }

  /** One turn of the loop, on the reply the client gives. */
  lemma RequestStep<Req>(
      handlers: seq<Handler<Req, Response>>, eq: (Req, Req) -> bool, overflowChecks: bool,
      calls: seq<Call<Req>>, n: byte, req: Req, i: nat, last: Option<Reply>, sleeps: seq<nat>)
    requires i < n
    ensures var b, (reply, calls') := Default<Reply>().WithMaxRetries(n), Answer(handlers, eq, calls, req);
            Extend(i, sleeps, RequestsFrom(handlers, eq, overflowChecks, calls, n, req, i, last)) ==
            match Classify(reply) {
              case Success(v) => Run(Returned(b.successHandler(v)), calls', i + 1, sleeps)
              case Fail(v) => Run(Returned(b.failureHandler(v, false)), calls', i + 1, sleeps)
              case Retry(v, asked) =>
                match Delay(b.backoff, overflowChecks, asked, i)
                case Err(p) => Run(Panicked(p), calls', i + 1, sleeps)
                case Ok(d) =>
                  Extend(i + 1, sleeps + [d],
                         RequestsFrom(handlers, eq, overflowChecks, calls', n, req, i + 1, Some(v)))
            }
  {
    var b := Default<Reply>().WithMaxRetries(n);
    LoopStep(b, overflowChecks, Attempt(handlers, eq, req), calls, i, last, sleeps);
  }

  lemma RequestsEnd<Req>(
      handlers: seq<Handler<Req, Response>>, eq: (Req, Req) -> bool, overflowChecks: bool,
      calls: seq<Call<Req>>, n: byte, req: Req, last: Option<Reply>, sleeps: seq<nat>)
    ensures Extend(n, sleeps, RequestsFrom(handlers, eq, overflowChecks, calls, n, req, n, last)) ==
            Run(if last.Some? then Returned(last.value) else Panicked(UnwrapOfNone), calls, n, sleeps)
  {
    assert sleeps + [] == sleeps;
  }

  /** `execute_with_retry`: the loop with the client's `execute` as its payload. */
  method ExecuteWithRetry<Req>(client: MockClient<Req, Response>, overflowChecks: bool, maxRetries: nat, req: Req)
    returns (out: Outcome<Reply>, sleeps: seq<nat>)
    requires client.Valid()
    modifies client`calls, client`answered
    ensures client.Valid()
    ensures var run := Requests(client.handlers, client.reqEq, overflowChecks, old(client.calls), maxRetries, req);
            && out == run.outcome && client.calls == run.state && sleeps == run.sleeps
            && client.answered == old(client.answered) + Answered(client.handlers, req, run.calls)
  {
    var n: byte := maxRetries % 256;
    var b := Default<Reply>().WithMaxRetries(n);
    ghost var handlers, eq, before := client.handlers, client.reqEq, client.answered;
    ghost var run := Requests(handlers, eq, overflowChecks, client.calls, maxRetries, req);
    var finalValue: Option<Reply> := None;
    sleeps := [];
    EmptyPrefix(run);
    assert before + Answered(handlers, req, 0) == before;
    for i := 0 to n
      invariant client.Valid() && client.handlers == handlers
      invariant run ==
                Extend(i, sleeps, RequestsFrom(handlers, eq, overflowChecks, client.calls, n, req, i, finalValue))
      invariant client.answered == before + Answered(handlers, req, i)
    {
      RequestStep(handlers, eq, overflowChecks, client.calls, n, req, i, finalValue, sleeps);
      AnsweredSnoc(handlers, before, req, i + 1);
      var reply := client.Execute(req);
      match Classify(reply) {
        case Success(value) =>
          return Returned(b.successHandler(value)), sleeps;
        case Fail(value) =>
          return Returned(b.failureHandler(value, false)), sleeps;
        case Retry(value, asked) =>
          finalValue := Some(value);
          match Delay(b.backoff, overflowChecks, asked, i) {
            case Err(p) =>
              return Panicked(p), sleeps;
            case Ok(d) =>
              sleeps := sleeps + [d];
          }
      }
    }
    RequestsEnd(handlers, eq, overflowChecks, client.calls, n, req, finalValue, sleeps);
    out := if finalValue.None? then Panicked(UnwrapOfNone) else Returned(b.failureHandler(finalValue.value, true));
  }

  function Repeat<T>(x: T, n: nat): seq<T> {
    seq(n, _ => x)
  }

  /** What `k` attempts add to the answered requests. */
  function Answered<Req>(handlers: seq<Handler<Req, Response>>, req: Req, k: nat): seq<Req> {
    if FirstMatch(handlers, req).Some? then Repeat(req, k) else []
  }

  lemma StateAfterAttempt<Req>(
      handlers: seq<Handler<Req, Response>>, eq: (Req, Req) -> bool, req: Req, calls: seq<Call<Req>>, k: nat)
    requires k > 0
    ensures var before := StateAt(Attempt(handlers, eq, req), calls, k - 1);
            StateAt(Attempt(handlers, eq, req), calls, k) ==
            if FirstMatch(handlers, req).Some? then Record(eq, before, req) else before
  {
  }

  /** The ledger before attempt `k`. */
  lemma {:induction false} LedgerAfter<Req>(
      handlers: seq<Handler<Req, Response>>, eq: (Req, Req) -> bool, answered: seq<Req>, req: Req, k: nat)
    ensures StateAt(Attempt(handlers, eq, req), RecordAll(eq, answered), k) ==
            RecordAll(eq, answered + Answered(handlers, req, k))
  {
    if k == 0 {
      assert answered + Answered(handlers, req, 0) == answered;
    } else {
      var before := answered + Answered(handlers, req, k - 1);
      LedgerAfter(handlers, eq, answered, req, k - 1);
      StateAfterAttempt(handlers, eq, req, RecordAll(eq, answered), k);
      AnsweredSnoc(handlers, answered, req, k);
      RecordSnoc(eq, before, req);
    }
  }

  lemma AnsweredSnoc<Req>(handlers: seq<Handler<Req, Response>>, answered: seq<Req>, req: Req, k: nat)
    requires k > 0
    ensures answered + Answered(handlers, req, k) ==
            answered + Answered(handlers, req, k - 1) + if FirstMatch(handlers, req).Some? then [req] else []
  {
  }

  lemma {:induction false} LedgerOfOneRequest<Req>(eq: (Req, Req) -> bool, req: Req, n: nat)
    requires eq(req, req) && n > 0
    ensures RecordAll(eq, Repeat(req, n)) == [Call(req, n)]
  {
    assert Repeat(req, n)[..n - 1] == Repeat(req, n - 1);
    if n > 1 {
      LedgerOfOneRequest(eq, req, n - 1);
    } else {
      assert RecordAll(eq, Repeat(req, 0)) == [];
    }
  }

  // ----- how every exchange goes

  /** The answer to request `k`. */
  function ReplyAt<Req, S>(client: (Req, S) -> (Reply, S), req: Req, s: S, k: nat): Reply {
    client(req, StateAt(Trial(client, req), s, k)).0
  }

  lemma ControlIsClassified<Req, S>(client: (Req, S) -> (Reply, S), req: Req, s: S, k: nat)
    ensures ControlAt(Trial(client, req), s, k) == Classify(ReplyAt(client, req, s, k))
  {
  }

  lemma DefaultPower(i: nat)
    requires i < 8
    ensures SECOND * (NumSeconds(SECOND) * Exp2(i)) == SECOND * Exp2(i) <= DURATION_MAX
  {
    Exp2Monotone(i, 7);
    assert Exp2(7) == 128;
  }

  /** The reply asks for another request, and the wait before it is the one it names, or one that
      doubles from one second on. */
  predicate SleepsAsTold(overflowChecks: bool, reply: Reply, i: nat, sleep: nat) {
    && reply.Ok?
    && (reply.value.retryAfter.Some? ==> sleep == reply.value.retryAfter.value)
    && (reply.value.retryAfter.None? ==>
          && 500 <= reply.value.status < 600
          && sleep == (if i < 8 then SECOND * Exp2(i) else 0) && (i >= 8 ==> !overflowChecks))
  }

  /** What becomes of a reply that is not followed by another request. */
  predicate EndsAsTold(overflowChecks: bool, reply: Reply, k: nat, outcome: Outcome<Reply>) {
    && (reply.Err? ==> outcome == Returned(reply))
    && (reply.Ok? && reply.value.retryAfter.Some? ==>
          reply.value.retryAfter.value < 0 && outcome == Panicked(NegativeSleep))
    && (reply.Ok? && reply.value.retryAfter.None? && 500 <= reply.value.status < 600 ==>
          k >= 8 && overflowChecks && outcome == Panicked(PowerOverflow))
    && (reply.Ok? && reply.value.retryAfter.None? && !(500 <= reply.value.status < 600) ==>
          outcome == Returned(reply))
  }

  lemma EveryWait<Req, S>(
      client: (Req, S) -> (Reply, S), overflowChecks: bool, s: S, maxRetries: nat, req: Req, i: nat)
    requires i < |RequestsTo(client, overflowChecks, s, maxRetries, req).sleeps|
    ensures SleepsAsTold(overflowChecks, ReplyAt(client, req, s, i), i,
                         RequestsTo(client, overflowChecks, s, maxRetries, req).sleeps[i])
  {
    EverySleep(Default<Reply>().WithMaxRetries(maxRetries % 256), overflowChecks, Trial(client, req), s, i);
    ControlIsClassified(client, req, s, i);
    if i < 8 {
      DefaultPower(i);
    }
  }

  lemma LastRetryReply<Req, S>(
      client: (Req, S) -> (Reply, S), overflowChecks: bool, s: S, maxRetries: nat, req: Req, i: nat)
    requires i < |RequestsTo(client, overflowChecks, s, maxRetries, req).sleeps|
    ensures ControlAt(Trial(client, req), s, i).value == ReplyAt(client, req, s, i)
  {
    ControlIsClassified(client, req, s, i);
  }

  /** Every exchange, whatever the client answers. A reply is followed by another request exactly
      if it names a delay, whatever its status, or is a server error, and there are attempts left.
      The first other reply, be it a success, a client error or no response at all, is the result;
      so is the last reply if all attempts are used up. The run panics when there are none, on a
      negative delay, and on the ninth unnamed one if overflow is checked. */
  lemma EveryExchange<Req, S>(
      client: (Req, S) -> (Reply, S), overflowChecks: bool, s: S, maxRetries: nat, req: Req)
    ensures var n, run := maxRetries % 256, RequestsTo(client, overflowChecks, s, maxRetries, req);
            var k := |run.sleeps|;
            && k <= n
            && (forall i | 0 <= i < k :: SleepsAsTold(overflowChecks, ReplyAt(client, req, s, i), i, run.sleeps[i]))
            && (k == n ==>
                  && run.calls == n
                  && run.outcome == if n == 0 then Panicked(UnwrapOfNone) else Returned(ReplyAt(client, req, s, n - 1)))
            && (k < n ==>
                  && run.calls == k + 1
                  && EndsAsTold(overflowChecks, ReplyAt(client, req, s, k), k, run.outcome))
  {
    var run := RequestsTo(client, overflowChecks, s, maxRetries, req);
    var k := |run.sleeps|;
    EveryEnd(Default<Reply>().WithMaxRetries(maxRetries % 256), overflowChecks, Trial(client, req), s);
    ControlIsClassified(client, req, s, k);
    if k > 0 {
      LastRetryReply(client, overflowChecks, s, maxRetries, req, k - 1);
    }
    if k < 8 {
      DefaultPower(k);
    }
    forall i | 0 <= i < k ensures SleepsAsTold(overflowChecks, ReplyAt(client, req, s, i), i, run.sleeps[i]) {
      EveryWait(client, overflowChecks, s, maxRetries, req, i);
    }
  }

  /** A server that fails a number of times and then answers, or is not reached, gets one request
      more than it fails. */
  lemma RecoveringServer<Req, S>(
      client: (Req, S) -> (Reply, S), overflowChecks: bool, s: S, maxRetries: nat, req: Req, fails: nat)
    requires fails < maxRetries % 256 && (overflowChecks ==> fails <= 8)
    requires forall i | 0 <= i < fails ::
               var reply := ReplyAt(client, req, s, i);
               reply.Ok? && 500 <= reply.value.status < 600 && reply.value.retryAfter.None?
    requires var reply := ReplyAt(client, req, s, fails);
             reply.Err? || (!(500 <= reply.value.status < 600) && reply.value.retryAfter.None?)
    ensures var run := RequestsTo(client, overflowChecks, s, maxRetries, req);
            && run.calls == fails + 1 && |run.sleeps| == fails
            && run.outcome == Returned(ReplyAt(client, req, s, fails))
  {
    EveryExchange(client, overflowChecks, s, maxRetries, req);
  }

  /** A reply that is followed by another request. */
  predicate AsksAgain(reply: Reply) {
    reply.Ok? && if reply.value.retryAfter.Some? then reply.value.retryAfter.value >= 0
                 else 500 <= reply.value.status < 600
  }

  /** A server that always answers the same gets all the requests, or one. */
  lemma SteadyExchange<Req, S>(
      client: (Req, S) -> (Reply, S), overflowChecks: bool, s: S, maxRetries: nat, req: Req, reply: Reply)
    requires 0 < maxRetries % 256 <= 8
    requires forall k: nat :: ReplyAt(client, req, s, k) == reply
    ensures var run := RequestsTo(client, overflowChecks, s, maxRetries, req);
            && run.calls == (if AsksAgain(reply) then maxRetries % 256 else 1)
            && run.outcome == if reply.Ok? && reply.value.retryAfter.Some? && reply.value.retryAfter.value < 0
                              then Panicked(NegativeSleep) else Returned(reply)
  {
    EveryExchange(client, overflowChecks, s, maxRetries, req);
    var k := |RequestsTo(client, overflowChecks, s, maxRetries, req).sleeps|;
    assert ReplyAt(client, req, s, k) == reply == ReplyAt(client, req, s, maxRetries % 256 - 1);
    if k > 0 {
      EveryWait(client, overflowChecks, s, maxRetries, req, 0);
      assert ReplyAt(client, req, s, 0) == reply;
    }
  }

  // ----- exchanges with the client double

  /** What the client double would reply, which never changes. */
  function MockReply<Req>(handlers: seq<Handler<Req, Response>>, req: Req): Reply {
    match FirstMatch(handlers, req)
    case Some(i) => Ok(handlers[i].respond(req))
    case None => Err(ResponseNotSet)
  }

  lemma MockReplies<Req>(
      handlers: seq<Handler<Req, Response>>, eq: (Req, Req) -> bool, req: Req, calls: seq<Call<Req>>, k: nat)
    ensures ReplyAt(MockAnswer(handlers, eq), req, calls, k) == MockReply(handlers, req)
  {
  }

  lemma MockExchange<Req>(
      handlers: seq<Handler<Req, Response>>, eq: (Req, Req) -> bool, overflowChecks: bool, calls: seq<Call<Req>>,
      maxRetries: nat, req: Req)
    requires 0 < maxRetries % 256 <= 8
    ensures var reply, run := MockReply(handlers, req), Requests(handlers, eq, overflowChecks, calls, maxRetries, req);
            && run.calls == (if AsksAgain(reply) then maxRetries % 256 else 1)
            && run.outcome == if reply.Ok? && reply.value.retryAfter.Some? && reply.value.retryAfter.value < 0
                              then Panicked(NegativeSleep) else Returned(reply)
  {
    var client, reply := MockAnswer(handlers, eq), MockReply(handlers, req);
    forall k: nat ensures ReplyAt(client, req, calls, k) == reply {
      MockReplies(handlers, eq, req, calls, k);
    }
    SteadyExchange(client, overflowChecks, calls, maxRetries, req, reply);
  }

  /** A first reply that is no server error and names no delay ends the exchange: one request, one
      ledger entry, no sleep. So does a request that no handler matches, without an entry. */
  lemma FirstReplyDecides<Req>(
      handlers: seq<Handler<Req, Response>>, eq: (Req, Req) -> bool, overflowChecks: bool, maxRetries: nat, req: Req)
    requires maxRetries % 256 > 0
    ensures var run := Requests(handlers, eq, overflowChecks, [], maxRetries, req);
            match FirstMatch(handlers, req) {
              case Some(i) =>
                var res := handlers[i].respond(req);
                res.retryAfter.None? && !(500 <= res.status < 600) ==>
                  && run.calls == 1 && run.sleeps == [] && run.state == [Call(req, 1)]
                  && run.outcome == Returned(Ok(res))
              case None =>
                && run.calls == 1 && run.sleeps == [] && run.state == []
                && run.outcome == Returned(Err(ResponseNotSet))
            }
  {
    var client := MockAnswer(handlers, eq);
    var run := Requests(handlers, eq, overflowChecks, [], maxRetries, req);
    MockReplies(handlers, eq, req, [], 0);
    var reply := ReplyAt(client, req, [], 0);
    if reply.Err? || (reply.value.retryAfter.None? && !(500 <= reply.value.status < 600)) {
      RecoveringServer(client, overflowChecks, [], maxRetries, req, 0);
      var k := EveryRun(Default<Reply>().WithMaxRetries(maxRetries % 256), overflowChecks,
                        Attempt(handlers, eq, req), []);
      LedgerAfter(handlers, eq, [], req, 1);
      LedgerOfFirst(eq, req);
    }
  }

  lemma LedgerOfFirst<Req>(eq: (Req, Req) -> bool, req: Req)
    ensures RecordAll(eq, [] + Repeat(req, 1)) == [Call(req, 1)]
  {
    assert ([] + Repeat(req, 1))[..0] == [];
  }

  /** The server answers this request with server errors, and names no delay. */
  predicate AlwaysFails<Req>(handlers: seq<Handler<Req, Response>>, req: Req) {
    FirstMatch(handlers, req).Some? &&
    var res := handlers[FirstMatch(handlers, req).value].respond(req);
    500 <= res.status < 600 && res.retryAfter.None?
  }

  /** Against such a server exactly `max_retries as u8` requests are made, the ledger has one
      entry with that count, and the last response is returned; unless that is none, and the
      loop panics without a request, or overflow is checked and there are more than eight, and
      the ninth request ends in a panic. */
  lemma FailingServer<Req(!new)>(
      handlers: seq<Handler<Req, Response>>, eq: (Req, Req) -> bool, overflowChecks: bool, maxRetries: nat, req: Req)
    requires AlwaysFails(handlers, req) && eq(req, req)
    ensures var n, run := maxRetries % 256, Requests(handlers, eq, overflowChecks, [], maxRetries, req);
            var made := if overflowChecks && n > 8 then 9 else n;
            && run.calls == made
            && run.state == (if made == 0 then [] else [Call(req, made)])
            && run.outcome == (
                 if n == 0 then Panicked(UnwrapOfNone)
                 else if overflowChecks && n > 8 then Panicked(PowerOverflow)
                 else Returned(Ok(handlers[FirstMatch(handlers, req).value].respond(req))))
  {
    var run := Requests(handlers, eq, overflowChecks, [], maxRetries, req);
    FailingExchange(handlers, eq, overflowChecks, maxRetries, req);
    var m := EveryRun(
      Default<Reply>().WithMaxRetries(maxRetries % 256), overflowChecks, Attempt(handlers, eq, req), []);
    LedgerAfter(handlers, eq, [], req, run.calls);
    assert [] + Repeat(req, run.calls) == Repeat(req, run.calls);
    if run.calls > 0 {
      LedgerOfOneRequest(eq, req, run.calls);
    }
  }

  lemma FailingExchange<Req(!new)>(
      handlers: seq<Handler<Req, Response>>, eq: (Req, Req) -> bool, overflowChecks: bool, maxRetries: nat, req: Req)
    requires AlwaysFails(handlers, req)
    ensures var n, run := maxRetries % 256, Requests(handlers, eq, overflowChecks, [], maxRetries, req);
            && run.calls == (if overflowChecks && n > 8 then 9 else n)
            && run.outcome == (
                 if n == 0 then Panicked(UnwrapOfNone)
                 else if overflowChecks && n > 8 then Panicked(PowerOverflow)
                 else Returned(MockReply(handlers, req)))
  {
    var client := MockAnswer(handlers, eq);
    EveryExchange(client, overflowChecks, [], maxRetries, req);
    var k := |RequestsTo(client, overflowChecks, [], maxRetries, req).sleeps|;
    forall i: nat ensures ReplyAt(client, req, [], i) == MockReply(handlers, req) {
      MockReplies(handlers, eq, req, [], i);
    }
    if k > 8 {
      EveryWait(client, overflowChecks, [], maxRetries, req, 8);
    }
  }
}
