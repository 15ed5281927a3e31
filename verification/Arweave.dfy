/** The job that follows the height of the network. */
module Arweave {
  import opened MockHttp
  import opened Reqwest
  import opened Retry
  import opened ValidatorState
  import opened Words
  import opened Wrappers

  datatype SyncResult = Synced | Errored | Crashed

  const INFO_RETRIES: nat := 3

  /** `get_network_info`: the height in a reply that is neither an error status nor unreadable. */
  function NetworkHeight(out: Outcome<Reply>): Option<u128> {
    match out
    case Returned(Ok(res)) => if 400 <= res.status < 600 then None else res.height
    case _ => None
  }

  predicate NamesPast(reply: Reply) {
    reply.Ok? && reply.value.retryAfter.Some? && reply.value.retryAfter.value < 0
  }

  /** What the exchange over the job's three attempts comes to. */
  lemma InfoExchange<Req>(
      handlers: seq<Handler<Req, Response>>, eq: (Req, Req) -> bool, overflowChecks: bool, calls: seq<Call<Req>>,
      info: Req)
    ensures var reply := MockReply(handlers, info);
            var run := Requests(handlers, eq, overflowChecks, calls, INFO_RETRIES, info);
            && (run.outcome.Panicked? <==> NamesPast(reply))
            && (!NamesPast(reply) ==>
                  NetworkHeight(run.outcome) ==
                  if reply.Ok? && !(400 <= reply.value.status < 600) then reply.value.height else None)
            && Answered(handlers, info, run.calls) ==
               if reply.Err? then [] else Repeat(info, if AsksAgain(reply) then 3 else 1)
  {
    MockExchange(handlers, eq, overflowChecks, calls, INFO_RETRIES, info);
  }

  /** `sync_network_info`: the only writer of the height. A reply that is no error status and whose
      body gives a height that fits stores exactly that height; nothing else stores anything. */
  method SyncNetworkInfo<Req(!new)>(client: MockClient<Req, Response>, overflowChecks: bool, info: Req, state: State)
    returns (r: SyncResult)
    requires client.Valid() && state.Valid()
    modifies client`calls, client`answered, state`currentBlock
    ensures client.Valid() && state.Valid()
    ensures var run := Requests(client.handlers, client.reqEq, overflowChecks, old(client.calls), INFO_RETRIES, info);
            client.calls == run.state
    ensures var reply := MockReply(client.handlers, info);
            var height := if reply.Ok? && !(400 <= reply.value.status < 600) then reply.value.height else None;
            && (r == Synced <==> !NamesPast(reply) && height.Some? && height.value < TWO_TO_THE_64)
            && (r == Errored <==> !NamesPast(reply) && height.None?)
            && state.View() == (if r == Synced then old(state.View()).(block := height.value) else old(state.View()))
            && client.answered == old(client.answered) +
                 if reply.Err? then [] else Repeat(info, if AsksAgain(reply) then 3 else 1)
  {
    InfoExchange(client.handlers, client.reqEq, overflowChecks, client.calls, info);
    var out, sleeps := ExecuteWithRetry(client, overflowChecks, INFO_RETRIES, info);
    if out.Panicked? {
      return Crashed;
    }
    var height := NetworkHeight(out);
    if height.None? {
      return Errored;
    }
    var panicked := state.SetCurrentBlock(height.value);
    r := if panicked then Crashed else Synced;
  }

  /** Against a server that always fails, the job makes three requests, which the ledger shows
      as one entry, and gets no height: it ends with an error and stores nothing. */
  lemma FailingServerIsTriedThrice<Req(!new)>(
      handlers: seq<Handler<Req, Response>>, eq: (Req, Req) -> bool, overflowChecks: bool, info: Req)
    requires AlwaysFails(handlers, info) && eq(info, info)
    ensures var run := Requests(handlers, eq, overflowChecks, [], INFO_RETRIES, info);
            && run.calls == 3 && run.state == [Call(info, 3)]
            && run.outcome.Returned? && NetworkHeight(run.outcome).None?
  {
    FailingServer(handlers, eq, overflowChecks, INFO_RETRIES, info);
  }
}
