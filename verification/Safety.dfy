/** What the validator promises its clients, over every run. */
module Safety {
  import opened Cosigning
  import opened Invariant
  import opened Messages
  import opened Queries
  import opened Sign
  import opened ValidatorState
  import opened Words
  import opened Wrappers

  /** The state after the first `i` events of a run. */
  function At(cfg: Config, rows: Transactions, events: seq<Event>, i: nat): System
    requires i <= |events|
  {
    Exec(cfg, Boot(rows), events[..i])
  }

  function After(cfg: Config, rows: Transactions, events: seq<Event>): System {
    Exec(cfg, Boot(rows), events)
  }

  lemma AtSucc(cfg: Config, rows: Transactions, events: seq<Event>, i: nat)
    requires i < |events|
    ensures At(cfg, rows, events, i + 1) == Step(cfg, At(cfg, rows, events, i), events[i])
    ensures |At(cfg, rows, events, i).past| == i
  {
    assert events[..i + 1] == events[..i] + [events[i]];
    ExecConcat(cfg, Boot(rows), events[..i], [events[i]]);
    assert [events[i]][1..] == [];
    ExecExtendsPast(cfg, Boot(rows), events[..i]);
  }

  // ----- no equivocation

  predicate HasReleased(s: System, id: nat) {
    id in s.handlers && s.handlers[id].pc.Done? && s.handlers[id].pc.response.Released?
  }

  /** At most one cosignature is ever released for a transaction id: two released replies for
      one id are one reply. So no two released cosignatures for one id carry a different block,
      fee, size or currency. */
  lemma NoEquivocation(cfg: Config, rows: Transactions, events: seq<Event>, i: nat, j: nat)
    requires HasReleased(After(cfg, rows, events), i) && HasReleased(After(cfg, rows, events), j)
    requires After(cfg, rows, events).handlers[i].req.id == After(cfg, rows, events).handlers[j].req.id
    ensures i == j
  {
    var s := After(cfg, rows, events);
    RunsKeepInv(cfg, rows, events);
    assert HandlerOk(cfg, s.past, s.handlers[i]) && HandlerOk(cfg, s.past, s.handlers[j]);
  }

  // ----- the history is what happened

  /** A handler started at its arrival, and its row went in at one of its own steps. */
  predicate TimesOk(events: seq<Event>, n: nat, id: nat, h: Handler) {
    && h.startedAt < n <= |events| && events[h.startedAt] == Arrive(id, h.req)
    && (h.committed ==> h.insertAt < n && events[h.insertAt].Advance? && events[h.insertAt].id == id)
  }

  predicate AllTimesOk(events: seq<Event>, n: nat, handlers: map<nat, Handler>) {
    forall id | id in handlers :: TimesOk(events, n, id, handlers[id])
  }

  lemma StepKeepsTimes(cfg: Config, s: System, events: seq<Event>)
    requires |s.past| < |events| && HandlersOk(cfg, s.past, s.handlers) && AllTimesOk(events, |s.past|, s.handlers)
    ensures AllTimesOk(events, |s.past| + 1, Step(cfg, s, events[|s.past|]).handlers)
  {
    var e := events[|s.past|];
    HandlersAfter(cfg, s, e);
    if e.Advance? && e.id in s.handlers && Permitted(cfg, s.handlers[e.id].req, e.env) {
      AdvanceKeepsStart(cfg, s, e.id, e.env);
    }
  }

  lemma {:induction false} TimesAreTrue(cfg: Config, rows: Transactions, events: seq<Event>, n: nat)
    requires n <= |events|
    ensures AllTimesOk(events, n, At(cfg, rows, events, n).handlers)
  {
    if n > 0 {
      TimesAreTrue(cfg, rows, events, n - 1);
      AtSucc(cfg, rows, events, n - 1);
      RunsKeepInv(cfg, rows, events[..n - 1]);
      StepKeepsTimes(cfg, At(cfg, rows, events, n - 1), events);
    }
  }

  lemma AdvanceKeepsStart(cfg: Config, s: System, id: nat, env: Env)
    requires id in s.handlers && HandlerOk(cfg, s.past, s.handlers[id])
    ensures var h, h' := s.handlers[id], AdvanceHandler(cfg, s, id, env).handlers[id];
            && h'.startedAt == h.startedAt && h'.req == h.req
            && (h'.committed ==> h'.insertAt == if h.committed then h.insertAt else |s.past|)
  {
  }

  lemma CommittedHandlerFacts(cfg: Config, rows: Transactions, events: seq<Event>, id: nat)
    requires id in After(cfg, rows, events).handlers && After(cfg, rows, events).handlers[id].committed
    ensures var s := After(cfg, rows, events);
            HandlerOk(cfg, s.past, s.handlers[id]) && OwnsRow(s.rows, s.handlers[id]) && |s.past| == |events|
  {
    RunsKeepInv(cfg, rows, events);
    ExecExtendsPast(cfg, Boot(rows), events);
  }

  /** Every row the route inserted has a witness in the run that inserted it: while the handler
      ran, the atomics held the role Cosigner, then a height the promised block fits, then the
      row's epoch, in that order; the request was addressed to this validator and verified; and
      the row holds the signature that any released reply carries and promises the block in the
      lists that the bundler and the validator signed. */
  lemma RowsHaveWitnesses(cfg: Config, rows: Transactions, events: seq<Event>, id: nat)
    requires id in After(cfg, rows, events).handlers && After(cfg, rows, events).handlers[id].committed
    ensures var s := After(cfg, rows, events);
            var h := s.handlers[id];
            && h.startedAt <= h.roleAt < h.blockAt < h.epochAt < h.insertAt < |events|
            && events[h.startedAt] == Arrive(id, h.req)
            && events[h.insertAt].Advance? && events[h.insertAt].id == id
            && At(cfg, rows, events, h.roleAt).shared.role == Cosigner
            && (var height, promised := At(cfg, rows, events, h.blockAt).shared.block, h.req.block;
                promised == height || height + 395 <= promised <= height + 405)
            && h.req.validator == cfg.validator
            && Verified(cfg, h.req)
            && cfg.cosigns(SignChunks(h.req, cfg.bundler), h.sig)
            && h.req.id in s.rows
            && IsPromise(s.rows[h.req.id], h.req, At(cfg, rows, events, h.epochAt).shared.epoch, h.sig)
            && Parse(SignChunks(h.req, cfg.bundler)[6], TWO_TO_THE_128) == Ok(s.rows[h.req.id].blockPromised)
            && Parse(VerifyChunks(h.req)[6], TWO_TO_THE_128) == Ok(s.rows[h.req.id].blockPromised)
            && (h.pc.Done? && h.pc.response.Released? ==> h.pc.response.sig == s.rows[h.req.id].signature)
  {
    var h := After(cfg, rows, events).handlers[id];
    CommittedHandlerFacts(cfg, rows, events, id);
    PastIsTheRun(cfg, rows, events, h.roleAt);
    PastIsTheRun(cfg, rows, events, h.blockAt);
    PastIsTheRun(cfg, rows, events, h.epochAt);
    WindowOpenIff(h.req.block, h.block);
    ParseDecimal(h.req.block, TWO_TO_THE_128);
    HandlerTimes(cfg, rows, events, id);
  }

  lemma HandlerTimes(cfg: Config, rows: Transactions, events: seq<Event>, id: nat)
    requires id in After(cfg, rows, events).handlers
    ensures TimesOk(events, |events|, id, After(cfg, rows, events).handlers[id])
  {
    TimesAreTrue(cfg, rows, events, |events|);
    assert events[..|events|] == events;
    assert id in At(cfg, rows, events, |events|).handlers;
  }
}
