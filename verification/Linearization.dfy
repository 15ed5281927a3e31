/** Every interleaved run has the effect of a sequential one. */
module Linearization {
  import opened Cosigning
  import opened Invariant
  import opened Messages
  import opened Queries
  import opened Safety
  import opened Sign
  import opened ValidatorState
  import opened Words
  import opened Wrappers

  lemma {:induction false} ExecKeepsInitial(cfg: Config, s: System, events: seq<Event>)
    ensures Exec(cfg, s, events).initial == s.initial
    decreases |events|
  {
    if events != [] {
      StepKeepsInitial(cfg, s, events[0]);
      ExecKeepsInitial(cfg, Step(cfg, s, events[0]), events[1..]);
    }
  }

  lemma StepKeepsInitial(cfg: Config, s: System, e: Event)
    ensures Step(cfg, s, e).initial == s.initial
  {
    if e.Arrive? || e.Advance? {
      HandlersLeaveJobs(cfg, s, e);
    } else if !e.Delete? {
      OthersKeepTable(cfg, s, e);
    }
  }

  /** A sequential server that released every reply released these. */
  lemma {:induction false} RepliesAreOps(cfg: Config, rows: Transactions, ops: seq<Op>)
    requires forall r | r in Sequentially(cfg, rows, ops).replies :: r.1.Released?
    ensures forall i | 0 <= i < |ops| && ops[i].Request? ::
              (ops[i].req.id, Released(ops[i].sig)) in Sequentially(cfg, rows, ops).replies
    ensures forall r | r in Sequentially(cfg, rows, ops).replies ::
              exists i :: 0 <= i < |ops| && ops[i].Request? && r == (ops[i].req.id, Released(ops[i].sig))
  {
    if ops != [] {
      var n := |ops| - 1;
      var q, q' := Sequentially(cfg, rows, ops[..n]), Sequentially(cfg, rows, ops);
      assert q.replies <= q'.replies;
      forall r | r in q.replies ensures r.1.Released? {
        assert r in q'.replies;
      }
      RepliesAreOps(cfg, rows, ops[..n]);
      if ops[n].Request? {
        var last := q'.replies[|q.replies|];
        assert last in q'.replies && last == (ops[n].req.id, Released(ops[n].sig));
      }
      forall i | 0 <= i < |ops| && ops[i].Request?
        ensures (ops[i].req.id, Released(ops[i].sig)) in q'.replies
      {
        assert i < n ==> ops[i] == ops[..n][i];
      }
      forall r | r in q'.replies
        ensures exists i :: 0 <= i < |ops| && ops[i].Request? && r == (ops[i].req.id, Released(ops[i].sig))
      {
        if r in q.replies {
          var i :| 0 <= i < n && ops[..n][i].Request? && r == (ops[..n][i].req.id, Released(ops[..n][i].sig));
          assert ops[i] == ops[..n][i];
        } else {
          assert ops[n].Request? && r == q'.replies[|q.replies|];
        }
      }
    }
  }

  /** A deletion happened at `at`, with the threshold for the epoch that was loaded at
      `loadedAt`, before. */
  predicate ClearIsReal(cfg: Config, rows: Transactions, events: seq<Event>, at: nat, loadedAt: nat, last: u128) {
    && loadedAt < at < |events|
    && events[loadedAt] == LoadForClear && events[at] == Delete(true)
    && ClearThreshold(cfg.build, At(cfg, rows, events, loadedAt).shared.epoch, KEPT_EPOCHS) == Some(last)
  }

  /** An operation of the sequential run is placed where the real run performed it, on values
      the atomics held: while its handler ran, or when its job loaded the epoch. */
  predicate OpIsReal(cfg: Config, rows: Transactions, events: seq<Event>, op: Op) {
    match op
    case Request(at, id, view, req, sig) =>
      var s := After(cfg, rows, events);
      && id in s.handlers
      && (var h := s.handlers[id];
          && h.committed && h.req == req && h.sig == sig && h.insertAt == at
          && h.startedAt <= h.roleAt < h.blockAt < h.epochAt < at < |events|
          && events[h.startedAt] == Arrive(id, req)
          && events[at].Advance? && events[at].id == id
          && At(cfg, rows, events, h.roleAt).shared.role == view.role
          && At(cfg, rows, events, h.blockAt).shared.block == view.block
          && At(cfg, rows, events, h.epochAt).shared.epoch == view.epoch)
    case Clearing(at, loadedAt, last) => ClearIsReal(cfg, rows, events, at, loadedAt, last)
  }

  /** The epoch the clearing job holds was held by the atomics when it was loaded. */
  predicate LoadIsReal(cfg: Config, rows: Transactions, events: seq<Event>, now: nat, c: ClearPc) {
    c.ClearLoaded? ==>
      && c.loadedAt < now <= |events| && events[c.loadedAt] == LoadForClear
      && At(cfg, rows, events, c.loadedAt).shared.epoch == c.epoch
  }

  predicate ClearsAreReal(cfg: Config, rows: Transactions, events: seq<Event>, ops: seq<Op>) {
    forall i | 0 <= i < |ops| && ops[i].Clearing? ::
      ClearIsReal(cfg, rows, events, ops[i].at, ops[i].loadedAt, ops[i].last)
  }

  /** What a step does to the clearing job. */
  lemma ClearingAfter(cfg: Config, s: System, e: Event)
    ensures var c := Step(cfg, s, e).clearing;
            c == s.clearing || c == ClearResting || (e == LoadForClear && c == ClearLoaded(s.shared.epoch, |s.past|))
  {
    if e.AdvanceContract? {
      ContractLeavesClearing(cfg, s);
    } else {
      OthersStoreNothing(cfg, s, e);
      if !e.LoadForClear? && !e.Delete? {
        OthersLeaveClearing(cfg, s, e);
      }
    }
  }

  lemma ContractLeavesClearing(cfg: Config, s: System)
    ensures ContractStep(cfg, s).clearing == s.clearing
  {
  }

  lemma OthersLeaveClearing(cfg: Config, s: System, e: Event)
    requires !e.AdvanceContract? && !e.LoadForClear? && !e.Delete?
    ensures Step(cfg, s, e).clearing == s.clearing
  {
    if e.Arrive? || e.Advance? {
      HandlersLeaveJobs(cfg, s, e);
    }
  }

  /** The operation an event adds, if any: a request's, or a deletion's on the epoch loaded. */
  ghost predicate AddsOp(cfg: Config, now: nat, c: ClearPc, e: Event, ops: seq<Op>, ops': seq<Op>) {
    || ops' == ops
    || (exists op: Op :: op.Request? && ops' == ops + [op])
    || (&& e == Delete(true) && c.ClearLoaded?
        && (var last := ClearThreshold(cfg.build, c.epoch, KEPT_EPOCHS);
            last.Some? && ops' == ops + [Clearing(now, c.loadedAt, last.value)]))
  }

  lemma OpsAfter(cfg: Config, s: System, e: Event)
    ensures AddsOp(cfg, |s.past|, s.clearing, e, s.ops, Step(cfg, s, e).ops)
  {
    if !e.Advance? && !e.Delete? {
      OthersKeepTable(cfg, s, e);
    }
  }

  lemma OpsAt(cfg: Config, rows: Transactions, events: seq<Event>, n: nat)
    requires n < |events|
    ensures var s := At(cfg, rows, events, n);
            AddsOp(cfg, n, s.clearing, events[n], s.ops, At(cfg, rows, events, n + 1).ops)
  {
    AtSucc(cfg, rows, events, n);
    OpsAfter(cfg, At(cfg, rows, events, n), events[n]);
  }

  lemma {:induction false} EveryLoadIsReal(cfg: Config, rows: Transactions, events: seq<Event>, n: nat)
    requires n <= |events|
    ensures LoadIsReal(cfg, rows, events, n, At(cfg, rows, events, n).clearing)
  {
    if n > 0 {
      EveryLoadIsReal(cfg, rows, events, n - 1);
      AtSucc(cfg, rows, events, n - 1);
      ClearingAfter(cfg, At(cfg, rows, events, n - 1), events[n - 1]);
    }
  }

  lemma NextClearIsReal(
      cfg: Config, rows: Transactions, events: seq<Event>, now: nat, c: ClearPc, ops: seq<Op>, ops': seq<Op>)
    requires now < |events| && AddsOp(cfg, now, c, events[now], ops, ops')
    requires LoadIsReal(cfg, rows, events, now, c) && ClearsAreReal(cfg, rows, events, ops)
    ensures ClearsAreReal(cfg, rows, events, ops')
  {
    forall i | 0 <= i < |ops'| && ops'[i].Clearing?
      ensures ClearIsReal(cfg, rows, events, ops'[i].at, ops'[i].loadedAt, ops'[i].last)
    {
      if i < |ops| {
        assert ops'[i] == ops[i];
      } else {
        assert ops'[i] == Clearing(now, c.loadedAt, ClearThreshold(cfg.build, c.epoch, KEPT_EPOCHS).value);
      }
    }
  }

  lemma {:induction false} EveryClearIsReal(cfg: Config, rows: Transactions, events: seq<Event>, n: nat)
    requires n <= |events|
    ensures ClearsAreReal(cfg, rows, events, At(cfg, rows, events, n).ops)
  {
    if n > 0 {
      EveryClearIsReal(cfg, rows, events, n - 1);
      EveryLoadIsReal(cfg, rows, events, n - 1);
      OpsAt(cfg, rows, events, n - 1);
      var s := At(cfg, rows, events, n - 1);
      NextClearIsReal(cfg, rows, events, n - 1, s.clearing, s.ops, At(cfg, rows, events, n).ops);
    }
  }

  /** The table and the released replies of any interleaved run are those of a run that takes
      whole requests one at a time, in the order of their inserts, each on role, height and
      epoch values the atomics held during that request, and deletes where the real run did, on
      an epoch it had loaded: every request of the sequential run releases its cosignature,
      every handler that released one is among them with the same signature, and every one of
      them is a handler whose row is in. */
  lemma RunsAreLinearizable(cfg: Config, rows: Transactions, events: seq<Event>)
    ensures var s := After(cfg, rows, events);
            var q := Sequentially(cfg, rows, s.ops);
            && q.rows == s.rows
            && (forall r | r in q.replies :: r.1.Released?)
            && (forall i | 0 <= i < |s.ops| :: OpIsReal(cfg, rows, events, s.ops[i]))
            && (forall i, j | 0 <= i < j < |s.ops| :: s.ops[i].at < s.ops[j].at)
            && (forall id | HasReleased(s, id) :: (s.handlers[id].req.id, s.handlers[id].pc.response) in q.replies)
            && (forall r | r in q.replies ::
                  exists id :: id in s.handlers && s.handlers[id].committed
                               && r == (s.handlers[id].req.id, Released(s.handlers[id].sig)))
  {
    var s := After(cfg, rows, events);
    RunsKeepInv(cfg, rows, events);
    ExecKeepsInitial(cfg, Boot(rows), events);
    var q := Sequentially(cfg, rows, s.ops);
    RepliesAreOps(cfg, rows, s.ops);
    EveryClearIsReal(cfg, rows, events, |events|);
    assert events[..|events|] == events;
    forall i | 0 <= i < |s.ops| ensures OpIsReal(cfg, rows, events, s.ops[i]) {
      assert OpOk(s, i);
      if s.ops[i].Request? {
        OpHasWitness(cfg, rows, events, s.ops[i].handler);
      }
    }
    forall id | HasReleased(s, id) ensures (s.handlers[id].req.id, s.handlers[id].pc.response) in q.replies {
      assert HandlerOk(cfg, s.past, s.handlers[id]);
      assert s.ops[s.handlers[id].op] == OpOf(id, s.handlers[id]);
    }
    forall r | r in q.replies
      ensures exists id :: id in s.handlers && s.handlers[id].committed
                           && r == (s.handlers[id].req.id, Released(s.handlers[id].sig))
    {
      var i :| 0 <= i < |s.ops| && s.ops[i].Request? && r == (s.ops[i].req.id, Released(s.ops[i].sig));
      assert OpOk(s, i);
      assert s.ops[i].handler in s.handlers;
    }
  }

  lemma OpHasWitness(cfg: Config, rows: Transactions, events: seq<Event>, id: nat)
    requires id in After(cfg, rows, events).handlers && After(cfg, rows, events).handlers[id].committed
    ensures OpIsReal(cfg, rows, events, OpOf(id, After(cfg, rows, events).handlers[id]))
  {
    var s := After(cfg, rows, events);
    var h := s.handlers[id];
    RowsHaveWitnesses(cfg, rows, events, id);
    RunsKeepInv(cfg, rows, events);
    assert HandlerOk(cfg, s.past, h);
    PastIsTheRun(cfg, rows, events, h.blockAt);
    PastIsTheRun(cfg, rows, events, h.epochAt);
  }

  // ----- a request with nothing beside it

  function StepsLeft(h: Handler): nat {
    if h.pc.Done? then 0 else 9 - Rank(h.pc)
  }

  /** A handler left to run alone. */
  function RunAlone(cfg: Config, now: nat, op: nat, shared: Shared, rows: Transactions, h: Handler, env: Env)
    : (Response, Transactions)
    decreases StepsLeft(h)
  {
    match h.pc
    case Done(response) => (response, rows)
    case _ =>
      var (h', rows') := HandlerStep(cfg, now, op, shared, rows, h, env);
      RunAlone(cfg, now, op, shared, rows', h', env)
  }

  lemma RunAloneStep(cfg: Config, now: nat, op: nat, shared: Shared, rows: Transactions, h: Handler, env: Env)
    requires !h.pc.Done?
    ensures var (h', rows') := HandlerStep(cfg, now, op, shared, rows, h, env);
            RunAlone(cfg, now, op, shared, rows, h, env) == RunAlone(cfg, now, op, shared, rows', h', env)
  {
  }

  /** From the signature on. */
  lemma RunAloneTail(cfg: Config, now: nat, op: nat, shared: Shared, rows: Transactions, h: Handler, env: Env)
    requires h.pc.MakeSignature?
    ensures RunAlone(cfg, now, op, shared, rows, h, env) ==
            (if env.signature.None? || env.insert == NotExecuted || h.req.id in rows then (InternalError, rows)
             else (if env.insert == ReportLost then InternalError else Released(env.signature.value),
                   rows[h.req.id := RowFor(h.req, shared.epoch, env.signature.value)]))
  {
    RunAloneStep(cfg, now, op, shared, rows, h, env);
    if env.signature.Some? {
      var h1 := h.(pc := ReadEpoch, sig := env.signature.value);
      RunAloneStep(cfg, now, op, shared, rows, h1, env);
      var h2 := h1.(pc := InsertRow, epoch := shared.epoch, epochAt := now);
      RunAloneStep(cfg, now, op, shared, rows, h2, env);
    }
  }

  /** From the checks on the request on. */
  lemma RunAloneMiddle(cfg: Config, now: nat, op: nat, shared: Shared, rows: Transactions, h: Handler, env: Env)
    requires h.pc.CheckRequest? && h.block == shared.block && shared.role == Cosigner && env.query == QueryFailed
    ensures RunAlone(cfg, now, op, shared, rows, h, env) == SignAlone(cfg, shared, rows, h.req, env)
  {
    RunAloneStep(cfg, now, op, shared, rows, h, env);
    var h1 := h.(pc := CheckSignature);
    RunAloneStep(cfg, now, op, shared, rows, h1, env);
    RunAloneTail(cfg, now, op, shared, rows, h1.(pc := MakeSignature), env);
  }

  /** The answer of the query matters only at its own step. */
  lemma RunAloneForgetsQuery(
      cfg: Config, now: nat, op: nat, shared: Shared, rows: Transactions, h: Handler, env: Env, query: QueryOutcome)
    requires !h.pc.CheckRole? && !h.pc.CheckExists?
    ensures RunAlone(cfg, now, op, shared, rows, h, env) ==
            RunAlone(cfg, now, op, shared, rows, h, env.(query := query))
    decreases StepsLeft(h)
  {
    if !h.pc.Done? {
      var (h', rows') := HandlerStep(cfg, now, op, shared, rows, h, env);
      RunAloneForgetsQuery(cfg, now, op, shared, rows', h', env, query);
    }
  }

  /** The steps of a handler are the route: alone, they make the reply and the table of the
      atomic request. */
  lemma StepsRefineRoute(cfg: Config, now: nat, op: nat, shared: Shared, rows: Transactions, req: SignRequest, env: Env)
    ensures RunAlone(cfg, now, op, shared, rows, NewHandler(req, now), env) == SignAlone(cfg, shared, rows, req, env)
  {
    var h0 := NewHandler(req, now);
    RunAloneStep(cfg, now, op, shared, rows, h0, env);
    var h1 := h0.(pc := CheckExists, roleAt := now);
    RunAloneStep(cfg, now, op, shared, rows, h1, env);
    var h2 := h1.(pc := ReadBlock);
    RunAloneStep(cfg, now, op, shared, rows, h2, env);
    var h3 := h2.(pc := CheckRequest, block := shared.block, blockAt := now);
    RunAloneForgetsQuery(cfg, now, op, shared, rows, h3, env, QueryFailed);
    if shared.role == Cosigner {
      RunAloneMiddle(cfg, now, op, shared, rows, h3, env.(query := QueryFailed));
    }
  }

  function Advances(id: nat, env: Env, n: nat): seq<Event> {
    seq(n, _ => Advance(id, env))
  }

  lemma {:induction false} AdvancesRunAlone(cfg: Config, s: System, id: nat, env: Env, n: nat, now: nat, op: nat)
    requires id in s.handlers && Permitted(cfg, s.handlers[id].req, env) && StepsLeft(s.handlers[id]) <= n
    ensures var s' := Exec(cfg, s, Advances(id, env, n));
            id in s'.handlers && s'.handlers[id].pc.Done? && s'.shared == s.shared
            && (s'.handlers[id].pc.response, s'.rows) == RunAlone(cfg, now, op, s.shared, s.rows, s.handlers[id], env)
    decreases n
  {
    if n > 0 {
      var s1 := Step(cfg, s, Advance(id, env));
      StepIgnoresClock(cfg, s, id, env, now, op);
      StepKeepsFuture(cfg, s, id, env, now, op);
      assert Advances(id, env, n)[1..] == Advances(id, env, n - 1);
      AdvancesRunAlone(cfg, s1, id, env, n - 1, now, op);
    }
  }

  /** A step of a handler does not change what running it alone comes to. */
  lemma StepKeepsFuture(cfg: Config, s: System, id: nat, env: Env, now: nat, op: nat)
    requires id in s.handlers && Permitted(cfg, s.handlers[id].req, env)
    ensures var s1 := Step(cfg, s, Advance(id, env));
            id in s1.handlers && s1.handlers[id].req == s.handlers[id].req
            && RunAlone(cfg, now, op, s.shared, s1.rows, s1.handlers[id], env)
               == RunAlone(cfg, now, op, s.shared, s.rows, s.handlers[id], env)
  {
    var h := s.handlers[id];
    var s1 := Step(cfg, s, Advance(id, env));
    var (h1, rows1) := HandlerStep(cfg, now, op, s.shared, s.rows, h, env);
    StepIgnoresClock(cfg, s, id, env, now, op);
    HandlerStepKeepsRequest(cfg, now, op, s.shared, s.rows, h, env);
    RunAloneIgnoresHistory(cfg, now, op, s.shared, rows1, s1.handlers[id], h1, env);
    if !h.pc.Done? {
      RunAloneStep(cfg, now, op, s.shared, s.rows, h, env);
    }
  }

  lemma HandlerStepKeepsRequest(
      cfg: Config, now: nat, op: nat, shared: Shared, rows: Transactions, h: Handler, env: Env)
    ensures HandlerStep(cfg, now, op, shared, rows, h, env).0.req == h.req
  {
  }

  /** Equal but for the history fields. */
  predicate SameHandler(h: Handler, k: Handler) {
    h.req == k.req && h.pc == k.pc && h.block == k.block && h.sig == k.sig && h.epoch == k.epoch
  }

  lemma HandlerStepIgnoresHistory(
      cfg: Config, now: nat, op: nat, now': nat, op': nat, shared: Shared, rows: Transactions,
      h: Handler, k: Handler, env: Env)
    requires SameHandler(h, k)
    ensures var (h', rows') := HandlerStep(cfg, now, op, shared, rows, h, env);
            var (k', rows'') := HandlerStep(cfg, now', op', shared, rows, k, env);
            SameHandler(h', k') && rows' == rows''
  {
    if h.pc.Done? || Rank(h.pc) >= 4 {
      LateStepIgnoresHistory(cfg, now, op, now', op', shared, rows, h, k, env);
    }
  }

  lemma LateStepIgnoresHistory(
      cfg: Config, now: nat, op: nat, now': nat, op': nat, shared: Shared, rows: Transactions,
      h: Handler, k: Handler, env: Env)
    requires SameHandler(h, k) && (h.pc.Done? || Rank(h.pc) >= 4)
    ensures var (h', rows') := HandlerStep(cfg, now, op, shared, rows, h, env);
            var (k', rows'') := HandlerStep(cfg, now', op', shared, rows, k, env);
            SameHandler(h', k') && rows' == rows''
  {
  }

  lemma StepsRunOut(cfg: Config, now: nat, op: nat, shared: Shared, rows: Transactions, h: Handler, env: Env)
    requires !h.pc.Done?
    ensures StepsLeft(HandlerStep(cfg, now, op, shared, rows, h, env).0) < StepsLeft(h)
  {
  }

  lemma StepIgnoresClock(cfg: Config, s: System, id: nat, env: Env, now: nat, op: nat)
    requires id in s.handlers && Permitted(cfg, s.handlers[id].req, env)
    ensures var s1 := Step(cfg, s, Advance(id, env));
            var (h1, rows1) := HandlerStep(cfg, now, op, s.shared, s.rows, s.handlers[id], env);
            && id in s1.handlers && SameHandler(s1.handlers[id], h1) && s1.rows == rows1 && s1.shared == s.shared
            && StepsLeft(s1.handlers[id]) <= (if s.handlers[id].pc.Done? then 0 else StepsLeft(s.handlers[id]) - 1)
  {
    var h := s.handlers[id];
    HandlersAfter(cfg, s, Advance(id, env));
    HandlersLeaveJobs(cfg, s, Advance(id, env));
    HandlerStepIgnoresHistory(cfg, |s.past|, |s.ops|, now, op, s.shared, s.rows, h, h, env);
    if !h.pc.Done? {
      StepsRunOut(cfg, |s.past|, |s.ops|, s.shared, s.rows, h, env);
    }
  }

  lemma {:induction false} RunAloneIgnoresHistory(
      cfg: Config, now: nat, op: nat, shared: Shared, rows: Transactions, h: Handler, k: Handler, env: Env)
    requires SameHandler(h, k)
    ensures RunAlone(cfg, now, op, shared, rows, h, env) == RunAlone(cfg, now, op, shared, rows, k, env)
    decreases StepsLeft(h)
  {
    if !h.pc.Done? {
      var (h', rows') := HandlerStep(cfg, now, op, shared, rows, h, env);
      var (k', _) := HandlerStep(cfg, now, op, shared, rows, k, env);
      HandlerStepIgnoresHistory(cfg, now, op, now, op, shared, rows, h, k, env);
      StepsRunOut(cfg, now, op, shared, rows, h, env);
      RunAloneStep(cfg, now, op, shared, rows, h, env);
      RunAloneStep(cfg, now, op, shared, rows, k, env);
      RunAloneIgnoresHistory(cfg, now, op, shared, rows', h', k', env);
    }
  }

  /** In any state, a request that arrives and is served before anything else happens gets
      the reply, and leaves the table, of the atomic request. */
  lemma UndisturbedRequestIsAtomic(cfg: Config, s: System, id: nat, req: SignRequest, env: Env)
    requires id !in s.handlers && Permitted(cfg, req, env)
    ensures var s' := Exec(cfg, s, [Arrive(id, req)] + Advances(id, env, 9));
            id in s'.handlers && s'.handlers[id].pc.Done?
            && (s'.handlers[id].pc.response, s'.rows) == SignAlone(cfg, s.shared, s.rows, req, env)
  {
    var s1 := Step(cfg, s, Arrive(id, req));
    assert ([Arrive(id, req)] + Advances(id, env, 9))[1..] == Advances(id, env, 9);
    AdvancesRunAlone(cfg, s1, id, env, 9, |s.past|, 0);
    StepsRefineRoute(cfg, |s.past|, 0, s.shared, s.rows, req, env);
  }

  // ----- the clearing job and the height job with nothing beside them

  /** The two steps of the clearing job are the job: they delete what is selected below the
      threshold of the present epoch, or panic when there is none, or leave the table alone when
      the database is not reached. */
  lemma StepsRefineClearingJob(cfg: Config, s: System, reachable: bool)
    requires s.cronAlive && s.clearing.ClearResting?
    ensures var s' := Step(cfg, Step(cfg, s, LoadForClear), Delete(reachable));
            var last := ClearThreshold(cfg.build, s.shared.epoch, KEPT_EPOCHS);
            && s'.shared == s.shared && s'.handlers == s.handlers
            && s'.rows == (if last.Some? && reachable then Clear(cfg.build.endian, s.rows, last.value) else s.rows)
            && s'.cronAlive == last.Some? && (last.Some? ==> s'.clearing.ClearResting?)
  {
    var s1 := Step(cfg, s, LoadForClear);
    assert s1.clearing == ClearLoaded(s.shared.epoch, |s.past|) && s1.rows == s.rows && s1.shared == s.shared;
  }

  /** Event `k` of the run sets the height to `h`. */
  predicate SetsHeight(cfg: Config, rows: Transactions, events: seq<Event>, k: nat, h: u64) {
    k < |events| && events[k] == Sync(Some(h)) && At(cfg, rows, events, k).cronAlive
  }

  /** What one event does to the height and to the jobs. */
  lemma HeightAfter(cfg: Config, s: System, e: Event)
    ensures var s' := Step(cfg, s, e);
            if e.Sync? && e.height.Some? && s.cronAlive then
              if e.height.value < TWO_TO_THE_64 then s'.shared == s.shared.(block := e.height.value) && s'.cronAlive
              else s'.shared == s.shared && !s'.cronAlive
            else s'.shared.block == s.shared.block
  {
    if e.Arrive? || e.Advance? {
      HandlersLeaveJobs(cfg, s, e);
    } else if e.AdvanceContract? {
      ContractLeavesHeight(cfg, s);
    } else if e.LoadForClear? || e.Delete? {
      ClearingLeavesHeight(cfg, s, e);
    }
  }

  lemma ContractLeavesHeight(cfg: Config, s: System)
    ensures ContractStep(cfg, s).shared.block == s.shared.block
  {
  }

  lemma ClearingLeavesHeight(cfg: Config, s: System, e: Event)
    requires e.LoadForClear? || e.Delete?
    ensures Step(cfg, s, e).shared == s.shared
  {
  }

  /** Nothing sets the height between the two points. */
  ghost predicate HeightKept(cfg: Config, rows: Transactions, events: seq<Event>, j: nat, n: nat) {
    forall k: nat, h: u64 | j <= k < n :: !SetsHeight(cfg, rows, events, k, h)
  }

  /** Event `j` set the height to `h`, and none has since. */
  ghost predicate LastSets(cfg: Config, rows: Transactions, events: seq<Event>, j: nat, n: nat, h: u64) {
    j < n && SetsHeight(cfg, rows, events, j, h) && HeightKept(cfg, rows, events, j + 1, n)
  }

  /** The height is always the last one that the height job reported before, or none yet. */
  lemma {:induction false} HeightIsLastReported(cfg: Config, rows: Transactions, events: seq<Event>, n: nat)
    requires n <= |events|
    ensures var height := At(cfg, rows, events, n).shared.block;
            || (height == 0 && HeightKept(cfg, rows, events, 0, n))
            || (exists j: nat :: LastSets(cfg, rows, events, j, n, height))
  {
    if n > 0 {
      var m := n - 1;
      var before, after := At(cfg, rows, events, m).shared.block, At(cfg, rows, events, n).shared.block;
      HeightIsLastReported(cfg, rows, events, m);
      HeightAt(cfg, rows, events, m);
      if SetsHeight(cfg, rows, events, m, after) {
        assert LastSets(cfg, rows, events, m, n, after);
      } else if !HeightKept(cfg, rows, events, 0, m) {
        var j: nat :| LastSets(cfg, rows, events, j, m, before);
        assert LastSets(cfg, rows, events, j, n, after);
      }
    }
  }

  lemma HeightAt(cfg: Config, rows: Transactions, events: seq<Event>, n: nat)
    requires n < |events|
    ensures var before, after := At(cfg, rows, events, n).shared.block, At(cfg, rows, events, n + 1).shared.block;
            && (after == before || SetsHeight(cfg, rows, events, n, after))
            && (forall h: u64 | SetsHeight(cfg, rows, events, n, h) :: after == h)
  {
    AtSucc(cfg, rows, events, n);
    HeightAfter(cfg, At(cfg, rows, events, n), events[n]);
  }
}
