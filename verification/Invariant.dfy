/** What every step of the running validator keeps. */
module Invariant {
  import opened Cosigning
  import opened Messages
  import opened Models
  import opened Queries
  import opened Sign
  import opened ValidatorState
  import opened Words
  import opened Wrappers

  // ----- handlers

  function Rank(pc: Pc): nat {
    match pc
    case CheckRole => 0
    case CheckExists => 1
    case ReadBlock => 2
    case CheckRequest => 3
    case CheckSignature => 4
    case MakeSignature => 5
    case ReadEpoch => 6
    case InsertRow => 7
    case Reply => 8
    case Done(_) => 0
  }

  /** The handler has got as far as step `k`; a handler whose row is in has got through all. */
  predicate Passed(h: Handler, k: nat) {
    h.committed || Rank(h.pc) >= k
  }

  /** Each value the handler uses was held by the atomics at the time it says, in the order
      of the route, and each check behind it was passed on those values. */
  predicate HandlerOk(cfg: Config, past: seq<Moment>, h: Handler) {
    && h.startedAt <= |past|
    && (Passed(h, 1) ==> h.startedAt <= h.roleAt < |past| && past[h.roleAt].shared.role == Cosigner)
    && (Passed(h, 3) ==> h.roleAt < h.blockAt < |past| && past[h.blockAt].shared.block == h.block)
    && (Passed(h, 4) ==> h.req.validator == cfg.validator && WindowOpen(h.req.block, h.block))
    && (Passed(h, 5) ==> Verified(cfg, h.req))
    && (Passed(h, 6) ==> cfg.cosigns(SignChunks(h.req, cfg.bundler), h.sig))
    && (Passed(h, 7) ==> h.blockAt < h.epochAt < |past| && past[h.epochAt].shared.epoch == h.epoch)
    && (h.committed ==> h.epochAt < h.insertAt < |past| && (h.pc.Reply? || h.pc.Done?))
    && (h.pc.Reply? ==> h.committed)
    && (h.pc.Done? && h.pc.response.Released? ==> h.committed && h.pc.response.sig == h.sig)
  }

  lemma HandlerOkLasts(cfg: Config, past: seq<Moment>, m: Moment, h: Handler)
    requires HandlerOk(cfg, past, h)
    ensures HandlerOk(cfg, past + [m], h)
  {
  }

  lemma HandlerStepOk(cfg: Config, past: seq<Moment>, m: Moment, op: nat, rows: Transactions, h: Handler, env: Env)
    requires HandlerOk(cfg, past, h) && Permitted(cfg, h.req, env)
    ensures HandlerOk(cfg, past + [m], HandlerStep(cfg, |past|, op, m.shared, rows, h, env).0)
  {
    if h.pc.Done? || Rank(h.pc) >= 7 {
      LastStepOk(cfg, past, m, op, rows, h, env);
    } else if Rank(h.pc) >= 4 {
      MiddleStepOk(cfg, past, m, op, rows, h, env);
    } else {
      EarlyStepOk(cfg, past, m, op, rows, h, env);
    }
  }

  lemma EarlyStepOk(cfg: Config, past: seq<Moment>, m: Moment, op: nat, rows: Transactions, h: Handler, env: Env)
    requires HandlerOk(cfg, past, h) && !h.pc.Done? && Rank(h.pc) < 4
    ensures HandlerOk(cfg, past + [m], HandlerStep(cfg, |past|, op, m.shared, rows, h, env).0)
  {
  }

  lemma MiddleStepOk(cfg: Config, past: seq<Moment>, m: Moment, op: nat, rows: Transactions, h: Handler, env: Env)
    requires HandlerOk(cfg, past, h) && Permitted(cfg, h.req, env) && !h.pc.Done? && 4 <= Rank(h.pc) < 7
    ensures HandlerOk(cfg, past + [m], HandlerStep(cfg, |past|, op, m.shared, rows, h, env).0)
  {
  }

  lemma LastStepOk(cfg: Config, past: seq<Moment>, m: Moment, op: nat, rows: Transactions, h: Handler, env: Env)
    requires HandlerOk(cfg, past, h) && (h.pc.Done? || Rank(h.pc) >= 7)
    ensures HandlerOk(cfg, past + [m], HandlerStep(cfg, |past|, op, m.shared, rows, h, env).0)
  {
  }

  predicate HandlersOk(cfg: Config, past: seq<Moment>, handlers: map<nat, Handler>) {
    forall id | id in handlers :: HandlerOk(cfg, past, handlers[id])
  }

  lemma HandlersOkLast(cfg: Config, past: seq<Moment>, m: Moment, handlers: map<nat, Handler>)
    requires HandlersOk(cfg, past, handlers)
    ensures HandlersOk(cfg, past + [m], handlers)
  {
    forall id | id in handlers ensures HandlerOk(cfg, past + [m], handlers[id]) {
      HandlerOkLasts(cfg, past, m, handlers[id]);
    }
  }

  lemma PutHandler(cfg: Config, past: seq<Moment>, handlers: map<nat, Handler>, id: nat, h: Handler)
    requires HandlersOk(cfg, past, handlers) && HandlerOk(cfg, past, h)
    ensures HandlersOk(cfg, past, handlers[id := h])
  {
  }

  lemma NewHandlerOk(cfg: Config, past: seq<Moment>, m: Moment, req: SignRequest)
    ensures HandlerOk(cfg, past + [m], NewHandler(req, |past|))
  {
  }

  /** Which handlers a step leaves. */
  lemma HandlersAfter(cfg: Config, s: System, e: Event)
    ensures Step(cfg, s, e).handlers ==
            match e {
              case Arrive(id, req) =>
                if id in s.handlers then s.handlers else s.handlers[id := NewHandler(req, |s.past|)]
              case Advance(id, env) =>
                if id in s.handlers && Permitted(cfg, s.handlers[id].req, env)
                then s.handlers[id := HandlerStep(cfg, |s.past|, |s.ops|, s.shared, s.rows, s.handlers[id], env).0]
                else s.handlers
              case _ => s.handlers
            }
  {
    if !e.Arrive? && !e.Advance? {
      JobsLeaveHandlers(cfg, s, e);
    }
  }

  lemma JobsLeaveHandlers(cfg: Config, s: System, e: Event)
    requires !e.Arrive? && !e.Advance?
    ensures Step(cfg, s, e).handlers == s.handlers
  {
    if e.AdvanceContract? {
      ContractLeavesHandlers(cfg, s);
    }
  }

  lemma ContractLeavesHandlers(cfg: Config, s: System)
    ensures ContractStep(cfg, s).handlers == s.handlers
  {
  }

  lemma StepKeepsHandlers(cfg: Config, s: System, e: Event)
    requires HandlersOk(cfg, s.past, s.handlers)
    ensures HandlersOk(cfg, Step(cfg, s, e).past, Step(cfg, s, e).handlers)
  {
    HandlersAfter(cfg, s, e);
    var past := s.past + [Now(s)];
    HandlersOkLast(cfg, s.past, Now(s), s.handlers);
    match e
    case Arrive(id, req) =>
      NewHandlerOk(cfg, s.past, Now(s), req);
      PutHandler(cfg, past, s.handlers, id, NewHandler(req, |s.past|));
    case Advance(id, env) =>
      if id in s.handlers && Permitted(cfg, s.handlers[id].req, env) {
        var h' := HandlerStep(cfg, |s.past|, |s.ops|, s.shared, s.rows, s.handlers[id], env).0;
        HandlerStepOk(cfg, s.past, Now(s), |s.ops|, s.rows, s.handlers[id], env);
        PutHandler(cfg, past, s.handlers, id, h');
      }
    case _ =>
  }

  // ----- rows

  /** The row of every committed handler is in the table, and committed ids are distinct. */
  predicate RowsOwned(rows: Transactions, handlers: map<nat, Handler>) {
    && (forall id | id in handlers && handlers[id].committed :: OwnsRow(rows, handlers[id]))
    && (forall i, j | i in handlers && j in handlers && i != j && handlers[i].committed && handlers[j].committed ::
          handlers[i].req.id != handlers[j].req.id)
  }

  predicate OwnsRow(rows: Transactions, h: Handler) {
    h.req.id in rows && rows[h.req.id] == RowFor(h.req, h.epoch, h.sig)
  }

  /** A step changes the table only by committing, and a committed handler keeps everything
      but its program counter. */
  lemma HandlerStepRows(cfg: Config, now: nat, op: nat, shared: Shared, rows: Transactions, h: Handler, env: Env)
    requires h.committed ==> h.pc.Reply? || h.pc.Done?
    ensures var (h', rows') := HandlerStep(cfg, now, op, shared, rows, h, env);
            && h'.req == h.req
            && (h.committed ==> h' == h.(pc := h'.pc))
            && (h'.committed == h.committed ==> rows' == rows)
            && (h'.committed != h.committed ==>
                  && h.pc.InsertRow? && h.req.id !in rows
                  && rows' == rows[h.req.id := RowFor(h.req, h.epoch, h.sig)]
                  && h' == h.(pc := h'.pc, committed := true, insertAt := now, op := op))
  {
  }

  lemma CommitKeepsRowsOwned(rows: Transactions, handlers: map<nat, Handler>, id: nat, h: Handler, row: Transaction)
    requires RowsOwned(rows, handlers) && id in handlers && h.req.id !in rows
    requires h.committed && row == RowFor(h.req, h.epoch, h.sig)
    ensures RowsOwned(rows[h.req.id := row], handlers[id := h])
  {
    var handlers' := handlers[id := h];
    forall i, j | i in handlers' && j in handlers' && i != j && handlers'[i].committed && handlers'[j].committed
      ensures handlers'[i].req.id != handlers'[j].req.id
    {
      assert i != id ==> OwnsRow(rows, handlers[i]);
      assert j != id ==> OwnsRow(rows, handlers[j]);
    }
  }

  /** A step of a handler either leaves the table alone or commits the handler's row. */
  predicate MovesQuietly(s: System, s': System, id: nat)
    requires id in s.handlers && id in s'.handlers
  {
    var h, h' := s.handlers[id], s'.handlers[id];
    && s' == s.(handlers := s.handlers[id := h'])
    && h'.req == h.req && h'.committed == h.committed
    && (h.committed ==> h' == h.(pc := h'.pc))
  }

  predicate Commits(s: System, s': System, id: nat)
    requires id in s.handlers && id in s'.handlers
  {
    var h, h' := s.handlers[id], s'.handlers[id];
    && h.pc.InsertRow? && !h.committed && h.req.id !in s.rows
    && h' == h.(pc := h'.pc, committed := true, insertAt := |s.past|, op := |s.ops|)
    && s' == s.(handlers := s.handlers[id := h'],
                rows := s.rows[h.req.id := RowFor(h.req, h.epoch, h.sig)],
                ops := s.ops + [OpOf(id, h')])
  }

  lemma AdvanceMovesOrCommits(cfg: Config, s: System, id: nat, env: Env)
    requires id in s.handlers && HandlerOk(cfg, s.past, s.handlers[id])
    ensures id in AdvanceHandler(cfg, s, id, env).handlers
    ensures MovesQuietly(s, AdvanceHandler(cfg, s, id, env), id) || Commits(s, AdvanceHandler(cfg, s, id, env), id)
  {
    HandlerStepRows(cfg, |s.past|, |s.ops|, s.shared, s.rows, s.handlers[id], env);
  }

  lemma AdvanceKeepsRowsOwned(cfg: Config, s: System, id: nat, env: Env)
    requires HandlersOk(cfg, s.past, s.handlers) && RowsOwned(s.rows, s.handlers) && id in s.handlers
    ensures RowsOwned(AdvanceHandler(cfg, s, id, env).rows, AdvanceHandler(cfg, s, id, env).handlers)
  {
    AdvanceMovesOrCommits(cfg, s, id, env);
    var s' := AdvanceHandler(cfg, s, id, env);
    if Commits(s, s', id) {
      var h' := s'.handlers[id];
      CommitKeepsRowsOwned(s.rows, s.handlers, id, h', RowFor(h'.req, h'.epoch, h'.sig));
    }
  }

  lemma StepKeepsRowsOwned(cfg: Config, s: System, e: Event)
    requires HandlersOk(cfg, s.past, s.handlers) && RowsOwned(s.rows, s.handlers)
    ensures RowsOwned(Step(cfg, s, e).rows, Step(cfg, s, e).handlers)
  {
    if e.Advance? && e.id in s.handlers && Permitted(cfg, s.handlers[e.id].req, e.env) {
      AdvanceKeepsRowsOwned(cfg, s, e.id, e.env);
    } else if !e.Advance? {
      JobsKeepRowsOwned(cfg, s, e);
    }
  }

  lemma JobsKeepRowsOwned(cfg: Config, s: System, e: Event)
    requires RowsOwned(s.rows, s.handlers) && !e.Advance?
    ensures RowsOwned(Step(cfg, s, e).rows, Step(cfg, s, e).handlers)
  {
    HandlersAfter(cfg, s, e);
    var rows' := Step(cfg, s, e).rows;
    forall id | id in s.handlers && s.handlers[id].committed ensures OwnsRow(rows', s.handlers[id]) {
      assert OwnsRow(s.rows, s.handlers[id]);
    }
  }

  // ----- epochs and roles

  /** The epoch and the role after `n` adoptions. */
  function EpochAfter(adoptions: seq<Adoption>, n: nat): u64
    requires n <= |adoptions|
  {
    if n == 0 then INITIAL.epoch else adoptions[n - 1].epoch
  }

  function RoleAfter(adoptions: seq<Adoption>, n: nat): ValidatorRole
    requires n <= |adoptions|
  {
    if n == 0 then INITIAL.role else adoptions[n - 1].role
  }

  /** The stores alternate epoch, role, epoch, role: at an even count the pair agrees, at an
      odd count the epoch is one adoption ahead of the role. */
  predicate MomentOk(adoptions: seq<Adoption>, m: Moment) {
    && (m.stores + 1) / 2 <= |adoptions|
    && m.shared.epoch == EpochAfter(adoptions, (m.stores + 1) / 2)
    && m.shared.role == RoleAfter(adoptions, m.stores / 2)
  }

  predicate ContractOk(cfg: Config, s: System) {
    match s.contract
    case Resting => |s.stores| % 2 == 0
    case Fetched(_, _) => |s.stores| % 2 == 0
    case SawBlock(_, _, block, at) => |s.stores| % 2 == 0 && at < |s.past| && s.past[at].shared.block == block
    case Adopting(n, _, at) =>
      |s.stores| % 2 == 0 && at < |s.past| && n.epochHeight <= s.past[at].shared.block && n.epochSeq > s.shared.epoch
    case EpochStored(n, _) =>
      |s.stores| % 2 == 1 && RoleAfter(s.adoptions, |s.adoptions|) == Contract.RoleIn(cfg.validator, n)
  }

  /** Adoption `i` raised the epoch, at a height that had been read from the atomics. */
  predicate AdoptionOk(s: System, i: nat)
    requires i < |s.adoptions|
  {
    var a := s.adoptions[i];
    a.epoch > EpochAfter(s.adoptions, i) && a.blockAt < |s.past| && a.height <= s.past[a.blockAt].shared.block
  }

  /** The history of the atomics agrees with the adoptions made. */
  predicate HistoryOk(s: System) {
    && |s.adoptions| == (|s.stores| + 1) / 2
    && MomentOk(s.adoptions, Now(s))
    && (forall i | 0 <= i < |s.past| :: PastOk(s, s.past[i]))
    && (forall i | 0 <= i < |s.adoptions| :: AdoptionOk(s, i))
  }

  predicate PastOk(s: System, m: Moment) {
    m.stores <= |s.stores| && m.shared.epoch <= s.shared.epoch && MomentOk(s.adoptions, m)
  }

  /** At each past moment exactly the stores before it had been made. */
  predicate StoresOk(s: System) {
    && (forall k | 0 <= k < |s.stores| :: s.stores[k] < |s.past|)
    && (forall k, m | 0 <= k < m < |s.stores| :: s.stores[k] < s.stores[m])
    && (forall i, k | 0 <= i < |s.past| && 0 <= k < |s.stores| :: s.stores[k] < i <==> k < s.past[i].stores)
  }

  predicate EpochsOk(cfg: Config, s: System) {
    && HistoryOk(s)
    && StoresOk(s)
    && ContractOk(cfg, s)
    && (s.clearing.ClearLoaded? ==> s.clearing.epoch <= s.shared.epoch)
  }

  /** A step that stores neither epoch nor role. */
  predicate StoresNothing(s: System, s': System) {
    && s'.shared.epoch == s.shared.epoch && s'.shared.role == s.shared.role
    && s'.stores == s.stores && s'.adoptions == s.adoptions
    && s'.past == s.past + [Now(s)]
  }

  lemma QuietKeepsHistory(s: System, s': System)
    requires HistoryOk(s) && StoresNothing(s, s')
    ensures HistoryOk(s')
  {
    forall i | 0 <= i < |s'.past| ensures PastOk(s', s'.past[i]) {
      assert i < |s.past| ==> PastOk(s, s.past[i]);
    }
    forall i | 0 <= i < |s'.adoptions| ensures AdoptionOk(s', i) {
      assert AdoptionOk(s, i);
    }
  }

  lemma EpochStoreKeepsHistory(s: System, s': System, a: Adoption)
    requires HistoryOk(s) && |s.stores| % 2 == 0
    requires a.epoch > s.shared.epoch && a.blockAt < |s.past| && a.height <= s.past[a.blockAt].shared.block
    requires s'.shared == s.shared.(epoch := a.epoch) && |s'.stores| == |s.stores| + 1
    requires s'.adoptions == s.adoptions + [a] && s'.past == s.past + [Now(s)]
    ensures HistoryOk(s')
  {
    forall i | 0 <= i < |s'.past| ensures PastOk(s', s'.past[i]) {
      assert i < |s.past| ==> PastOk(s, s.past[i]);
    }
    forall i | 0 <= i < |s'.adoptions| ensures AdoptionOk(s', i) {
      assert i < |s.adoptions| ==> AdoptionOk(s, i);
    }
  }

  lemma RoleStoreKeepsHistory(s: System, s': System)
    requires HistoryOk(s) && |s.stores| % 2 == 1
    requires s'.shared == s.shared.(role := RoleAfter(s.adoptions, |s.adoptions|)) && |s'.stores| == |s.stores| + 1
    requires s'.adoptions == s.adoptions && s'.past == s.past + [Now(s)]
    ensures HistoryOk(s')
  {
    forall i | 0 <= i < |s'.past| ensures PastOk(s', s'.past[i]) {
      assert i < |s.past| ==> PastOk(s, s.past[i]);
    }
    forall i | 0 <= i < |s'.adoptions| ensures AdoptionOk(s', i) {
      assert AdoptionOk(s, i);
    }
  }

  /** Everything but the contract job leaves epoch and role alone. */
  lemma OthersStoreNothing(cfg: Config, s: System, e: Event)
    requires !e.AdvanceContract?
    ensures var s' := Step(cfg, s, e);
            && StoresNothing(s, s')
            && (s'.contract == s.contract || (s.contract == Resting && s'.contract.Fetched?))
            && (s'.clearing == s.clearing || s'.clearing == ClearResting
                || s'.clearing == ClearLoaded(s.shared.epoch, |s.past|))
  {
    if e.Arrive? || e.Advance? {
      HandlersLeaveJobs(cfg, s, e);
    } else if e.LoadForClear? || e.Delete? {
      ClearingStoresNothing(cfg, s, e);
    }
  }

  lemma ClearingStoresNothing(cfg: Config, s: System, e: Event)
    requires e.LoadForClear? || e.Delete?
    ensures var s' := Step(cfg, s, e);
            && StoresNothing(s, s') && s'.contract == s.contract
            && (s'.clearing == s.clearing || s'.clearing == ClearResting
                || s'.clearing == ClearLoaded(s.shared.epoch, |s.past|))
  {
    if e.Delete? && s.clearing.ClearLoaded? {
      DeleteStoresNothing(cfg, s, e.reachable);
    }
  }

  lemma DeleteStoresNothing(cfg: Config, s: System, reachable: bool)
    requires s.clearing.ClearLoaded?
    ensures var s' := DeleteStep(cfg, s, reachable);
            && s'.shared == s.shared && s'.stores == s.stores && s'.adoptions == s.adoptions && s'.past == s.past
            && s'.contract == s.contract && (s'.clearing == s.clearing || s'.clearing == ClearResting)
  {
  }

  /** Handlers touch neither the atomics nor the jobs. */
  lemma HandlersLeaveJobs(cfg: Config, s: System, e: Event)
    requires e.Arrive? || e.Advance?
    ensures var s' := Step(cfg, s, e);
            && s'.shared == s.shared && s'.contract == s.contract && s'.clearing == s.clearing
            && s'.cronAlive == s.cronAlive && s'.past == s.past + [Now(s)]
            && s'.stores == s.stores && s'.adoptions == s.adoptions && s'.initial == s.initial
  {
    if e.Advance? && e.id in s.handlers && Permitted(cfg, s.handlers[e.id].req, e.env) {
      AdvanceLeavesJobs(cfg, s, e.id, e.env);
    }
  }

  lemma AdvanceLeavesJobs(cfg: Config, s: System, id: nat, env: Env)
    requires id in s.handlers
    ensures var s' := AdvanceHandler(cfg, s, id, env);
            s' == s.(handlers := s'.handlers, rows := s'.rows, ops := s'.ops)
  {
  }

  lemma ContractStepKeepsHistory(cfg: Config, s: System)
    requires EpochsOk(cfg, s) && s.cronAlive
    ensures HistoryOk(Step(cfg, s, AdvanceContract))
  {
    var s' := Step(cfg, s, AdvanceContract);
    if s.contract.Adopting? && s.contract.snapshot.epochSeq < TWO_TO_THE_64 {
      var n := s.contract.snapshot;
      EpochStoreKeepsHistory(s, s', AdoptionOf(cfg, n, s.contract.fetchedAt, s.contract.blockAt));
    } else if s.contract.EpochStored? {
      RoleStoreKeepsHistory(s, s');
    } else {
      QuietKeepsHistory(s, s');
    }
  }

  lemma ContractStepKeepsContract(cfg: Config, s: System)
    requires ContractOk(cfg, s)
    ensures ContractOk(cfg, ContractStep(cfg, s).(past := s.past + [Now(s)]))
    ensures ContractStep(cfg, s).shared.epoch >= s.shared.epoch && ContractStep(cfg, s).clearing == s.clearing
  {
    if s.contract.Adopting? {
      AdoptingKeepsContract(cfg, s);
    } else if s.contract.EpochStored? {
      RoleStoreKeepsContract(cfg, s);
    } else {
      CheckKeepsContract(cfg, s);
    }
  }

  lemma CheckKeepsContract(cfg: Config, s: System)
    requires ContractOk(cfg, s) && !s.contract.Adopting? && !s.contract.EpochStored?
    ensures ContractOk(cfg, ContractStep(cfg, s).(past := s.past + [Now(s)]))
    ensures ContractStep(cfg, s).shared == s.shared && ContractStep(cfg, s).clearing == s.clearing
  {
  }

  lemma AdoptingKeepsContract(cfg: Config, s: System)
    requires ContractOk(cfg, s) && s.contract.Adopting?
    ensures ContractOk(cfg, ContractStep(cfg, s).(past := s.past + [Now(s)]))
    ensures ContractStep(cfg, s).shared.epoch >= s.shared.epoch && ContractStep(cfg, s).clearing == s.clearing
  {
  }

  lemma RoleStoreKeepsContract(cfg: Config, s: System)
    requires ContractOk(cfg, s) && s.contract.EpochStored?
    ensures ContractOk(cfg, ContractStep(cfg, s).(past := s.past + [Now(s)]))
    ensures ContractStep(cfg, s).shared.epoch == s.shared.epoch && ContractStep(cfg, s).clearing == s.clearing
  {
  }

  /** A step stores at most once, and then at the present time. */
  lemma StoreOnceAtMost(cfg: Config, s: System, e: Event)
    ensures var s' := Step(cfg, s, e);
            && s'.past == s.past + [Now(s)]
            && (s'.stores == s.stores || s'.stores == s.stores + [|s.past|])
  {
    if !e.AdvanceContract? {
      OthersStoreNothing(cfg, s, e);
    }
  }

  lemma StepKeepsStores(cfg: Config, s: System, e: Event)
    requires HistoryOk(s) && StoresOk(s)
    ensures StoresOk(Step(cfg, s, e))
  {
    StoreOnceAtMost(cfg, s, e);
    forall i | 0 <= i < |s.past| ensures s.past[i].stores <= |s.stores| {
      assert PastOk(s, s.past[i]);
    }
  }

  lemma StepKeepsEpochs(cfg: Config, s: System, e: Event)
    requires EpochsOk(cfg, s)
    ensures EpochsOk(cfg, Step(cfg, s, e))
  {
    StepKeepsStores(cfg, s, e);
    if e.AdvanceContract? && s.cronAlive {
      ContractStepKeepsHistory(cfg, s);
      ContractStepKeepsContract(cfg, s);
    } else {
      if !e.AdvanceContract? {
        OthersStoreNothing(cfg, s, e);
      }
      QuietKeepsHistory(s, Step(cfg, s, e));
    }
  }

  // ----- the run as a sequence of whole operations

  /** What a sequential server makes of a list of operations: the table, and the replies in order. */
  datatype Sequential = Sequential(rows: Transactions, replies: seq<(string, Response)>)

  /** Nothing outside interferes: the query and the insert are answered, the signature is made. */
  function Undisturbed(sig: string): Env {
    Env(Answered, true, Some(sig), Executed)
  }

  function Sequentially(cfg: Config, rows: Transactions, ops: seq<Op>): Sequential {
    if ops == [] then
      Sequential(rows, [])
    else
      SequentialStep(cfg, Sequentially(cfg, rows, ops[..|ops| - 1]), ops[|ops| - 1])
  }

  function SequentialStep(cfg: Config, q: Sequential, op: Op): Sequential {
    match op
    case Request(_, _, view, req, sig) =>
      var (reply, rows') := SignAlone(cfg, view, q.rows, req, Undisturbed(sig));
      Sequential(rows', q.replies + [(req.id, reply)])
    case Clearing(_, _, last) =>
      Sequential(Clear(cfg.build.endian, q.rows, last), q.replies)
  }

  predicate OpOk(s: System, i: nat)
    requires i < |s.ops|
  {
    match s.ops[i]
    case Request(at, id, _, _, _) =>
      id in s.handlers && s.handlers[id].committed && s.handlers[id].op == i && s.ops[i] == OpOf(id, s.handlers[id])
    case Clearing(_, _, _) => true
  }

  /** The operations make the table, and every reply to them is a cosignature. */
  predicate OpsMakeTable(cfg: Config, s: System) {
    var q := Sequentially(cfg, s.initial, s.ops);
    q.rows == s.rows && forall r | r in q.replies :: r.1.Released?
  }

  /** The operations are those of the committed handlers, and the clears, in order. */
  predicate OpsArePlaced(s: System) {
    && (forall i | 0 <= i < |s.ops| :: OpOk(s, i) && s.ops[i].at < |s.past|)
    && (forall i, j | 0 <= i < j < |s.ops| :: s.ops[i].at < s.ops[j].at)
    && (forall id | id in s.handlers && s.handlers[id].committed ::
          s.handlers[id].op < |s.ops| && s.ops[s.handlers[id].op] == OpOf(id, s.handlers[id]))
  }

  predicate OpsOk(cfg: Config, s: System) {
    OpsMakeTable(cfg, s) && OpsArePlaced(s)
  }

  lemma SequentialSnoc(cfg: Config, rows: Transactions, ops: seq<Op>, op: Op)
    ensures Sequentially(cfg, rows, ops + [op]) == SequentialStep(cfg, Sequentially(cfg, rows, ops), op)
  {
    assert (ops + [op])[..|ops + [op]| - 1] == ops;
  }

  /** A handler about to insert an absent id passes every check of the atomic request on the
      values it read. */
  lemma CommitIsAtomic(cfg: Config, s: System, h: Handler)
    requires HandlerOk(cfg, s.past, h) && h.pc.InsertRow? && h.req.id !in s.rows
    ensures SignAlone(cfg, Shared(h.block, h.epoch, Cosigner), s.rows, h.req, Undisturbed(h.sig))
            == (Released(h.sig), s.rows[h.req.id := RowFor(h.req, h.epoch, h.sig)])
  {
  }

  lemma QuietKeepsOps(s: System, s': System, id: nat)
    requires OpsArePlaced(s) && id in s.handlers && id in s'.handlers && MovesQuietly(s, s', id)
    ensures OpsArePlaced(s')
  {
    forall i | 0 <= i < |s.ops| ensures OpOk(s', i) {
      assert OpOk(s, i);
    }
  }

  lemma CommitMakesTable(cfg: Config, s: System, s': System, id: nat)
    requires OpsMakeTable(cfg, s) && id in s.handlers && HandlerOk(cfg, s.past, s.handlers[id])
    requires id in s'.handlers && Commits(s, s', id)
    ensures OpsMakeTable(cfg, s')
  {
    CommitIsAtomic(cfg, s, s.handlers[id]);
    SequentialSnoc(cfg, s.initial, s.ops, OpOf(id, s'.handlers[id]));
  }

  lemma CommitIsPlaced(s: System, s': System, id: nat)
    requires OpsArePlaced(s) && id in s.handlers && id in s'.handlers && Commits(s, s', id)
    ensures OpsArePlaced(s'.(past := s.past + [Now(s)]))
  {
    forall i | 0 <= i < |s.ops| ensures OpOk(s', i) {
      assert OpOk(s, i);
    }
  }

  lemma ClearMakesTable(cfg: Config, s: System, s': System, op: Op)
    requires OpsMakeTable(cfg, s) && op.Clearing?
    requires s'.initial == s.initial && s'.ops == s.ops + [op] && s'.rows == Clear(cfg.build.endian, s.rows, op.last)
    ensures OpsMakeTable(cfg, s')
  {
    SequentialSnoc(cfg, s.initial, s.ops, op);
  }

  lemma ClearIsPlaced(s: System, s': System, op: Op)
    requires OpsArePlaced(s) && op.Clearing? && op.at == |s.past|
    requires s'.handlers == s.handlers && s'.ops == s.ops + [op] && s'.past == s.past + [Now(s)]
    ensures OpsArePlaced(s')
  {
    forall i | 0 <= i < |s.ops| ensures OpOk(s', i) {
      assert OpOk(s, i);
    }
  }

  /** Ops refer to the handlers, the table and the clock, and to nothing else. */
  lemma OpsOkFrame(cfg: Config, s: System, s': System)
    requires OpsOk(cfg, s)
    requires s'.initial == s.initial && s'.ops == s.ops && s'.rows == s.rows && |s'.past| >= |s.past|
    requires forall id | id in s.handlers :: id in s'.handlers && s'.handlers[id] == s.handlers[id]
    requires forall id | id in s'.handlers && id !in s.handlers :: !s'.handlers[id].committed
    ensures OpsOk(cfg, s')
  {
    forall i | 0 <= i < |s.ops| ensures OpOk(s', i) {
      assert OpOk(s, i);
    }
  }

  lemma AdvanceKeepsOps(cfg: Config, s: System, id: nat, env: Env)
    requires HandlersOk(cfg, s.past, s.handlers) && OpsOk(cfg, s) && id in s.handlers
    ensures OpsOk(cfg, AdvanceHandler(cfg, s, id, env).(past := s.past + [Now(s)]))
  {
    var t := AdvanceHandler(cfg, s, id, env);
    AdvanceMovesOrCommits(cfg, s, id, env);
    if Commits(s, t, id) {
      CommitMakesTable(cfg, s, t, id);
      CommitIsPlaced(s, t, id);
    } else {
      QuietKeepsOps(s, t, id);
      OpsOkFrame(cfg, t, t.(past := s.past + [Now(s)]));
    }
  }

  lemma DeleteKeepsOps(cfg: Config, s: System, reachable: bool)
    requires OpsOk(cfg, s) && s.clearing.ClearLoaded?
    ensures OpsOk(cfg, DeleteStep(cfg, s, reachable).(past := s.past + [Now(s)]))
  {
    var last := ClearThreshold(cfg.build, s.clearing.epoch, KEPT_EPOCHS);
    var t := DeleteStep(cfg, s, reachable);
    if last.Some? && reachable {
      var op := Clearing(|s.past|, s.clearing.loadedAt, last.value);
      ClearMakesTable(cfg, s, t, op);
      ClearIsPlaced(s, t.(past := s.past + [Now(s)]), op);
    } else {
      OpsOkFrame(cfg, s, t.(past := s.past + [Now(s)]));
    }
  }

  lemma OthersKeepTable(cfg: Config, s: System, e: Event)
    requires !e.Advance? && !e.Delete?
    ensures Step(cfg, s, e).ops == s.ops && Step(cfg, s, e).rows == s.rows && Step(cfg, s, e).initial == s.initial
  {
    if e.AdvanceContract? {
      ContractKeepsTable(cfg, s);
    }
  }

  lemma ContractKeepsTable(cfg: Config, s: System)
    ensures var s' := ContractStep(cfg, s);
            s'.ops == s.ops && s'.rows == s.rows && s'.initial == s.initial
  {
    if s.contract.Adopting? || s.contract.EpochStored? {
      StoresKeepTable(cfg, s);
    }
  }

  lemma StoresKeepTable(cfg: Config, s: System)
    requires s.contract.Adopting? || s.contract.EpochStored?
    ensures var s' := ContractStep(cfg, s);
            s'.ops == s.ops && s'.rows == s.rows && s'.initial == s.initial
  {
  }

  lemma StepKeepsOps(cfg: Config, s: System, e: Event)
    requires HandlersOk(cfg, s.past, s.handlers) && OpsOk(cfg, s)
    ensures OpsOk(cfg, Step(cfg, s, e))
  {
    match e
    case Advance(id, env) =>
      if id in s.handlers && Permitted(cfg, s.handlers[id].req, env) {
        AdvanceKeepsOps(cfg, s, id, env);
      } else {
        OpsOkFrame(cfg, s, Step(cfg, s, e));
      }
    case Delete(reachable) =>
      if s.cronAlive && s.clearing.ClearLoaded? {
        DeleteKeepsOps(cfg, s, reachable);
      } else {
        OpsOkFrame(cfg, s, Step(cfg, s, e));
      }
    case _ =>
      HandlersAfter(cfg, s, e);
      OthersKeepTable(cfg, s, e);
      OpsOkFrame(cfg, s, Step(cfg, s, e));
  }

  // ----- all of it, over every run

  predicate Inv(cfg: Config, s: System) {
    && HandlersOk(cfg, s.past, s.handlers)
    && RowsOwned(s.rows, s.handlers)
    && EpochsOk(cfg, s)
    && OpsOk(cfg, s)
  }

  lemma StepKeepsInv(cfg: Config, s: System, e: Event)
    requires Inv(cfg, s)
    ensures Inv(cfg, Step(cfg, s, e))
  {
    StepKeepsHandlers(cfg, s, e);
    StepKeepsRowsOwned(cfg, s, e);
    StepKeepsEpochs(cfg, s, e);
    StepKeepsOps(cfg, s, e);
  }

  lemma {:induction false} ExecKeepsInv(cfg: Config, s: System, events: seq<Event>)
    requires Inv(cfg, s)
    ensures Inv(cfg, Exec(cfg, s, events))
    decreases |events|
  {
    if events != [] {
      StepKeepsInv(cfg, s, events[0]);
      ExecKeepsInv(cfg, Step(cfg, s, events[0]), events[1..]);
    }
  }

  /** Every state of every run satisfies the invariant. */
  lemma RunsKeepInv(cfg: Config, rows: Transactions, events: seq<Event>)
    ensures Inv(cfg, Exec(cfg, Boot(rows), events))
  {
    ExecKeepsInv(cfg, Boot(rows), events);
  }
}
