/** The running validator: any number of cosigning handlers beside the scheduled jobs, over
    the shared atomics and the transactions table. Every load, store and statement is one step. */
module Cosigning {
  import Contract
  import opened Messages
  import opened Queries
  import opened Sign
  import opened ValidatorState
  import opened Words
  import opened Wrappers

  // ----- handlers

  datatype Pc =
    | CheckRole | CheckExists | ReadBlock | CheckRequest | CheckSignature | MakeSignature | ReadEpoch | InsertRow
    | Reply
    | Done(response: Response)

  /** A running handler: its request, its program counter and its locals. The remaining fields
      are history: when it started and when it made each access, whether its row is in the
      table, and which of the system's operations that was. */
  datatype Handler = Handler(
    req: SignRequest, pc: Pc, block: u64, sig: string, epoch: u64,
    startedAt: nat, roleAt: nat, blockAt: nat, epochAt: nat,
    committed: bool, insertAt: nat, op: nat)

  function NewHandler(req: SignRequest, now: nat): Handler {
    Handler(req, CheckRole, 0, "", 0, now, 0, 0, 0, false, 0, 0)
  }

  function Finish(h: Handler, response: Response): Handler {
    h.(pc := Done(response))
  }

  /** One step of `sign_route`. */
  function HandlerStep(cfg: Config, now: nat, op: nat, shared: Shared, rows: Transactions, h: Handler, env: Env)
    : (Handler, Transactions)
  {
    match h.pc
    case CheckRole =>
      (if shared.role != Cosigner then Finish(h, BadRequest(NotCosigner))
       else h.(pc := CheckExists, roleAt := now), rows)
    case CheckExists =>
      (if env.query == TaskLost then Finish(h, InternalError)
       else if env.query == Answered && h.req.id in rows then Finish(h, Accepted)
       else h.(pc := ReadBlock), rows)
    case ReadBlock =>
      (h.(pc := CheckRequest, block := shared.block, blockAt := now), rows)
    case CheckRequest =>
      (if h.req.validator != cfg.validator then Finish(h, BadRequest(WrongValidator))
       else if !WindowOpen(h.req.block, h.block) then Finish(h, BadRequest(WrongBlock))
       else h.(pc := CheckSignature), rows)
    case CheckSignature =>
      (if !env.hashed || !cfg.decodes(h.req.signature) then Finish(h, InternalError)
       else if !cfg.verifies(VerifyChunks(h.req), h.req.signature) then Finish(h, BadRequest(WrongSignature))
       else h.(pc := MakeSignature), rows)
    case MakeSignature =>
      (if env.signature.None? then Finish(h, InternalError)
       else h.(pc := ReadEpoch, sig := env.signature.value), rows)
    case ReadEpoch =>
      (h.(pc := InsertRow, epoch := shared.epoch, epochAt := now), rows)
    case InsertRow =>
      if env.insert == NotExecuted || h.req.id in rows then
        (Finish(h, InternalError), rows)
      else
        (h.(pc := if env.insert == ReportLost then Done(InternalError) else Reply,
            committed := true, insertAt := now, op := op),
         rows[h.req.id := RowFor(h.req, h.epoch, h.sig)])
    case Reply =>
      (Finish(h, Released(h.sig)), rows)
    case Done(_) =>
      (h, rows)
  }

  // ----- scheduled jobs

  /** Where `check_contract_updates` is; the two stores of an adoption are separate steps. */
  datatype ContractPc =
    | Resting
    | Fetched(snapshot: Contract.Snapshot, fetchedAt: nat)
    | SawBlock(snapshot: Contract.Snapshot, fetchedAt: nat, block: u64, blockAt: nat)
    | Adopting(snapshot: Contract.Snapshot, fetchedAt: nat, blockAt: nat)
    | EpochStored(snapshot: Contract.Snapshot, fetchedAt: nat)

  /** Where `clear_old_transactions` is. */
  datatype ClearPc = ClearResting | ClearLoaded(epoch: u64, loadedAt: nat)

  // ----- the system

  /** What the atomics held at one time, and how many stores the contract job had made. */
  datatype Moment = Moment(shared: Shared, stores: nat)

  /** An adopted epoch: the role it came with, its activation height, when its snapshot was
      fetched and when the height was read. */
  datatype Adoption = Adoption(epoch: u64, role: ValidatorRole, height: u128, fetchedAt: nat, blockAt: nat)

  /** An operation that changed the table, at the time it did. */
  datatype Op =
    | Request(at: nat, handler: nat, view: Shared, req: SignRequest, sig: string)
    | Clearing(at: nat, loadedAt: nat, last: u128)

  /** `cronAlive` is false once a panic has ended the task that runs the jobs.
      The last five fields are history and decide nothing; `stores` are the times of the
      contract job's stores, those of adoption `i` at `2 * i` (epoch) and `2 * i + 1` (role). */
  datatype System = System(
    shared: Shared,
    rows: Transactions,
    handlers: map<nat, Handler>,
    contract: ContractPc,
    clearing: ClearPc,
    cronAlive: bool,
    initial: Transactions,
    past: seq<Moment>,
    stores: seq<nat>,
    adoptions: seq<Adoption>,
    ops: seq<Op>)

  /** The state a validator starts in, over whatever table an earlier run left. */
  function Boot(rows: Transactions): System {
    System(INITIAL, rows, map[], Resting, ClearResting, true, rows, [], [], [], [])
  }

  /** What happens next, with everything the outside decides about it. */
  datatype Event =
    | Arrive(id: nat, req: SignRequest)
    | Advance(id: nat, env: Env)
    | Fetch(snapshot: Option<Contract.Snapshot>)
    | AdvanceContract
    | Sync(height: Option<u128>)
    | LoadForClear
    | Delete(reachable: bool)

  function AdvanceHandler(cfg: Config, s: System, id: nat, env: Env): System
    requires id in s.handlers
  {
    var h := s.handlers[id];
    var (h', rows') := HandlerStep(cfg, |s.past|, |s.ops|, s.shared, s.rows, h, env);
    s.(handlers := s.handlers[id := h'], rows := rows',
       ops := if h'.committed && !h.committed then s.ops + [OpOf(id, h')] else s.ops)
  }

  function OpOf(id: nat, h: Handler): Op {
    Request(h.insertAt, id, Shared(h.block, h.epoch, Cosigner), h.req, h.sig)
  }

  function ContractStep(cfg: Config, s: System): System {
    match s.contract
    case Resting => s
    case Fetched(n, fetchedAt) => s.(contract := SawBlock(n, fetchedAt, s.shared.block, |s.past|))
    case SawBlock(n, fetchedAt, block, at) =>
      s.(contract := if Contract.Adopts(n, block, s.shared.epoch) then Adopting(n, fetchedAt, at) else Resting)
    case Adopting(n, fetchedAt, at) =>
      if n.epochSeq >= TWO_TO_THE_64 then s.(cronAlive := false)
      else StoreEpoch(s, n, AdoptionOf(cfg, n, fetchedAt, at))
    case EpochStored(n, _) => StoreRole(s, Contract.RoleIn(cfg.validator, n))
  }

  function AdoptionOf(cfg: Config, n: Contract.Snapshot, fetchedAt: nat, blockAt: nat): Adoption
    requires n.epochSeq < TWO_TO_THE_64
  {
    Adoption(n.epochSeq, Contract.RoleIn(cfg.validator, n), n.epochHeight, fetchedAt, blockAt)
  }

  function StoreEpoch(s: System, n: Contract.Snapshot, a: Adoption): System {
    s.(shared := s.shared.(epoch := a.epoch), contract := EpochStored(n, a.fetchedAt),
       stores := s.stores + [|s.past|], adoptions := s.adoptions + [a])
  }

  function StoreRole(s: System, role: ValidatorRole): System {
    s.(shared := s.shared.(role := role), contract := Resting, stores := s.stores + [|s.past|])
  }

  function DeleteStep(cfg: Config, s: System, reachable: bool): System
    requires s.clearing.ClearLoaded?
  {
    match ClearThreshold(cfg.build, s.clearing.epoch, KEPT_EPOCHS)
    case None => s.(cronAlive := false)
    case Some(last) =>
      if reachable then
        s.(rows := Clear(cfg.build.endian, s.rows, last), clearing := ClearResting,
           ops := s.ops + [Clearing(|s.past|, s.clearing.loadedAt, last)])
      else s.(clearing := ClearResting)
  }

  /** An event that cannot happen now changes nothing: a job never overlaps itself, and no job
      runs after a panic in any of them. */
  function Effect(cfg: Config, s: System, e: Event): System {
    match e
    case Arrive(id, req) =>
      if id in s.handlers then s else s.(handlers := s.handlers[id := NewHandler(req, |s.past|)])
    case Advance(id, env) =>
      if id in s.handlers && Permitted(cfg, s.handlers[id].req, env) then AdvanceHandler(cfg, s, id, env) else s
    case Fetch(snapshot) =>
      if s.cronAlive && s.contract.Resting? && snapshot.Some?
      then s.(contract := Fetched(snapshot.value, |s.past|)) else s
    case AdvanceContract =>
      if s.cronAlive then ContractStep(cfg, s) else s
    case Sync(height) =>
      if !s.cronAlive || height.None? then s
      else if height.value >= TWO_TO_THE_64 then s.(cronAlive := false)
      else s.(shared := s.shared.(block := height.value))
    case LoadForClear =>
      if s.cronAlive && s.clearing.ClearResting?
      then s.(clearing := ClearLoaded(s.shared.epoch, |s.past|)) else s
    case Delete(reachable) =>
      if s.cronAlive && s.clearing.ClearLoaded? then DeleteStep(cfg, s, reachable) else s
  }

  function Now(s: System): Moment {
    Moment(s.shared, |s.stores|)
  }

  function Step(cfg: Config, s: System, e: Event): System {
    Effect(cfg, s, e).(past := s.past + [Now(s)])
  }

  /** A run: any sequence of events is one. */
  function Exec(cfg: Config, s: System, events: seq<Event>): System
    decreases |events|
  {
    if events == [] then s else Exec(cfg, Step(cfg, s, events[0]), events[1..])
  }

  lemma ExecCons(cfg: Config, s: System, e: Event, events: seq<Event>)
    ensures Exec(cfg, s, [e] + events) == Exec(cfg, Step(cfg, s, e), events)
  {
    assert ([e] + events)[1..] == events;
  }

  lemma {:induction false} ExecConcat(cfg: Config, s: System, before: seq<Event>, after: seq<Event>)
    ensures Exec(cfg, s, before + after) == Exec(cfg, Exec(cfg, s, before), after)
    decreases |before|
  {
    if before == [] {
      assert before + after == after;
    } else {
      ExecConcat(cfg, Step(cfg, s, before[0]), before[1..], after);
      assert (before + after)[1..] == before[1..] + after;
    }
  }

  lemma {:induction false} ExecExtendsPast(cfg: Config, s: System, events: seq<Event>)
    ensures |Exec(cfg, s, events).past| == |s.past| + |events|
    ensures s.past <= Exec(cfg, s, events).past
    decreases |events|
  {
    if events != [] {
      ExecExtendsPast(cfg, Step(cfg, s, events[0]), events[1..]);
    }
  }

  /** The history is true: entry `i` is what the atomics held after the first `i` events. */
  lemma PastIsTheRun(cfg: Config, rows: Transactions, events: seq<Event>, i: nat)
    requires i < |events|
    ensures |Exec(cfg, Boot(rows), events).past| == |events|
    ensures Exec(cfg, Boot(rows), events).past[i] == Now(Exec(cfg, Boot(rows), events[..i]))
  {
    var s := Exec(cfg, Boot(rows), events[..i]);
    var s' := Step(cfg, s, events[i]);
    assert events == events[..i] + events[i..];
    ExecConcat(cfg, Boot(rows), events[..i], events[i..]);
    ExecExtendsPast(cfg, Boot(rows), events[..i]);
    assert events[i..][1..] == events[i + 1..];
    ExecExtendsPast(cfg, s', events[i + 1..]);
    assert s'.past[i] == Now(s);
  }
}
