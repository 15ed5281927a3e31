/** The cosigning route, run by itself. */
module Sign {
  import opened Messages
  import opened Models
  import opened Queries
  import opened ValidatorState
  import opened Words
  import opened Wrappers

  /** What is fixed for the life of a validator. Hashing and key pairs appear as relations on
      chunk lists: `decodes` and `verifies` are about the bundler's encoded signature,
      `cosigns(m, s)` says that `s` encodes a signature of the validator's key over `m`;
      `isText` says of stored bytes that they are UTF-8. */
  datatype Config = Config(
    validator: string,
    bundler: string,
    decodes: string -> bool,
    verifies: (seq<string>, string) -> bool,
    cosigns: (seq<string>, string) -> bool,
    isText: string -> bool,
    build: Build)

  datatype Reason = NotCosigner | WrongValidator | WrongBlock | WrongSignature

  datatype Response = Released(sig: string) | Accepted | BadRequest(reason: Reason) | InternalError

  /** The existence query is answered, fails in the database, or its task is lost. */
  datatype QueryOutcome = Answered | QueryFailed | TaskLost

  /** The insert statement runs and reports, never runs, or runs and its report is lost. */
  datatype InsertOutcome = Executed | NotExecuted | ReportLost

  /** Everything outside the validator that one request meets. */
  datatype Env = Env(query: QueryOutcome, hashed: bool, signature: Option<string>, insert: InsertOutcome)

  predicate Permitted(cfg: Config, req: SignRequest, env: Env) {
    env.signature.Some? ==> cfg.cosigns(SignChunks(req, cfg.bundler), env.signature.value)
  }

  // ----- the checks

  /** Whether the promised block is accepted at height `current`; the differences are u128
      subtractions. */
  predicate WindowOpen(promised: u128, current: u64) {
    if promised < current then false
    else if promised > current && SubU128(promised, current) < 395 then false
    else if promised > current && SubU128(promised, current) > 405 then false
    else true
  }

  /** Subtraction on u128 is defined only when it does not underflow. */
  function SubU128(a: u128, b: u128): u128
    requires b <= a
  {
    a - b
  }

  lemma WindowOpenIff(promised: u128, current: u64)
    ensures WindowOpen(promised, current) <==> promised == current || current + 395 <= promised <= current + 405
  {
  }

  /** `verify` finds the bundler's signature to be good. */
  predicate Verified(cfg: Config, req: SignRequest) {
    cfg.decodes(req.signature) && cfg.verifies(VerifyChunks(req), req.signature)
  }

  function RowFor(req: SignRequest, epoch: u64, sig: string): Transaction {
    Transaction(epoch, req.block, None, sig, false, None)
  }

  // ----- the route as one atomic request

  /** The reply of a request that sees one unchanging shared state, and the table it leaves. */
  function SignAlone(cfg: Config, view: Shared, rows: Transactions, req: SignRequest, env: Env)
    : (Response, Transactions)
  {
    if view.role != Cosigner then (BadRequest(NotCosigner), rows)
    else if env.query == TaskLost then (InternalError, rows)
    else if env.query == Answered && req.id in rows then (Accepted, rows)
    else if req.validator != cfg.validator then (BadRequest(WrongValidator), rows)
    else if !WindowOpen(req.block, view.block) then (BadRequest(WrongBlock), rows)
    else if !env.hashed || !cfg.decodes(req.signature) then (InternalError, rows)
    else if !cfg.verifies(VerifyChunks(req), req.signature) then (BadRequest(WrongSignature), rows)
    else if env.signature.None? then (InternalError, rows)
    else if env.insert == NotExecuted || req.id in rows then (InternalError, rows)
    else
      var sig := env.signature.value;
      (if env.insert == ReportLost then InternalError else Released(sig), rows[req.id := RowFor(req, view.epoch, sig)])
  }

  /** The row records the promise of `req`: its block, as it stands in the lists that the bundler
      and the validator signed, the epoch, and the validator's signature; nothing has been seen
      of the transaction on the network yet. */
  predicate IsPromise(row: Transaction, req: SignRequest, epoch: u64, sig: string) {
    && row.blockPromised == req.block
    && row.epoch == epoch
    && row.signature == sig
    && row.blockActual.None? && row.bundleId.None? && !row.validated
  }

  /** The promise of the route: a cosignature is released exactly for an absent id, by a
      nominated validator, on a verified request inside the block window; and the table gains
      exactly that row. */
  lemma ReleasedIff(cfg: Config, view: Shared, rows: Transactions, req: SignRequest, env: Env)
    ensures var (resp, rows') := SignAlone(cfg, view, rows, req, env);
            && (resp.Released? <==>
                && view.role == Cosigner && req.id !in rows
                && req.validator == cfg.validator
                && (req.block == view.block || view.block + 395 <= req.block <= view.block + 405)
                && Verified(cfg, req) && env.hashed && env.signature.Some?
                && env.query != TaskLost && env.insert == Executed)
            && (resp.Released? ==> resp.sig == env.signature.value && req.id in rows')
            && (rows' != rows <==> req.id in rows' && req.id !in rows)
            && (rows' != rows ==>
                  && (resp.Released? || (resp == InternalError && env.insert == ReportLost))
                  && IsPromise(rows'[req.id], req, view.epoch, env.signature.value)
                  && rows' == rows[req.id := rows'[req.id]])
            && (resp == Accepted <==> view.role == Cosigner && env.query == Answered && req.id in rows)
            && (resp == BadRequest(NotCosigner) <==> view.role != Cosigner)
            && (resp.BadRequest? || resp == Accepted ==> rows' == rows)
  {
    WindowOpenIff(req.block, view.block);
  }

  /** Every other reply, each with its exact condition. A request reaches the checks if the
      validator cosigns and the query does not stop it. */
  lemma RefusedIff(cfg: Config, view: Shared, rows: Transactions, req: SignRequest, env: Env)
    ensures var resp := SignAlone(cfg, view, rows, req, env).0;
            var asked := view.role == Cosigner && env.query != TaskLost && !(env.query == Answered && req.id in rows);
            var addressed := asked && req.validator == cfg.validator;
            var inWindow := addressed
                            && (req.block == view.block || view.block + 395 <= req.block <= view.block + 405);
            var checked := inWindow && env.hashed && cfg.decodes(req.signature);
            var good := checked && cfg.verifies(VerifyChunks(req), req.signature);
            && (resp == BadRequest(WrongValidator) <==> asked && req.validator != cfg.validator)
            && (resp == BadRequest(WrongBlock) <==> addressed && !inWindow)
            && (resp == BadRequest(WrongSignature) <==> checked && !good)
            && (resp == InternalError <==>
                  || (view.role == Cosigner && env.query == TaskLost)
                  || (inWindow && !checked)
                  || (good && (env.signature.None? || req.id in rows || env.insert != Executed)))
  {
    WindowOpenIff(req.block, view.block);
  }

  /** `sign_route` with nothing running beside it. */
  method SignRoute(cfg: Config, state: State, db: Database, req: SignRequest, env: Env) returns (resp: Response)
    requires state.Valid()
    modifies db`transactions
    ensures (resp, db.transactions) == SignAlone(cfg, state.View(), old(db.transactions), req, env)
  {
    var role := state.Role();
    if role != Cosigner {
      return BadRequest(NotCosigner);
    }

    if env.query == TaskLost {
      return InternalError;
    }
    var found := db.GetTx(req.id, env.query == Answered);
    if found.Ok? {
      return Accepted;
    }

    var currentBlock := state.currentBlock;
    if req.validator != cfg.validator {
      return BadRequest(WrongValidator);
    }
    if !WindowOpen(req.block, currentBlock) {
      return BadRequest(WrongBlock);
    }

    if !env.hashed || !cfg.decodes(req.signature) {
      return InternalError;
    }
    if !cfg.verifies(VerifyChunks(req), req.signature) {
      return BadRequest(WrongSignature);
    }
    if env.signature.None? {
      return InternalError;
    }
    var sig := env.signature.value;

    var currentEpoch := state.currentEpoch;
    var inserted := db.InsertTx(req.id, RowFor(req, currentEpoch, sig), env.insert != NotExecuted);
    if inserted.Err? || env.insert == ReportLost {
      return InternalError;
    }
    resp := Released(sig);
  }

  /** `clear_old_transactions`: load the epoch, then delete. */
  method ClearOldTransactions(build: Build, state: State, db: Database, reachable: bool) returns (r: Deletion)
    requires state.Valid()
    modifies db`transactions
    ensures r.Panicked? <==> state.View().epoch < KEPT_EPOCHS && build.overflowChecks
    ensures !r.Deleted? ==> db.transactions == old(db.transactions)
    ensures r.Deleted? ==>
              && db.transactions == Clear(build.endian, old(db.transactions),
                                          ClearThreshold(build, state.View().epoch, KEPT_EPOCHS).value)
              && r.count + |db.transactions| == |old(db.transactions)|
    ensures forall id | id in db.transactions ::
              id in old(db.transactions) && db.transactions[id] == old(db.transactions)[id]
    ensures forall id | id in old(db.transactions) && !old(db.transactions)[id].validated :: id in db.transactions
    ensures forall hi: u128 | ValidatedUpTo(old(db.transactions), hi) && ClearIsSafe(build, state.View().epoch, hi) ::
              forall id | id in old(db.transactions)
                          && state.View().epoch <= old(db.transactions)[id].epoch + KEPT_EPOCHS ::
                id in db.transactions
  {
    var epoch: u128 := state.currentEpoch;
    ghost var before := db.transactions;
    r := db.Filter(build, epoch, KEPT_EPOCHS, reachable);
    forall hi: u128 | ValidatedUpTo(before, hi) && ClearIsSafe(build, epoch, hi)
      ensures forall id | id in before && epoch <= before[id].epoch + KEPT_EPOCHS :: id in db.transactions
    {
      SafeClearKeepsWindow(build, epoch, hi, before);
    }
  }
}
