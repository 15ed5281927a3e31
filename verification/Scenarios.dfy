/** Runs in which the validator does something that its checks alone do not rule out. */
module Scenarios {
  import opened Cosigning
  import opened Epochs
  import opened Invariant
  import opened Linearization
  import opened Messages
  import opened Models
  import opened Queries
  import opened Retention
  import opened Safety
  import opened Sign
  import opened ValidatorState
  import opened Words
  import opened Wrappers

  // ----- only the key closes the race

  /** A request that a validator in state `shared` accepts on sight. */
  predicate Acceptable(cfg: Config, shared: Shared, req: SignRequest, sig: string) {
    && req.validator == cfg.validator && WindowOpen(req.block, shared.block) && Verified(cfg, req)
    && cfg.cosigns(SignChunks(req, cfg.bundler), sig)
  }

  /** Six steps of a handler nothing stops: it holds a signature and has yet to read the epoch. */
  function Signed(req: SignRequest, startedAt: nat, shared: Shared, sig: string): Handler {
    NewHandler(req, startedAt).(
      pc := ReadEpoch, roleAt := startedAt + 1, block := shared.block, blockAt := startedAt + 3, sig := sig)
  }

  lemma ThreeStepsRead(cfg: Config, s: System, id: nat, sig: string, startedAt: nat)
    requires id in s.handlers && s.handlers[id] == NewHandler(s.handlers[id].req, startedAt)
    requires |s.past| == startedAt + 1
    requires s.shared.role == Cosigner && s.handlers[id].req.id !in s.rows
    requires Acceptable(cfg, s.shared, s.handlers[id].req, sig)
    ensures var s' := Exec(cfg, s, Advances(id, Undisturbed(sig), 3));
            && s'.handlers == s.handlers[id := s.handlers[id].(
                 pc := CheckRequest, roleAt := startedAt + 1, block := s.shared.block, blockAt := startedAt + 3)]
            && s'.rows == s.rows && s'.shared == s.shared && |s'.past| == |s.past| + 3
  {
    var e := Advance(id, Undisturbed(sig));
    var h := s.handlers[id];
    var s1 := Step(cfg, s, e);
    assert s1.handlers[id] == h.(pc := CheckExists, roleAt := |s.past|);
    var s2 := Step(cfg, s1, e);
    assert s2.handlers[id] == s1.handlers[id].(pc := ReadBlock);
    var s3 := Step(cfg, s2, e);
    assert s3.handlers[id] == s2.handlers[id].(pc := CheckRequest, block := s.shared.block, blockAt := |s2.past|);
    AdvancesUnfold(cfg, s, e, 3);
    AdvancesUnfold(cfg, s1, e, 2);
    AdvancesUnfold(cfg, s2, e, 1);
  }

  lemma ThreeStepsSign(cfg: Config, s: System, id: nat, sig: string)
    requires id in s.handlers && s.handlers[id].pc.CheckRequest?
    requires var h := s.handlers[id]; Acceptable(cfg, s.shared.(block := h.block), h.req, sig)
    ensures var s' := Exec(cfg, s, Advances(id, Undisturbed(sig), 3));
            && s'.handlers == s.handlers[id := s.handlers[id].(pc := ReadEpoch, sig := sig)]
            && s'.rows == s.rows && s'.shared == s.shared && |s'.past| == |s.past| + 3
  {
    var e := Advance(id, Undisturbed(sig));
    var s1 := Step(cfg, s, e);
    assert s1.handlers[id] == s.handlers[id].(pc := CheckSignature);
    var s2 := Step(cfg, s1, e);
    assert s2.handlers[id] == s1.handlers[id].(pc := MakeSignature);
    var s3 := Step(cfg, s2, e);
    assert s3.handlers[id] == s2.handlers[id].(pc := ReadEpoch, sig := sig);
    AdvancesUnfold(cfg, s, e, 3);
    AdvancesUnfold(cfg, s1, e, 2);
    AdvancesUnfold(cfg, s2, e, 1);
  }

  lemma SixStepsSign(cfg: Config, s: System, id: nat, sig: string, startedAt: nat)
    requires id in s.handlers && s.handlers[id] == NewHandler(s.handlers[id].req, startedAt)
    requires |s.past| == startedAt + 1
    requires s.shared.role == Cosigner && s.handlers[id].req.id !in s.rows
    requires Acceptable(cfg, s.shared, s.handlers[id].req, sig)
    ensures var s' := Exec(cfg, s, Advances(id, Undisturbed(sig), 6));
            && s'.handlers == s.handlers[id := Signed(s.handlers[id].req, startedAt, s.shared, sig)]
            && s'.rows == s.rows && s'.shared == s.shared && |s'.past| == |s.past| + 6
  {
    ThreeStepsRead(cfg, s, id, sig, startedAt);
    var mid := Exec(cfg, s, Advances(id, Undisturbed(sig), 3));
    ThreeStepsSign(cfg, mid, id, sig);
    assert mid.handlers[id].(pc := ReadEpoch, sig := sig) == Signed(s.handlers[id].req, startedAt, s.shared, sig);
    SixIsThreeAndThree(cfg, s, id, Undisturbed(sig));
  }

  lemma SixIsThreeAndThree(cfg: Config, s: System, id: nat, env: Env)
    ensures Exec(cfg, s, Advances(id, env, 6)) == Exec(cfg, Exec(cfg, s, Advances(id, env, 3)), Advances(id, env, 3))
  {
    assert Advances(id, env, 6) == Advances(id, env, 3) + Advances(id, env, 3);
    ExecConcat(cfg, s, Advances(id, env, 3), Advances(id, env, 3));
  }

  lemma AdvancesUnfold(cfg: Config, s: System, e: Event, n: nat)
    requires e.Advance? && n > 0
    ensures Exec(cfg, s, Advances(e.id, e.env, n)) == Exec(cfg, Step(cfg, s, e), Advances(e.id, e.env, n - 1))
  {
    assert Advances(e.id, e.env, n)[1..] == Advances(e.id, e.env, n - 1);
  }

  /** Two promises for one id, `a` first to arrive. Both get past the existence check and both
      cosignatures are made; that only one row goes in is the primary key's doing. */
  lemma BothSideOfRaceSign(cfg: Config, rows: Transactions, a: SignRequest, b: SignRequest, sigA: string, sigB: string)
    requires Acceptable(cfg, INITIAL, a, sigA) && Acceptable(cfg, INITIAL, b, sigB)
    requires a.id == b.id && a.id !in rows
    ensures var race := [Arrive(0, a)] + Advances(0, Undisturbed(sigA), 6)
                        + ([Arrive(1, b)] + Advances(1, Undisturbed(sigB), 6));
            var s := After(cfg, rows, race);
            && 0 in s.handlers && s.handlers[0] == Signed(a, 0, INITIAL, sigA)
            && 1 in s.handlers && s.handlers[1] == Signed(b, 7, INITIAL, sigB)
            && s.rows == rows
  {
    var first := [Arrive(0, a)] + Advances(0, Undisturbed(sigA), 6);
    var second := [Arrive(1, b)] + Advances(1, Undisturbed(sigB), 6);
    var s0 := Step(cfg, Boot(rows), Arrive(0, a));
    assert first[1..] == Advances(0, Undisturbed(sigA), 6);
    SixStepsSign(cfg, s0, 0, sigA, 0);
    var s1 := After(cfg, rows, first);
    var s2 := Step(cfg, s1, Arrive(1, b));
    assert second[1..] == Advances(1, Undisturbed(sigB), 6);
    SixStepsSign(cfg, s2, 1, sigB, 7);
    ExecConcat(cfg, Boot(rows), first, second);
  }

  /** From there whichever handler inserts first is answered with its cosignature, and the
      other with an internal error. */
  lemma FirstInsertWins(cfg: Config, s: System, winner: nat, loser: nat)
    requires winner in s.handlers && loser in s.handlers && winner != loser
    requires s.handlers[winner].pc.ReadEpoch? && s.handlers[loser].pc.ReadEpoch?
    requires s.handlers[winner].req.id == s.handlers[loser].req.id && s.handlers[winner].req.id !in s.rows
    requires Permitted(cfg, s.handlers[winner].req, CALM) && Permitted(cfg, s.handlers[loser].req, CALM)
    ensures var s' := Exec(cfg, s, Advances(winner, CALM, 3) + Advances(loser, CALM, 2));
            && winner in s'.handlers && s'.handlers[winner].pc == Done(Released(s.handlers[winner].sig))
            && loser in s'.handlers && s'.handlers[loser].pc == Done(InternalError)
            && s'.rows == s.rows[s.handlers[winner].req.id :=
                 RowFor(s.handlers[winner].req, s.shared.epoch, s.handlers[winner].sig)]
  {
    ExecConcat(cfg, s, Advances(winner, CALM, 3), Advances(loser, CALM, 2));
    WinnerReplies(cfg, s, winner);
    LoserFails(cfg, Exec(cfg, s, Advances(winner, CALM, 3)), loser);
  }

  lemma WinnerReplies(cfg: Config, s: System, id: nat)
    requires id in s.handlers && s.handlers[id].pc.ReadEpoch? && s.handlers[id].req.id !in s.rows
    requires Permitted(cfg, s.handlers[id].req, CALM)
    ensures var h, s' := s.handlers[id], Exec(cfg, s, Advances(id, CALM, 3));
            && id in s'.handlers && s'.handlers[id].pc == Done(Released(h.sig))
            && s'.handlers == s.handlers[id := s'.handlers[id]]
            && s'.rows == s.rows[h.req.id := RowFor(h.req, s.shared.epoch, h.sig)]
  {
    var e := Advance(id, CALM);
    var s1 := Step(cfg, s, e);
    assert s1.handlers[id] == s.handlers[id].(pc := InsertRow, epoch := s.shared.epoch, epochAt := |s.past|);
    InsertAndReply(cfg, s1, id);
    AdvancesUnfold(cfg, s, e, 3);
  }

  lemma InsertAndReply(cfg: Config, s: System, id: nat)
    requires id in s.handlers && s.handlers[id].pc.InsertRow? && s.handlers[id].req.id !in s.rows
    requires Permitted(cfg, s.handlers[id].req, CALM)
    ensures var h, s' := s.handlers[id], Exec(cfg, s, Advances(id, CALM, 2));
            && id in s'.handlers && s'.handlers[id].pc == Done(Released(h.sig))
            && s'.handlers == s.handlers[id := s'.handlers[id]]
            && s'.rows == s.rows[h.req.id := RowFor(h.req, h.epoch, h.sig)]
  {
    var e := Advance(id, CALM);
    var s1 := Step(cfg, s, e);
    assert s1.handlers[id].pc == Reply && s1.handlers[id].sig == s.handlers[id].sig;
    AdvancesUnfold(cfg, s, e, 2);
    AdvancesUnfold(cfg, s1, e, 1);
  }

  lemma LoserFails(cfg: Config, s: System, id: nat)
    requires id in s.handlers && s.handlers[id].pc.ReadEpoch? && s.handlers[id].req.id in s.rows
    requires Permitted(cfg, s.handlers[id].req, CALM)
    ensures var s' := Exec(cfg, s, Advances(id, CALM, 2));
            && id in s'.handlers && s'.handlers[id].pc == Done(InternalError)
            && s'.handlers == s.handlers[id := s'.handlers[id]] && s'.rows == s.rows
  {
    var e := Advance(id, CALM);
    var s1 := Step(cfg, s, e);
    assert s1.handlers[id] == s.handlers[id].(pc := InsertRow, epoch := s.shared.epoch, epochAt := |s.past|);
    var s2 := Step(cfg, s1, e);
    AdvancesUnfold(cfg, s, e, 2);
    AdvancesUnfold(cfg, s1, e, 1);
  }

  const CALM: Env := Env(Answered, true, None, Executed)

  // ----- a row for an epoch in which the validator is idle

  lemma AdoptionRuns(cfg: Config, s: System, n: Contract.Snapshot)
    requires s.cronAlive && s.contract.Resting? && n.epochSeq < TWO_TO_THE_64
    requires Contract.Adopts(n, s.shared.block, s.shared.epoch)
    ensures var s' := Exec(cfg, s, ContractRun(n));
            var role := Contract.RoleIn(cfg.validator, n);
            s' == s.(shared := s.shared.(epoch := n.epochSeq, role := role),
                     stores := s.stores + [|s.past| + 3, |s.past| + 4],
                     adoptions := s.adoptions + [AdoptionOf(cfg, n, |s.past|, |s.past| + 1)], past := s'.past)
  {
    FiveSteps(cfg, s, n);
    FetchAndLoad(cfg, s, n);
    TwoStores(cfg, Step(cfg, Step(cfg, Step(cfg, s, Fetch(Some(n))), AdvanceContract), AdvanceContract), n);
  }

  lemma OnlyIdleAdoption(s: System)
    requires |s.adoptions| == 1 && s.adoptions[0].epoch > 0 && s.adoptions[0].role == Idle
    ensures !CosignsIn(s, s.adoptions[0].epoch)
  {
  }

  /** The rest of a run in which a handler has read the role before an adoption that does not
      nominate the validator. */
  lemma AdoptionThenInsert(cfg: Config, s: System, id: nat, sig: string, n: Contract.Snapshot)
    requires id in s.handlers && s.handlers[id].pc.ReadEpoch? && s.handlers[id].req.id !in s.rows
    requires Permitted(cfg, s.handlers[id].req, Undisturbed(sig))
    requires s.cronAlive && s.contract.Resting? && s.adoptions == [] && s.shared == INITIAL
    requires 0 < n.epochSeq < TWO_TO_THE_64 && n.epochHeight == 0 && cfg.validator !in n.nominated
    ensures var s' := Exec(cfg, s, ContractRun(n) + Advances(id, Undisturbed(sig), 2));
            && s.handlers[id].req.id in s'.rows && s'.rows[s.handlers[id].req.id].epoch == n.epochSeq
            && s'.shared.role == Idle && !CosignsIn(s', n.epochSeq)
  {
    ExecConcat(cfg, s, ContractRun(n), Advances(id, Undisturbed(sig), 2));
    AdoptionRuns(cfg, s, n);
    ReadEpochAndInsert(cfg, Exec(cfg, s, ContractRun(n)), id, sig);
    OnlyIdleAdoption(Exec(cfg, Exec(cfg, s, ContractRun(n)), Advances(id, Undisturbed(sig), 2)));
  }

  /** A handler reads the role, the contract job adopts epoch `n.epochSeq` without nominating
      this validator, and the handler goes on: its row is for an epoch in which the validator
      is idle. */
  lemma StaleRoleMakesRow(cfg: Config, rows: Transactions, req: SignRequest, sig: string, n: Contract.Snapshot)
    requires Acceptable(cfg, INITIAL, req, sig) && req.id !in rows
    requires 0 < n.epochSeq < TWO_TO_THE_64 && n.epochHeight == 0 && cfg.validator !in n.nominated
    ensures var s := After(cfg, rows, [Arrive(0, req)] + Advances(0, Undisturbed(sig), 6)
                                      + (ContractRun(n) + Advances(0, Undisturbed(sig), 2)));
            req.id in s.rows && s.rows[req.id].epoch == n.epochSeq && s.shared.role == Idle
    ensures !Cosigned(cfg, rows, [Arrive(0, req)] + Advances(0, Undisturbed(sig), 6)
                                 + (ContractRun(n) + Advances(0, Undisturbed(sig), 2)), n.epochSeq)
  {
    var steps := Advances(0, Undisturbed(sig), 6);
    var s0 := Step(cfg, Boot(rows), Arrive(0, req));
    assert ([Arrive(0, req)] + steps)[1..] == steps;
    SixStepsSign(cfg, s0, 0, sig, 0);
    JobsIgnoreHandlers(cfg, s0, steps);
    ExecConcat(cfg, Boot(rows), [Arrive(0, req)] + steps, ContractRun(n) + Advances(0, Undisturbed(sig), 2));
    AdoptionThenInsert(cfg, Exec(cfg, s0, steps), 0, sig, n);
    CosignedIff(cfg, rows, [Arrive(0, req)] + steps + (ContractRun(n) + Advances(0, Undisturbed(sig), 2)), n.epochSeq);
  }

  lemma ReadEpochAndInsert(cfg: Config, s: System, id: nat, sig: string)
    requires id in s.handlers && s.handlers[id].pc.ReadEpoch? && s.handlers[id].req.id !in s.rows
    requires Permitted(cfg, s.handlers[id].req, Undisturbed(sig))
    ensures var s' := Exec(cfg, s, Advances(id, Undisturbed(sig), 2));
            && s'.rows == s.rows[s.handlers[id].req.id :=
                 RowFor(s.handlers[id].req, s.shared.epoch, s.handlers[id].sig)]
            && s'.shared == s.shared && s'.adoptions == s.adoptions
  {
    var e := Advance(id, Undisturbed(sig));
    var s1 := Step(cfg, s, e);
    assert s1.handlers[id] == s.handlers[id].(pc := InsertRow, epoch := s.shared.epoch, epochAt := |s.past|);
    var s2 := Step(cfg, s1, e);
    AdvancesUnfold(cfg, s, e, 2);
    AdvancesUnfold(cfg, s1, e, 1);
  }

  /** Handler steps leave the jobs and the atomics alone. */
  lemma {:induction false} JobsIgnoreHandlers(cfg: Config, s: System, events: seq<Event>)
    requires forall e | e in events :: e.Advance?
    ensures var s' := Exec(cfg, s, events);
            && s'.shared == s.shared && s'.contract == s.contract && s'.clearing == s.clearing
            && s'.cronAlive == s.cronAlive && s'.stores == s.stores && s'.adoptions == s.adoptions
    decreases |events|
  {
    if events != [] {
      var s1 := Step(cfg, s, events[0]);
      assert events[0] in events;
      assert s1.shared == s.shared && s1.contract == s.contract && s1.clearing == s.clearing
             && s1.cronAlive == s.cronAlive && s1.stores == s.stores && s1.adoptions == s.adoptions;
      JobsIgnoreHandlers(cfg, s1, events[1..]);
    }
  }

  // ----- the clearing job at start-up

  /** The clearing job runs at once, at epoch 0. Built with overflow checks, it panics, and the
      jobs are over: the atomics never change again and no row is ever cleared. Built without,
      it deletes, for good, exactly the validated rows below the wrapped threshold: every epoch
      that fits 64 bits on a big-endian host, those with a lowest byte of at most 216 on a
      little-endian one. */
  lemma FirstClear(cfg: Config, rows: Transactions, later: seq<Event>, id: string)
    requires id in rows
    ensures var cleared, s := After(cfg, rows, START), After(cfg, rows, START + later);
            && (cfg.build.overflowChecks ==> s.shared == INITIAL && Holds(s.rows, id, rows[id]))
            && (!cfg.build.overflowChecks ==>
                  (Holds(cleared.rows, id, rows[id]) <==>
                     !rows[id].validated || !BelowWrapped(cfg.build.endian, rows[id].epoch)))
            && (!Holds(cleared.rows, id, rows[id]) ==> !Holds(s.rows, id, rows[id]))
  {
    var s1 := Step(cfg, Boot(rows), LoadForClear);
    var s2 := Step(cfg, s1, Delete(true));
    assert START[1..] == [Delete(true)] && [Delete(true)][1..] == [];
    assert After(cfg, rows, START) == Exec(cfg, s1, [Delete(true)]) == s2;
    ExecConcat(cfg, Boot(rows), START, later);
    if cfg.build.overflowChecks {
      DeadJobsStayDead(cfg, s2, later, id);
    } else {
      SelectedAtStart(cfg.build, rows[id]);
      assert s2.rows == Clear(cfg.build.endian, rows, TWO_TO_THE_128 - KEPT_EPOCHS);
      if !Holds(s2.rows, id, rows[id]) {
        GoneStaysGone(cfg, s2, later, id, rows[id]);
      }
    }
  }

  const START: seq<Event> := [LoadForClear, Delete(true)]

  /** Every epoch the atomic can hold is below the wrapped threshold of a big-endian host; a
      little-endian one keeps, for instance, epoch 217. */
  lemma WrappedSelection(epoch: u64)
    ensures BelowWrapped(Big, epoch)
    ensures BelowWrapped(Little, epoch) <==> epoch % 256 <= 216
    ensures !BelowWrapped(Little, 217)
  {
  }

  lemma {:induction false} DeadJobsStayDead(cfg: Config, s: System, events: seq<Event>, id: string)
    requires !s.cronAlive && id in s.rows
    ensures var s' := Exec(cfg, s, events);
            !s'.cronAlive && s'.shared == s.shared && Holds(s'.rows, id, s.rows[id])
    decreases |events|
  {
    if events != [] {
      var s' := Step(cfg, s, events[0]);
      StepKeepsOrClears(cfg, s, events[0], id);
      assert !s'.cronAlive && s'.shared == s.shared;
      DeadJobsStayDead(cfg, s', events[1..], id);
    }
  }

  lemma {:induction false} GoneStaysGone(cfg: Config, s: System, events: seq<Event>, id: string, row: Transaction)
    requires row.validated && !Holds(s.rows, id, row)
    ensures !Holds(Exec(cfg, s, events).rows, id, row)
    decreases |events|
  {
    if events != [] {
      var s' := Step(cfg, s, events[0]);
      if id in s'.rows {
        StepAddsUnvalidated(cfg, s, events[0], id);
      }
      GoneStaysGone(cfg, s', events[1..], id, row);
    }
  }

  // ----- clearing on a little-endian host

  lemma Wraps()
    ensures ClearIsSafe(Build(Big, true), 290, 256) && !ClearIsSafe(Build(Little, true), 290, 256)
    ensures Victim(Build(Little, true), 290, 256) == 256
  {
    assert NextWrap(250) == 256;
  }

  lemma Epoch256IsSelected(endian: Endian)
    ensures Selected(endian, SomeRow(256, true), 250) <==> endian.Little?
  {
    Wraps();
    EncodedOrder(256, 250);
    VictimIsSelected(Build(Little, true), 290, 256, 250);
  }

  /** At epoch 290 a little-endian host deletes a validated row of epoch 256, which a
      big-endian host keeps. */
  lemma LittleEndianClearsTooMuch(cfg: Config, n: Contract.Snapshot)
    requires n.epochSeq == 290 && n.epochHeight == 0
    ensures var row := SomeRow(256, true);
            var s := After(cfg, map["a" := row], ContractRun(n) + [LoadForClear] + [Delete(true)]);
            s.shared.epoch == 290 && (Holds(s.rows, "a", row) <==> cfg.build.endian.Big?)
  {
    var row := SomeRow(256, true);
    var rows := map["a" := row];
    AdoptionRuns(cfg, Boot(rows), n);
    var s := After(cfg, rows, ContractRun(n));
    ExecSnoc(cfg, Boot(rows), ContractRun(n), LoadForClear);
    ExecSnoc(cfg, Boot(rows), ContractRun(n) + [LoadForClear], Delete(true));
    Epoch256IsSelected(cfg.build.endian);
    LoadAndDelete(cfg, s);
  }

  lemma LoadAndDelete(cfg: Config, s: System)
    requires s.cronAlive && s.clearing.ClearResting? && s.shared.epoch >= KEPT_EPOCHS
    ensures var s' := Step(cfg, Step(cfg, s, LoadForClear), Delete(true));
            s'.shared == s.shared && s'.rows == Clear(cfg.build.endian, s.rows, s.shared.epoch - KEPT_EPOCHS)
  {
  }
}
