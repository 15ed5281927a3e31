/** How long rows stay in the table, over every run. */
module Retention {
  import opened Cosigning
  import opened Epochs
  import opened Invariant
  import opened Models
  import opened Queries
  import opened Safety
  import opened Sign
  import opened Words
  import opened Wrappers

  // ----- one step

  /** A step keeps a row as it is, or it is a clearing step that deletes it. */
  lemma StepKeepsOrClears(cfg: Config, s: System, e: Event, id: string)
    requires id in s.rows
    ensures var s' := Step(cfg, s, e);
            || (id in s'.rows && s'.rows[id] == s.rows[id])
            || (e == Delete(true) && s.clearing.ClearLoaded? && s.cronAlive && s.rows[id].validated
                && (var last := ClearThreshold(cfg.build, s.clearing.epoch, KEPT_EPOCHS);
                    last.Some? && Selected(cfg.build.endian, s.rows[id], last.value)))
  {
    if e.Advance? && e.id in s.handlers {
      AdvanceKeepsRow(cfg, s, e.id, e.env, id);
    }
  }

  lemma AdvanceKeepsRow(cfg: Config, s: System, h: nat, env: Env, id: string)
    requires h in s.handlers && id in s.rows
    ensures id in AdvanceHandler(cfg, s, h, env).rows && AdvanceHandler(cfg, s, h, env).rows[id] == s.rows[id]
  {
  }

  /** Rows that a step adds are not validated. */
  lemma StepAddsUnvalidated(cfg: Config, s: System, e: Event, id: string)
    requires id in Step(cfg, s, e).rows
    ensures (id in s.rows && Step(cfg, s, e).rows[id] == s.rows[id]) || !Step(cfg, s, e).rows[id].validated
  {
    if e.Advance? && e.id in s.handlers && Permitted(cfg, s.handlers[e.id].req, e.env) {
      AdvanceAddsUnvalidated(cfg, s, e.id, e.env, id);
    }
  }

  lemma AdvanceAddsUnvalidated(cfg: Config, s: System, h: nat, env: Env, id: string)
    requires h in s.handlers && id in AdvanceHandler(cfg, s, h, env).rows
    ensures var rows' := AdvanceHandler(cfg, s, h, env).rows;
            (id in s.rows && rows'[id] == s.rows[id]) || !rows'[id].validated
  {
  }

  // ----- every run

  /** No scheduled step ever deletes or alters an unvalidated row; the route inserts no other. */
  lemma {:induction false} UnvalidatedRowsStay(cfg: Config, s: System, events: seq<Event>, id: string)
    requires id in s.rows && !s.rows[id].validated
    ensures id in Exec(cfg, s, events).rows && Exec(cfg, s, events).rows[id] == s.rows[id]
    decreases |events|
  {
    if events != [] {
      StepKeepsOrClears(cfg, s, events[0], id);
      UnvalidatedRowsStay(cfg, Step(cfg, s, events[0]), events[1..], id);
    }
  }

  /** Every clearing step of the run passes the test on the epoch it loaded. */
  predicate ClearsAreSafe(cfg: Config, s: System, events: seq<Event>, hi: u128)
    decreases |events|
  {
    events == [] ||
    (&& (events[0].Delete? && s.clearing.ClearLoaded? ==> ClearIsSafe(cfg.build, s.clearing.epoch, hi))
     && ClearsAreSafe(cfg, Step(cfg, s, events[0]), events[1..], hi))
  }

  lemma SafeStepKeepsRow(cfg: Config, s: System, e: Event, hi: u128, id: string)
    requires EpochsOk(cfg, s) && ValidatedUpTo(s.rows, hi) && id in s.rows
    requires e.Delete? && s.clearing.ClearLoaded? ==> ClearIsSafe(cfg.build, s.clearing.epoch, hi)
    requires s.shared.epoch <= s.rows[id].epoch + KEPT_EPOCHS
    ensures id in Step(cfg, s, e).rows && Step(cfg, s, e).rows[id] == s.rows[id]
  {
    StepKeepsOrClears(cfg, s, e, id);
    if e.Delete? && s.clearing.ClearLoaded? {
      SafeClearKeepsWindow(cfg.build, s.clearing.epoch, hi, s.rows);
    }
  }

  lemma {:induction false} SafeRunKeepsRow(cfg: Config, s: System, events: seq<Event>, hi: u128, id: string)
    requires EpochsOk(cfg, s) && ValidatedUpTo(s.rows, hi) && ClearsAreSafe(cfg, s, events, hi) && id in s.rows
    requires Exec(cfg, s, events).shared.epoch <= s.rows[id].epoch + KEPT_EPOCHS
    ensures id in Exec(cfg, s, events).rows && Exec(cfg, s, events).rows[id] == s.rows[id]
    decreases |events|
  {
    if events != [] {
      var e, s' := events[0], Step(cfg, s, events[0]);
      StepKeepsEpochs(cfg, s, e);
      EpochNeverFalls(cfg, s', events[1..]);
      EpochNeverFalls(cfg, s, [e]);
      assert [e][1..] == [] && Exec(cfg, s, [e]) == s';
      SafeStepKeepsRow(cfg, s, e, hi, id);
      forall k | k in s'.rows && s'.rows[k].validated ensures s'.rows[k].epoch <= hi {
        StepAddsUnvalidated(cfg, s, e, k);
      }
      SafeRunKeepsRow(cfg, s', events[1..], hi, id);
    }
  }

  /** A row present at some point of a run is present, unchanged, at every later point whose
      epoch is at most 40 past the row's, provided every clearing step in between ran at an
      epoch that passes the test for the newest validated row of the starting table. */
  lemma RowsAreRetained(cfg: Config, rows: Transactions, before: seq<Event>, after: seq<Event>, hi: u128, id: string)
    requires ValidatedUpTo(rows, hi)
    requires id in After(cfg, rows, before).rows
    requires ClearsAreSafe(cfg, After(cfg, rows, before), after, hi)
    requires After(cfg, rows, before + after).shared.epoch <= After(cfg, rows, before).rows[id].epoch + KEPT_EPOCHS
    ensures var s, s' := After(cfg, rows, before), After(cfg, rows, before + after);
            id in s'.rows && s'.rows[id] == s.rows[id]
  {
    ExecConcat(cfg, Boot(rows), before, after);
    RunsKeepInv(cfg, rows, before);
    ValidatedRowsAreOld(cfg, Boot(rows), before, hi);
    SafeRunKeepsRow(cfg, After(cfg, rows, before), after, hi, id);
  }

  lemma {:induction false} ValidatedRowsAreOld(cfg: Config, s: System, events: seq<Event>, hi: u128)
    requires ValidatedUpTo(s.rows, hi)
    ensures ValidatedUpTo(Exec(cfg, s, events).rows, hi)
    decreases |events|
  {
    if events != [] {
      var s' := Step(cfg, s, events[0]);
      forall k | k in s'.rows && s'.rows[k].validated ensures s'.rows[k].epoch <= hi {
        StepAddsUnvalidated(cfg, s, events[0], k);
      }
      ValidatedRowsAreOld(cfg, s', events[1..], hi);
    }
  }

  // ----- the test is exact

  /** Two systems whose jobs and atomics are in the same state. */
  predicate SameJobs(s: System, t: System) {
    && s.shared == t.shared && s.contract == t.contract && s.clearing == t.clearing
    && s.cronAlive == t.cronAlive && |s.past| == |t.past|
  }

  /** What a step of the contract job makes of the atomics and the job, whatever the table. */
  lemma JobsAfterContractStep(cfg: Config, s: System)
    ensures var s' := ContractStep(cfg, s);
            && s'.clearing == s.clearing && s'.past == s.past
            && (s.contract.Resting? || s.contract.Fetched? || s.contract.SawBlock? ==>
                  s'.shared == s.shared && s'.cronAlive == s.cronAlive)
            && (s.contract.EpochStored? ==>
                  && s'.shared == s.shared.(role := Contract.RoleIn(cfg.validator, s.contract.snapshot))
                  && s'.contract == Resting && s'.cronAlive == s.cronAlive)
  {
  }

  lemma ChecksKeepSameJobs(cfg: Config, s: System, t: System)
    requires SameJobs(s, t) && (s.contract.Resting? || s.contract.Fetched? || s.contract.SawBlock?)
    ensures SameJobs(ContractStep(cfg, s), ContractStep(cfg, t))
  {
    JobsAfterContractStep(cfg, s);
    JobsAfterContractStep(cfg, t);
  }

  lemma JobsAfterAdopting(cfg: Config, s: System)
    requires s.contract.Adopting?
    ensures var c, s' := s.contract, ContractStep(cfg, s);
            && s'.clearing == s.clearing && s'.past == s.past
            && if c.snapshot.epochSeq >= TWO_TO_THE_64 then
                 s'.shared == s.shared && s'.contract == c && !s'.cronAlive
               else
                 && s'.shared == s.shared.(epoch := c.snapshot.epochSeq)
                 && s'.contract == EpochStored(c.snapshot, c.fetchedAt) && s'.cronAlive == s.cronAlive
  {
  }

  lemma AdoptingKeepsSameJobs(cfg: Config, s: System, t: System)
    requires SameJobs(s, t) && s.contract.Adopting?
    ensures SameJobs(ContractStep(cfg, s), ContractStep(cfg, t))
  {
    JobsAfterAdopting(cfg, s);
    JobsAfterAdopting(cfg, t);
  }

  lemma ContractKeepsSameJobs(cfg: Config, s: System, t: System)
    requires SameJobs(s, t)
    ensures SameJobs(ContractStep(cfg, s), ContractStep(cfg, t))
  {
    if s.contract.Adopting? {
      AdoptingKeepsSameJobs(cfg, s, t);
    } else if s.contract.EpochStored? {
      JobsAfterContractStep(cfg, s);
      JobsAfterContractStep(cfg, t);
    } else {
      ChecksKeepSameJobs(cfg, s, t);
    }
  }

  lemma LoadKeepsSameJobs(cfg: Config, s: System, t: System)
    requires SameJobs(s, t)
    ensures SameJobs(Step(cfg, s, LoadForClear), Step(cfg, t, LoadForClear))
  {
  }

  /** What a delete leaves of the jobs, whatever the table. */
  lemma JobsAfterDelete(cfg: Config, s: System, reachable: bool)
    ensures var s' := Step(cfg, s, Delete(reachable));
            var runs := s.cronAlive && s.clearing.ClearLoaded?;
            var panics := runs && ClearThreshold(cfg.build, s.clearing.epoch, KEPT_EPOCHS).None?;
            && s'.shared == s.shared && s'.contract == s.contract && |s'.past| == |s.past| + 1
            && s'.cronAlive == (s.cronAlive && !panics)
            && s'.clearing == if runs && !panics then ClearResting else s.clearing
  {
  }

  lemma DeleteKeepsSameJobs(cfg: Config, s: System, t: System, reachable: bool)
    requires SameJobs(s, t)
    ensures SameJobs(Step(cfg, s, Delete(reachable)), Step(cfg, t, Delete(reachable)))
  {
    JobsAfterDelete(cfg, s, reachable);
    JobsAfterDelete(cfg, t, reachable);
  }

  lemma FetchKeepsSameJobs(cfg: Config, s: System, t: System, snapshot: Option<Contract.Snapshot>)
    requires SameJobs(s, t)
    ensures SameJobs(Step(cfg, s, Fetch(snapshot)), Step(cfg, t, Fetch(snapshot)))
  {
  }

  lemma JobsAfterSync(cfg: Config, s: System, height: Option<u128>)
    ensures var s' := Step(cfg, s, Sync(height));
            var runs := s.cronAlive && height.Some?;
            && s'.contract == s.contract && s'.clearing == s.clearing && |s'.past| == |s.past| + 1
            && s'.cronAlive == (s.cronAlive && !(runs && height.value >= TWO_TO_THE_64))
            && s'.shared == if runs && height.value < TWO_TO_THE_64 then s.shared.(block := height.value) else s.shared
  {
  }

  lemma SyncKeepsSameJobs(cfg: Config, s: System, t: System, height: Option<u128>)
    requires SameJobs(s, t)
    ensures SameJobs(Step(cfg, s, Sync(height)), Step(cfg, t, Sync(height)))
  {
    JobsAfterSync(cfg, s, height);
    JobsAfterSync(cfg, t, height);
  }

  lemma StepKeepsSameJobs(cfg: Config, s: System, t: System, e: Event)
    requires SameJobs(s, t)
    ensures SameJobs(Step(cfg, s, e), Step(cfg, t, e))
  {
    match e
    case AdvanceContract =>
      if s.cronAlive {
        ContractKeepsSameJobs(cfg, s, t);
      }
    case LoadForClear => LoadKeepsSameJobs(cfg, s, t);
    case Delete(reachable) => DeleteKeepsSameJobs(cfg, s, t, reachable);
    case Fetch(snapshot) => FetchKeepsSameJobs(cfg, s, t, snapshot);
    case Sync(height) => SyncKeepsSameJobs(cfg, s, t, height);
    case _ =>
      HandlersLeaveJobs(cfg, s, e);
      HandlersLeaveJobs(cfg, t, e);
  }

  /** The jobs never look at the table or at the handlers. */
  lemma {:induction false} JobsIgnoreTable(cfg: Config, s: System, t: System, events: seq<Event>)
    requires SameJobs(s, t)
    ensures SameJobs(Exec(cfg, s, events), Exec(cfg, t, events))
    decreases |events|
  {
    if events != [] {
      StepKeepsSameJobs(cfg, s, t, events[0]);
      JobsIgnoreTable(cfg, Step(cfg, s, events[0]), Step(cfg, t, events[0]), events[1..]);
    }
  }

  predicate Holds(rows: Transactions, id: string, row: Transaction) {
    id in rows && rows[id] == row
  }

  lemma ExecSnoc(cfg: Config, s: System, events: seq<Event>, e: Event)
    ensures Exec(cfg, s, events + [e]) == Step(cfg, Exec(cfg, s, events), e)
  {
    ExecConcat(cfg, s, events, [e]);
    assert [e][1..] == [];
  }

  /** The test is exact over runs: whenever the clearing job starts at an epoch that fails it,
      the same events over some table with validated rows no newer than `hi` lose a row that
      is still inside its window. */
  lemma UnsafeClearLosesRow(cfg: Config, rows: Transactions, events: seq<Event>, hi: u128)
    requires After(cfg, rows, events).cronAlive && After(cfg, rows, events).clearing.ClearResting?
    requires !ClearIsSafe(cfg.build, After(cfg, rows, events).shared.epoch, hi)
    ensures var row := SomeRow(Victim(cfg.build, After(cfg, rows, events).shared.epoch, hi), true);
            var end := After(cfg, map["a" := row], events + [LoadForClear] + [Delete(true)]);
            && ValidatedUpTo(map["a" := row], hi)
            && end.shared.epoch <= row.epoch + KEPT_EPOCHS
            && !Holds(end.rows, "a", row)
  {
    var c: u128 := After(cfg, rows, events).shared.epoch;
    var row := SomeRow(Victim(cfg.build, c, hi), true);
    var table := map["a" := row];
    var s := After(cfg, table, events);
    JobsIgnoreTable(cfg, Boot(rows), Boot(table), events);
    ExecSnoc(cfg, Boot(table), events, LoadForClear);
    ExecSnoc(cfg, Boot(table), events + [LoadForClear], Delete(true));
    var loaded := Step(cfg, s, LoadForClear);
    var last := ClearThreshold(cfg.build, c, KEPT_EPOCHS).value;
    VictimIsSelected(cfg.build, c, hi, last);
    assert Step(cfg, loaded, Delete(true)).rows == Clear(cfg.build.endian, loaded.rows, last);
  }
}
