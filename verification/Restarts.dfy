/** What of the promises outlives a restart: the table does, handlers and atomics do not. */
module Restarts {
  import opened Cosigning
  import opened Invariant
  import opened Linearization
  import opened Messages
  import opened Queries
  import opened Retention
  import opened Safety
  import opened Sign
  import opened ValidatorState
  import opened Words
  import opened Wrappers

  /** One life of the validator, from its start to whatever ended it; the key, the bundler and
      the build may differ from those of the lives before. */
  datatype Life = Life(cfg: Config, events: seq<Event>)

  /** The table that the last of these lives leaves. */
  function TableAfter(rows: Transactions, lives: seq<Life>): Transactions
    decreases |lives|, 1
  {
    if lives == [] then rows else LastState(rows, lives).rows
  }

  /** The state in which the last of these lives ended. */
  function LastState(rows: Transactions, lives: seq<Life>): System
    requires lives != []
    decreases |lives|, 0
  {
    var n := |lives| - 1;
    After(lives[n].cfg, TableAfter(rows, lives[..n]), lives[n].events)
  }

  /** The id has a row that no clear selects, and no handler of this life put it there. */
  predicate Taken(s: System, id: string) {
    && id in s.rows && !s.rows[id].validated
    && forall k | k in s.handlers && s.handlers[k].committed :: s.handlers[k].req.id != id
  }

  lemma StepKeepsTaken(cfg: Config, s: System, e: Event, id: string)
    requires HandlersOk(cfg, s.past, s.handlers) && Taken(s, id)
    ensures Taken(Step(cfg, s, e), id)
  {
    StepKeepsOrClears(cfg, s, e, id);
    HandlersAfter(cfg, s, e);
    if e.Advance? && e.id in s.handlers && Permitted(cfg, s.handlers[e.id].req, e.env) {
      assert HandlerOk(cfg, s.past, s.handlers[e.id]);
      HandlerStepRows(cfg, |s.past|, |s.ops|, s.shared, s.rows, s.handlers[e.id], e.env);
    }
  }

  lemma {:induction false} RunKeepsTaken(cfg: Config, s: System, events: seq<Event>, id: string)
    requires HandlersOk(cfg, s.past, s.handlers) && Taken(s, id)
    ensures Taken(Exec(cfg, s, events), id)
    decreases |events|
  {
    if events != [] {
      StepKeepsTaken(cfg, s, events[0], id);
      StepKeepsHandlers(cfg, s, events[0]);
      RunKeepsTaken(cfg, Step(cfg, s, events[0]), events[1..], id);
    }
  }

  /** No cosignature is released for an id whose unvalidated row an earlier life left. */
  lemma StoredIdIsNotReleased(cfg: Config, rows: Transactions, events: seq<Event>, h: nat)
    requires HasReleased(After(cfg, rows, events), h)
    ensures var id := After(cfg, rows, events).handlers[h].req.id;
            id in rows ==> rows[id].validated
  {
    var s := After(cfg, rows, events);
    var id := s.handlers[h].req.id;
    RunsKeepInv(cfg, rows, events);
    assert HandlerOk(cfg, s.past, s.handlers[h]);
    if id in rows && !rows[id].validated {
      RunKeepsTaken(cfg, Boot(rows), events, id);
    }
  }

  /** The row stays through all later lives. */
  lemma {:induction false} UnvalidatedRowOutlives(rows: Transactions, lives: seq<Life>, a: nat, id: string)
    requires a <= |lives|
    requires id in TableAfter(rows, lives[..a]) && !TableAfter(rows, lives[..a])[id].validated
    ensures id in TableAfter(rows, lives) && TableAfter(rows, lives)[id] == TableAfter(rows, lives[..a])[id]
    decreases |lives|
  {
    var n := |lives| - 1;
    if a == n + 1 {
      assert lives[..a] == lives;
    } else {
      assert lives[..n][..a] == lives[..a];
      UnvalidatedRowOutlives(rows, lives[..n], a, id);
      UnvalidatedRowsStay(lives[n].cfg, Boot(TableAfter(rows, lives[..n])), lives[n].events, id);
    }
  }

  lemma ReleasedRowIsStored(cfg: Config, rows: Transactions, events: seq<Event>, h: nat)
    requires HasReleased(After(cfg, rows, events), h)
    ensures var s := After(cfg, rows, events);
            s.handlers[h].req.id in s.rows && !s.rows[s.handlers[h].req.id].validated
  {
    var s := After(cfg, rows, events);
    RunsKeepInv(cfg, rows, events);
    assert HandlerOk(cfg, s.past, s.handlers[h]) && OwnsRow(s.rows, s.handlers[h]);
  }

  /** Across any number of restarts at most one cosignature is released per transaction id: what
      handler `i` released in life `a` no handler of a later life `b` releases again. */
  lemma NoEquivocationAcrossRestarts(rows: Transactions, lives: seq<Life>, a: nat, b: nat, i: nat, j: nat)
    requires a < b < |lives|
    requires HasReleased(LastState(rows, lives[..a + 1]), i) && HasReleased(LastState(rows, lives[..b + 1]), j)
    ensures LastState(rows, lives[..a + 1]).handlers[i].req.id != LastState(rows, lives[..b + 1]).handlers[j].req.id
  {
    assert lives[..b + 1][..b] == lives[..b] && lives[..a + 1][..a] == lives[..a];
    assert lives[..b][..a + 1] == lives[..a + 1];
    ReleasedRowIsStored(lives[a].cfg, TableAfter(rows, lives[..a]), lives[a].events, i);
    UnvalidatedRowOutlives(rows, lives[..b], a + 1, LastState(rows, lives[..a + 1]).handlers[i].req.id);
    StoredIdIsNotReleased(lives[b].cfg, TableAfter(rows, lives[..b]), lives[b].events, j);
  }

  // ----- after a clear

  /** The promise ends with the row. Only a validated row is ever cleared, and then the next good
      request for its id is cosigned, whatever was promised before. */
  lemma ClearedIdIsReleasedAgain(cfg: Config, s: System, last: u128, id: nat, req: SignRequest, sig: string)
    requires s.cronAlive && s.clearing.ClearLoaded? && id !in s.handlers
    requires ClearThreshold(cfg.build, s.clearing.epoch, KEPT_EPOCHS) == Some(last)
    requires req.id in s.rows && Selected(cfg.build.endian, s.rows[req.id], last)
    requires s.shared.role == Cosigner && req.validator == cfg.validator && WindowOpen(req.block, s.shared.block)
    requires Verified(cfg, req) && cfg.cosigns(SignChunks(req, cfg.bundler), sig)
    ensures s.rows[req.id].validated
    ensures var s' := Exec(cfg, s, [Delete(true)] + ([Arrive(id, req)] + Advances(id, Undisturbed(sig), 9)));
            id in s'.handlers && s'.handlers[id].pc == Done(Released(sig))
  {
    var s1 := Step(cfg, s, Delete(true));
    ExecCons(cfg, s, Delete(true), [Arrive(id, req)] + Advances(id, Undisturbed(sig), 9));
    UndisturbedRequestIsAtomic(cfg, s1, id, req, Undisturbed(sig));
  }
}
