/** Epochs and roles, over every run. */
module Epochs {
  import opened Cosigning
  import opened Invariant
  import opened Queries
  import opened Safety
  import opened Sign
  import opened ValidatorState
  import opened Words
  import opened Wrappers

  // ----- the epoch only rises

  lemma {:induction false} EpochNeverFalls(cfg: Config, s: System, events: seq<Event>)
    requires EpochsOk(cfg, s)
    ensures s.shared.epoch <= Exec(cfg, s, events).shared.epoch
    decreases |events|
  {
    if events != [] {
      var e := events[0];
      StepKeepsEpochs(cfg, s, e);
      if !e.AdvanceContract? {
        OthersStoreNothing(cfg, s, e);
      } else {
        ContractStepKeepsContract(cfg, s);
      }
      EpochNeverFalls(cfg, Step(cfg, s, e), events[1..]);
    }
  }

  lemma {:induction false} EpochsIncrease(s: System, i: nat, j: nat)
    requires HistoryOk(s) && i < j <= |s.adoptions|
    ensures EpochAfter(s.adoptions, i) < EpochAfter(s.adoptions, j)
    decreases j
  {
    assert AdoptionOk(s, j - 1);
    if i < j - 1 {
      EpochsIncrease(s, i, j - 1);
    }
  }

  // ----- the history of adoptions is what happened

  /** The snapshot that a job in state `c` works on is the one it fetched. */
  predicate ContractIsTrue(events: seq<Event>, now: nat, c: ContractPc) {
    c.Resting? ||
    (&& c.fetchedAt < now <= |events| && events[c.fetchedAt] == Fetch(Some(c.snapshot))
     && (c.SawBlock? ==> c.fetchedAt < c.blockAt < now)
     && (c.Adopting? ==> c.fetchedAt < c.blockAt < now))
  }

  /** An adoption is of a snapshot that an event of the run fetched: its epoch, its activation
      height, and the role by its nomination list; the height was read after the fetch. */
  predicate AdoptedFrom(cfg: Config, events: seq<Event>, a: Adoption) {
    && a.fetchedAt < a.blockAt < |events|
    && events[a.fetchedAt].Fetch? && events[a.fetchedAt].snapshot.Some?
    && (var n := events[a.fetchedAt].snapshot.value;
        && a.epoch == n.epochSeq && a.height == n.epochHeight
        && (a.role == Cosigner <==> cfg.validator in n.nominated))
  }

  /** Store `k` happened at its time, did what the adoption it is part of says, and no more. */
  predicate StoreIsTrue(cfg: Config, rows: Transactions, events: seq<Event>, t: nat, k: nat, a: Adoption) {
    && a.blockAt < t < |events| && events[t] == AdvanceContract
    && At(cfg, rows, events, t + 1).shared ==
       if k % 2 == 0 then At(cfg, rows, events, t).shared.(epoch := a.epoch)
       else At(cfg, rows, events, t).shared.(role := a.role)
  }

  predicate AdoptionsAreTrue(cfg: Config, events: seq<Event>, s: System) {
    forall i | 0 <= i < |s.adoptions| :: AdoptedFrom(cfg, events, s.adoptions[i])
  }

  predicate StoresAreTrue(cfg: Config, rows: Transactions, events: seq<Event>, s: System) {
    && |s.stores| <= 2 * |s.adoptions|
    && (forall k | 0 <= k < |s.stores| :: StoreIsTrue(cfg, rows, events, s.stores[k], k, s.adoptions[k / 2]))
  }

  lemma ContractStaysTrue(cfg: Config, s: System, events: seq<Event>)
    requires |s.past| < |events| && ContractIsTrue(events, |s.past|, s.contract)
    ensures ContractIsTrue(events, |s.past| + 1, Step(cfg, s, events[|s.past|]).contract)
  {
    var e := events[|s.past|];
    if e.Arrive? || e.Advance? {
      HandlersLeaveJobs(cfg, s, e);
    } else if e.LoadForClear? || e.Delete? {
      ClearingStoresNothing(cfg, s, e);
    }
  }

  /** What a store step stores is what its adoption records. */
  lemma StoreMatchesAdoption(cfg: Config, s: System)
    requires HistoryOk(s) && ContractOk(cfg, s) && s.cronAlive
    ensures var k, s' := |s.stores|, Step(cfg, s, AdvanceContract);
            && s.adoptions <= s'.adoptions
            && (s'.stores == s.stores ==> s'.adoptions == s.adoptions)
            && (s'.stores != s.stores ==>
                  && s'.stores == s.stores + [|s.past|] && k / 2 == |s'.adoptions| - 1
                  && s'.adoptions[k / 2].blockAt < |s.past|
                  && s'.shared == if k % 2 == 0 then s.shared.(epoch := s'.adoptions[k / 2].epoch)
                                  else s.shared.(role := s'.adoptions[k / 2].role))
  {
    if s.contract.Adopting? {
      AdoptingStores(cfg, s);
      assert s.stores != Step(cfg, s, AdvanceContract).stores ==> |s.stores| / 2 == |s.adoptions|;
    } else if s.contract.EpochStored? {
      assert RoleAfter(s.adoptions, |s.adoptions|) == s.adoptions[|s.stores| / 2].role;
      assert AdoptionOk(s, |s.stores| / 2);
    }
  }

  lemma AdoptingStores(cfg: Config, s: System)
    requires s.cronAlive && s.contract.Adopting?
    ensures var c, s' := s.contract, Step(cfg, s, AdvanceContract);
            if c.snapshot.epochSeq >= TWO_TO_THE_64 then
              s'.shared == s.shared && s'.stores == s.stores && s'.adoptions == s.adoptions
            else
              && s'.shared == s.shared.(epoch := c.snapshot.epochSeq) && s'.stores == s.stores + [|s.past|]
              && s'.adoptions == s.adoptions + [AdoptionOf(cfg, c.snapshot, c.fetchedAt, c.blockAt)]
  {
  }

  lemma AdoptionsStayTrue(cfg: Config, s: System, events: seq<Event>)
    requires |s.past| < |events| && ContractIsTrue(events, |s.past|, s.contract) && AdoptionsAreTrue(cfg, events, s)
    ensures AdoptionsAreTrue(cfg, events, Step(cfg, s, events[|s.past|]))
    ensures forall i | |s.adoptions| <= i < |Step(cfg, s, events[|s.past|]).adoptions| ::
              Step(cfg, s, events[|s.past|]).adoptions[i].blockAt < |s.past|
  {
    var e := events[|s.past|];
    if !e.AdvanceContract? {
      OthersStoreNothing(cfg, s, e);
    } else if s.cronAlive && s.contract.Adopting? {
      AdoptingStores(cfg, s);
    }
  }

  lemma {:induction false} HistoryIsTrue(cfg: Config, rows: Transactions, events: seq<Event>, n: nat)
    requires n <= |events|
    ensures var s := At(cfg, rows, events, n);
            && |s.past| == n
            && ContractIsTrue(events, n, s.contract)
            && AdoptionsAreTrue(cfg, events, s)
            && StoresAreTrue(cfg, rows, events, s)
  {
    if n > 0 {
      var s := At(cfg, rows, events, n - 1);
      HistoryIsTrue(cfg, rows, events, n - 1);
      AtSucc(cfg, rows, events, n - 1);
      StoreOnceAtMost(cfg, s, events[n - 1]);
      ContractStaysTrue(cfg, s, events);
      AdoptionsStayTrue(cfg, s, events);
      StoresStayTrue(cfg, rows, events, n - 1);
    }
  }

  lemma StoresStayTrue(cfg: Config, rows: Transactions, events: seq<Event>, n: nat)
    requires n < |events| && StoresAreTrue(cfg, rows, events, At(cfg, rows, events, n))
    ensures StoresAreTrue(cfg, rows, events, At(cfg, rows, events, n + 1))
  {
    var s, e := At(cfg, rows, events, n), events[n];
    AtSucc(cfg, rows, events, n);
    RunsKeepInv(cfg, rows, events[..n]);
    if e.AdvanceContract? && s.cronAlive {
      StoreMatchesAdoption(cfg, s);
      var s' := At(cfg, rows, events, n + 1);
      forall k | 0 <= k < |s'.stores|
        ensures k / 2 < |s'.adoptions| && StoreIsTrue(cfg, rows, events, s'.stores[k], k, s'.adoptions[k / 2])
      {
        if k < |s.stores| {
          assert StoreIsTrue(cfg, rows, events, s.stores[k], k, s.adoptions[k / 2]);
        }
      }
    } else if !e.AdvanceContract? {
      OthersStoreNothing(cfg, s, e);
    }
  }

  lemma HistoryAfterRun(cfg: Config, rows: Transactions, events: seq<Event>)
    ensures var s := After(cfg, rows, events);
            && |s.past| == |events|
            && HistoryOk(s) && StoresOk(s) && ContractOk(cfg, s)
            && ContractIsTrue(events, |events|, s.contract)
            && AdoptionsAreTrue(cfg, events, s)
            && StoresAreTrue(cfg, rows, events, s)
  {
    assert events[..|events|] == events;
    HistoryIsTrue(cfg, rows, events, |events|);
    RunsKeepInv(cfg, rows, events);
  }

  /** The snapshot an adoption is of. */
  function SnapshotOf(events: seq<Event>, a: Adoption): Contract.Snapshot
    requires a.fetchedAt < |events| && events[a.fetchedAt].Fetch? && events[a.fetchedAt].snapshot.Some?
  {
    events[a.fetchedAt].snapshot.value
  }

  /** Every adoption of every run comes from a fetch of the run, later reads of the height and
      later stores: it adopts the epoch of the fetched snapshot, as Cosigner exactly when that
      snapshot nominates this validator, and its stores do that to the atomics and no more. */
  lemma AdoptionFollowsNomination(cfg: Config, rows: Transactions, events: seq<Event>, i: nat)
    requires i < |After(cfg, rows, events).adoptions|
    ensures var s := After(cfg, rows, events);
            && AdoptedFrom(cfg, events, s.adoptions[i])
            && 2 * i < |s.stores| && StoreIsTrue(cfg, rows, events, s.stores[2 * i], 2 * i, s.adoptions[i])
            && (2 * i + 1 < |s.stores| ==>
                  && s.stores[2 * i] < s.stores[2 * i + 1]
                  && StoreIsTrue(cfg, rows, events, s.stores[2 * i + 1], 2 * i + 1, s.adoptions[i]))
            && (2 * i + 1 >= |s.stores| ==> BetweenStores(s) && i == |s.adoptions| - 1)
  {
    var s := After(cfg, rows, events);
    HistoryAfterRun(cfg, rows, events);
    assert (2 * i) / 2 == i && (2 * i + 1) / 2 == i;
    assert StoreIsTrue(cfg, rows, events, s.stores[2 * i], 2 * i, s.adoptions[(2 * i) / 2]);
    if 2 * i + 1 < |s.stores| {
      assert StoreIsTrue(cfg, rows, events, s.stores[2 * i + 1], 2 * i + 1, s.adoptions[(2 * i + 1) / 2]);
    }
  }

  lemma PastStores(s: System, i: nat, j: nat)
    requires HistoryOk(s) && StoresOk(s) && i <= j < |s.past|
    ensures s.past[i].stores <= s.past[j].stores <= |s.stores|
    ensures forall k | s.past[i].stores <= k < s.past[j].stores :: i <= s.stores[k] < j
  {
    assert PastOk(s, s.past[i]) && PastOk(s, s.past[j]);
    var k := s.past[i].stores - 1;
    if k >= 0 {
      assert s.stores[k] < i;
    }
  }

  /** Epoch and role change at those stores only. */
  lemma OnlyStoresChange(cfg: Config, rows: Transactions, events: seq<Event>, i: nat, j: nat)
    requires i <= j < |events|
    requires forall k | 0 <= k < |After(cfg, rows, events).stores| ::
               !(i <= After(cfg, rows, events).stores[k] < j)
    ensures At(cfg, rows, events, i).shared.epoch == At(cfg, rows, events, j).shared.epoch
    ensures At(cfg, rows, events, i).shared.role == At(cfg, rows, events, j).shared.role
  {
    var s := After(cfg, rows, events);
    HistoryAfterRun(cfg, rows, events);
    PastIsTheRun(cfg, rows, events, i);
    PastIsTheRun(cfg, rows, events, j);
    SameStoresSameMoment(s, i, j);
  }

  lemma SameStoresSameMoment(s: System, i: nat, j: nat)
    requires HistoryOk(s) && StoresOk(s) && i <= j < |s.past|
    requires forall k | 0 <= k < |s.stores| :: !(i <= s.stores[k] < j)
    ensures s.past[i].shared.epoch == s.past[j].shared.epoch && s.past[i].shared.role == s.past[j].shared.role
  {
    PastStores(s, i, j);
    assert PastOk(s, s.past[i]) && PastOk(s, s.past[j]);
    var k := s.past[i].stores;
    assert k < |s.stores| ==> !(i <= s.stores[k] < j);
  }

  /** Across every run the epoch never falls, each adoption strictly raises it, and an epoch is
      adopted only after the atomics held a height that reached the activation height of the
      fetched snapshot, however the reported heights move afterwards; no inserted row is from
      a later epoch than the present one. */
  lemma EpochsAreSafe(cfg: Config, rows: Transactions, events: seq<Event>)
    ensures var s := After(cfg, rows, events);
            && (forall i, j | 0 <= i <= j <= |events| ::
                  At(cfg, rows, events, i).shared.epoch <= At(cfg, rows, events, j).shared.epoch)
            && (forall i, j | 0 <= i < j <= |s.adoptions| :: EpochAfter(s.adoptions, i) < EpochAfter(s.adoptions, j))
            && (forall i | 0 <= i < |s.adoptions| ::
                  && AdoptedFrom(cfg, events, s.adoptions[i])
                  && 2 * i < |s.stores| && s.adoptions[i].blockAt < s.stores[2 * i] < |events|
                  && SnapshotOf(events, s.adoptions[i]).epochHeight
                     <= At(cfg, rows, events, s.adoptions[i].blockAt).shared.block)
            && (forall id | id in s.handlers && s.handlers[id].committed ::
                  s.handlers[id].req.id in s.rows && s.rows[s.handlers[id].req.id].epoch <= s.shared.epoch)
  {
    var s := After(cfg, rows, events);
    RunsKeepInv(cfg, rows, events);
    forall i, j | 0 <= i <= j <= |events|
      ensures At(cfg, rows, events, i).shared.epoch <= At(cfg, rows, events, j).shared.epoch
    {
      EpochNeverFallsBetween(cfg, rows, events, i, j);
    }
    forall i, j | 0 <= i < j <= |s.adoptions| ensures EpochAfter(s.adoptions, i) < EpochAfter(s.adoptions, j) {
      EpochsIncrease(s, i, j);
    }
    forall i | 0 <= i < |s.adoptions|
      ensures && AdoptedFrom(cfg, events, s.adoptions[i])
              && 2 * i < |s.stores| && s.adoptions[i].blockAt < s.stores[2 * i] < |events|
              && SnapshotOf(events, s.adoptions[i]).epochHeight
                 <= At(cfg, rows, events, s.adoptions[i].blockAt).shared.block
    {
      AdoptionFollowsNomination(cfg, rows, events, i);
      assert AdoptionOk(s, i);
      PastIsTheRun(cfg, rows, events, s.adoptions[i].blockAt);
    }
    forall id | id in s.handlers && s.handlers[id].committed
      ensures s.handlers[id].req.id in s.rows && s.rows[s.handlers[id].req.id].epoch <= s.shared.epoch
    {
      var h := s.handlers[id];
      assert HandlerOk(cfg, s.past, h) && OwnsRow(s.rows, h);
      assert PastOk(s, s.past[h.epochAt]);
    }
  }

  lemma EpochNeverFallsBetween(cfg: Config, rows: Transactions, events: seq<Event>, i: nat, j: nat)
    requires i <= j <= |events|
    ensures At(cfg, rows, events, i).shared.epoch <= At(cfg, rows, events, j).shared.epoch
  {
    RunsKeepInv(cfg, rows, events[..i]);
    assert events[..j] == events[..i] + events[i..j];
    ExecConcat(cfg, Boot(rows), events[..i], events[i..j]);
    EpochNeverFalls(cfg, At(cfg, rows, events, i), events[i..j]);
  }

  // ----- epoch and role agree

  predicate BetweenStores(s: System) {
    s.contract.EpochStored?
  }

  /** The role the first `n` adoptions lead to: Cosigner at the start, and then whether the
      snapshot fetched for the last of them nominated this validator. */
  predicate RoleIsFromFetch(cfg: Config, events: seq<Event>, s: System, n: nat, role: ValidatorRole)
    requires n <= |s.adoptions| && AdoptionsAreTrue(cfg, events, s)
  {
    if n == 0 then role == INITIAL.role
    else role == Cosigner <==> cfg.validator in SnapshotOf(events, s.adoptions[n - 1]).nominated
  }

  /** Whenever the contract job is not between its two stores, epoch and role are the initial
      pair, or the epoch of the last adopted snapshot and whether it nominates this validator;
      between them the epoch is of the snapshot being adopted, and the role of the one before. */
  lemma EpochAndRoleAgree(cfg: Config, rows: Transactions, events: seq<Event>)
    ensures var s := After(cfg, rows, events);
            var n := |s.adoptions|;
            && AdoptionsAreTrue(cfg, events, s)
            && s.shared.epoch == (if n == 0 then INITIAL.epoch else SnapshotOf(events, s.adoptions[n - 1]).epochSeq)
            && (!BetweenStores(s) ==> RoleIsFromFetch(cfg, events, s, n, s.shared.role))
            && (BetweenStores(s) ==> n > 0 && RoleIsFromFetch(cfg, events, s, n - 1, s.shared.role))
  {
    HistoryAfterRun(cfg, rows, events);
    var s := After(cfg, rows, events);
    var n := |s.adoptions|;
    assert n > 0 ==> AdoptedFrom(cfg, events, s.adoptions[n - 1]);
    assert n > 1 ==> AdoptedFrom(cfg, events, s.adoptions[n - 2]);
  }

  /** The validator was Cosigner in `epoch`: initially, or by an adoption that nominated it. */
  predicate CosignsIn(s: System, epoch: u64) {
    exists k: nat | k <= |s.adoptions| :: EpochAfter(s.adoptions, k) == epoch && RoleAfter(s.adoptions, k) == Cosigner
  }

  /** The same, as the run tells it: the initial epoch, or that of an adopted snapshot that some
      event fetched and that nominates this validator. */
  predicate Cosigned(cfg: Config, rows: Transactions, events: seq<Event>, epoch: u64) {
    var s := After(cfg, rows, events);
    epoch == INITIAL.epoch ||
    exists i | 0 <= i < |s.adoptions| ::
      && AdoptedFrom(cfg, events, s.adoptions[i])
      && SnapshotOf(events, s.adoptions[i]).epochSeq == epoch
      && cfg.validator in SnapshotOf(events, s.adoptions[i]).nominated
  }

  lemma CosignedIff(cfg: Config, rows: Transactions, events: seq<Event>, epoch: u64)
    ensures Cosigned(cfg, rows, events, epoch) <==> CosignsIn(After(cfg, rows, events), epoch)
  {
    var s := After(cfg, rows, events);
    HistoryAfterRun(cfg, rows, events);
    if CosignsIn(s, epoch) {
      var k: nat :| k <= |s.adoptions| && EpochAfter(s.adoptions, k) == epoch && RoleAfter(s.adoptions, k) == Cosigner;
      assert k > 0 ==> AdoptedFrom(cfg, events, s.adoptions[k - 1]);
    }
    if epoch == INITIAL.epoch {
      assert EpochAfter(s.adoptions, 0) == epoch && RoleAfter(s.adoptions, 0) == Cosigner;
    } else if Cosigned(cfg, rows, events, epoch) {
      var i :| 0 <= i < |s.adoptions| && AdoptedFrom(cfg, events, s.adoptions[i])
               && SnapshotOf(events, s.adoptions[i]).epochSeq == epoch
               && cfg.validator in SnapshotOf(events, s.adoptions[i]).nominated;
      assert EpochAfter(s.adoptions, i + 1) == epoch && RoleAfter(s.adoptions, i + 1) == Cosigner;
    }
  }

  /** Adoption `i` overlaps the handler's reads of role and epoch: its epoch was stored before
      the second, and its role was not yet stored at the first. */
  predicate Overlaps(s: System, h: Handler, i: nat) {
    && 2 * i < |s.stores| && s.stores[2 * i] < h.epochAt
    && !(2 * i + 1 < |s.stores| && s.stores[2 * i + 1] < h.roleAt)
  }

  /** No later adoption stored its epoch before time `t`. */
  predicate NoneLater(s: System, i: nat, t: nat) {
    forall j | i < j < |s.adoptions| && 2 * j < |s.stores| :: t <= s.stores[2 * j]
  }

  lemma CosignsInIff(s: System, n: nat)
    requires HistoryOk(s) && n <= |s.adoptions|
    ensures CosignsIn(s, EpochAfter(s.adoptions, n)) <==> RoleAfter(s.adoptions, n) == Cosigner
  {
    var epoch := EpochAfter(s.adoptions, n);
    if CosignsIn(s, epoch) {
      var k: nat :| k <= |s.adoptions| && EpochAfter(s.adoptions, k) == epoch && RoleAfter(s.adoptions, k) == Cosigner;
      if k < n {
        EpochsIncrease(s, k, n);
      } else if n < k {
        EpochsIncrease(s, n, k);
      }
    }
  }

  /** The adoption whose epoch a handler read. */
  lemma AdoptionRead(s: System, h: Handler, i: nat)
    requires HistoryOk(s) && StoresOk(s) && h.epochAt < |s.past| && i < |s.adoptions|
    ensures s.stores[2 * i] < h.epochAt && NoneLater(s, i, h.epochAt)
       <==> (s.past[h.epochAt].stores + 1) / 2 == i + 1
  {
    assert PastOk(s, s.past[h.epochAt]);
    var c := s.past[h.epochAt].stores;
    if (c + 1) / 2 == i + 1 {
      forall j | i < j < |s.adoptions| && 2 * j < |s.stores| ensures h.epochAt <= s.stores[2 * j] {
        assert !(2 * j < c);
      }
    } else if c > 2 * i {
      assert s.stores[2 * (i + 1)] < h.epochAt;
    }
  }

  /** The last adoption to overlap the handler's reads did not make the validator Cosigner. */
  predicate StaleBy(s: System, h: Handler, i: nat) {
    i < |s.adoptions| && Overlaps(s, h, i) && NoneLater(s, i, h.epochAt) && s.adoptions[i].role != Cosigner
  }

  lemma StaleIff(s: System, h: Handler)
    requires HistoryOk(s) && StoresOk(s) && h.roleAt < h.epochAt < |s.past|
    requires s.past[h.roleAt].shared.role == Cosigner && s.past[h.epochAt].shared.epoch == h.epoch
    ensures !CosignsIn(s, h.epoch) <==> exists i :: StaleBy(s, h, i)
  {
    assert PastOk(s, s.past[h.epochAt]);
    var n := (s.past[h.epochAt].stores + 1) / 2;
    CosignsInIff(s, n);
    if RoleAfter(s.adoptions, n) != Cosigner {
      PastStores(s, h.roleAt, h.epochAt);
      LastToOverlap(s, h, n);
    }
    forall i | StaleBy(s, h, i) ensures RoleAfter(s.adoptions, n) != Cosigner {
      AdoptionRead(s, h, i);
    }
  }

  lemma LastToOverlap(s: System, h: Handler, n: nat)
    requires HistoryOk(s) && StoresOk(s) && h.roleAt < |s.past| && h.epochAt < |s.past| && 0 < n <= |s.adoptions|
    requires s.past[h.roleAt].shared.role == Cosigner && s.past[h.roleAt].stores <= s.past[h.epochAt].stores
    requires n == (s.past[h.epochAt].stores + 1) / 2 && RoleAfter(s.adoptions, n) != Cosigner
    ensures StaleBy(s, h, n - 1)
  {
    AdoptionRead(s, h, n - 1);
    RoleReadBefore(s, h, n);
  }

  /** A handler stores a row for an epoch in which the validator is not Cosigner exactly when
      an adoption overlapped its reads of role and epoch and the last to do so was of a fetched
      snapshot that does not nominate the validator. With no overlap, it never does. */
  lemma RowIsForCosignedEpochIff(cfg: Config, rows: Transactions, events: seq<Event>, id: nat)
    requires id in After(cfg, rows, events).handlers && After(cfg, rows, events).handlers[id].committed
    ensures AdoptionsAreTrue(cfg, events, After(cfg, rows, events))
    ensures var s := After(cfg, rows, events);
            var h := s.handlers[id];
            && (!Cosigned(cfg, rows, events, h.epoch) <==>
                  exists i | 0 <= i < |s.adoptions| ::
                    && Overlaps(s, h, i) && NoneLater(s, i, h.epochAt)
                    && cfg.validator !in SnapshotOf(events, s.adoptions[i]).nominated)
            && ((forall i | 0 <= i < |s.adoptions| :: !Overlaps(s, h, i)) ==> Cosigned(cfg, rows, events, h.epoch))
  {
    var s := After(cfg, rows, events);
    var h := s.handlers[id];
    CommittedHandlerFacts(cfg, rows, events, id);
    HistoryAfterRun(cfg, rows, events);
    CosignedIff(cfg, rows, events, h.epoch);
    StaleIff(s, h);
    forall i | 0 <= i < |s.adoptions|
      ensures s.adoptions[i].role != Cosigner <==> cfg.validator !in SnapshotOf(events, s.adoptions[i]).nominated
    {
      assert AdoptedFrom(cfg, events, s.adoptions[i]);
    }
    assert forall i | 0 <= i < |s.adoptions| ::
        StaleBy(s, h, i) <==> Overlaps(s, h, i) && NoneLater(s, i, h.epochAt)
                              && cfg.validator !in SnapshotOf(events, s.adoptions[i]).nominated;
  }

  /** A handler that read Cosigner did so before adoption `n` was through, if that one does not
      make the validator Cosigner. */
  lemma RoleReadBefore(s: System, h: Handler, n: nat)
    requires HistoryOk(s) && StoresOk(s) && h.roleAt < |s.past| && 0 < n <= |s.adoptions|
    requires s.past[h.roleAt].shared.role == Cosigner && s.past[h.roleAt].stores <= 2 * n
    requires RoleAfter(s.adoptions, n) != Cosigner
    ensures !(2 * n - 1 < |s.stores| && s.stores[2 * n - 1] < h.roleAt)
  {
    assert PastOk(s, s.past[h.roleAt]);
  }

  // ----- the job with nothing beside it

  /** The contract job, from fetching `n` to its end. */
  function ContractRun(n: Contract.Snapshot): seq<Event> {
    [Fetch(Some(n)), AdvanceContract, AdvanceContract, AdvanceContract, AdvanceContract]
  }

  lemma FiveSteps(cfg: Config, s: System, n: Contract.Snapshot)
    ensures var e := AdvanceContract;
            Exec(cfg, s, ContractRun(n)) ==
            Step(cfg, Step(cfg, Step(cfg, Step(cfg, Step(cfg, s, Fetch(Some(n))), e), e), e), e)
  {
    var e := AdvanceContract;
    var s1 := Step(cfg, s, Fetch(Some(n)));
    var s2 := Step(cfg, s1, e);
    var s3 := Step(cfg, s2, e);
    var s4 := Step(cfg, s3, e);
    assert ContractRun(n) == [Fetch(Some(n))] + ([e] + ([e] + ([e] + ([e] + []))));
    ExecCons(cfg, s, Fetch(Some(n)), [e] + ([e] + ([e] + ([e] + []))));
    ExecCons(cfg, s1, e, [e] + ([e] + ([e] + [])));
    ExecCons(cfg, s2, e, [e] + ([e] + []));
    ExecCons(cfg, s3, e, [e] + []);
    ExecCons(cfg, s4, e, []);
  }

  lemma FetchAndLoad(cfg: Config, s: System, n: Contract.Snapshot)
    requires s.cronAlive && s.contract.Resting?
    ensures var s' := Step(cfg, Step(cfg, Step(cfg, s, Fetch(Some(n))), AdvanceContract), AdvanceContract);
            s' == s.(contract := if Contract.Adopts(n, s.shared.block, s.shared.epoch)
                                 then Adopting(n, |s.past|, |s.past| + 1) else Resting,
                     past := s'.past)
            && |s'.past| == |s.past| + 3
  {
    var s1 := Step(cfg, s, Fetch(Some(n)));
    assert s1 == s.(contract := Fetched(n, |s.past|), past := s1.past);
    var s2 := Step(cfg, s1, AdvanceContract);
    assert s2 == s.(contract := SawBlock(n, |s.past|, s.shared.block, |s.past| + 1), past := s2.past);
  }

  lemma TwoStores(cfg: Config, s: System, n: Contract.Snapshot)
    requires s.cronAlive && s.contract.Adopting? && s.contract.snapshot == n && n.epochSeq < TWO_TO_THE_64
    ensures var s' := Step(cfg, Step(cfg, s, AdvanceContract), AdvanceContract);
            var role := Contract.RoleIn(cfg.validator, n);
            s' == s.(shared := s.shared.(epoch := n.epochSeq, role := role), contract := Resting,
                     stores := s.stores + [|s.past|, |s.past| + 1],
                     adoptions := s.adoptions + [AdoptionOf(cfg, n, s.contract.fetchedAt, s.contract.blockAt)],
                     past := s'.past)
            && |s'.past| == |s.past| + 2
  {
  }

  lemma PanickingStore(cfg: Config, s: System, n: Contract.Snapshot)
    requires s.cronAlive && s.contract.Adopting? && s.contract.snapshot == n && n.epochSeq >= TWO_TO_THE_64
    ensures var s' := Step(cfg, Step(cfg, s, AdvanceContract), AdvanceContract);
            s'.shared == s.shared && !s'.cronAlive
  {
  }

  lemma RestingStays(cfg: Config, s: System)
    requires s.cronAlive && s.contract.Resting?
    ensures var s' := Step(cfg, Step(cfg, s, AdvanceContract), AdvanceContract);
            s'.shared == s.shared && s'.cronAlive
  {
  }

  /** The steps of the contract job are `check_contract_updates`: alone, they make of the
      atomics what the method does, and panic when it does. */
  lemma StepsRefineContractJob(cfg: Config, s: System, n: Contract.Snapshot)
    requires s.cronAlive && s.contract.Resting?
    ensures var s' := Exec(cfg, s, ContractRun(n));
            && s'.shared == Contract.AfterUpdate(cfg.validator, s.shared, n)
            && (s'.cronAlive <==> !(Contract.Adopts(n, s.shared.block, s.shared.epoch) && n.epochSeq >= TWO_TO_THE_64))
  {
    FiveSteps(cfg, s, n);
    FetchAndLoad(cfg, s, n);
    var s3 := Step(cfg, Step(cfg, Step(cfg, s, Fetch(Some(n))), AdvanceContract), AdvanceContract);
    if s3.contract.Resting? {
      RestingStays(cfg, s3);
    } else if n.epochSeq < TWO_TO_THE_64 {
      TwoStores(cfg, s3, n);
    } else {
      PanickingStore(cfg, s3, n);
    }
  }
}
