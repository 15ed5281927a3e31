/** The job that follows the contract: adopt a new epoch, then vote on slash proposals. */
module Contract {
  import opened ValidatorState
  import opened Words
  import opened Wrappers

  datatype Vote = For | Against

  datatype Voting =
    | Open(votes: map<string, Vote>)
    | Closed(finalVotes: map<string, Vote>, finalVote: Vote)

  /** A slash proposal: the id of the transaction it is about, and its voting. */
  datatype SlashEntry = SlashEntry(id: string, voting: Voting)

  type SlashProposals = map<string, SlashEntry>

  /** The contract state that the gateway returns. */
  datatype Snapshot = Snapshot(
    epochSeq: u128,
    epochHeight: u128,
    nominated: seq<string>,
    slashProposals: SlashProposals)

  datatype CronJobError = ArweaveError | ContractGatewayError

  datatype JobResult = Finished | Errored(error: CronJobError) | Panicked

  // ----- epochs

  function RoleIn(own: string, snapshot: Snapshot): ValidatorRole {
    if own in snapshot.nominated then Cosigner else Idle
  }

  /** `check_for_epoch_update` on the height and epoch it loaded. */
  predicate Adopts(snapshot: Snapshot, block: u64, epoch: u64) {
    snapshot.epochSeq > epoch && snapshot.epochHeight <= block
  }

  /** What one run of the job makes of the shared state, whatever becomes of the votes. An epoch
      that does not fit the atomic panics before it is stored. */
  function AfterUpdate(own: string, view: Shared, snapshot: Snapshot): Shared {
    if Adopts(snapshot, view.block, view.epoch) && snapshot.epochSeq < TWO_TO_THE_64
    then view.(epoch := snapshot.epochSeq, role := RoleIn(own, snapshot))
    else view
  }

  /** The epoch rises or stays, and the role is from the same snapshot as the epoch. */
  lemma UpdateRaisesEpoch(own: string, view: Shared, snapshot: Snapshot)
    ensures var view' := AfterUpdate(own, view, snapshot);
            && view'.epoch >= view.epoch && view'.block == view.block
            && (view' != view ==> view'.epoch > view.epoch && view'.epoch == snapshot.epochSeq
                                  && snapshot.epochHeight <= view.block
                                  && (view'.role == Cosigner <==> own in snapshot.nominated))
            && (snapshot.epochSeq > view.epoch && snapshot.epochHeight <= view.block
                && snapshot.epochSeq < TWO_TO_THE_64 ==>
                  view'.epoch == snapshot.epochSeq)
  {
  }

  // ----- proposals to vote on

  predicate IsEligible(own: string, entries: SlashProposals, k: string) {
    k in entries && k != own && entries[k].voting.Open? && own !in entries[k].voting.votes
  }

  function Eligible(own: string, entries: SlashProposals): set<string> {
    set k | k in entries && IsEligible(own, entries, k)
  }

  predicate NoDuplicates<T(==)>(s: seq<T>) {
    forall i, j | 0 <= i < j < |s| :: s[i] != s[j]
  }

  /** `picked` is the eligible proposals, each once, in whatever order the map was iterated. */
  ghost predicate Lists(own: string, entries: SlashProposals, picked: seq<string>) {
    NoDuplicates(picked) && forall k :: k in picked <==> IsEligible(own, entries, k)
  }

  /** `check_for_slash_proposals`; the map is iterated in an arbitrary order. */
  method CheckForSlashProposals(own: string, entries: SlashProposals) returns (r: Option<seq<string>>)
    ensures r.None? <==> Eligible(own, entries) == {}
    ensures r.Some? ==> Lists(own, entries, r.value)
    ensures r.Some? ==>
              forall k :: k in r.value <==>
                k in entries && k != own && entries[k].voting.Open? && own !in entries[k].voting.votes
  {
    var picked: seq<string> := [];
    var rest := entries.Keys;
    while rest != {}
      invariant rest <= entries.Keys && NoDuplicates(picked)
      invariant forall k :: k in picked <==> k !in rest && IsEligible(own, entries, k)
      decreases |rest|
    {
      var k :| k in rest;
      if k != own && entries[k].voting.Open? && own !in entries[k].voting.votes {
        picked := picked + [k];
      }
      rest := rest - {k};
    }
    if picked == [] {
      forall k ensures k !in Eligible(own, entries) {
        assert k !in picked;
      }
      r := None;
    } else {
      assert picked[0] in Eligible(own, entries);
      r := Some(picked);
    }
  }

  /** What comes of posting one vote. An applied vote whose reply is lost reads as a failure. */
  datatype PostOutcome = Accepted | Refused | ReplyLost

  datatype Ballot = Ballot(id: string, vote: Vote, outcome: PostOutcome)

  /** `ballots` were cast on the first proposals of `picked`, in order: for where the judgement is
      good, against where it is bad, each with the outcome of its post; and only the last of
      them can have failed. */
  ghost predicate CastInOrder(
      entries: SlashProposals, picked: seq<string>, judge: string -> Option<bool>, post: nat -> PostOutcome,
      ballots: seq<Ballot>)
  {
    && |ballots| <= |picked|
    && (forall i | 0 <= i < |ballots| ::
          && picked[i] in entries
          && judge(picked[i]).Some?
          && ballots[i].id == entries[picked[i]].id
          && (ballots[i].vote == For <==> judge(picked[i]) == Some(true))
          && ballots[i].outcome == post(i))
    && (forall i | 0 <= i < |ballots| - 1 :: post(i) == Accepted)
  }

  /** The first `n` listed proposals can be judged and their posts are accepted. */
  predicate AcceptedBefore(picked: seq<string>, judge: string -> Option<bool>, post: nat -> PostOutcome, n: nat)
    requires n <= |picked|
  {
    forall i | 0 <= i < n :: judge(picked[i]).Some? && post(i) == Accepted
  }

  /** What voting on the list comes to: success, with a vote on each proposal, or the error of the
      first proposal that cannot be judged, or of the first post that is not accepted. */
  ghost predicate Voted(
      entries: SlashProposals, picked: seq<string>, judge: string -> Option<bool>, post: nat -> PostOutcome,
      r: Result<(), CronJobError>, ballots: seq<Ballot>)
  {
    && CastInOrder(entries, picked, judge, post, ballots)
    && (r.Ok? <==> AcceptedBefore(picked, judge, post, |picked|))
    && (r.Ok? ==> |ballots| == |picked|)
    && (r == Err(ArweaveError) <==>
          && |ballots| < |picked| && AcceptedBefore(picked, judge, post, |ballots|)
          && judge(picked[|ballots|]).None?)
    && (r == Err(ContractGatewayError) <==>
          ballots != [] && AcceptedBefore(picked, judge, post, |ballots| - 1) && post(|ballots| - 1) != Accepted)
  }

  /** The voting loop: it stops at the first proposal that cannot be judged and at the first
      vote that is not accepted. */
  method VoteAll(entries: SlashProposals, picked: seq<string>, judge: string -> Option<bool>, post: nat -> PostOutcome)
    returns (r: Result<(), CronJobError>, ballots: seq<Ballot>)
    requires forall k | k in picked :: k in entries
    ensures Voted(entries, picked, judge, post, r, ballots)
  {
    ballots := [];
    for i := 0 to |picked|
      invariant |ballots| == i && CastInOrder(entries, picked, judge, post, ballots)
      invariant AcceptedBefore(picked, judge, post, i)
    {
      var isValid := judge(picked[i]);
      if isValid.None? {
        return Err(ArweaveError), ballots;
      }
      var outcome := post(i);
      ballots := ballots + [Ballot(entries[picked[i]].id, if isValid.value then For else Against, outcome)];
      if outcome != Accepted {
        return Err(ContractGatewayError), ballots;
      }
    }
    r := Ok(());
  }

  /** The ids of the votes that the contract applied, in order. */
  function AppliedIds(ballots: seq<Ballot>): seq<string> {
    if ballots == [] then []
    else AppliedIds(ballots[..|ballots| - 1]) +
         if ballots[|ballots| - 1].outcome == Refused then [] else [ballots[|ballots| - 1].id]
  }

  // ----- what the votes leave to vote on

  /** The transaction ids of the listed proposals. */
  function Ids(entries: SlashProposals, picked: seq<string>): (ids: seq<string>)
    requires forall k | k in picked :: k in entries
    ensures |ids| == |picked|
  {
    seq(|picked|, i requires 0 <= i < |picked| => entries[picked[i]].id)
  }

  /** The votes that the voting loop got applied are those of the first proposals of its list:
      all it cast, or all but a refused last one. */
  lemma {:induction false} BallotsAreARound(
      entries: SlashProposals, picked: seq<string>, judge: string -> Option<bool>, post: nat -> PostOutcome,
      ballots: seq<Ballot>)
    returns (n: nat)
    requires CastInOrder(entries, picked, judge, post, ballots) && forall k | k in picked :: k in entries
    ensures n == if ballots != [] && post(|ballots| - 1) == Refused then |ballots| - 1 else |ballots|
    ensures AppliedIds(ballots) == Ids(entries, picked)[..n]
  {
    if ballots == [] {
      n := 0;
    } else {
      var m := |ballots| - 1;
      var front := ballots[..m];
      forall i | 0 <= i < |front| ensures front[i].outcome == Accepted {
        assert ballots[i].outcome == post(i);
      }
      var k := BallotsAreARound(entries, picked, judge, post, front);
      n := if ballots[m].outcome == Refused then m else m + 1;
      assert Ids(entries, picked)[..m + 1] == Ids(entries, picked)[..m] + [ballots[m].id];
    }
  }

  /** The contract after one vote: it goes to every open proposal about the ballot's id. */
  function ApplyVote(own: string, entries: SlashProposals, b: Ballot): SlashProposals {
    map k | k in entries ::
      if entries[k].id == b.id && entries[k].voting.Open?
      then entries[k].(voting := Open(entries[k].voting.votes[own := b.vote]))
      else entries[k]
  }

  /** The contract after our applied ballots and nothing else. */
  function ApplyBallots(own: string, entries: SlashProposals, ballots: seq<Ballot>): SlashProposals {
    if ballots == [] then entries
    else
      var before, b := ApplyBallots(own, entries, ballots[..|ballots| - 1]), ballots[|ballots| - 1];
      if b.outcome == Refused then before else ApplyVote(own, before, b)
  }

  lemma {:induction false} EligibleAfterBallots(own: string, entries: SlashProposals, ballots: seq<Ballot>)
    ensures var after := ApplyBallots(own, entries, ballots);
            && after.Keys == entries.Keys
            && (forall k | k in entries :: after[k].id == entries[k].id)
            && (forall k :: IsEligible(own, after, k) <==>
                  IsEligible(own, entries, k) && entries[k].id !in AppliedIds(ballots))
            && (forall k | k in entries && entries[k].id !in AppliedIds(ballots) :: after[k] == entries[k])
  {
    if ballots != [] {
      EligibleAfterBallots(own, entries, ballots[..|ballots| - 1]);
    }
  }

  /** After the votes of a round over unchanged proposals, only the rest of its list can still
      be eligible. */
  lemma OnlyTheRestIsEligible(
      own: string, entries: SlashProposals, picked: seq<string>, ballots: seq<Ballot>, n: nat)
    requires Lists(own, entries, picked) && n <= |picked| && AppliedIds(ballots) == Ids(entries, picked)[..n]
    ensures forall k | k in Eligible(own, ApplyBallots(own, entries, ballots)) :: k in picked[n..]
  {
    EligibleAfterBallots(own, entries, ballots);
    forall k | k in Eligible(own, ApplyBallots(own, entries, ballots)) ensures k in picked[n..] {
      assert k in picked;
      UnappliedIsInTail(entries, picked, n, k);
    }
  }

  lemma UnappliedIsInTail(entries: SlashProposals, picked: seq<string>, n: nat, k: string)
    requires (forall p | p in picked :: p in entries) && n <= |picked| && k in picked
    requires entries[k].id !in Ids(entries, picked)[..n]
    ensures k in picked[n..]
  {
    var i :| 0 <= i < |picked| && picked[i] == k;
    var ids := Ids(entries, picked);
    assert forall m | 0 <= m < n :: ids[..n][m] == ids[m];
    assert ids[i] == entries[k].id;
    assert picked[n..][i - n] == k;
  }

  /** A round over unchanged proposals, on any snapshot: each applied vote takes at least one
      proposal off the list, and a round in which every vote was accepted leaves none. */
  lemma RoundConverges(
      own: string, entries: SlashProposals, picked: seq<string>, judge: string -> Option<bool>,
      post: nat -> PostOutcome, ballots: seq<Ballot>)
    requires Lists(own, entries, picked) && CastInOrder(entries, picked, judge, post, ballots)
    ensures |Eligible(own, ApplyBallots(own, entries, ballots))| + |AppliedIds(ballots)| <= |Eligible(own, entries)|
    ensures |ballots| == |picked| && AcceptedBefore(picked, judge, post, |picked|) ==>
              Eligible(own, ApplyBallots(own, entries, ballots)) == {}
  {
    var n := BallotsAreARound(entries, picked, judge, post, ballots);
    OnlyTheRestIsEligible(own, entries, picked, ballots, n);
    var rest := set k | k in picked[n..];
    TailIsDistinct(picked, n);
    CountDistinct(picked[n..]);
    ListCounts(own, entries, picked);
    SubsetCounts(Eligible(own, ApplyBallots(own, entries, ballots)), rest);
  }

  lemma TailIsDistinct(s: seq<string>, n: nat)
    requires NoDuplicates(s) && n <= |s|
    ensures NoDuplicates(s[n..]) && forall k | k in s[n..] :: k !in s[..n]
  {
  }

  lemma {:induction false} SubsetCounts(a: set<string>, b: set<string>)
    requires a <= b
    ensures |a| <= |b|
  {
    assert b == a + (b - a);
  }

  lemma ListCounts(own: string, entries: SlashProposals, picked: seq<string>)
    requires Lists(own, entries, picked)
    ensures |Eligible(own, entries)| == |picked|
  {
    var s := set k | k in picked;
    assert s == Eligible(own, entries) by {
      forall k ensures k in s <==> k in Eligible(own, entries) {
      }
    }
    CountDistinct(picked);
  }

  lemma {:induction false} CountDistinct(s: seq<string>)
    requires NoDuplicates(s)
    ensures |set k | k in s| == |s|
  {
    if s != [] {
      var front, last := s[..|s| - 1], s[|s| - 1];
      CountDistinct(front);
      assert s == front + [last];
      assert (set k | k in s) == (set k | k in front) + {last};
    }
  }

  // ----- the job

  /** The job on a fetched snapshot does not panic on its epoch. */
  predicate EpochFits(snapshot: Snapshot, view: Shared) {
    Adopts(snapshot, view.block, view.epoch) ==> snapshot.epochSeq < TWO_TO_THE_64
  }

  /** `check_contract_updates`. Whatever becomes of the votes, the shared state afterwards is
      decided by the snapshot alone. The job finishes exactly when every eligible proposal can be
      judged and each of the posts, of which there is one for each, is accepted; then nothing of
      the proposals it saw is left to vote on. A run that does not finish has still taken a
      proposal off for each applied vote. */
  method CheckContractUpdates(
      own: string, state: State, fetched: Option<Snapshot>, judge: string -> Option<bool>, post: nat -> PostOutcome)
    returns (r: JobResult, ballots: seq<Ballot>)
    requires state.Valid()
    modifies state
    ensures state.Valid()
    ensures fetched.None? ==> r == Errored(ContractGatewayError) && ballots == [] && state.View() == old(state.View())
    ensures fetched.Some? ==>
              var before, s := old(state.View()), fetched.value;
              && state.View() == AfterUpdate(own, before, s)
              && (r.Panicked? <==> !EpochFits(s, before))
              && (r.Panicked? ==> ballots == [])
              && (r.Finished? <==>
                    && EpochFits(s, before)
                    && (forall k | k in Eligible(own, s.slashProposals) :: judge(k).Some?)
                    && (forall i | 0 <= i < |Eligible(own, s.slashProposals)| :: post(i) == Accepted))
              && (r.Finished? ==>
                    && |ballots| == |Eligible(own, s.slashProposals)|
                    && Eligible(own, ApplyBallots(own, s.slashProposals, ballots)) == {})
              && |Eligible(own, ApplyBallots(own, s.slashProposals, ballots))| + |AppliedIds(ballots)|
                 <= |Eligible(own, s.slashProposals)|
              && (!r.Panicked? ==>
                    exists picked :: Lists(own, s.slashProposals, picked)
                                     && Voted(s.slashProposals, picked, judge, post, VotingResult(r), ballots))
  {
    ballots := [];
    if fetched.None? {
      return Errored(ContractGatewayError), [];
    }
    var snapshot := fetched.value;
    var block := state.currentBlock;
    var epoch := state.currentEpoch;
    var proposals := CheckForSlashProposals(own, snapshot.slashProposals);
    var picked := if proposals.Some? then proposals.value else [];
    assert Lists(own, snapshot.slashProposals, picked) by {
      if proposals.None? {
        assert forall k :: IsEligible(own, snapshot.slashProposals, k) ==> k in Eligible(own, snapshot.slashProposals);
      }
    }
    if Adopts(snapshot, block, epoch) {
      var panicked := state.SetCurrentEpoch(snapshot.epochSeq);
      if panicked {
        RoundConverges(own, snapshot.slashProposals, picked, judge, post, []);
        return Panicked, [];
      }
      state.SetRole(RoleIn(own, snapshot));
    }
    var voted: Result<(), CronJobError>;
    voted, ballots := VoteAll(snapshot.slashProposals, picked, judge, post);
    RoundConverges(own, snapshot.slashProposals, picked, judge, post, ballots);
    AcceptedIff(own, snapshot.slashProposals, picked, judge, post);
    r := if voted.Ok? then Finished else Errored(voted.error);
  }

  /** The voting behind a result of the job. */
  function VotingResult(r: JobResult): Result<(), CronJobError>
    requires !r.Panicked?
  {
    if r.Finished? then Ok(()) else Err(r.error)
  }

  /** Whether a whole list is accepted does not depend on its order. */
  lemma AcceptedIff(
      own: string, entries: SlashProposals, picked: seq<string>, judge: string -> Option<bool>,
      post: nat -> PostOutcome)
    requires Lists(own, entries, picked)
    ensures |Eligible(own, entries)| == |picked|
    ensures AcceptedBefore(picked, judge, post, |picked|) <==>
            && (forall k | k in Eligible(own, entries) :: judge(k).Some?)
            && (forall i | 0 <= i < |picked| :: post(i) == Accepted)
  {
    ListCounts(own, entries, picked);
    if AcceptedBefore(picked, judge, post, |picked|) {
      forall k | k in Eligible(own, entries) ensures judge(k).Some? {
        assert k in picked;
      }
    }
    if forall k | k in Eligible(own, entries) :: judge(k).Some? {
      forall i | 0 <= i < |picked| ensures judge(picked[i]).Some? {
        assert picked[i] in picked && picked[i] in Eligible(own, entries);
      }
    }
  }
}
