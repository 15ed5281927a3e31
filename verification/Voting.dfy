/** Rounds of voting against a contract that other parties change as well. */
module VotingRounds {
  import opened Contract
  import opened Wrappers

  /** The contract's open proposals, and the votes of ours it has applied, by proposal id. */
  datatype World = World(entries: SlashProposals, applied: seq<string>)

  /** Snapshots reflect applied votes. */
  predicate Reflects(own: string, w: World) {
    forall k | k in w.entries && w.entries[k].id in w.applied && w.entries[k].voting.Open? ::
      own in w.entries[k].voting.votes
  }

  /** No two eligible proposals of the snapshot are about the same transaction id. */
  ghost predicate DistinctIds(own: string, entries: SlashProposals) {
    forall k, m | IsEligible(own, entries, k) && IsEligible(own, entries, m) && k != m :: entries[k].id != entries[m].id
  }

  /** A round asks for at most one vote per id exactly when the eligible ids are distinct. */
  lemma RoundAsksOncePerIdIff(own: string, entries: SlashProposals, picked: seq<string>)
    requires Lists(own, entries, picked)
    ensures NoDuplicates(Ids(entries, picked)) <==> DistinctIds(own, entries)
  {
    var ids := Ids(entries, picked);
    if NoDuplicates(ids) {
      forall k, m | IsEligible(own, entries, k) && IsEligible(own, entries, m) && k != m
        ensures entries[k].id != entries[m].id
      {
        assert k in picked && m in picked;
        var i :| 0 <= i < |picked| && picked[i] == k;
        var j :| 0 <= j < |picked| && picked[j] == m;
        assert ids[i] == entries[k].id && ids[j] == entries[m].id;
      }
    }
    if DistinctIds(own, entries) {
      forall i, j | 0 <= i < j < |ids| ensures ids[i] != ids[j] {
        assert picked[i] in picked && picked[j] in picked;
      }
    }
  }

  /** A round over two accused with open, unvoted proposals about one transaction asks for two
      votes on it, and both can be applied, one for and one against. */
  lemma SharedIdGetsTwoVotes(own: string, a: string, b: string, tx: string)
    requires own != a && own != b && a != b
    ensures var entries: SlashProposals := map[a := SlashEntry(tx, Open(map[])), b := SlashEntry(tx, Open(map[]))];
            var judge := (k: string) => Some(k == a);
            var ballots := [Ballot(tx, For, Accepted), Ballot(tx, Against, Accepted)];
            && Lists(own, entries, [a, b]) && !NoDuplicates(Ids(entries, [a, b])) && !DistinctIds(own, entries)
            && CastInOrder(entries, [a, b], judge, _ => Accepted, ballots) && AppliedIds(ballots) == [tx, tx]
  {
    var entries: SlashProposals := map[a := SlashEntry(tx, Open(map[])), b := SlashEntry(tx, Open(map[]))];
    var ballots := [Ballot(tx, For, Accepted), Ballot(tx, Against, Accepted)];
    assert IsEligible(own, entries, a) && IsEligible(own, entries, b);
    assert Ids(entries, [a, b])[0] == Ids(entries, [a, b])[1] == tx;
    assert ballots[..1] == [Ballot(tx, For, Accepted)] && ballots[..1][..0] == [];
    assert AppliedIds(ballots[..1]) == [tx];
  }

  // ----- runs

  /** Other parties propose, vote and close as they like, but no vote of ours is undone. */
  predicate OthersAct(own: string, w: World, w': World) {
    w'.applied == w.applied && Reflects(own, w')
  }

  /** One run of the job against snapshot `w`: the first `n` proposals of some listing had
      our vote applied, while others acted too. */
  ghost predicate RoundActs(own: string, w: World, w': World, picked: seq<string>, n: nat) {
    && Lists(own, w.entries, picked)
    && n <= |picked|
    && w'.applied == w.applied + Ids(w.entries, picked)[..n]
    && Reflects(own, w')
  }

  ghost predicate WorldStep(own: string, w: World, w': World) {
    OthersAct(own, w, w') || exists picked: seq<string>, n: nat :: RoundActs(own, w, w', picked, n)
  }

  ghost predicate IsRun(own: string, run: seq<World>) {
    && run != []
    && run[0].applied == [] && Reflects(own, run[0])
    && forall i | 0 < i < |run| :: WorldStep(own, run[i - 1], run[i])
  }

  /** The ids that a step added votes on. */
  function Added(w: World, w': World): seq<string>
    requires |w.applied| <= |w'.applied|
  {
    w'.applied[|w.applied|..]
  }

  /** A step votes on no id that has our vote already. */
  lemma StepAddsNewIds(own: string, w: World, w': World)
    requires Reflects(own, w) && WorldStep(own, w, w')
    ensures w.applied <= w'.applied && Reflects(own, w')
    ensures forall id | id in Added(w, w') :: id !in w.applied
    ensures DistinctIds(own, w.entries) ==> NoDuplicates(Added(w, w'))
  {
    if !OthersAct(own, w, w') {
      var picked: seq<string>, n: nat :| RoundActs(own, w, w', picked, n);
      var ids := Ids(w.entries, picked);
      RoundAsksOncePerIdIff(own, w.entries, picked);
      assert Added(w, w') == ids[..n];
      forall id | id in Added(w, w') ensures id !in w.applied {
        var j :| 0 <= j < n && ids[j] == id;
        assert picked[j] in picked;
      }
    }
  }

  lemma DuplicatesOfParts(a: seq<string>, b: seq<string>)
    requires forall x | x in b :: x !in a
    ensures NoDuplicates(a + b) <==> NoDuplicates(a) && NoDuplicates(b)
  {
    if NoDuplicates(a + b) {
      forall i, j | 0 <= i < j < |a| ensures a[i] != a[j] {
        assert (a + b)[i] != (a + b)[j];
      }
      forall i, j | 0 <= i < j < |b| ensures b[i] != b[j] {
        assert (a + b)[|a| + i] != (a + b)[|a| + j];
      }
    } else if NoDuplicates(a) && NoDuplicates(b) {
      forall i, j | 0 <= i < j < |a + b| ensures (a + b)[i] != (a + b)[j] {
        assert j >= |a| ==> b[j - |a|] in b;
      }
    }
  }

  /** The votes of step `i` are on distinct ids. */
  ghost predicate AddsDistinct(run: seq<World>, i: nat)
    requires 0 < i < |run|
  {
    |run[i - 1].applied| <= |run[i].applied| && NoDuplicates(Added(run[i - 1], run[i]))
  }

  /** None of the first `n` steps applies two votes to one id. */
  ghost predicate StepsDistinct(run: seq<World>, n: nat)
    requires n <= |run|
  {
    forall i | 0 < i < n :: AddsDistinct(run, i)
  }

  /** At every point of every run whose snapshots reflect applied votes, no transaction id has
      received two of our votes if and only if no single round has applied two to one id. */
  lemma {:induction false} AtMostOneVotePerIdIff(own: string, run: seq<World>, n: nat)
    requires IsRun(own, run) && 0 < n <= |run|
    ensures Reflects(own, run[n - 1])
    ensures NoDuplicates(run[n - 1].applied) <==> StepsDistinct(run, n)
  {
    if n > 1 {
      var w, w' := run[n - 2], run[n - 1];
      AtMostOneVotePerIdIff(own, run, n - 1);
      StepAddsNewIds(own, w, w');
      DuplicatesOfParts(w.applied, Added(w, w'));
      assert w'.applied == w.applied + Added(w, w');
      assert AddsDistinct(run, n - 1) <==> NoDuplicates(Added(w, w'));
    }
  }

  /** So no id receives two of our votes when each snapshot that was voted on had distinct
      eligible ids, which is what makes each of its rounds ask once per id. */
  lemma AtMostOneVotePerId(own: string, run: seq<World>)
    requires IsRun(own, run)
    requires forall i | 0 < i < |run| && run[i].applied != run[i - 1].applied :: DistinctIds(own, run[i - 1].entries)
    ensures NoDuplicates(run[|run| - 1].applied) && Reflects(own, run[|run| - 1])
  {
    AtMostOneVotePerIdIff(own, run, |run|);
    forall i | 0 < i < |run| ensures AddsDistinct(run, i) {
      AtMostOneVotePerIdIff(own, run, i);
      StepAddsNewIds(own, run[i - 1], run[i]);
    }
  }

  // ----- convergence

  /** With distinct ids each applied vote takes exactly one proposal off the list: what is left
      to vote on is the rest of it. */
  lemma DistinctRoundConverges(
      own: string, entries: SlashProposals, picked: seq<string>, judge: string -> Option<bool>,
      post: nat -> PostOutcome, ballots: seq<Ballot>)
    requires Lists(own, entries, picked) && CastInOrder(entries, picked, judge, post, ballots)
    requires DistinctIds(own, entries)
    ensures |AppliedIds(ballots)| <= |picked|
    ensures Lists(own, ApplyBallots(own, entries, ballots), picked[|AppliedIds(ballots)|..])
    ensures |Eligible(own, ApplyBallots(own, entries, ballots))| + |AppliedIds(ballots)| == |Eligible(own, entries)|
  {
    var n := BallotsAreARound(entries, picked, judge, post, ballots);
    RestIsListed(own, entries, picked, ballots, n);
    ListCounts(own, entries, picked);
    ListCounts(own, ApplyBallots(own, entries, ballots), picked[n..]);
  }

  /** Our vote on proposal `k` as its judgement is, and nothing else about it. */
  function VotedOn(own: string, entry: SlashEntry, judged: Option<bool>): SlashEntry
    requires entry.voting.Open?
  {
    entry.(voting := Open(entry.voting.votes[own := if judged == Some(true) then For else Against]))
  }

  /** The contract `after` has our judgement on the listed proposal `i`. */
  predicate Recorded(
      own: string, entries: SlashProposals, after: SlashProposals, k: string, judged: Option<bool>)
  {
    k in entries && k in after && entries[k].voting.Open? && after[k] == VotedOn(own, entries[k], judged)
  }

  /** With distinct ids the contract ends up with our judgement on each proposal that was voted on,
      and with every other proposal as it was. */
  lemma RoundRecordsJudgements(
      own: string, entries: SlashProposals, picked: seq<string>, judge: string -> Option<bool>,
      post: nat -> PostOutcome, ballots: seq<Ballot>)
    requires Lists(own, entries, picked) && CastInOrder(entries, picked, judge, post, ballots)
    requires DistinctIds(own, entries)
    ensures var after := ApplyBallots(own, entries, ballots);
            && |AppliedIds(ballots)| <= |picked|
            && after.Keys == entries.Keys
            && (forall i | 0 <= i < |AppliedIds(ballots)| ::
                  Recorded(own, entries, after, picked[i], judge(picked[i])))
            && (forall k | k in entries && entries[k].id !in AppliedIds(ballots) :: after[k] == entries[k])
  {
    var n := BallotsAreARound(entries, picked, judge, post, ballots);
    EligibleAfterBallots(own, entries, ballots);
    forall i | 0 <= i < n
      ensures Recorded(own, entries, ApplyBallots(own, entries, ballots), picked[i], judge(picked[i]))
    {
      JudgementRecorded(own, entries, picked, judge, post, ballots, i);
    }
  }

  lemma VoteKeepsRecord(
      own: string, entries: SlashProposals, before: SlashProposals, b: Ballot, k: string, judged: Option<bool>)
    requires Recorded(own, entries, before, k, judged) && entries[k].id != b.id
    ensures Recorded(own, entries, ApplyVote(own, before, b), k, judged)
  {
  }

  lemma VoteMakesRecord(
      own: string, entries: SlashProposals, before: SlashProposals, b: Ballot, k: string, judged: Option<bool>)
    requires k in entries && k in before && before[k] == entries[k] && entries[k].voting.Open?
    requires b.id == entries[k].id && (b.vote == For <==> judged == Some(true))
    ensures Recorded(own, entries, ApplyVote(own, before, b), k, judged)
  {
  }

  lemma {:induction false} JudgementRecorded(
      own: string, entries: SlashProposals, picked: seq<string>, judge: string -> Option<bool>,
      post: nat -> PostOutcome, ballots: seq<Ballot>, i: nat)
    requires Lists(own, entries, picked) && CastInOrder(entries, picked, judge, post, ballots)
    requires DistinctIds(own, entries) && i < |ballots| && ballots[i].outcome != Refused
    ensures Recorded(own, entries, ApplyBallots(own, entries, ballots), picked[i], judge(picked[i]))
    decreases |ballots|
  {
    var m := |ballots| - 1;
    var front := ballots[..m];
    var before := ApplyBallots(own, entries, front);
    ListedIsEligible(own, entries, picked, i);
    ListedIsEligible(own, entries, picked, m);
    if i < m {
      JudgementRecorded(own, entries, picked, judge, post, front, i);
      assert picked[i] != picked[m];
      VoteKeepsRecord(own, entries, before, ballots[m], picked[i], judge(picked[i]));
    } else {
      NotYetApplied(own, entries, picked, judge, post, front);
      VoteMakesRecord(own, entries, before, ballots[m], picked[m], judge(picked[m]));
    }
  }

  lemma ListedIsEligible(own: string, entries: SlashProposals, picked: seq<string>, i: nat)
    requires Lists(own, entries, picked) && i < |picked|
    ensures IsEligible(own, entries, picked[i])
  {
    assert picked[i] in picked;
  }

  lemma NotYetApplied(
      own: string, entries: SlashProposals, picked: seq<string>, judge: string -> Option<bool>,
      post: nat -> PostOutcome, front: seq<Ballot>)
    requires Lists(own, entries, picked) && CastInOrder(entries, picked, judge, post, front)
    requires DistinctIds(own, entries) && |front| < |picked|
    ensures var k, before := picked[|front|], ApplyBallots(own, entries, front);
            k in entries && k in before && before[k] == entries[k]
  {
    var m, ids := |front|, Ids(entries, picked);
    var n := BallotsAreARound(entries, picked, judge, post, front);
    ListedIsEligible(own, entries, picked, m);
    RoundAsksOncePerIdIff(own, entries, picked);
    EligibleAfterBallots(own, entries, front);
    assert forall j | 0 <= j < n :: ids[..n][j] != ids[m];
  }

  lemma RestIsListed(own: string, entries: SlashProposals, picked: seq<string>, ballots: seq<Ballot>, n: nat)
    requires Lists(own, entries, picked) && DistinctIds(own, entries)
    requires n <= |picked| && AppliedIds(ballots) == Ids(entries, picked)[..n]
    ensures Lists(own, ApplyBallots(own, entries, ballots), picked[n..])
  {
    var ids, after := Ids(entries, picked), ApplyBallots(own, entries, ballots);
    RoundAsksOncePerIdIff(own, entries, picked);
    EligibleAfterBallots(own, entries, ballots);
    OnlyTheRestIsEligible(own, entries, picked, ballots, n);
    TailIsDistinct(ids, n);
    TailIsDistinct(picked, n);
    forall k ensures k in picked[n..] <==> IsEligible(own, after, k) {
      if k in picked[n..] {
        var i :| n <= i < |picked| && picked[i] == k;
        assert k in picked && ids[n..][i - n] == entries[k].id;
      }
      assert IsEligible(own, after, k) ==> k in Eligible(own, after);
    }
  }
}
