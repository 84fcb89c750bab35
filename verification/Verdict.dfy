/** The state a client shows for a stored proposal (getProposalState of
    packages/nouns-webapp/src/wrappers/alpsDao.ts), from the events to the verdict. */
module Verdict {
  import opened History
  import opened ProposalIndex
  import opened ProposalRuns
  import opened Runs
  import opened Store
  import opened TokenCounts
  import opened TokenRuns
  import opened Wrappers

  datatype ProposalState =
    | Undetermined | Pending | Active | Cancelled | Defeated | Succeeded | Queued | Expired | Executed | Vetoed

  // Fourteen days, in seconds.
  const GRACE_PERIOD := 14 * 60 * 60 * 24

  /** A block number that is missing or 0 counts as unknown. Times are in seconds. */
  function GetProposalState(block: Option<nat>, timestamp: Option<nat>, p: Proposal): ProposalState {
    match p.status
    case Pending =>
      if block.GetOr(0) == 0 then Undetermined
      else if block.value <= p.startBlock then ProposalState.Pending
      else ProposalState.Active
    case Active =>
      if block.GetOr(0) == 0 then Undetermined
      else if block.value > p.endBlock then
        if p.forVotes <= p.againstVotes || p.forVotes < p.quorumVotes then Defeated
        else if p.eta.None? then Succeeded
        else ProposalState.Active
      else ProposalState.Active
    case Queued =>
      if timestamp.None? || p.eta.None? then Undetermined
      else if timestamp.value >= p.eta.value + GRACE_PERIOD then Expired
      else ProposalState.Queued
    case Cancelled => ProposalState.Cancelled
    case Executed => ProposalState.Executed
    case Vetoed => ProposalState.Vetoed
  }

  /** Dynamic quorums were configured before the event, in an earlier block. */
  predicate Configured(before: seq<Stamped>, e: Stamped) {
    FirstParameterBlock(before).Some? && FirstParameterBlock(before).value < e.block
  }

  /** What a proposal has on record from its creation event on: its dates, the mints less burns and the
      quorum parameters of that moment, and whether dynamic quorums were configured. */
  ghost predicate RecordsCreation(s: Store, before: seq<Stamped>, e: Stamped) {
    e.event.ProposalCreated? && e.event.id in s.proposals
    && var p := s.proposals[e.event.id];
      && p.proposer == e.event.proposer && p.createdBlock == e.block
      && p.startBlock == e.event.startBlock && p.endBlock == e.event.endBlock
      && p.totalSupply == NetMints(before)
      && p.minBps == LastMin(before) && p.maxBps == LastMax(before) && p.coefficient == LastCoefficient(before)
      && (Dynamic(s, e.event.id) <==> Configured(before, e))
      && (!Dynamic(s, e.event.id) ==> p.quorumVotes == e.event.quorumVotes)
  }

  lemma CreatedRecords(s: Store, before: seq<Stamped>, e: Stamped)
    requires e.event.ProposalCreated?
    requires ParamsOf(s.params.GetOr(NEW_PARAMS), before) && s.Gov().totalTokenHolders == NetMints(before)
    ensures RecordsCreation(Step(s, e.block, e.event).value, before, e)
  {
  }

  lemma RunNext(es: seq<Stamped>, n: nat)
    requires n < |es| && Run(es).Some?
    ensures Run(es[..n]).Some? && Run(es[..n + 1]) == Step(Run(es[..n]).value, es[n].block, es[n].event)
    ensures Run(es[..n + 1]).Some?
  {
    RunPrefix(es, n);
    RunPrefix(es, n + 1);
    assert es[..n + 1][..n] == es[..n];
  }

  lemma KeptRecords(mid: Store, s: Store, before: seq<Stamped>, e: Stamped)
    requires RecordsCreation(mid, before, e) && Kept(mid, s, e.event.id)
    ensures RecordsCreation(s, before, e)
  {
  }

  /** What a proposal created by the n-th event records stays with it to the end of the run; if
      transfers move tokens, the supply it records is the number of live tokens of that moment. */
  lemma RecordsKept(es: seq<Stamped>, n: nat)
    requires Ordered(es) && Abides(es, Fresh) && Run(es).Some? && n < |es| && es[n].event.ProposalCreated?
    ensures RecordsCreation(Run(es).value, es[..n], es[n])
    ensures Run(es[..n]).Some? && (Abides(es, Moves) ==> NetMints(es[..n]) == |LiveTokens(Run(es[..n]).value)|)
  {
    RunNext(es, n);
    RunParams(es[..n]);
    RunMints(es[..n]);
    CreatedRecords(Run(es[..n]).value, es[..n], es[n]);
    RegimeFixed(es, n + 1, es[n].event.id);
    KeptRecords(Run(es[..n + 1]).value, Run(es).value, es[..n], es[n]);
    if Abides(es, Moves) {
      AbidesPrefix(es, n, Moves);
      SupplyIndex(es[..n]);
    }
  }

  lemma NoVotesNoTally(s: Store, id: nat, support: nat)
    requires !HasVotes(s, id)
    ensures Tally(s.votes, id, support) == 0
  {
    forall k | k in Weights(s.votes, id, support) ensures Weights(s.votes, id, support)[k] == 0 {
      StoredVoteCounts(s, k);
    }
    SumZero(Weights(s.votes, id, support));
  }

  /** Succeeded if the votes for outnumber the votes against and reach the quorum. */
  function Outcome(for': int, against: int, quorum: int): ProposalState {
    if for' > against && for' >= quorum then Succeeded else Defeated
  }

  /** The same under dynamic quorum; without supply there is none. */
  function DynamicOutcome(for': int, against: int, supply: int, minBps: int, maxBps: int,
          coefficient: int): ProposalState {
    if supply == 0 then Defeated
    else Outcome(for', against, Quorum.DynamicQuorumVotes(against, supply, minBps, maxBps, coefficient))
  }

  /** Voting on a proposal is over, and it is neither closed nor queued. */
  predicate Decided(s: Store, id: nat, block: nat)
    requires id in s.proposals
  {
    var p := s.proposals[id];
    p.status.Active? && p.eta.None? && p.endBlock < block
  }

  lemma DecidedOutcome(s: Store, id: nat, block: nat, timestamp: Option<nat>)
    requires id in s.proposals && Decided(s, id, block) && TalliedAt(s, id) && QuorumRecorded(s)
    ensures var p := s.proposals[id];
      GetProposalState(Some(block), timestamp, p) ==
        if Dynamic(s, id)
        then DynamicOutcome(Tally(s.votes, id, 1), Tally(s.votes, id, 0), p.totalSupply, p.minBps, p.maxBps,
                            p.coefficient)
        else Outcome(Tally(s.votes, id, 1), Tally(s.votes, id, 0), p.quorumVotes)
  {
    if !HasVotes(s, id) {
      NoVotesNoTally(s, id, 0);
      NoVotesNoTally(s, id, 1);
    }
  }

  /** End to end: once voting has ended, an active proposal is shown as succeeded exactly if the stored
      votes for it outnumber those against it and reach the quorum, else as defeated. The quorum is the
      recorded one or, under dynamic quorum, the one that the votes against and the supply and
      parameters recorded with the proposal ask for. */
  lemma DecidedVerdict(es: seq<Stamped>, id: nat, block: nat, timestamp: Option<nat>)
    requires Ordered(es) && Abides(es, Fresh) && Abides(es, Voting)
    requires Run(es).Some? && id in Run(es).value.proposals && Decided(Run(es).value, id, block)
    ensures var s := Run(es).value; var p := s.proposals[id];
      GetProposalState(Some(block), timestamp, p) ==
        if Dynamic(s, id)
        then DynamicOutcome(Tally(s.votes, id, 1), Tally(s.votes, id, 0), p.totalSupply, p.minBps, p.maxBps,
                            p.coefficient)
        else Outcome(Tally(s.votes, id, 1), Tally(s.votes, id, 0), p.quorumVotes)
  {
    RunTallied(es);
    RunQuorum(es);
    assert TalliedAt(Run(es).value, id);
    DecidedOutcome(Run(es).value, id, block, timestamp);
  }

  /** The outcome for a proposal created by the event: its quorum is the number the event states or, if
      dynamic quorums were configured, that of the supply and the parameters of that moment. */
  function Decision(before: seq<Stamped>, e: Stamped, for': int, against: int): ProposalState
    requires e.event.ProposalCreated?
  {
    if Configured(before, e)
    then DynamicOutcome(for', against, NetMints(before), LastMin(before), LastMax(before), LastCoefficient(before))
    else Outcome(for', against, e.event.quorumVotes)
  }

  /** The verdict in terms of the creation event, the n-th, and of the stored votes. */
  lemma VerdictFromCreation(es: seq<Stamped>, n: nat, block: nat, timestamp: Option<nat>)
    requires Ordered(es) && Abides(es, Fresh) && Abides(es, Voting)
    requires Run(es).Some? && n < |es| && es[n].event.ProposalCreated?
    ensures es[n].event.id in Run(es).value.proposals
    ensures var s, id := Run(es).value, es[n].event.id;
      Decided(s, id, block) ==>
        GetProposalState(Some(block), timestamp, s.proposals[id]) ==
          Decision(es[..n], es[n], Tally(s.votes, id, 1), Tally(s.votes, id, 0))
  {
    RecordsKept(es, n);
    if Decided(Run(es).value, es[n].event.id, block) {
      DecidedVerdict(es, es[n].event.id, block, timestamp);
    }
  }

  // ---------- What is shown, from the events alone

  lemma CastOutcome(s: Store, es: seq<Stamped>, id: nat, block: nat, timestamp: Option<nat>)
    requires id in s.proposals && Decided(s, id, block) && CastAt(s, es, id) && QuorumRecorded(s)
    requires !HasVotes(s, id) ==> s.proposals[id].forVotes == s.proposals[id].againstVotes == 0
    ensures var p := s.proposals[id];
      GetProposalState(Some(block), timestamp, p) ==
        if Dynamic(s, id)
        then DynamicOutcome(Cast(es, id, 1), Cast(es, id, 0), p.totalSupply, p.minBps, p.maxBps, p.coefficient)
        else Outcome(Cast(es, id, 1), Cast(es, id, 0), p.quorumVotes)
  {
  }

  /** The state of a proposal that the n-th event creates and no later one closes: unknown without a block
      number, pending up to its start block and active from then on; only after its end block, and only if
      it was created late or voted on, the verdict on the votes cast. */
  ghost function OpenState(es: seq<Stamped>, n: nat, block: Option<nat>): ProposalState
    requires n < |es| && es[n].event.ProposalCreated?
  {
    var e := es[n].event;
    if block.GetOr(0) == 0 then Undetermined
    else if !CreatedLate(es[n]) && !SomeVote(es, e.id) then
      if block.value <= e.startBlock then ProposalState.Pending else ProposalState.Active
    else if block.value <= e.endBlock then ProposalState.Active
    else Decision(es[..n], es[n], Cast(es, e.id, 1), Cast(es, e.id, 0))
  }

  /** It is shown so at every block and time. */
  lemma OpenVerdict(es: seq<Stamped>, n: nat, id: nat, block: Option<nat>, timestamp: Option<nat>)
    requires Ordered(es) && Abides(es, Fresh) && Run(es).Some? && LeftOpen(es, n, id)
    ensures id in Run(es).value.proposals
    ensures GetProposalState(block, timestamp, Run(es).value.proposals[id]) == OpenState(es, n, block)
  {
    var s := Run(es).value;
    OpenStatus(es, n, id);
    RunVoted(es, id);
    RecordsKept(es, n);
    if block.GetOr(0) > es[n].event.endBlock && (CreatedLate(es[n]) || SomeVote(es, id)) {
      RunCast(es, id);
      RunQuorum(es);
      CastOutcome(s, es, id, block.value, timestamp);
    }
  }

  /** A closed proposal is shown as its last closing says, on every run: cancelled, vetoed and executed at
      every block and time, queued for fourteen days from its execution time on, then expired. */
  lemma ClosedVerdict(es: seq<Stamped>, n: nat, id: nat, block: Option<nat>, timestamp: Option<nat>)
    requires Run(es).Some? && LastClosing(es, n, id)
    ensures id in Run(es).value.proposals
    ensures var e, shown := es[n].event, GetProposalState(block, timestamp, Run(es).value.proposals[id]);
      && (e.ProposalCanceled? ==> shown == ProposalState.Cancelled)
      && (e.ProposalVetoed? ==> shown == ProposalState.Vetoed)
      && (e.ProposalExecuted? ==> shown == ProposalState.Executed)
      && (e.ProposalQueued? ==>
            shown == (if timestamp.None? then Undetermined
                      else if timestamp.value >= e.eta + 1_209_600 then Expired
                      else ProposalState.Queued))
  {
    ClosedStatus(es, n, id);
    RunEta(es, id);
    if es[n].event.ProposalQueued? {
      LastEtaQueued(es, n, id);
    }
  }

  // ---------- Proposals without votes

  lemma OpenShown(s: Store, e: Stamped, block: nat, timestamp: Option<nat>)
    requires e.event.ProposalCreated? && OpenAs(s, e) && block > e.event.startBlock && block > e.event.endBlock
    ensures var shown := GetProposalState(Some(block), timestamp, s.proposals[e.event.id]);
      && (shown == Succeeded || shown == Defeated <==> CreatedLate(e) || HasVotes(s, e.event.id))
      && (shown == ProposalState.Active <==> !CreatedLate(e) && !HasVotes(s, e.event.id))
      && (CreatedLate(e) && !HasVotes(s, e.event.id) ==> shown == Defeated)
  {
  }

  /** Once its voting period is over, a proposal that is never closed is decided, as succeeded or
      defeated, exactly if it was created at or after its start block or somebody has voted on it.
      Otherwise it is shown as active for ever; without votes and created late, it is defeated. */
  lemma UnvotedShownActive(es: seq<Stamped>, n: nat, id: nat, block: nat, timestamp: Option<nat>)
    requires Abides(es, Fresh) && Run(es).Some? && LeftOpen(es, n, id)
    requires block > es[n].event.startBlock && block > es[n].event.endBlock
    ensures id in Run(es).value.proposals
    ensures var s := Run(es).value;
      var shown := GetProposalState(Some(block), timestamp, s.proposals[id]);
      && (shown == Succeeded || shown == Defeated <==> CreatedLate(es[n]) || HasVotes(s, id))
      && (shown == ProposalState.Active <==> !CreatedLate(es[n]) && !HasVotes(s, id))
      && (CreatedLate(es[n]) && !HasVotes(s, id) ==> shown == Defeated)
  {
    OpenStatus(es, n, id);
    OpenShown(Run(es).value, es[n], block, timestamp);
  }

  /** The run that only creates a proposal with start block 5 and end block 6. */
  function Alone(created: nat): seq<Stamped> {
    [Stamped(created, ProposalCreated(1, 9, 5, 6, 0))]
  }

  ghost function ShownAlone(created: nat, block: nat, timestamp: Option<nat>): Option<ProposalState> {
    if WellFormedRun(Alone(created)) && Run(Alone(created)).Some? && 1 in Run(Alone(created)).value.proposals
    then Some(GetProposalState(Some(block), timestamp, Run(Alone(created)).value.proposals[1]))
    else None
  }

  lemma AloneRuns(created: nat)
    ensures WellFormedRun(Alone(created))
    ensures Run(Alone(created)) == Step(EMPTY, created, ProposalCreated(1, 9, 5, 6, 0))
  {
    var init := Alone(created)[..0];
    assert init == [];
    assert WellFormedRun(init) && Run(init) == Some(EMPTY);
  }

  /** Two runs without votes, seen at block 7: created at block 1, before its start block 5, the
      proposal is shown as active although voting ended at block 6; created at block 5, as defeated. */
  lemma UnvotedExamples(timestamp: Option<nat>)
    ensures ShownAlone(1, 7, timestamp) == Some(ProposalState.Active)
    ensures ShownAlone(5, 7, timestamp) == Some(Defeated)
  {
    AloneRuns(1);
    AloneRuns(5);
  }
}
