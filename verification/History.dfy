/** What the store holds in terms of the events alone. None of these results assumes more of the run than
    it says; most assume nothing. */
module History {
  import opened ProposalIndex
  import opened ProposalRuns
  import opened Runs
  import opened Store
  import opened TokenCounts
  import opened TokenIndex
  import opened Wrappers

  // ---------- Parameters

  /** What the last event of each kind set; 0 if there was none. */
  function LastMin(es: seq<Stamped>): int {
    if es == [] then 0
    else
      var e := es[|es| - 1].event;
      if e.MinQuorumVotesBPSSet? then e.bps else LastMin(es[..|es| - 1])
  }

  function LastMax(es: seq<Stamped>): int {
    if es == [] then 0
    else
      var e := es[|es| - 1].event;
      if e.MaxQuorumVotesBPSSet? then e.bps else LastMax(es[..|es| - 1])
  }

  function LastCoefficient(es: seq<Stamped>): int {
    if es == [] then 0
    else
      var e := es[|es| - 1].event;
      if e.QuorumCoefficientSet? then e.coefficient else LastCoefficient(es[..|es| - 1])
  }

  /** The block of the first of these events. */
  function FirstParameterBlock(es: seq<Stamped>): Option<nat> {
    if es == [] then None
    else
      var before, last := FirstParameterBlock(es[..|es| - 1]), es[|es| - 1];
      if before.None? && IsParameterEvent(last.event) then Some(last.block) else before
  }

  /** The stored parameters are those of the last events, the start block that of the first. */
  ghost predicate ParamsOf(q: Params, es: seq<Stamped>) {
    && q.minBps == LastMin(es) && q.maxBps == LastMax(es) && q.coefficient == LastCoefficient(es)
    && q.startBlock == FirstParameterBlock(es)
  }

  lemma StepParams(s: Store, block: nat, e: Event)
    requires Step(s, block, e).Some?
    ensures var q, q' := s.params.GetOr(NEW_PARAMS), Step(s, block, e).value.params.GetOr(NEW_PARAMS);
      && q'.minBps == (if e.MinQuorumVotesBPSSet? then e.bps else q.minBps)
      && q'.maxBps == (if e.MaxQuorumVotesBPSSet? then e.bps else q.maxBps)
      && q'.coefficient == (if e.QuorumCoefficientSet? then e.coefficient else q.coefficient)
      && q'.startBlock == (if q.startBlock.None? && IsParameterEvent(e) then Some(block) else q.startBlock)
  {
    if !IsGovernanceEvent(e) || IsStatusEvent(e) {
      StatusOnly(s, block, e);
    }
  }

  lemma {:induction false} RunParams(es: seq<Stamped>)
    requires Run(es).Some?
    ensures ParamsOf(Run(es).value.params.GetOr(NEW_PARAMS), es)
  {
    if es != [] {
      var init, last := es[..|es| - 1], es[|es| - 1];
      RunParams(init);
      StepParams(Run(init).value, last.block, last.event);
    }
  }

  // ---------- Status and execution time

  /** The execution time set by the last event that queues or executes the proposal. */
  function LastEta(es: seq<Stamped>, id: nat): Option<nat> {
    if es == [] then None
    else
      var e := es[|es| - 1].event;
      if e.ProposalQueued? && e.id == id then Some(e.eta)
      else if e.ProposalExecuted? && e.id == id then None
      else LastEta(es[..|es| - 1], id)
  }

  predicate Creates(e: Event, id: nat) {
    e.ProposalCreated? && e.id == id
  }

  lemma StepEta(s: Store, block: nat, e: Event, id: nat)
    requires Step(s, block, e).Some?
    ensures var s' := Step(s, block, e).value;
      && (id in s'.proposals <==> id in s.proposals || Creates(e, id))
      && (id in s'.proposals ==>
            s'.proposals[id].eta == (if e.ProposalQueued? && e.id == id then Some(e.eta)
                                     else if e.ProposalExecuted? && e.id == id then None
                                     else if id in s.proposals then s.proposals[id].eta
                                     else None))
  {
    if !IsGovernanceEvent(e) {
      TokenStepFrame(s, block, e);
    } else if e.VoteCast? {
      VoteVoted(s, e.voter, e.id, e.support, e.votes, block);
    }
  }

  /** A proposal's execution time is that of its last queueing, unless it was executed after it. */
  lemma {:induction false} RunEta(es: seq<Stamped>, id: nat)
    requires Run(es).Some?
    ensures if id in Run(es).value.proposals then Run(es).value.proposals[id].eta == LastEta(es, id)
            else LastEta(es, id) == None
  {
    if es != [] {
      var init, last := es[..|es| - 1], es[|es| - 1];
      RunEta(init, id);
      StepEta(Run(init).value, last.block, last.event, id);
    }
  }

  /** The n-th event closes the proposal, and no later one closes or creates it again. */
  ghost predicate LastClosing(es: seq<Stamped>, n: nat, id: nat) {
    && n < |es| && Closes(es[n].event, id)
    && forall i :: n < i < |es| ==> !Closes(es[i].event, id) && !Creates(es[i].event, id)
  }

  /** What an event that closes a proposal makes of its status. */
  predicate ClosedAs(e: Event, status: Status) {
    && (e.ProposalCanceled? <==> status.Cancelled?) && (e.ProposalVetoed? <==> status.Vetoed?)
    && (e.ProposalQueued? <==> status.Queued?) && (e.ProposalExecuted? <==> status.Executed?)
  }

  lemma StepClosing(s: Store, block: nat, e: Event, id: nat)
    requires Step(s, block, e).Some? && Closes(e, id)
    ensures id in Step(s, block, e).value.proposals && ClosedAs(e, Step(s, block, e).value.proposals[id].status)
  {
  }

  lemma StepClosed(s: Store, block: nat, e: Event, id: nat)
    requires Step(s, block, e).Some? && id in s.proposals && !Closes(e, id) && !Creates(e, id)
    requires !s.proposals[id].status.Pending?
    ensures id in Step(s, block, e).value.proposals
    ensures Step(s, block, e).value.proposals[id].status == s.proposals[id].status
  {
    if !IsGovernanceEvent(e) {
      TokenStepFrame(s, block, e);
    } else if e.VoteCast? {
      VoteVoted(s, e.voter, e.id, e.support, e.votes, block);
      VoteActivates(s, e.voter, e.id, e.support, e.votes, block);
    }
  }

  /** A closed proposal has the status of its last closing, whatever else happens. */
  lemma {:induction false} ClosedStatus(es: seq<Stamped>, n: nat, id: nat)
    requires Run(es).Some? && LastClosing(es, n, id)
    ensures id in Run(es).value.proposals && ClosedAs(es[n].event, Run(es).value.proposals[id].status)
  {
    var init, last := es[..|es| - 1], es[|es| - 1];
    if n == |es| - 1 {
      StepClosing(Run(init).value, last.block, last.event, id);
    } else {
      ClosedStatus(init, n, id);
      StepClosed(Run(init).value, last.block, last.event, id);
    }
  }

  lemma {:induction false} LastEtaQueued(es: seq<Stamped>, n: nat, id: nat)
    requires LastClosing(es, n, id) && es[n].event.ProposalQueued?
    ensures LastEta(es, id) == Some(es[n].event.eta)
  {
    if n < |es| - 1 {
      LastEtaQueued(es[..|es| - 1], n, id);
    }
  }

  // ---------- Votes

  /** A vote on the proposal, by anyone. */
  ghost predicate SomeVote(es: seq<Stamped>, id: nat) {
    exists i :: 0 <= i < |es| && VotesOn(es[i].event, id)
  }

  predicate VotesOn(e: Event, id: nat) {
    e.VoteCast? && e.id == id
  }

  lemma StepVoted(s: Store, block: nat, e: Event, id: nat)
    requires Step(s, block, e).Some?
    ensures HasVotes(Step(s, block, e).value, id) <==> HasVotes(s, id) || VotesOn(e, id)
  {
    var s' := Step(s, block, e).value;
    if e.VoteCast? {
      VoteVoted(s, e.voter, e.id, e.support, e.votes, block);
      if e.id == id {
        StoredVoteCounts(s', (e.voter, e.id));
      } else {
        OthersVotes(s, s', (e.voter, e.id), s'.votes[(e.voter, e.id)], id);
      }
    } else {
      VotesFrame(s, block, e);
    }
  }

  lemma VotesFrame(s: Store, block: nat, e: Event)
    requires Step(s, block, e).Some? && !e.VoteCast?
    ensures Step(s, block, e).value.votes == s.votes
  {
    if !IsGovernanceEvent(e) {
      TokenStepFrame(s, block, e);
    }
  }

  lemma SomeVoteNext(es: seq<Stamped>, id: nat)
    requires es != []
    ensures SomeVote(es, id) <==> SomeVote(es[..|es| - 1], id) || VotesOn(es[|es| - 1].event, id)
  {
    var init := es[..|es| - 1];
    assert forall i :: 0 <= i < |init| ==> init[i] == es[i];
  }

  /** A proposal has stored votes exactly if somebody voted on it. */
  lemma {:induction false} RunVoted(es: seq<Stamped>, id: nat)
    requires Run(es).Some?
    ensures HasVotes(Run(es).value, id) <==> SomeVote(es, id)
  {
    if es != [] {
      var init, last := es[..|es| - 1], es[|es| - 1];
      RunVoted(init, id);
      StepVoted(Run(init).value, last.block, last.event, id);
      SomeVoteNext(es, id);
    }
  }

  /** The n-th event is the voter's last vote on the proposal. */
  ghost predicate LastVote(es: seq<Stamped>, n: nat, voter: Address, id: nat) {
    && n < |es| && VoteOf(es[n].event, voter, id)
    && forall i :: n < i < |es| ==> !VoteOf(es[i].event, voter, id)
  }

  predicate VoteOf(e: Event, voter: Address, id: nat) {
    e.VoteCast? && e.voter == voter && e.id == id
  }

  /** A stored vote is the voter's last one on the proposal: its weight, its side and its block. */
  lemma {:induction false} VoteRecorded(es: seq<Stamped>, n: nat, voter: Address, id: nat)
    requires Run(es).Some? && LastVote(es, n, voter, id)
    ensures var votes := Run(es).value.votes;
      && (voter, id) in votes && votes[(voter, id)].votes == es[n].event.votes
      && votes[(voter, id)].support == es[n].event.support && votes[(voter, id)].block == es[n].block
  {
    var init, last := es[..|es| - 1], es[|es| - 1];
    var s, e := Run(init).value, last.event;
    if e.VoteCast? {
      VoteVoted(s, e.voter, e.id, e.support, e.votes, last.block);
    } else {
      VotesFrame(s, last.block, e);
    }
    if n < |es| - 1 {
      VoteRecorded(init, n, voter, id);
    }
  }

  /** The weight cast for one side of the proposal. */
  function Cast(es: seq<Stamped>, id: nat, support: nat): int {
    if es == [] then 0
    else
      var e := es[|es| - 1].event;
      Cast(es[..|es| - 1], id, support) + if VotesOn(e, id) && e.support == support then e.votes else 0
  }

  /** The totals are the weights cast. */
  ghost predicate CastAt(s: Store, es: seq<Stamped>, id: nat) {
    if id in s.proposals then
      && s.proposals[id].againstVotes == Cast(es, id, 0) && s.proposals[id].forVotes == Cast(es, id, 1)
      && s.proposals[id].abstainVotes == Cast(es, id, 2)
    else Cast(es, id, 0) == Cast(es, id, 1) == Cast(es, id, 2) == 0
  }

  /** The totals of a proposal change by the weight of a vote on it, and start at 0. */
  ghost predicate AddedTotals(s: Store, s': Store, e: Event, id: nat) {
    && (VotesOn(e, id) ==> id in s.proposals)
    && (id in s'.proposals <==> id in s.proposals || Creates(e, id))
    && (Creates(e, id) ==>
          var p' := s'.proposals[id]; p'.againstVotes == p'.forVotes == p'.abstainVotes == 0)
    && (id in s.proposals ==>
          var p, p' := s.proposals[id], s'.proposals[id];
          && p'.againstVotes == p.againstVotes + (if VotesOn(e, id) && e.support == 0 then e.votes else 0)
          && p'.forVotes == p.forVotes + (if VotesOn(e, id) && e.support == 1 then e.votes else 0)
          && p'.abstainVotes == p.abstainVotes + (if VotesOn(e, id) && e.support == 2 then e.votes else 0))
  }

  lemma StepTotals(s: Store, block: nat, e: Event, id: nat)
    requires Step(s, block, e).Some? && Obeys(s, e, Fresh)
    ensures AddedTotals(s, Step(s, block, e).value, e, id)
  {
    if !IsGovernanceEvent(e) {
      TokenStepFrame(s, block, e);
    } else if e.VoteCast? {
      VoteVoted(s, e.voter, e.id, e.support, e.votes, block);
    }
  }

  /** The totals of a proposal are the weights cast on it, if ids are fresh; also where somebody votes
      twice, for totals only grow. */
  lemma {:induction false} RunCast(es: seq<Stamped>, id: nat)
    requires Abides(es, Fresh) && Run(es).Some?
    ensures CastAt(Run(es).value, es, id)
  {
    if es != [] {
      var init, last := es[..|es| - 1], es[|es| - 1];
      RunCast(init, id);
      StepTotals(Run(init).value, last.block, last.event, id);
    }
  }

  /** If moreover nobody votes twice, so are the sums over stored votes. */
  lemma TallyIsCast(es: seq<Stamped>, id: nat)
    requires Abides(es, Fresh) && Abides(es, Voting) && Run(es).Some? && id in Run(es).value.proposals
    ensures var votes := Run(es).value.votes;
      && Tally(votes, id, 0) == Cast(es, id, 0) && Tally(votes, id, 1) == Cast(es, id, 1)
      && Tally(votes, id, 2) == Cast(es, id, 2)
  {
    RunTallied(es);
    RunCast(es, id);
    assert TalliedAt(Run(es).value, id);
  }

  // ---------- Tokens

  /** The receiver of the token's last transfer. */
  function LastOwner(es: seq<Stamped>, t: Token): Option<Address> {
    if es == [] then None
    else
      var e := es[|es| - 1].event;
      if e.Transfer? && e.token == t then Some(e.to) else LastOwner(es[..|es| - 1], t)
  }

  function OwnerOf(s: Store, t: Token): Option<Address> {
    if t in s.owners then Some(s.owners[t]) else None
  }

  lemma StepOwner(s: Store, block: nat, e: Event, t: Token)
    requires Step(s, block, e).Some?
    ensures OwnerOf(Step(s, block, e).value, t) ==
      if e.Transfer? && e.token == t then Some(e.to) else OwnerOf(s, t)
  {
    match e
    case Transfer(from, to, token) => TransferMoves(s, from, to, token);
    case DelegateChanged(delegator, from, to) => DelegateChangedFrame(s, delegator, from, to);
    case DelegateVotesChanged(id, previous, next) => VotesChangedFrame(s, id, previous, next);
    case _ => GovernanceStepFrame(s, block, e);
  }

  /** A token belongs to the receiver of its last transfer. */
  lemma {:induction false} RunOwner(es: seq<Stamped>, t: Token)
    requires Run(es).Some?
    ensures OwnerOf(Run(es).value, t) == LastOwner(es, t)
  {
    if es != [] {
      var init, last := es[..|es| - 1], es[|es| - 1];
      RunOwner(init, t);
      StepOwner(Run(init).value, last.block, last.event, t);
    }
  }

  /** Mints less burns. */
  function NetMints(es: seq<Stamped>): int {
    if es == [] then 0
    else
      var e := es[|es| - 1].event;
      NetMints(es[..|es| - 1]) + One(e.Transfer? && e.from == ZERO) - One(e.Transfer? && e.to == ZERO)
  }

  lemma StepMints(s: Store, block: nat, e: Event)
    requires Step(s, block, e).Some?
    ensures Step(s, block, e).value.Gov().totalTokenHolders ==
      s.Gov().totalTokenHolders + One(e.Transfer? && e.from == ZERO) - One(e.Transfer? && e.to == ZERO)
  {
    match e
    case Transfer(from, to, token) => TransferGovernance(s, from, to, token);
    case DelegateChanged(delegator, from, to) => DelegateChangedFrame(s, delegator, from, to);
    case DelegateVotesChanged(id, previous, next) => VotesChangedFrame(s, id, previous, next);
    case _ => GovernanceStepFrame(s, block, e);
  }

  /** `totalTokenHolders` is the number of mints less that of burns. */
  lemma {:induction false} RunMints(es: seq<Stamped>)
    requires Run(es).Some?
    ensures Run(es).value.Gov().totalTokenHolders == NetMints(es)
  {
    if es != [] {
      var init, last := es[..|es| - 1], es[|es| - 1];
      RunMints(init);
      StepMints(Run(init).value, last.block, last.event);
    }
  }

  /** The votes that the last change of the delegate's votes states. */
  function LastVotes(es: seq<Stamped>, d: Address): int {
    if es == [] then 0
    else
      var e := es[|es| - 1].event;
      if e.DelegateVotesChanged? && e.delegate == d then e.next else LastVotes(es[..|es| - 1], d)
  }

  function VotesIn(delegates: map<Address, Delegate>, d: Address): int {
    if d in delegates then delegates[d].votes else 0
  }

  lemma ListVotes(delegates: map<Address, Delegate>, d: Address, token: Token, x: Address)
    ensures VotesIn(Filtered(delegates, d, token), x) == VotesIn(delegates, x)
    ensures VotesIn(Extended(delegates, d, token), x) == VotesIn(delegates, x)
  {
  }

  lemma TransferVotesOf(s: Store, from: Address, to: Address, token: Token, d: Address)
    ensures VotesOf(TransferStep(s, from, to, token), d) == VotesOf(s, d)
  {
    var s0 := s.TouchAccount(from).TouchAccount(to);
    var f, r := s0.accounts[from], s0.accounts[to];
    var kept := if HasSource(from, f) then Filtered(s.delegates, f.delegate.value, token) else s.delegates;
    var given := Extended(kept, r.delegate.GetOr(to), token);
    assert TransferStep(s, from, to, token).delegates == given;
    if HasSource(from, f) {
      ListVotes(s.delegates, f.delegate.value, token, d);
    }
    ListVotes(kept, r.delegate.GetOr(to), token, d);
    SameVotes(s, TransferStep(s, from, to, token), given, d);
  }

  lemma SameVotes(s: Store, s': Store, delegates: map<Address, Delegate>, d: Address)
    requires s'.delegates == delegates && VotesIn(delegates, d) == VotesIn(s.delegates, d)
    ensures VotesOf(s', d) == VotesOf(s, d)
  {
  }

  lemma DelegateChangedVotesOf(s: Store, delegator: Address, from: Address, to: Address, d: Address)
    ensures VotesOf(DelegateChangedStep(s, delegator, from, to), d) == VotesOf(s, d)
  {
    var p, n := DelegateChangedDelegates(s, delegator, from, to);
    var all := WithDelegate(WithDelegate(s.delegates, from), to);
    SameVotes(s, DelegateChangedStep(s, delegator, from, to), all[from := p][to := n], d);
  }

  lemma StepVotesOf(s: Store, block: nat, e: Event, d: Address)
    requires Step(s, block, e).Some?
    ensures VotesOf(Step(s, block, e).value, d) ==
      if e.DelegateVotesChanged? && e.delegate == d then e.next else VotesOf(s, d)
  {
    match e
    case Transfer(from, to, token) => TransferVotesOf(s, from, to, token, d);
    case DelegateChanged(delegator, from, to) => DelegateChangedVotesOf(s, delegator, from, to, d);
    case DelegateVotesChanged(id, previous, next) => VotesChangedFrame(s, id, previous, next);
    case _ => GovernanceStepFrame(s, block, e);
  }

  /** A delegate's votes are those its last vote change states. */
  lemma {:induction false} RunDelegateVotes(es: seq<Stamped>, d: Address)
    requires Run(es).Some?
    ensures VotesOf(Run(es).value, d) == LastVotes(es, d)
  {
    if es != [] {
      var init, last := es[..|es| - 1], es[|es| - 1];
      RunDelegateVotes(init, d);
      StepVotesOf(Run(init).value, last.block, last.event, d);
    }
  }
}
