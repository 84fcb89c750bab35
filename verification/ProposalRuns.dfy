/** What proposals, their counters, tallies and quorums are after any run: each conclusion under the
    rules it needs, none of them about tokens. */
module ProposalRuns {
  import opened ProposalIndex
  import opened Runs
  import opened Store

  // ---------- Counters

  /** The event changes the status of a known proposal. */
  predicate IsStatusEvent(e: Event) {
    e.ProposalCanceled? || e.ProposalVetoed? || e.ProposalQueued? || e.ProposalExecuted?
  }

  lemma SameKeysSameSize<K, V>(a: map<K, V>, b: map<K, V>)
    requires a.Keys == b.Keys
    ensures |a| == |b|
  {
    assert |a| == |a.Keys| && |b| == |b.Keys|;
  }

  lemma StatusCount(s: Store, block: nat, e: Event)
    requires ProposalsCounted(s) && IsStatusEvent(e) && Step(s, block, e).Some?
    ensures ProposalsCounted(Step(s, block, e).value)
  {
    assert Step(s, block, e).value.proposals.Keys == s.proposals.Keys;
    SameKeysSameSize(Step(s, block, e).value.proposals, s.proposals);
  }

  lemma VoteCount(s: Store, block: nat, e: Event)
    requires ProposalsCounted(s) && e.VoteCast? && Step(s, block, e).Some?
    ensures ProposalsCounted(Step(s, block, e).value)
  {
    VoteVoted(s, e.voter, e.id, e.support, e.votes, block);
    assert Step(s, block, e).value.proposals.Keys == s.proposals.Keys;
    SameKeysSameSize(Step(s, block, e).value.proposals, s.proposals);
  }

  lemma StepProposalCount(s: Store, block: nat, e: Event)
    requires ProposalsCounted(s) && Step(s, block, e).Some?
    ensures ProposalsCounted(Step(s, block, e).value)
  {
    if !IsGovernanceEvent(e) {
      TokenStepFrame(s, block, e);
    } else if IsStatusEvent(e) {
      StatusCount(s, block, e);
    } else if e.VoteCast? {
      VoteCount(s, block, e);
    }
  }

  /** `proposals` counts the proposals, on every run. */
  lemma {:induction false} ProposalCount(es: seq<Stamped>)
    requires Run(es).Some?
    ensures Run(es).value.Gov().proposals == |Run(es).value.proposals|
  {
    if es != [] {
      var init, last := es[..|es| - 1], es[|es| - 1];
      ProposalCount(init);
      StepProposalCount(Run(init).value, last.block, last.event);
    }
  }

  lemma StatusQueue(s: Store, block: nat, e: Event)
    requires QueueCounted(s) && IsStatusEvent(e) && Step(s, block, e).Some? && Obeys(s, e, Queueing)
    ensures QueueCounted(Step(s, block, e).value)
  {
    match e {
      case ProposalCanceled(id) => StatusStep(s, id, Cancelled);
      case ProposalVetoed(id) => StatusStep(s, id, Vetoed);
      case ProposalQueued(id, eta) => QueueStep(s, block, id, eta);
      case ProposalExecuted(id) => ExecuteStep(s, block, id);
    }
  }

  lemma CreatedQueue(s: Store, block: nat, e: Event)
    requires QueueCounted(s) && e.ProposalCreated?
    ensures QueueCounted(Step(s, block, e).value)
  {
    var s' := Step(s, block, e).value;
    assert s'.proposals == s.proposals[e.id := s'.proposals[e.id]];
    QueuedPut(s.proposals, e.id, s'.proposals[e.id]);
  }

  lemma VoteQueue(s: Store, block: nat, e: Event)
    requires QueueCounted(s) && e.VoteCast? && Step(s, block, e).Some?
    ensures QueueCounted(Step(s, block, e).value)
  {
    VoteVoted(s, e.voter, e.id, e.support, e.votes, block);
    QueuedPut(s.proposals, e.id, Step(s, block, e).value.proposals[e.id]);
  }

  lemma StepQueue(s: Store, block: nat, e: Event)
    requires QueueCounted(s) && Step(s, block, e).Some? && Obeys(s, e, Queueing)
    ensures QueueCounted(Step(s, block, e).value)
  {
    if !IsGovernanceEvent(e) {
      TokenStepFrame(s, block, e);
    } else if IsStatusEvent(e) {
      StatusQueue(s, block, e);
    } else if e.ProposalCreated? {
      CreatedQueue(s, block, e);
    } else if e.VoteCast? {
      VoteQueue(s, block, e);
    }
  }

  lemma {:induction false} RunQueue(es: seq<Stamped>)
    requires Abides(es, Queueing) && Run(es).Some?
    ensures QueueCounted(Run(es).value)
  {
    if es == [] {
      assert QueuedMap(EMPTY.proposals) == map[];
    } else {
      var init, last := es[..|es| - 1], es[|es| - 1];
      RunQueue(init);
      StepQueue(Run(init).value, last.block, last.event);
    }
  }

  /** `proposalsQueued` counts the proposals with an execution time. */
  lemma QueueIndex(es: seq<Stamped>)
    requires Abides(es, Queueing) && Run(es).Some?
    ensures Run(es).value.Gov().proposalsQueued == |WithEta(Run(es).value)|
  {
    RunQueue(es);
    QueueCountedSet(Run(es).value);
  }

  // ---------- Tallies

  /** Same totals, same quorum, same dates; the status may differ. */
  predicate SameButStatus(p: Proposal, p': Proposal) {
    p'.(status := p.status, eta := p.eta) == p
  }

  /** The event leaves votes, parameters and everything about proposals but their status alone. */
  ghost predicate OnlyStatus(s: Store, s': Store) {
    && s'.votes == s.votes && s'.params == s.params && s'.proposals.Keys == s.proposals.Keys
    && forall id :: id in s.proposals ==> SameButStatus(s.proposals[id], s'.proposals[id])
  }

  lemma StatusOnly(s: Store, block: nat, e: Event)
    requires !IsGovernanceEvent(e) || IsStatusEvent(e)
    requires Step(s, block, e).Some?
    ensures OnlyStatus(s, Step(s, block, e).value)
  {
    if !IsGovernanceEvent(e) {
      TokenStepFrame(s, block, e);
    }
  }

  lemma NoVotesOnUnknown(s: Store, id: nat)
    requires VotesKnown(s) && id !in s.proposals
    ensures !HasVotes(s, id)
  {
  }

  lemma StepVotesKnown(s: Store, block: nat, e: Event)
    requires VotesKnown(s) && Step(s, block, e).Some?
    ensures VotesKnown(Step(s, block, e).value)
  {
    if !IsGovernanceEvent(e) || IsStatusEvent(e) {
      StatusOnly(s, block, e);
    } else if e.VoteCast? {
      VoteVoted(s, e.voter, e.id, e.support, e.votes, block);
    }
  }

  lemma {:induction false} RunVotesKnown(es: seq<Stamped>)
    requires Run(es).Some?
    ensures VotesKnown(Run(es).value)
  {
    if es != [] {
      var init, last := es[..|es| - 1], es[|es| - 1];
      RunVotesKnown(init);
      StepVotesKnown(Run(init).value, last.block, last.event);
    }
  }

  lemma TalliedFrame(s: Store, s': Store)
    requires Tallied(s) && OnlyStatus(s, s')
    ensures Tallied(s')
  {
    forall id | id in s'.proposals ensures TalliedAt(s', id) {
      assert TalliedAt(s, id) && SameButStatus(s.proposals[id], s'.proposals[id]);
    }
  }

  lemma StepTallied(s: Store, block: nat, e: Event)
    requires Tallied(s) && Step(s, block, e).Some? && Obeys(s, e, Fresh) && Obeys(s, e, Voting)
    ensures Tallied(Step(s, block, e).value)
  {
    if !IsGovernanceEvent(e) || IsStatusEvent(e) {
      StatusOnly(s, block, e);
      TalliedFrame(s, Step(s, block, e).value);
    } else if e.ProposalCreated? {
      CreatedTallied(s, e.id, e.proposer, block, e.startBlock, e.endBlock, e.quorumVotes);
    } else if e.VoteCast? {
      VoteTallied(s, e.voter, e.id, e.support, e.votes, block);
    } else {
      TalliedParams(s, Step(s, block, e).value);
    }
  }

  lemma TalliedParams(s: Store, s': Store)
    requires Tallied(s) && s'.votes == s.votes && s'.proposals == s.proposals
    ensures Tallied(s')
  {
    forall id | id in s'.proposals ensures TalliedAt(s', id) {
      assert TalliedAt(s, id);
    }
  }

  /** The totals of every proposal are the sums over its stored votes. */
  lemma {:induction false} RunTallied(es: seq<Stamped>)
    requires Abides(es, Fresh) && Abides(es, Voting) && Run(es).Some?
    ensures Tallied(Run(es).value)
  {
    if es != [] {
      var init, last := es[..|es| - 1], es[|es| - 1];
      RunTallied(init);
      StepTallied(Run(init).value, last.block, last.event);
    }
  }

  // ---------- Quorums and regimes

  lemma {:induction false} RunNotAfter(es: seq<Stamped>)
    requires Ordered(es) && Run(es).Some?
    ensures NotAfter(Run(es).value, LastBlock(es))
  {
    if es != [] {
      var init, last := es[..|es| - 1], es[|es| - 1];
      RunNotAfter(init);
      StepNotAfter(Run(init).value, LastBlock(init), last.block, last.event);
    }
  }

  lemma QuorumFrame(s: Store, s': Store)
    requires QuorumRecorded(s) && OnlyStatus(s, s')
    ensures QuorumRecorded(s')
  {
    forall id | id in s'.proposals && Dynamic(s', id) && HasVotes(s', id)
      ensures s'.proposals[id].totalSupply != 0 && s'.proposals[id].quorumVotes == QuorumOf(s'.proposals[id])
    {
      assert SameButStatus(s.proposals[id], s'.proposals[id]);
      assert Dynamic(s, id) && HasVotes(s, id);
    }
  }

  lemma CreatedQuorum(s: Store, s': Store, id: nat)
    requires QuorumRecorded(s) && VotesKnown(s) && id !in s.proposals && id in s'.proposals
    requires s'.proposals == s.proposals[id := s'.proposals[id]] && s'.votes == s.votes
    requires s'.params.GetOr(NEW_PARAMS) == s.params.GetOr(NEW_PARAMS)
    ensures QuorumRecorded(s')
  {
    NoVotesOnUnknown(s, id);
    forall j | j in s'.proposals && Dynamic(s', j) && HasVotes(s', j)
      ensures s'.proposals[j].totalSupply != 0 && s'.proposals[j].quorumVotes == QuorumOf(s'.proposals[j])
    {
      assert HasVotes(s, j) && j != id && Dynamic(s, j);
    }
  }

  lemma CreatedEffect(s: Store, block: nat, e: Event)
    requires e.ProposalCreated?
    ensures var s' := Step(s, block, e).value;
      && e.id in s'.proposals && s'.proposals == s.proposals[e.id := s'.proposals[e.id]]
      && s'.votes == s.votes && s'.params.GetOr(NEW_PARAMS) == s.params.GetOr(NEW_PARAMS)
  {
  }

  lemma ParameterQuorum(s: Store, last: nat, block: nat, e: Event)
    requires QuorumRecorded(s) && NotAfter(s, last) && last <= block && IsParameterEvent(e)
    ensures QuorumRecorded(Step(s, block, e).value)
  {
    var s' := Step(s, block, e).value;
    assert s'.votes == s.votes && s'.proposals == s.proposals;
    forall id | id in s'.proposals && Dynamic(s', id) && HasVotes(s', id)
      ensures s'.proposals[id].totalSupply != 0 && s'.proposals[id].quorumVotes == QuorumOf(s'.proposals[id])
    {
      ParameterStep(s, block, e, id);
      assert HasVotes(s, id);
    }
  }

  lemma StepQuorum(s: Store, last: nat, block: nat, e: Event)
    requires QuorumRecorded(s) && VotesKnown(s) && NotAfter(s, last) && last <= block
    requires Step(s, block, e).Some? && Obeys(s, e, Fresh)
    ensures QuorumRecorded(Step(s, block, e).value)
  {
    if !IsGovernanceEvent(e) || IsStatusEvent(e) {
      StatusOnly(s, block, e);
      QuorumFrame(s, Step(s, block, e).value);
    } else if e.ProposalCreated? {
      CreatedEffect(s, block, e);
      CreatedQuorum(s, Step(s, block, e).value, e.id);
    } else if e.VoteCast? {
      VoteQuorum(s, e.voter, e.id, e.support, e.votes, block);
    } else {
      ParameterQuorum(s, last, block, e);
    }
  }

  /** Every dynamic proposal with votes has the quorum of its own totals and snapshot. */
  lemma {:induction false} RunQuorum(es: seq<Stamped>)
    requires Ordered(es) && Abides(es, Fresh) && Run(es).Some?
    ensures QuorumRecorded(Run(es).value)
  {
    if es != [] {
      var init, last := es[..|es| - 1], es[|es| - 1];
      RunQuorum(init);
      RunVotesKnown(init);
      RunNotAfter(init);
      StepQuorum(Run(init).value, LastBlock(init), last.block, last.event);
    }
  }

  lemma KeptTrans(s: Store, mid: Store, s': Store, id: nat)
    requires id in s.proposals && Kept(s, mid, id) && Kept(mid, s', id)
    ensures Kept(s, s', id)
  {
  }

  /** A proposal's dates, supply, quorum parameters and quorum regime never change after its creation,
      and outside dynamic quorum neither does its quorum. */
  lemma {:induction false} RegimeFixed(es: seq<Stamped>, n: nat, id: nat)
    requires Ordered(es) && Abides(es, Fresh) && Run(es).Some? && n <= |es|
    requires Run(es[..n]).Some? && id in Run(es[..n]).value.proposals
    ensures Kept(Run(es[..n]).value, Run(es).value, id)
  {
    if n == |es| {
      assert es[..n] == es;
    } else {
      var init, last := es[..|es| - 1], es[|es| - 1];
      assert init[..n] == es[..n];
      RegimeFixed(init, n, id);
      RunNotAfter(init);
      StepKeeps(Run(init).value, LastBlock(init), last.block, last.event, id);
      KeptTrans(Run(es[..n]).value, Run(init).value, Run(es).value, id);
    }
  }

  /** The start block of dynamic quorums changes at most once. */
  lemma {:induction false} StartBlockFixed(es: seq<Stamped>, n: nat)
    requires n <= |es| && Run(es).Some? && Run(es[..n]).Some?
    requires Run(es[..n]).value.params.Some? && Run(es[..n]).value.params.value.startBlock.Some?
    ensures Run(es).value.params.Some?
    ensures Run(es).value.params.value.startBlock == Run(es[..n]).value.params.value.startBlock
  {
    if n == |es| {
      assert es[..n] == es;
    } else {
      var init, last := es[..|es| - 1], es[|es| - 1];
      assert init[..n] == es[..n];
      StartBlockFixed(init, n);
      StartBlockOnce(Run(init).value, last.block, last.event);
    }
  }

  // ---------- Proposals that are not closed

  /** The event cancels, vetoes, queues or executes the proposal. */
  predicate Closes(e: Event, id: nat) {
    IsStatusEvent(e) && e.id == id
  }

  predicate CreatedLate(e: Stamped)
    requires e.event.ProposalCreated?
  {
    e.block >= e.event.startBlock
  }

  /** The proposal has the dates of its creation event, and no execution time. It is stored as active
      exactly if it was created late or has a vote, else as pending; without votes its totals are 0. */
  ghost predicate OpenAs(s: Store, e: Stamped)
    requires e.event.ProposalCreated?
  {
    && e.event.id in s.proposals
    && var p, voted := s.proposals[e.event.id], HasVotes(s, e.event.id);
      && p.eta.None? && p.startBlock == e.event.startBlock && p.endBlock == e.event.endBlock
      && p.status == (if CreatedLate(e) || voted then Status.Active else Status.Pending)
      && (!voted ==> p.forVotes == p.againstVotes == p.abstainVotes == 0)
  }

  lemma CreatedOpen(s: Store, e: Stamped)
    requires VotesKnown(s) && e.event.ProposalCreated? && e.event.id !in s.proposals
    ensures OpenAs(Step(s, e.block, e.event).value, e)
  {
    NoVotesOnUnknown(s, e.event.id);
    assert Step(s, e.block, e.event).value.votes == s.votes;
  }

  /** The same proposal, and the same votes on it. */
  lemma SameOpen(s: Store, s': Store, e: Stamped)
    requires e.event.ProposalCreated? && OpenAs(s, e)
    requires e.event.id in s'.proposals && s'.proposals[e.event.id] == s.proposals[e.event.id]
    requires HasVotes(s', e.event.id) == HasVotes(s, e.event.id)
    ensures OpenAs(s', e)
  {
  }

  lemma StoredVoteCounts(s: Store, k: (Address, nat))
    requires k in s.votes
    ensures HasVotes(s, k.1)
  {
    assert k == (k.0, k.1);
  }

  lemma OthersVotes(s: Store, s': Store, k: (Address, nat), v: Vote, id: nat)
    requires s'.votes == s.votes[k := v] && k.1 != id
    ensures HasVotes(s', id) == HasVotes(s, id)
  {
    assert forall voter :: (voter, id) in s'.votes <==> (voter, id) in s.votes;
  }

  lemma VoteOpen(s: Store, block: nat, vote: Event, e: Stamped)
    requires e.event.ProposalCreated? && OpenAs(s, e) && vote.VoteCast? && Step(s, block, vote).Some?
    ensures OpenAs(Step(s, block, vote).value, e)
  {
    var s' := Step(s, block, vote).value;
    VoteVoted(s, vote.voter, vote.id, vote.support, vote.votes, block);
    if vote.id == e.event.id {
      StoredVoteCounts(s', (vote.voter, vote.id));
      VoteActivates(s, vote.voter, vote.id, vote.support, vote.votes, block);
    } else {
      OthersVotes(s, s', (vote.voter, vote.id), s'.votes[(vote.voter, vote.id)], e.event.id);
      SameOpen(s, s', e);
    }
  }

  /** A vote turns a pending proposal into an active one and changes no other status, and no date. */
  lemma VoteActivates(s: Store, voter: Address, id: nat, support: nat, votes: int, block: nat)
    requires id in s.proposals && VoteStep(s, voter, id, support, votes, block).Some?
    ensures var p := s.proposals[id]; var s' := VoteStep(s, voter, id, support, votes, block).value;
      && id in s'.proposals
      && s'.proposals[id].status == (if p.status.Pending? then Status.Active else p.status)
      && s'.proposals[id].startBlock == p.startBlock && s'.proposals[id].endBlock == p.endBlock
      && s'.proposals[id].eta == p.eta
  {
  }

  lemma StepOpen(s: Store, block: nat, next: Event, e: Stamped)
    requires e.event.ProposalCreated? && OpenAs(s, e) && Step(s, block, next).Some?
    requires !Closes(next, e.event.id) && Obeys(s, next, Fresh)
    ensures OpenAs(Step(s, block, next).value, e)
  {
    if next.VoteCast? {
      VoteOpen(s, block, next, e);
    } else {
      if !IsGovernanceEvent(next) {
        TokenStepFrame(s, block, next);
      }
      SameOpen(s, Step(s, block, next).value, e);
    }
  }

  /** The n-th event creates the proposal, and no later event closes it. */
  ghost predicate LeftOpen(es: seq<Stamped>, n: nat, id: nat) {
    && n < |es| && es[n].event.ProposalCreated? && es[n].event.id == id
    && forall i :: n < i < |es| ==> !Closes(es[i].event, id)
  }

  /** A proposal that is never closed is stored as active exactly if it was created at or after its
      start block, or somebody has voted on it; otherwise as pending. */
  lemma {:induction false} OpenStatus(es: seq<Stamped>, n: nat, id: nat)
    requires Abides(es, Fresh) && Run(es).Some? && LeftOpen(es, n, id)
    ensures OpenAs(Run(es).value, es[n])
  {
    var init, last := es[..|es| - 1], es[|es| - 1];
    if n == |es| - 1 {
      RunVotesKnown(init);
      CreatedOpen(Run(init).value, last);
    } else {
      OpenStatus(init, n, id);
      StepOpen(Run(init).value, last.block, last.event, es[n]);
    }
  }

  lemma StepPending(s: Store, block: nat, e: Event, id: nat)
    requires VotesKnown(s) && Obeys(s, e, Fresh) && Step(s, block, e).Some?
    requires id in s.proposals && s.proposals[id].status.Pending? ==> !HasVotes(s, id)
    ensures var s' := Step(s, block, e).value;
      id in s'.proposals && s'.proposals[id].status.Pending? ==> !HasVotes(s', id)
  {
    if !IsGovernanceEvent(e) {
      TokenStepFrame(s, block, e);
    } else if e.VoteCast? {
      VotePending(s, block, e, id);
    } else if e.ProposalCreated? {
      CreatedEffect(s, block, e);
      CreatedPending(s, Step(s, block, e).value, e.id, id);
    } else {
      StatusPending(s, block, e, id);
    }
  }

  lemma VotePending(s: Store, block: nat, e: Event, id: nat)
    requires e.VoteCast? && Step(s, block, e).Some?
    requires id in s.proposals && s.proposals[id].status.Pending? ==> !HasVotes(s, id)
    ensures var s' := Step(s, block, e).value;
      id in s'.proposals && s'.proposals[id].status.Pending? ==> !HasVotes(s', id)
  {
    var s' := Step(s, block, e).value;
    VoteVoted(s, e.voter, e.id, e.support, e.votes, block);
    VoteActivates(s, e.voter, e.id, e.support, e.votes, block);
    if e.id != id {
      OthersVotes(s, s', (e.voter, e.id), s'.votes[(e.voter, e.id)], id);
    }
  }

  lemma CreatedPending(s: Store, s': Store, created: nat, id: nat)
    requires VotesKnown(s) && created !in s.proposals && created in s'.proposals
    requires s'.proposals == s.proposals[created := s'.proposals[created]] && s'.votes == s.votes
    requires id in s.proposals && s.proposals[id].status.Pending? ==> !HasVotes(s, id)
    ensures id in s'.proposals && s'.proposals[id].status.Pending? ==> !HasVotes(s', id)
  {
    NoVotesOnUnknown(s, created);
    assert HasVotes(s', id) == HasVotes(s, id);
  }

  lemma StatusPending(s: Store, block: nat, e: Event, id: nat)
    requires IsStatusEvent(e) || IsParameterEvent(e)
    requires Step(s, block, e).Some?
    requires id in s.proposals && s.proposals[id].status.Pending? ==> !HasVotes(s, id)
    ensures var s' := Step(s, block, e).value;
      id in s'.proposals && s'.proposals[id].status.Pending? ==> !HasVotes(s', id)
  {
    var s' := Step(s, block, e).value;
    assert s'.votes == s.votes && HasVotes(s', id) == HasVotes(s, id);
  }

  /** A proposal that is still recorded as pending has no votes. */
  lemma {:induction false} PendingHasNoVotes(es: seq<Stamped>, id: nat)
    requires Abides(es, Fresh) && Run(es).Some?
    ensures var s := Run(es).value; id in s.proposals && s.proposals[id].status.Pending? ==> !HasVotes(s, id)
  {
    if es != [] {
      var init, last := es[..|es| - 1], es[|es| - 1];
      PendingHasNoVotes(init, id);
      RunVotesKnown(init);
      StepPending(Run(init).value, last.block, last.event, id);
    }
  }
}
