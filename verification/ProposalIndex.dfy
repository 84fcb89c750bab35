/** What the governance handlers keep: counters, tallies and quorums. */
module ProposalIndex {
  import opened Store
  import opened Sums
  import opened TokenCounts
  import opened Wrappers

  // ---------- Counters

  ghost predicate ProposalsCounted(s: Store) {
    s.Gov().proposals == |s.proposals|
  }

  /** 1 for each proposal with an execution time. */
  function QueuedMap(proposals: map<nat, Proposal>): map<nat, int> {
    map id | id in proposals :: One(proposals[id].eta.Some?)
  }

  ghost predicate QueueCounted(s: Store) {
    s.Gov().proposalsQueued == Sum(QueuedMap(s.proposals))
  }

  ghost function WithEta(s: Store): set<nat> {
    set id | id in s.proposals && s.proposals[id].eta.Some?
  }

  lemma QueueCountedSet(s: Store)
    requires QueueCounted(s)
    ensures s.Gov().proposalsQueued == |WithEta(s)|
  {
    SumCounts(QueuedMap(s.proposals));
    assert Ones(QueuedMap(s.proposals)) == WithEta(s);
  }

  lemma QueuedPut(proposals: map<nat, Proposal>, id: nat, p: Proposal)
    ensures Sum(QueuedMap(proposals[id := p])) ==
      Sum(QueuedMap(proposals)) - At(QueuedMap(proposals), id) + One(p.eta.Some?)
  {
    assert QueuedMap(proposals[id := p]) == QueuedMap(proposals)[id := One(p.eta.Some?)];
    SumPut(QueuedMap(proposals), id, One(p.eta.Some?));
  }

  /** Queueing keeps the queue counter exactly when the proposal had no execution time. */
  lemma QueueStep(s: Store, block: nat, id: nat, eta: nat)
    requires id in s.proposals && QueueCounted(s)
    ensures QueueCounted(Step(s, block, ProposalQueued(id, eta)).value) <==> s.proposals[id].eta.None?
  {
    QueuedPut(s.proposals, id, s.proposals[id].(status := Queued, eta := Some(eta)));
  }

  /** Executing keeps it exactly when the proposal had one. */
  lemma ExecuteStep(s: Store, block: nat, id: nat)
    requires id in s.proposals && QueueCounted(s)
    ensures QueueCounted(Step(s, block, ProposalExecuted(id)).value) <==> s.proposals[id].eta.Some?
  {
    QueuedPut(s.proposals, id, s.proposals[id].(status := Executed, eta := None));
  }

  /** Any other change of the status leaves the execution time, and so the counter, alone. */
  lemma StatusStep(s: Store, id: nat, status: Status)
    requires id in s.proposals && QueueCounted(s)
    ensures QueueCounted(SetStatus(s, id, status, s.proposals[id].eta))
  {
    QueuedPut(s.proposals, id, s.proposals[id].(status := status));
  }

  // ---------- Tallies

  /** The weight each stored vote adds to one side of one proposal. */
  function Weights(votes: map<(Address, nat), Vote>, id: nat, support: nat): map<(Address, nat), int> {
    map k | k in votes :: WeightOf(votes[k], k.1, id, support)
  }

  function WeightOf(v: Vote, votedOn: nat, id: nat, support: nat): int {
    if votedOn == id && v.support == support then v.votes else 0
  }

  ghost function Tally(votes: map<(Address, nat), Vote>, id: nat, support: nat): int {
    Sum(Weights(votes, id, support))
  }

  /** The totals of every proposal are the sums over its stored votes. */
  ghost predicate TalliedAt(s: Store, id: nat)
    requires id in s.proposals
  {
    && s.proposals[id].againstVotes == Tally(s.votes, id, 0)
    && s.proposals[id].forVotes == Tally(s.votes, id, 1)
    && s.proposals[id].abstainVotes == Tally(s.votes, id, 2)
  }

  /** Votes are stored for known proposals only. */
  ghost predicate VotesKnown(s: Store) {
    forall k :: k in s.votes ==> k.1 in s.proposals
  }

  ghost predicate Tallied(s: Store) {
    VotesKnown(s) && forall id :: id in s.proposals ==> TalliedAt(s, id)
  }

  lemma TallyPut(votes: map<(Address, nat), Vote>, k: (Address, nat), v: Vote, id: nat, support: nat)
    ensures Tally(votes[k := v], id, support) ==
      Tally(votes, id, support) - (if k in votes then WeightOf(votes[k], k.1, id, support) else 0)
      + WeightOf(v, k.1, id, support)
  {
    assert Weights(votes[k := v], id, support) == Weights(votes, id, support)[k := WeightOf(v, k.1, id, support)];
    SumPut(Weights(votes, id, support), k, WeightOf(v, k.1, id, support));
  }

  lemma {:induction false} SumZero<K(!new)>(m: map<K, int>)
    requires forall k :: k in m ==> m[k] == 0
    ensures Sum(m) == 0
  {
    if m != map[] {
      var k :| k in m && Sum(m) == m[k] + Sum(m - {k});
      SumZero(m - {k});
    }
  }

  lemma TallyOfUnknown(s: Store, id: nat, support: nat)
    requires Tallied(s) && id !in s.proposals
    ensures Tally(s.votes, id, support) == 0
  {
    SumZero(Weights(s.votes, id, support));
  }

  lemma CreatedTallied(s: Store, id: nat, proposer: Address, block: nat, startBlock: nat, endBlock: nat,
          quorumVotes: int)
    requires Tallied(s) && id !in s.proposals
    ensures Tallied(CreatedStep(s, id, proposer, block, startBlock, endBlock, quorumVotes))
  {
    var s' := CreatedStep(s, id, proposer, block, startBlock, endBlock, quorumVotes);
    TallyOfUnknown(s, id, 0);
    TallyOfUnknown(s, id, 1);
    TallyOfUnknown(s, id, 2);
    forall j | j in s'.proposals ensures TalliedAt(s', j) {
      assert j in s.proposals ==> TalliedAt(s, j);
    }
  }

  /** The stored vote that a new one replaces counted for nothing. */
  predicate ReplacesNothing(s: Store, voter: Address, id: nat) {
    (voter, id) in s.votes ==> s.votes[(voter, id)].votes == 0 || s.votes[(voter, id)].support > 2
  }

  /** What a vote does: it is stored, and adds to one total of its own proposal. */
  ghost predicate Voted(s: Store, s': Store, k: (Address, nat), v: Vote) {
    && k.1 in s.proposals && k.1 in s'.proposals
    && var p, p' := s.proposals[k.1], s'.proposals[k.1];
      && s'.votes == s.votes[k := v]
      && s'.proposals == s.proposals[k.1 := p']
      && p'.againstVotes == p.againstVotes + (if v.support == 0 then v.votes else 0)
      && p'.forVotes == p.forVotes + (if v.support == 1 then v.votes else 0)
      && p'.abstainVotes == p.abstainVotes + (if v.support == 2 then v.votes else 0)
      && p'.eta == p.eta
  }

  lemma VoteVoted(s: Store, voter: Address, id: nat, support: nat, votes: int, block: nat)
    requires id in s.proposals && VoteStep(s, voter, id, support, votes, block).Some?
    ensures var s' := VoteStep(s, voter, id, support, votes, block).value;
      Voted(s, s', (voter, id), Vote(votes, support, s.TouchDelegate(voter).delegates[voter].alps, block))
  {
  }

  lemma TalliesPut(s: Store, s': Store, k: (Address, nat), v: Vote, id: nat)
    requires Voted(s, s', k, v) && id in s.proposals && TalliedAt(s, id)
    ensures TalliedAt(s', id) <==> k.1 != id || ReplacesNothing(s, k.0, id)
  {
    assert k == (k.0, k.1);
    TallyPut(s.votes, k, v, id, 0);
    TallyPut(s.votes, k, v, id, 1);
    TallyPut(s.votes, k, v, id, 2);
  }

  /** A vote keeps the tallies exactly when it is the voter's first one on the proposal, or replaces
      one without weight: the handler adds to the totals, but overwrites the stored vote. */
  lemma VoteTallied(s: Store, voter: Address, id: nat, support: nat, votes: int, block: nat)
    requires Tallied(s) && id in s.proposals && VoteStep(s, voter, id, support, votes, block).Some?
    ensures Tallied(VoteStep(s, voter, id, support, votes, block).value) <==> ReplacesNothing(s, voter, id)
  {
    VoteVoted(s, voter, id, support, votes, block);
    var v := Vote(votes, support, s.TouchDelegate(voter).delegates[voter].alps, block);
    VotedTallied(s, VoteStep(s, voter, id, support, votes, block).value, (voter, id), v);
  }

  lemma VotedTallied(s: Store, s': Store, k: (Address, nat), v: Vote)
    requires Tallied(s) && Voted(s, s', k, v)
    ensures Tallied(s') <==> ReplacesNothing(s, k.0, k.1)
  {
    forall id | id in s'.proposals ensures TalliedAt(s', id) <==> k.1 != id || ReplacesNothing(s, k.0, id) {
      assert TalliedAt(s, id);
      TalliesPut(s, s', k, v, id);
    }
  }

  // ---------- Quorums

  /** Whether the quorum of a stored proposal follows its votes. */
  predicate Dynamic(s: Store, id: nat)
    requires id in s.proposals
  {
    UsesDynamicQuorum(s.params.GetOr(NEW_PARAMS), s.proposals[id])
  }

  ghost predicate HasVotes(s: Store, id: nat) {
    exists voter :: (voter, id) in s.votes
  }

  /** Once voted on, a dynamic proposal records the quorum for its votes against, its supply and its
      parameters as of its creation. */
  ghost predicate QuorumRecorded(s: Store) {
    forall id :: id in s.proposals && Dynamic(s, id) && HasVotes(s, id) ==>
      s.proposals[id].totalSupply != 0 && s.proposals[id].quorumVotes == QuorumOf(s.proposals[id])
  }

  /** Nothing stored is younger than the block. */
  ghost predicate NotAfter(s: Store, block: nat) {
    && (forall id :: id in s.proposals ==> s.proposals[id].createdBlock <= block)
    && (s.params.Some? && s.params.value.startBlock.Some? ==> s.params.value.startBlock.value <= block)
  }

  /** What no later event changes about a proposal. */
  ghost predicate Kept(s: Store, s': Store, id: nat)
    requires id in s.proposals
  {
    && id in s'.proposals
    && var p, p' := s.proposals[id], s'.proposals[id];
      && p'.createdBlock == p.createdBlock && p'.startBlock == p.startBlock && p'.endBlock == p.endBlock
      && p'.totalSupply == p.totalSupply && p'.minBps == p.minBps && p'.maxBps == p.maxBps
      && p'.coefficient == p.coefficient && p'.proposer == p.proposer
      && Dynamic(s', id) == Dynamic(s, id)
      && (!Dynamic(s, id) ==> p'.quorumVotes == p.quorumVotes)
  }

  predicate IsParameterEvent(e: Event) {
    e.MinQuorumVotesBPSSet? || e.MaxQuorumVotesBPSSet? || e.QuorumCoefficientSet?
  }

  /** A parameter event leaves every proposal as it is; it keeps a proposal's regime exactly when it
      is not the first parameter event, or not older than the proposal. */
  lemma ParameterStep(s: Store, block: nat, e: Event, id: nat)
    requires IsParameterEvent(e) && id in s.proposals
    ensures Step(s, block, e).Some? && Step(s, block, e).value.proposals == s.proposals
    ensures Dynamic(Step(s, block, e).value, id) == Dynamic(s, id) <==>
      s.params.GetOr(NEW_PARAMS).startBlock.Some? || s.proposals[id].createdBlock <= block
  {
  }

  /** No event that respects the order of blocks and creates only new proposals changes the regime. */
  lemma StepKeeps(s: Store, last: nat, block: nat, e: Event, id: nat)
    requires NotAfter(s, last) && last <= block && Step(s, block, e).Some?
    requires id in s.proposals && (e.ProposalCreated? ==> e.id !in s.proposals)
    ensures Kept(s, Step(s, block, e).value, id)
  {
    if IsParameterEvent(e) {
      ParameterStep(s, block, e, id);
    }
  }

  lemma StepNotAfter(s: Store, last: nat, block: nat, e: Event)
    requires NotAfter(s, last) && last <= block && Step(s, block, e).Some?
    ensures NotAfter(Step(s, block, e).value, block)
  {
  }

  /** `dynamicQuorumStartBlock` is written once. */
  lemma StartBlockOnce(s: Store, block: nat, e: Event)
    requires s.params.Some? && s.params.value.startBlock.Some? && Step(s, block, e).Some?
    ensures Step(s, block, e).value.params.Some?
    ensures Step(s, block, e).value.params.value.startBlock == s.params.value.startBlock
  {
  }

  lemma VoteQuorum(s: Store, voter: Address, id: nat, support: nat, votes: int, block: nat)
    requires QuorumRecorded(s) && id in s.proposals && VoteStep(s, voter, id, support, votes, block).Some?
    ensures QuorumRecorded(VoteStep(s, voter, id, support, votes, block).value)
  {
    var s' := VoteStep(s, voter, id, support, votes, block).value;
    forall j | j in s'.proposals && j != id && HasVotes(s', j) ensures HasVotes(s, j) {
      var w :| (w, j) in s'.votes;
      assert (w, j) in s.votes;
    }
  }
}
