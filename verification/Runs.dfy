/** Runs of the indexer, and the rules their events may keep. */
module Runs {
  import opened Store
  import opened TokenCounts
  import opened TokenIndex
  import opened Wrappers

  datatype Stamped = Stamped(block: nat, event: Event)

  /** The store after the events; None once indexing has stopped. */
  function Run(es: seq<Stamped>): Option<Store> {
    if es == [] then Some(EMPTY)
    else
      var s :- Run(es[..|es| - 1]);
      var last := es[|es| - 1];
      Step(s, last.block, last.event)
  }

  function LastBlock(es: seq<Stamped>): nat {
    if es == [] then 0 else es[|es| - 1].block
  }

  /** Block numbers never decrease. */
  ghost predicate Ordered(es: seq<Stamped>) {
    es == [] || (Ordered(es[..|es| - 1]) && LastBlock(es[..|es| - 1]) <= LastBlock(es))
  }

  /** The hypotheses of the theorems about runs, each about one kind of event. The contracts do not
      guarantee `Distinct` and `Holding`. A mint to the owner of the token contract emits a
      self-transfer. DelegateChanged is also emitted for an account without tokens, for an unchanged
      delegate, and from a delegate chosen before the account was emptied. */
  datatype Rule =
    | Moves     // a transfer moves a token of the sender, a mint creates a fresh one
    | Distinct  // a transfer is between two accounts
    | Holding   // an account with tokens leaves its recorded delegate for another one
    | Chained   // a vote change starts from the recorded votes and changes them
    | Fresh     // a proposal is created under a new id
    | Queueing  // a proposal is queued once before it is executed
    | Voting    // an account votes once on a proposal

  ghost predicate Obeys(s: Store, e: Event, rule: Rule) {
    match rule
    case Moves => e.Transfer? ==> TokenMoves(s, e.from, e.token)
    case Distinct => e.Transfer? ==> e.from != e.to
    case Holding =>
      e.DelegateChanged? ==>
        && e.fromDelegate != e.toDelegate && AccountOf(s, e.delegator).balance > 0
        && AccountOf(s, e.delegator).delegate == Some(e.fromDelegate)
    case Chained =>
      e.DelegateVotesChanged? ==> e.previous == VotesOf(s, e.delegate) && e.next >= 0 && e.next != e.previous
    case Fresh => e.ProposalCreated? ==> e.id !in s.proposals
    case Queueing =>
      && (e.ProposalQueued? && e.id in s.proposals ==> s.proposals[e.id].eta.None?)
      && (e.ProposalExecuted? && e.id in s.proposals ==> s.proposals[e.id].eta.Some?)
    case Voting => e.VoteCast? ==> (e.voter, e.id) !in s.votes
  }

  /** Every event of the run obeys the rule. */
  ghost predicate Abides(es: seq<Stamped>, rule: Rule) {
    es == [] ||
    var init, last := es[..|es| - 1], es[|es| - 1];
    Abides(init, rule) && (Run(init).Some? ==> Obeys(Run(init).value, last.event, rule))
  }

  /** All hypotheses at once. */
  ghost predicate WellFormedRun(es: seq<Stamped>) {
    Ordered(es) && forall rule: Rule :: Abides(es, rule)
  }

  lemma {:induction false} AbidesPrefix(es: seq<Stamped>, n: nat, rule: Rule)
    requires n <= |es| && Abides(es, rule)
    ensures Abides(es[..n], rule)
  {
    if n == |es| {
      assert es[..n] == es;
    } else {
      AbidesPrefix(es[..|es| - 1], n, rule);
      assert es[..|es| - 1][..n] == es[..n];
    }
  }

  lemma {:induction false} OrderedPrefix(es: seq<Stamped>, n: nat)
    requires n <= |es| && Ordered(es)
    ensures Ordered(es[..n])
  {
    if n == |es| {
      assert es[..n] == es;
    } else {
      OrderedPrefix(es[..|es| - 1], n);
      assert es[..|es| - 1][..n] == es[..n];
    }
  }

  lemma {:induction false} RunPrefix(es: seq<Stamped>, n: nat)
    requires n <= |es| && Run(es).Some?
    ensures Run(es[..n]).Some?
  {
    if n == |es| {
      assert es[..n] == es;
    } else {
      RunPrefix(es[..|es| - 1], n);
      assert es[..|es| - 1][..n] == es[..n];
    }
  }

  // ---------- Which event can change what

  predicate IsGovernanceEvent(e: Event) {
    !e.Transfer? && !e.DelegateChanged? && !e.DelegateVotesChanged?
  }

  /** The delegate a governance event creates, if it is new. */
  function Touched(e: Event): Option<Address> {
    if e.ProposalCreated? then Some(e.proposer) else if e.VoteCast? then Some(e.voter) else None
  }

  function WithTouched(delegates: map<Address, Delegate>, d: Option<Address>): map<Address, Delegate> {
    if d.Some? then WithDelegate(delegates, d.value) else delegates
  }

  /** The token counters are as before. */
  predicate SameCounters(g: Governance, g': Governance) {
    && g'.currentTokenHolders == g.currentTokenHolders && g'.totalTokenHolders == g.totalTokenHolders
    && g'.currentDelegates == g.currentDelegates && g'.delegatedVotes == g.delegatedVotes
  }

  /** Accounts, owners and token counters are as before; at most one delegate was created. */
  predicate TokensKept(s: Store, s': Store, d: Option<Address>) {
    && s'.accounts == s.accounts && s'.owners == s.owners && SameCounters(s.Gov(), s'.Gov())
    && s'.delegates == WithTouched(s.delegates, d)
  }

  lemma CreatedFrame(s: Store, id: nat, proposer: Address, block: nat, startBlock: nat, endBlock: nat, quorumVotes: int)
    ensures TokensKept(s, CreatedStep(s, id, proposer, block, startBlock, endBlock, quorumVotes), Some(proposer))
  {
  }

  lemma VoteFrame(s: Store, voter: Address, id: nat, support: nat, votes: int, block: nat)
    requires id in s.proposals && VoteStep(s, voter, id, support, votes, block).Some?
    ensures TokensKept(s, VoteStep(s, voter, id, support, votes, block).value, Some(voter))
  {
  }

  lemma StatusFrame(s: Store, block: nat, e: Event)
    requires e.ProposalCanceled? || e.ProposalVetoed? || e.ProposalQueued? || e.ProposalExecuted?
    requires Step(s, block, e).Some?
    ensures TokensKept(s, Step(s, block, e).value, None)
  {
  }

  lemma GovernanceStepFrame(s: Store, block: nat, e: Event)
    requires IsGovernanceEvent(e) && Step(s, block, e).Some?
    ensures TokensKept(s, Step(s, block, e).value, Touched(e))
  {
    match e
    case ProposalCreated(id, proposer, startBlock, endBlock, quorumVotes) =>
      CreatedFrame(s, id, proposer, block, startBlock, endBlock, quorumVotes);
    case VoteCast(voter, id, support, votes) => VoteFrame(s, voter, id, support, votes, block);
    case MinQuorumVotesBPSSet(_) =>
    case MaxQuorumVotesBPSSet(_) =>
    case QuorumCoefficientSet(_) =>
    case _ => StatusFrame(s, block, e);
  }

  lemma DelegateChangedFrame(s: Store, delegator: Address, from: Address, to: Address)
    ensures var s' := DelegateChangedStep(s, delegator, from, to);
      && s'.owners == s.owners && SameCounters(s.Gov(), s'.Gov())
      && s'.accounts == s.accounts[delegator := AccountOf(s, delegator).(delegate := Some(to))]
  {
  }

  lemma VotesChangedFrame(s: Store, id: Address, previous: int, next: int)
    ensures var s', all := VotesChangedStep(s, id, previous, next), WithDelegate(s.delegates, id);
      && s'.accounts == s.accounts && s'.owners == s.owners
      && s'.delegates == all[id := all[id].(votes := next)]
      && s'.Gov().currentTokenHolders == s.Gov().currentTokenHolders
      && s'.Gov().totalTokenHolders == s.Gov().totalTokenHolders
  {
  }

  /** Token events leave proposals, votes and parameters alone. */
  lemma TokenStepFrame(s: Store, block: nat, e: Event)
    requires !IsGovernanceEvent(e)
    ensures var s' := Step(s, block, e).value;
      && s'.proposals == s.proposals && s'.votes == s.votes && s'.params == s.params
      && s'.Gov().proposals == s.Gov().proposals && s'.Gov().proposalsQueued == s.Gov().proposalsQueued
  {
    if e.Transfer? {
      TransferGovernance(s, e.from, e.to, e.token);
    }
  }
}
