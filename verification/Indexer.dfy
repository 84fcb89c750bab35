/** The event handlers of packages/nouns-subgraph/src/alps-erc-721.ts and alps-dao.ts, which load
    copies of entities, change them, and save them, proved against the steps of Store.dfy. */
module Indexer {
  import opened Quorum
  import opened Sequences
  import opened Store
  import opened Wrappers

  class Indexer {
    var accounts: map<Address, Account>
    var delegates: map<Address, Delegate>
    var owners: map<Token, Address>
    var governance: Option<Governance>
    var proposals: map<nat, Proposal>
    var votes: map<(Address, nat), Vote>
    var params: Option<Params>

    function Snapshot(): Store
      reads this
    {
      Store(accounts, delegates, owners, governance, proposals, votes, params)
    }

    constructor ()
      ensures Snapshot() == EMPTY
    {
      accounts, delegates, owners := map[], map[], map[];
      governance, proposals, votes, params := None, map[], map[], None;
    }

    method GetOrCreateAccount(id: Address) returns (a: Account)
      modifies this`accounts
      ensures Snapshot() == old(Snapshot()).TouchAccount(id)
      ensures id in accounts && a == accounts[id]
    {
      if id !in accounts {
        accounts := accounts[id := NEW_ACCOUNT];
      }
      a := accounts[id];
    }

    method GetGovernanceEntity() returns (g: Governance)
      ensures g == Snapshot().Gov()
    {
      g := if governance.Some? then governance.value else NEW_GOVERNANCE;
    }

    method GetOrCreateDelegate(id: Address) returns (d: Delegate)
      modifies this`delegates, this`governance
      ensures Snapshot() == old(Snapshot()).TouchDelegate(id)
      ensures id in delegates && d == delegates[id]
    {
      if id !in delegates {
        d := NEW_DELEGATE;
        if id != ZERO {
          var g := GetGovernanceEntity();
          governance := Some(g.(totalDelegates := g.totalDelegates + 1));
        }
        delegates := delegates[id := d];
      }
      d := delegates[id];
    }

    method GetOrCreateDynamicQuorumParams(block: Option<nat>) returns (p: Params)
      modifies this`params
      ensures Snapshot() == old(Snapshot()).TouchParams(block)
      ensures params == Some(p)
    {
      if params.None? {
        p := NEW_PARAMS.(startBlock := block);
        params := Some(p);
      }
      p := params.value;
      if p.startBlock.None? && block.Some? {
        p := p.(startBlock := block);
        params := Some(p);
      }
    }

    /** The first half of handleTransfer, on the sender's account. `g` is the handler's copy of the
        governance entity, which it saves over whatever is stored. */
    method UpdateFromHolder(from: Address, holder: Account, governanceCopy: Governance,
            token: Token) returns (g: Governance)
      modifies this
      ensures (Snapshot(), g) == TakeFrom(old(Snapshot()), governanceCopy, from, holder, token)
    {
      g := governanceCopy;
      if from == ZERO {
        g := g.(totalTokenHolders := g.totalTokenHolders + 1);
        governance := Some(g);
      } else {
        var fromHolder := holder.(balance := holder.balance - 1);
        fromHolder := fromHolder.(alps := Without(fromHolder.alps, [token]));
        if fromHolder.delegate.Some? {
          var fromDelegate := GetOrCreateDelegate(fromHolder.delegate.value);
          fromDelegate := fromDelegate.(alps := Without(fromDelegate.alps, [token]));
          delegates := delegates[fromHolder.delegate.value := fromDelegate];
        }
        if fromHolder.balance == 0 && holder.balance > 0 {
          g := g.(currentTokenHolders := g.currentTokenHolders - 1);
          governance := Some(g);
          fromHolder := fromHolder.(delegate := None);
        }
        // The branch for a sender whose balance rises from zero is never taken.
        assert !(fromHolder.balance > 0 && holder.balance == 0);
        accounts := accounts[from := fromHolder];
      }
    }

    /** The second half of handleTransfer, on the receiver's account. */
    method UpdateToHolder(to: Address, holder: Account, governanceCopy: Governance, token: Token)
      modifies this
      ensures Snapshot() == GiveTo(old(Snapshot()), governanceCopy, to, holder, token)
    {
      var g := governanceCopy;
      if to == ZERO {
        g := g.(totalTokenHolders := g.totalTokenHolders - 1);
        governance := Some(g);
      }
      var toDelegateId := if holder.delegate.Some? then holder.delegate.value else to;
      var toDelegate := GetOrCreateDelegate(toDelegateId);
      delegates := delegates[toDelegateId := toDelegate.(alps := toDelegate.alps + [token])];
      var toHolder := holder.(balance := holder.balance + 1, totalHeld := holder.totalHeld + 1);
      toHolder := toHolder.(alps := toHolder.alps + [token]);
      // Nor is the branch for a receiver whose balance falls to zero.
      assert !(toHolder.balance == 0 && holder.balance > 0);
      if toHolder.balance > 0 && holder.balance == 0 {
        g := g.(currentTokenHolders := g.currentTokenHolders + 1);
        governance := Some(g);
        toHolder := toHolder.(delegate := Some(to));
      }
      owners := owners[token := to];
      accounts := accounts[to := toHolder];
    }

    method HandleTransfer(from: Address, to: Address, token: Token)
      modifies this
      ensures Snapshot() == TransferStep(old(Snapshot()), from, to, token)
    {
      var fromHolder := GetOrCreateAccount(from);
      var toHolder := GetOrCreateAccount(to);
      var g := GetGovernanceEntity();
      g := UpdateFromHolder(from, fromHolder, g, token);
      UpdateToHolder(to, toHolder, g, token);
    }

    /** The loop that pushes the delegator's tokens to the new delegate's list. */
    method PushAll(list: seq<Token>, alps: seq<Token>) returns (all: seq<Token>)
      ensures all == list + alps
    {
      all := list;
      for i := 0 to |alps|
        invariant all == list + alps[..i]
      {
        all := all + [alps[i]];
      }
    }

    method HandleDelegateChanged(delegator: Address, from: Address, to: Address)
      modifies this
      ensures Snapshot() == DelegateChangedStep(old(Snapshot()), delegator, from, to)
    {
      var tokenHolder := GetOrCreateAccount(delegator);
      var previousDelegate := GetOrCreateDelegate(from);
      var newDelegate := GetOrCreateDelegate(to);
      var accountAlps := tokenHolder.alps;
      accounts := accounts[delegator := tokenHolder.(delegate := Some(to))];
      previousDelegate := previousDelegate.(
        holders := previousDelegate.holders - 1, alps := Without(previousDelegate.alps, accountAlps));
      var newAlps := PushAll(newDelegate.alps, accountAlps);
      newDelegate := newDelegate.(holders := newDelegate.holders + 1, alps := newAlps);
      delegates := delegates[from := previousDelegate];
      delegates := delegates[to := newDelegate];
    }

    method HandleDelegateVotesChanged(id: Address, previous: int, next: int)
      modifies this
      ensures Snapshot() == VotesChangedStep(old(Snapshot()), id, previous, next)
    {
      var g := GetGovernanceEntity();
      var delegate := GetOrCreateDelegate(id);
      var votesDifference := next - previous;
      delegates := delegates[id := delegate.(votes := next)];
      if previous == 0 && next > 0 {
        g := g.(currentDelegates := g.currentDelegates + 1);
      }
      if next == 0 {
        g := g.(currentDelegates := g.currentDelegates - 1);
      }
      governance := Some(g.(delegatedVotes := g.delegatedVotes + votesDifference));
    }

    method HandleProposalCreated(id: nat, proposer: Address, block: nat, startBlock: nat, endBlock: nat,
            quorumVotes: int)
      modifies this
      ensures Snapshot() == CreatedStep(old(Snapshot()), id, proposer, block, startBlock, endBlock, quorumVotes)
    {
      var eta: Option<nat> := None;
      if id in proposals {
        eta := proposals[id].eta;
      } else {
        var g := GetGovernanceEntity();
        governance := Some(g.(proposals := g.proposals + 1));
      }
      var _ := GetOrCreateDelegate(proposer);
      var g := GetGovernanceEntity();
      var q := GetOrCreateDynamicQuorumParams(None);
      proposals := proposals[id := Proposal(proposer, block, startBlock, endBlock, quorumVotes, 0, 0, 0,
        if block >= startBlock then Active else Pending, eta, g.totalTokenHolders, q.minBps, q.maxBps, q.coefficient)];
    }

    method HandleProposalCanceled(id: nat) returns (ok: bool)
      modifies this
      ensures ok <==> Step(old(Snapshot()), 0, ProposalCanceled(id)).Some?
      ensures Snapshot() == Step(old(Snapshot()), 0, ProposalCanceled(id)).GetOr(old(Snapshot()))
    {
      if id !in proposals { return false; }
      proposals := proposals[id := proposals[id].(status := Cancelled)];
      ok := true;
    }

    method HandleProposalVetoed(id: nat) returns (ok: bool)
      modifies this
      ensures ok <==> Step(old(Snapshot()), 0, ProposalVetoed(id)).Some?
      ensures Snapshot() == Step(old(Snapshot()), 0, ProposalVetoed(id)).GetOr(old(Snapshot()))
    {
      if id !in proposals { return false; }
      proposals := proposals[id := proposals[id].(status := Vetoed)];
      ok := true;
    }

    method HandleProposalQueued(id: nat, eta: nat) returns (ok: bool)
      modifies this
      ensures ok <==> Step(old(Snapshot()), 0, ProposalQueued(id, eta)).Some?
      ensures Snapshot() == Step(old(Snapshot()), 0, ProposalQueued(id, eta)).GetOr(old(Snapshot()))
    {
      var g := GetGovernanceEntity();
      if id !in proposals { return false; }
      proposals := proposals[id := proposals[id].(status := Queued, eta := Some(eta))];
      governance := Some(g.(proposalsQueued := g.proposalsQueued + 1));
      ok := true;
    }

    method HandleProposalExecuted(id: nat) returns (ok: bool)
      modifies this
      ensures ok <==> Step(old(Snapshot()), 0, ProposalExecuted(id)).Some?
      ensures Snapshot() == Step(old(Snapshot()), 0, ProposalExecuted(id)).GetOr(old(Snapshot()))
    {
      var g := GetGovernanceEntity();
      if id !in proposals { return false; }
      proposals := proposals[id := proposals[id].(status := Executed, eta := None)];
      governance := Some(g.(proposalsQueued := g.proposalsQueued - 1));
      ok := true;
    }

    method HandleVoteCast(voter: Address, id: nat, support: nat, weight: int, block: nat) returns (ok: bool)
      modifies this
      ensures ok <==> Step(old(Snapshot()), block, VoteCast(voter, id, support, weight)).Some?
      ensures ok ==> Snapshot() == Step(old(Snapshot()), block, VoteCast(voter, id, support, weight)).value
    {
      if id !in proposals { return false; }
      var proposal := proposals[id];
      var delegate := GetOrCreateDelegate(voter);
      votes := votes[(voter, id) := Vote(weight, support, delegate.alps, block)];
      if support == 0 {
        proposal := proposal.(againstVotes := proposal.againstVotes + weight);
      } else if support == 1 {
        proposal := proposal.(forVotes := proposal.forVotes + weight);
      } else if support == 2 {
        proposal := proposal.(abstainVotes := proposal.abstainVotes + weight);
      }
      var dqParams := GetOrCreateDynamicQuorumParams(None);
      if dqParams.startBlock.Some? && dqParams.startBlock.value < proposal.createdBlock {
        if proposal.totalSupply == 0 { return false; }
        proposal := proposal.(quorumVotes := DynamicQuorumVotes(
          proposal.againstVotes, proposal.totalSupply, proposal.minBps, proposal.maxBps, proposal.coefficient));
      }
      if proposal.status == Pending {
        proposal := proposal.(status := Active);
      }
      proposals := proposals[id := proposal];
      ok := true;
    }

    method HandleMinQuorumVotesBPSSet(block: nat, bps: int)
      modifies this
      ensures Some(Snapshot()) == Step(old(Snapshot()), block, MinQuorumVotesBPSSet(bps))
    {
      var q := GetOrCreateDynamicQuorumParams(Some(block));
      params := Some(q.(minBps := bps));
    }

    method HandleMaxQuorumVotesBPSSet(block: nat, bps: int)
      modifies this
      ensures Some(Snapshot()) == Step(old(Snapshot()), block, MaxQuorumVotesBPSSet(bps))
    {
      var q := GetOrCreateDynamicQuorumParams(Some(block));
      params := Some(q.(maxBps := bps));
    }

    method HandleQuorumCoefficientSet(block: nat, coefficient: int)
      modifies this
      ensures Some(Snapshot()) == Step(old(Snapshot()), block, QuorumCoefficientSet(coefficient))
    {
      var q := GetOrCreateDynamicQuorumParams(Some(block));
      params := Some(q.(coefficient := coefficient));
    }

    /** One event in its block, passed to its handler: a step of the store. */
    method Handle(block: nat, e: Event) returns (ok: bool)
      modifies this
      ensures ok <==> Step(old(Snapshot()), block, e).Some?
      ensures ok ==> Snapshot() == Step(old(Snapshot()), block, e).value
    {
      ok := true;
      match e {
        case Transfer(from, to, token) => HandleTransfer(from, to, token);
        case DelegateChanged(delegator, from, to) => HandleDelegateChanged(delegator, from, to);
        case DelegateVotesChanged(id, previous, next) => HandleDelegateVotesChanged(id, previous, next);
        case ProposalCreated(id, proposer, startBlock, endBlock, quorumVotes) =>
          HandleProposalCreated(id, proposer, block, startBlock, endBlock, quorumVotes);
        case ProposalCanceled(id) => ok := HandleProposalCanceled(id);
        case ProposalVetoed(id) => ok := HandleProposalVetoed(id);
        case ProposalQueued(id, eta) => ok := HandleProposalQueued(id, eta);
        case ProposalExecuted(id) => ok := HandleProposalExecuted(id);
        case VoteCast(voter, id, support, votes) => ok := HandleVoteCast(voter, id, support, votes, block);
        case MinQuorumVotesBPSSet(bps) => HandleMinQuorumVotesBPSSet(block, bps);
        case MaxQuorumVotesBPSSet(bps) => HandleMaxQuorumVotesBPSSet(block, bps);
        case QuorumCoefficientSet(coefficient) => HandleQuorumCoefficientSet(block, coefficient);
      }
    }
  }
}
