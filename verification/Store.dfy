/** The subgraph's entity store and what each event does to it (packages/nouns-subgraph/src).
    Addresses, token ids and proposal ids are numbers; their printed forms identify them. */
module Store {
  import opened Quorum
  import opened Sequences
  import opened Wrappers

  type Address = nat
  type Token = nat

  const ZERO: Address := 0

  datatype Account = Account(balance: int, totalHeld: int, alps: seq<Token>, delegate: Option<Address>)

  datatype Delegate = Delegate(votes: int, holders: int, alps: seq<Token>)

  datatype Governance = Governance(
    proposals: int, totalTokenHolders: int, currentTokenHolders: int, currentDelegates: int,
    totalDelegates: int, delegatedVotes: int, proposalsQueued: int)

  datatype Status = Pending | Active | Cancelled | Vetoed | Queued | Executed

  datatype Proposal = Proposal(
    proposer: Address, createdBlock: nat, startBlock: nat, endBlock: nat, quorumVotes: int,
    forVotes: int, againstVotes: int, abstainVotes: int, status: Status, eta: Option<nat>,
    totalSupply: int, minBps: int, maxBps: int, coefficient: int)

  datatype Vote = Vote(votes: int, support: nat, alps: seq<Token>, block: nat)

  /** `dynamicQuorumStartBlock` is the block of the first parameter event. */
  datatype Params = Params(minBps: int, maxBps: int, coefficient: int, startBlock: Option<nat>)

  const NEW_ACCOUNT := Account(0, 0, [], None)
  const NEW_DELEGATE := Delegate(0, 0, [])
  const NEW_GOVERNANCE := Governance(0, 0, 0, 0, 0, 0, 0)
  const NEW_PARAMS := Params(0, 0, 0, None)

  function WithAccount(accounts: map<Address, Account>, id: Address): map<Address, Account> {
    if id in accounts then accounts else accounts[id := NEW_ACCOUNT]
  }

  function WithDelegate(delegates: map<Address, Delegate>, id: Address): map<Address, Delegate> {
    if id in delegates then delegates else delegates[id := NEW_DELEGATE]
  }

  /** Creating any but the zero delegate counts it in `totalDelegates`. */
  function CountDelegate(delegates: map<Address, Delegate>, governance: Option<Governance>,
          id: Address): Option<Governance> {
    if id in delegates || id == ZERO then governance
    else
      var g := governance.GetOr(NEW_GOVERNANCE);
      Some(g.(totalDelegates := g.totalDelegates + 1))
  }

  /** The token leaves the list of delegate d. */
  function Filtered(delegates: map<Address, Delegate>, d: Address, token: Token): map<Address, Delegate> {
    var all := WithDelegate(delegates, d);
    all[d := all[d].(alps := Without(all[d].alps, [token]))]
  }

  /** The token joins the list of delegate d. */
  function Extended(delegates: map<Address, Delegate>, d: Address, token: Token): map<Address, Delegate> {
    var all := WithDelegate(delegates, d);
    all[d := all[d].(alps := all[d].alps + [token])]
  }

  /** All entities; a vote is keyed by voter and proposal. */
  datatype Store = Store(
    accounts: map<Address, Account>, delegates: map<Address, Delegate>, owners: map<Token, Address>,
    governance: Option<Governance>, proposals: map<nat, Proposal>, votes: map<(Address, nat), Vote>,
    params: Option<Params>)
  {
    /** getGovernanceEntity: a copy, which the store does not know until it is saved. */
    function Gov(): Governance {
      governance.GetOr(NEW_GOVERNANCE)
    }

    /** getOrCreateAccount */
    function TouchAccount(id: Address): Store {
      this.(accounts := WithAccount(accounts, id))
    }

    /** getOrCreateDelegate */
    function TouchDelegate(id: Address): Store {
      this.(delegates := WithDelegate(delegates, id), governance := CountDelegate(delegates, governance, id))
    }

    /** getOrCreateDynamicQuorumParams: the start block is written once, by the first call with a block. */
    function TouchParams(block: Option<nat>): Store {
      var p := params.GetOr(NEW_PARAMS);
      this.(params := Some(if p.startBlock.None? then p.(startBlock := block) else p))
    }
  }

  const EMPTY := Store(map[], map[], map[], None, map[], map[], None)

  // ---------- ERC-721 events (alps-erc-721.ts)

  /** The sender's account after a transfer; an account that gave its last token has no delegate. */
  function Sent(f: Account, token: Token): Account {
    Account(f.balance - 1, f.totalHeld, Without(f.alps, [token]), if f.balance == 1 then None else f.delegate)
  }

  /** The receiver's account; one that held nothing becomes its own delegate. */
  function Received(to: Address, r: Account, token: Token): Account {
    Account(r.balance + 1, r.totalHeld + 1, r.alps + [token], if r.balance == 0 then Some(to) else r.delegate)
  }

  /** The governance copy `g` after the sender's side: mints add to the supply, an account that gave
      its last token is no holder any more. */
  function SentGovernance(g: Governance, from: Address, f: Account): Governance {
    if from == ZERO then g.(totalTokenHolders := g.totalTokenHolders + 1)
    else if f.balance == 1 then g.(currentTokenHolders := g.currentTokenHolders - 1)
    else g
  }

  /** Whether the sender has a delegate whose list loses the token. */
  predicate HasSource(from: Address, f: Account) {
    from != ZERO && f.delegate.Some?
  }

  /** The sender's side of a transfer: `g` is the copy of the governance entity the handler holds.
      Where it is saved, it overwrites what creating a delegate counted. */
  function TakeFrom(s: Store, g: Governance, from: Address, f: Account, token: Token): (Store, Governance) {
    var g' := SentGovernance(g, from, f);
    (s.(accounts := if from == ZERO then s.accounts else s.accounts[from := Sent(f, token)],
        delegates := if HasSource(from, f) then Filtered(s.delegates, f.delegate.value, token) else s.delegates,
        governance := if from == ZERO || f.balance == 1 then Some(g')
                      else if HasSource(from, f) then CountDelegate(s.delegates, s.governance, f.delegate.value)
                      else s.governance),
     g')
  }

  /** The receiver's side. The token goes to the delegate on record, or to the receiver's own. */
  function GiveTo(s: Store, g: Governance, to: Address, r: Account, token: Token): Store {
    var d := r.delegate.GetOr(to);
    var g1 := if to == ZERO then g.(totalTokenHolders := g.totalTokenHolders - 1) else g;
    s.(accounts := s.accounts[to := Received(to, r, token)],
       delegates := Extended(s.delegates, d, token),
       owners := s.owners[token := to],
       governance := if r.balance == 0 then Some(g1.(currentTokenHolders := g1.currentTokenHolders + 1))
                     else CountDelegate(s.delegates, if to == ZERO then Some(g1) else s.governance, d))
  }

  /** handleTransfer: both accounts and the governance entity are loaded before anything is saved. */
  function TransferStep(s: Store, from: Address, to: Address, token: Token): Store {
    var s0 := s.TouchAccount(from).TouchAccount(to);
    var (s1, g) := TakeFrom(s0, s0.Gov(), from, s0.accounts[from], token);
    GiveTo(s1, g, to, s0.accounts[to], token)
  }

  /** handleDelegateChanged: both delegates are loaded before either is saved. */
  function DelegateChangedStep(s: Store, delegator: Address, from: Address, to: Address): Store {
    var s0 := s.TouchAccount(delegator).TouchDelegate(from).TouchDelegate(to);
    var a, p, n := s0.accounts[delegator], s0.delegates[from], s0.delegates[to];
    s0.(accounts := s0.accounts[delegator := a.(delegate := Some(to))],
        delegates := s0.delegates
          [from := p.(holders := p.holders - 1, alps := Without(p.alps, a.alps))]
          [to := n.(holders := n.holders + 1, alps := n.alps + a.alps)])
  }

  /** handleDelegateVotesChanged: the governance copy is older than the delegate's creation. */
  function VotesChangedStep(s: Store, id: Address, previous: int, next: int): Store {
    var g, s1 := s.Gov(), s.TouchDelegate(id);
    var up := if previous == 0 && next > 0 then 1 else 0;
    var down := if next == 0 then 1 else 0;
    s1.(delegates := s1.delegates[id := s1.delegates[id].(votes := next)],
        governance := Some(g.(currentDelegates := g.currentDelegates + up - down,
                              delegatedVotes := g.delegatedVotes + (next - previous))))
  }

  // ---------- Governance events (alps-dao.ts)

  /** handleProposalCreatedWithRequirements: records the supply and the quorum parameters. */
  function CreatedStep(s: Store, id: nat, proposer: Address, block: nat, startBlock: nat, endBlock: nat,
          quorumVotes: int): Store {
    var s1 := if id in s.proposals then s else s.(governance := Some(s.Gov().(proposals := s.Gov().proposals + 1)));
    var s2 := s1.TouchDelegate(proposer).TouchParams(None);
    var q := s2.params.value;
    var p := Proposal(proposer, block, startBlock, endBlock, quorumVotes, 0, 0, 0,
                      if block >= startBlock then Active else Pending,
                      if id in s.proposals then s.proposals[id].eta else None,
                      s2.Gov().totalTokenHolders, q.minBps, q.maxBps, q.coefficient);
    s2.(proposals := s2.proposals[id := p])
  }

  function SetStatus(s: Store, id: nat, status: Status, eta: Option<nat>): Store
    requires id in s.proposals
  {
    s.(proposals := s.proposals[id := s.proposals[id].(status := status, eta := eta)])
  }

  function AddQueued(s: Store, n: int): Store {
    s.(governance := Some(s.Gov().(proposalsQueued := s.Gov().proposalsQueued + n)))
  }

  /** Whether the proposal was created after dynamic quorums were configured. */
  predicate UsesDynamicQuorum(params: Params, p: Proposal) {
    params.startBlock.Some? && params.startBlock.value < p.createdBlock
  }

  function QuorumOf(p: Proposal): int
    requires p.totalSupply != 0
  {
    DynamicQuorumVotes(p.againstVotes, p.totalSupply, p.minBps, p.maxBps, p.coefficient)
  }

  /** handleVoteCast; None where the quorum would be divided by a zero supply. */
  function VoteStep(s: Store, voter: Address, id: nat, support: nat, votes: int, block: nat): Option<Store>
    requires id in s.proposals
  {
    var s1 := s.TouchDelegate(voter).TouchParams(None);
    var v := Vote(votes, support, s1.delegates[voter].alps, block);
    var p := s.proposals[id];
    var p1 := if support == 0 then p.(againstVotes := p.againstVotes + votes)
              else if support == 1 then p.(forVotes := p.forVotes + votes)
              else if support == 2 then p.(abstainVotes := p.abstainVotes + votes)
              else p;
    var dynamic := UsesDynamicQuorum(s1.params.value, p);
    if dynamic && p.totalSupply == 0 then None
    else
      var p2 := if dynamic then p1.(quorumVotes := QuorumOf(p1)) else p1;
      var p3 := if p.status == Pending then p2.(status := Active) else p2;
      Some(s1.(votes := s1.votes[(voter, id) := v], proposals := s1.proposals[id := p3]))
  }

  // ---------- Runs

  datatype Event =
    | Transfer(from: Address, to: Address, token: Token)
    | DelegateChanged(delegator: Address, fromDelegate: Address, toDelegate: Address)
    | DelegateVotesChanged(delegate: Address, previous: int, next: int)
    | ProposalCreated(id: nat, proposer: Address, startBlock: nat, endBlock: nat, quorumVotes: int)
    | ProposalCanceled(id: nat)
    | ProposalVetoed(id: nat)
    | ProposalQueued(id: nat, eta: nat)
    | ProposalExecuted(id: nat)
    | VoteCast(voter: Address, id: nat, support: nat, votes: int)
    | MinQuorumVotesBPSSet(bps: int)
    | MaxQuorumVotesBPSSet(bps: int)
    | QuorumCoefficientSet(coefficient: int)

  /** One event in a block. None: indexing stops, because an entity would be saved without its
      required fields (an unknown proposal) or a division fails. */
  function Step(s: Store, block: nat, e: Event): Option<Store> {
    match e
    case Transfer(from, to, token) => Some(TransferStep(s, from, to, token))
    case DelegateChanged(delegator, from, to) => Some(DelegateChangedStep(s, delegator, from, to))
    case DelegateVotesChanged(id, previous, next) => Some(VotesChangedStep(s, id, previous, next))
    case ProposalCreated(id, proposer, startBlock, endBlock, quorumVotes) =>
      Some(CreatedStep(s, id, proposer, block, startBlock, endBlock, quorumVotes))
    case ProposalCanceled(id) =>
      if id in s.proposals then Some(SetStatus(s, id, Cancelled, s.proposals[id].eta)) else None
    case ProposalVetoed(id) =>
      if id in s.proposals then Some(SetStatus(s, id, Vetoed, s.proposals[id].eta)) else None
    case ProposalQueued(id, eta) =>
      if id in s.proposals then Some(AddQueued(SetStatus(s, id, Queued, Some(eta)), 1)) else None
    case ProposalExecuted(id) =>
      if id in s.proposals then Some(AddQueued(SetStatus(s, id, Executed, None), -1)) else None
    case VoteCast(voter, id, support, votes) =>
      if id in s.proposals then VoteStep(s, voter, id, support, votes, block) else None
    case MinQuorumVotesBPSSet(bps) =>
      var t := s.TouchParams(Some(block)); Some(t.(params := Some(t.params.value.(minBps := bps))))
    case MaxQuorumVotesBPSSet(bps) =>
      var t := s.TouchParams(Some(block)); Some(t.(params := Some(t.params.value.(maxBps := bps))))
    case QuorumCoefficientSet(coefficient) =>
      var t := s.TouchParams(Some(block)); Some(t.(params := Some(t.params.value.(coefficient := coefficient))))
  }
}
