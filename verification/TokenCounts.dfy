/** What the ERC-721 handlers keep: the counters of the governance entity, and the sums over
    delegates. */
module TokenCounts {
  import opened Sequences
  import opened Store
  import opened Sums
  import opened TokenIndex

  function One(b: bool): int {
    if b then 1 else 0
  }

  /** 1 for each account that holds tokens. */
  function HolderMap(accounts: map<Address, Account>): map<Address, int> {
    map a | a in accounts :: One(accounts[a].balance > 0)
  }

  /** 1 for each token that the zero account does not own. */
  function LiveMap(owners: map<Token, Address>): map<Token, int> {
    map t | t in owners :: One(owners[t] != ZERO)
  }

  function VoteMap(delegates: map<Address, Delegate>): map<Address, int> {
    map d | d in delegates :: delegates[d].votes
  }

  /** 1 for each delegate with votes. */
  function VoterMap(delegates: map<Address, Delegate>): map<Address, int> {
    map d | d in delegates :: One(delegates[d].votes > 0)
  }

  function RepresentedMap(delegates: map<Address, Delegate>): map<Address, int> {
    map d | d in delegates :: delegates[d].holders
  }

  // ---------- Holders and supply

  /** The supply counter agrees with the tokens. */
  ghost predicate SupplyCounted(s: Store) {
    s.Gov().totalTokenHolders == Sum(LiveMap(s.owners))
  }

  /** So do the holder counter and the accounts. */
  ghost predicate HoldersCounted(s: Store) {
    SupplyCounted(s) && s.Gov().currentTokenHolders == Sum(HolderMap(s.accounts))
  }

  ghost function Holders(s: Store): set<Address> {
    set a | a in s.accounts && s.accounts[a].balance > 0
  }

  ghost function LiveTokens(s: Store): set<Token> {
    set t | t in s.owners && s.owners[t] != ZERO
  }

  /** In other words, they are cardinalities. */
  lemma SupplyCountedSet(s: Store)
    requires SupplyCounted(s)
    ensures s.Gov().totalTokenHolders == |LiveTokens(s)|
  {
    SumCounts(LiveMap(s.owners));
    assert Ones(LiveMap(s.owners)) == LiveTokens(s);
  }

  lemma HoldersCountedSets(s: Store)
    requires HoldersCounted(s)
    ensures s.Gov().currentTokenHolders == |Holders(s)|
  {
    SumCounts(HolderMap(s.accounts));
    assert Ones(HolderMap(s.accounts)) == Holders(s);
  }

  lemma HolderPut(accounts: map<Address, Account>, a: Address, x: Account)
    ensures Sum(HolderMap(accounts[a := x])) ==
      Sum(HolderMap(accounts)) - At(HolderMap(accounts), a) + One(x.balance > 0)
  {
    assert HolderMap(accounts[a := x]) == HolderMap(accounts)[a := One(x.balance > 0)];
    SumPut(HolderMap(accounts), a, One(x.balance > 0));
  }

  lemma LivePut(owners: map<Token, Address>, t: Token, a: Address)
    ensures Sum(LiveMap(owners[t := a])) == Sum(LiveMap(owners)) - At(LiveMap(owners), t) + One(a != ZERO)
  {
    assert LiveMap(owners[t := a]) == LiveMap(owners)[t := One(a != ZERO)];
    SumPut(LiveMap(owners), t, One(a != ZERO));
  }

  /** The account would be a new delegate, one that `totalDelegates` ought to count. */
  predicate NewDelegate(s: Store, d: Address) {
    d !in s.delegates && d != ZERO
  }

  /** The delegate that receives the token of a transfer. */
  function GivenTo(s: Store, to: Address): Address {
    AccountOf(s, to).delegate.GetOr(to)
  }

  /** The new delegates a transfer adds to `totalDelegates`. One is left out where the handler then
      saves its older copy of the governance entity: for a receiver without tokens both, else that of
      the sender if the sender gives its last token or the token is burned. */
  function TransferCounts(s: Store, from: Address, to: Address): int {
    var f, r := AccountOf(s, from), AccountOf(s, to);
    if r.balance == 0 then 0
    else
      One(HasSource(from, f) && NewDelegate(s, f.delegate.value) && f.balance != 1 && to != ZERO)
      + One(NewDelegate(s, GivenTo(s, to)) && !(HasSource(from, f) && f.delegate.value == GivenTo(s, to)))
  }

  lemma TakenGovernance(s: Store, from: Address, f: Account, token: Token)
    ensures var (s1, g) := TakeFrom(s, s.Gov(), from, f, token);
      && g == SentGovernance(s.Gov(), from, f)
      && s1.Gov() == g.(totalDelegates := g.totalDelegates
           + One(HasSource(from, f) && NewDelegate(s, f.delegate.value) && f.balance != 1))
      && s1.delegates.Keys == s.delegates.Keys + if HasSource(from, f) then {f.delegate.value} else {}
  {
  }

  lemma GivenGovernance(s: Store, g: Governance, to: Address, r: Account, token: Token)
    ensures var s', g1 := GiveTo(s, g, to, r, token), if to == ZERO || r.balance == 0 then g else s.Gov();
      s'.Gov() == g1.(totalTokenHolders := g1.totalTokenHolders - One(to == ZERO),
        currentTokenHolders := g1.currentTokenHolders + One(r.balance == 0),
        totalDelegates := g1.totalDelegates + One(r.balance != 0 && NewDelegate(s, r.delegate.GetOr(to))))
  {
  }

  /** The counters after a transfer. */
  lemma TransferGovernance(s: Store, from: Address, to: Address, token: Token)
    ensures var g, g' := s.Gov(), TransferStep(s, from, to, token).Gov();
      var f, r := AccountOf(s, from), AccountOf(s, to);
      && g'.currentTokenHolders == g.currentTokenHolders - One(from != ZERO && f.balance == 1) + One(r.balance == 0)
      && g'.totalTokenHolders == g.totalTokenHolders + One(from == ZERO) - One(to == ZERO)
      && g'.currentDelegates == g.currentDelegates && g'.delegatedVotes == g.delegatedVotes
      && g'.proposals == g.proposals && g'.proposalsQueued == g.proposalsQueued
      && g'.totalDelegates == g.totalDelegates + TransferCounts(s, from, to)
  {
    var s0, f, r := s.TouchAccount(from).TouchAccount(to), AccountOf(s, from), AccountOf(s, to);
    assert s0.accounts[from] == f && s0.accounts[to] == r;
    TakenGovernance(s0, from, f, token);
    GivenGovernance(TakeFrom(s0, s0.Gov(), from, f, token).0, SentGovernance(s0.Gov(), from, f), to, r, token);
  }

  /** Where the indexes agree, a transfer counts none of the delegates it creates. */
  lemma TransferCountsNoDelegate(s: Store, from: Address, to: Address, token: Token)
    requires Owned(s) && Represented(s)
    ensures TransferStep(s, from, to, token).Gov().totalDelegates == s.Gov().totalDelegates
  {
    TransferGovernance(s, from, to, token);
    assert AccountOf(s, from).delegate.Some? ==> AccountOf(s, from).delegate.value in s.delegates;
    if AccountOf(s, to).balance != 0 {
      assert OwnedBy(s, to);
      assert AccountOf(s, to).delegate.value in s.delegates;
    }
  }

  /** The delegates that `totalDelegates` ought to count. */
  ghost function Countable(delegates: set<Address>): set<Address> {
    delegates - {ZERO}
  }

  /** By how much `totalDelegates` is short. */
  ghost function Uncounted(s: Store): int {
    |Countable(s.delegates.Keys)| - s.Gov().totalDelegates
  }

  lemma CountableMore(delegates: set<Address>, d: Address)
    ensures |Countable(delegates + {d})| == |Countable(delegates)| + One(d !in delegates && d != ZERO)
  {
    if d in delegates || d == ZERO {
      assert Countable(delegates + {d}) == Countable(delegates);
    } else {
      assert Countable(delegates + {d}) == Countable(delegates) + {d};
    }
  }

  lemma WithDelegateKeys(delegates: map<Address, Delegate>, d: Address)
    ensures WithDelegate(delegates, d).Keys == delegates.Keys + {d}
  {
  }

  lemma TouchUncounted(s: Store, d: Address)
    ensures Uncounted(s.TouchDelegate(d)) == Uncounted(s)
  {
    CountableMore(s.delegates.Keys, d);
    WithDelegateKeys(s.delegates, d);
  }

  /** The only delegate a transfer can create is the one given the token. */
  lemma TransferDelegates(s: Store, from: Address, to: Address, token: Token)
    requires Represented(s)
    ensures TransferStep(s, from, to, token).delegates.Keys == s.delegates.Keys + {GivenTo(s, to)}
  {
    var s' := TransferStep(s, from, to, token);
    assert AccountOf(s, from).delegate.Some? ==> AccountOf(s, from).delegate.value in s.delegates;
    forall d ensures d in s'.delegates.Keys <==> d in s.delegates.Keys + {GivenTo(s, to)} {
      TransferRelists(s, from, to, token, d);
    }
  }

  lemma TransferUncounted(s: Store, from: Address, to: Address, token: Token)
    requires Owned(s) && Represented(s)
    ensures Uncounted(TransferStep(s, from, to, token)) == Uncounted(s) + One(NewDelegate(s, GivenTo(s, to)))
  {
    TransferCountsNoDelegate(s, from, to, token);
    TransferDelegates(s, from, to, token);
    CountableMore(s.delegates.Keys, GivenTo(s, to));
  }

  lemma DelegateChangedUncounted(s: Store, delegator: Address, from: Address, to: Address)
    ensures Uncounted(DelegateChangedStep(s, delegator, from, to)) == Uncounted(s)
  {
    var s0 := s.TouchDelegate(from).TouchDelegate(to);
    var s' := DelegateChangedStep(s, delegator, from, to);
    TouchUncounted(s, from);
    TouchUncounted(s.TouchDelegate(from), to);
    assert s'.delegates.Keys == s0.delegates.Keys && s'.governance == s0.governance;
  }

  lemma VotesChangedUncounted(s: Store, id: Address, previous: int, next: int)
    ensures Uncounted(VotesChangedStep(s, id, previous, next)) == Uncounted(s) + One(NewDelegate(s, id))
  {
    CountableMore(s.delegates.Keys, id);
    assert VotesChangedStep(s, id, previous, next).delegates.Keys == s.delegates.Keys + {id};
  }

  /** Transfers that move a token of the sender, and mints of fresh ones, keep the supply counter. */
  lemma TransferSupplyCounted(s: Store, from: Address, to: Address, token: Token)
    requires SupplyCounted(s) && TokenMoves(s, from, token)
    ensures SupplyCounted(TransferStep(s, from, to, token))
  {
    TransferGovernance(s, from, to, token);
    TransferMoves(s, from, to, token);
    LivePut(s.owners, token, to);
  }

  /** How a transfer changes the number of accounts that hold tokens. */
  lemma MovedHolders(s: Store, s': Store, from: Address, to: Address, token: Token)
    requires Owned(s) && TokenMoves(s, from, token) && (from != to || from == ZERO) && Moved(s, s', from, to, token)
    ensures Sum(HolderMap(s'.accounts)) == Sum(HolderMap(s.accounts))
      - One(from != ZERO && AccountOf(s, from).balance == 1) + One(AccountOf(s, to).balance == 0)
  {
    var f, r := AccountOf(s, from), AccountOf(s, to);
    var f' := if from == ZERO then f else Sent(f, token);
    assert from in s.accounts ==> OwnedBy(s, from);
    assert to in s.accounts ==> OwnedBy(s, to);
    HolderPut(s.accounts, from, f');
    HolderPut(s.accounts[from := f'], to, Received(to, r, token));
  }

  /** A self-transfer changes no holder, for the balance is written from the copy read first. */
  lemma SelfMovedHolders(s: Store, s': Store, a: Address, token: Token)
    requires Owned(s) && a != ZERO && TokenMoves(s, a, token) && Moved(s, s', a, a, token)
    ensures Sum(HolderMap(s'.accounts)) == Sum(HolderMap(s.accounts)) && AccountOf(s, a).balance != 0
  {
    var r := AccountOf(s, a);
    assert OwnedBy(s, a) && token in r.alps;
    HolderPut(s.accounts, a, Received(a, r, token));
    assert s'.accounts == s.accounts[a := Received(a, r, token)];
  }

  /** Transfers keep the holder counter and the supply counter, except that an account sending its
      only token to itself is counted out. */
  lemma TransferHoldersCounted(s: Store, from: Address, to: Address, token: Token)
    requires Owned(s) && HoldersCounted(s) && TokenMoves(s, from, token)
    ensures HoldersCounted(TransferStep(s, from, to, token)) <==>
      from != to || from == ZERO || AccountOf(s, from).balance != 1
  {
    var s' := TransferStep(s, from, to, token);
    TransferGovernance(s, from, to, token);
    TransferMoves(s, from, to, token);
    if from != to || from == ZERO {
      MovedHolders(s, s', from, to, token);
    } else {
      SelfMovedHolders(s, s', to, token);
    }
    TransferSupplyCounted(s, from, to, token);
  }

  // ---------- Votes

  ghost predicate NoNegativeVotes(delegates: map<Address, Delegate>) {
    forall d :: d in delegates ==> delegates[d].votes >= 0
  }

  /** The vote totals agree with the delegates, none of which has negative votes. */
  ghost predicate VotesCounted(s: Store) {
    && s.Gov().delegatedVotes == Sum(VoteMap(s.delegates))
    && s.Gov().currentDelegates == Sum(VoterMap(s.delegates))
    && NoNegativeVotes(s.delegates)
  }

  ghost function Voters(s: Store): set<Address> {
    set d | d in s.delegates && s.delegates[d].votes > 0
  }

  lemma VotesCountedSets(s: Store)
    requires VotesCounted(s)
    ensures s.Gov().currentDelegates == |Voters(s)|
  {
    SumCounts(VoterMap(s.delegates));
    assert Ones(VoterMap(s.delegates)) == Voters(s);
  }

  function VotesOf(s: Store, d: Address): int {
    if d in s.delegates then s.delegates[d].votes else 0
  }

  /** Writing one delegate changes the sums by the difference. */
  lemma VotePut(delegates: map<Address, Delegate>, d: Address, x: Delegate)
    ensures Sum(VoteMap(delegates[d := x])) == Sum(VoteMap(delegates)) - At(VoteMap(delegates), d) + x.votes
  {
    assert VoteMap(delegates[d := x]) == VoteMap(delegates)[d := x.votes];
    SumPut(VoteMap(delegates), d, x.votes);
  }

  lemma VoterPut(delegates: map<Address, Delegate>, d: Address, x: Delegate)
    ensures Sum(VoterMap(delegates[d := x])) == Sum(VoterMap(delegates)) - At(VoterMap(delegates), d) + One(x.votes > 0)
  {
    assert VoterMap(delegates[d := x]) == VoterMap(delegates)[d := One(x.votes > 0)];
    SumPut(VoterMap(delegates), d, One(x.votes > 0));
  }

  lemma RepresentedPut(delegates: map<Address, Delegate>, d: Address, x: Delegate)
    ensures Sum(RepresentedMap(delegates[d := x])) ==
      Sum(RepresentedMap(delegates)) - At(RepresentedMap(delegates), d) + x.holders
  {
    assert RepresentedMap(delegates[d := x]) == RepresentedMap(delegates)[d := x.holders];
    SumPut(RepresentedMap(delegates), d, x.holders);
  }

  /** The sums see neither new delegates nor changed token lists. */
  ghost predicate SameSums(a: map<Address, Delegate>, b: map<Address, Delegate>) {
    && Sum(VoteMap(a)) == Sum(VoteMap(b)) && Sum(VoterMap(a)) == Sum(VoterMap(b))
    && Sum(RepresentedMap(a)) == Sum(RepresentedMap(b))
    && (NoNegativeVotes(a) ==> NoNegativeVotes(b))
  }

  lemma WithDelegateSums(delegates: map<Address, Delegate>, d: Address)
    ensures SameSums(delegates, WithDelegate(delegates, d))
  {
    if d !in delegates {
      VotePut(delegates, d, NEW_DELEGATE);
      VoterPut(delegates, d, NEW_DELEGATE);
      RepresentedPut(delegates, d, NEW_DELEGATE);
    }
  }

  lemma ListSums(delegates: map<Address, Delegate>, d: Address, alps: seq<Token>)
    requires d in delegates
    ensures SameSums(delegates, delegates[d := delegates[d].(alps := alps)])
  {
    var x := delegates[d].(alps := alps);
    VotePut(delegates, d, x);
    VoterPut(delegates, d, x);
    RepresentedPut(delegates, d, x);
  }

  lemma FilteredSums(delegates: map<Address, Delegate>, d: Address, token: Token)
    ensures SameSums(delegates, Filtered(delegates, d, token))
  {
    var all := WithDelegate(delegates, d);
    WithDelegateSums(delegates, d);
    ListSums(all, d, Without(all[d].alps, [token]));
  }

  lemma ExtendedSums(delegates: map<Address, Delegate>, d: Address, token: Token)
    ensures SameSums(delegates, Extended(delegates, d, token))
  {
    var all := WithDelegate(delegates, d);
    WithDelegateSums(delegates, d);
    ListSums(all, d, all[d].alps + [token]);
  }

  lemma TransferSums(s: Store, from: Address, to: Address, token: Token)
    ensures SameSums(s.delegates, TransferStep(s, from, to, token).delegates)
  {
    var s0 := s.TouchAccount(from).TouchAccount(to);
    var f, r := s0.accounts[from], s0.accounts[to];
    var kept := if HasSource(from, f) then Filtered(s.delegates, f.delegate.value, token) else s.delegates;
    assert TransferStep(s, from, to, token).delegates == Extended(kept, r.delegate.GetOr(to), token);
    if HasSource(from, f) {
      FilteredSums(s.delegates, f.delegate.value, token);
    }
    ExtendedSums(kept, r.delegate.GetOr(to), token);
  }

  lemma TransferVotesCounted(s: Store, from: Address, to: Address, token: Token)
    requires VotesCounted(s)
    ensures VotesCounted(TransferStep(s, from, to, token))
  {
    TransferGovernance(s, from, to, token);
    TransferSums(s, from, to, token);
  }

  /** A vote change keeps the totals exactly when it starts from the recorded votes and is no change
      from nothing to nothing, which would count one delegate less. */
  lemma VotesChangedCounted(s: Store, id: Address, previous: int, next: int)
    requires VotesCounted(s) && next >= 0
    ensures VotesCounted(VotesChangedStep(s, id, previous, next)) <==>
      previous == VotesOf(s, id) && (previous != 0 || next != 0)
  {
    WithDelegateSums(s.delegates, id);
    VotesPut(WithDelegate(s.delegates, id), id, next);
    VotesChangedTotals(s, id, previous, next);
  }

  lemma VotesPut(all: map<Address, Delegate>, id: Address, next: int)
    requires id in all && NoNegativeVotes(all) && next >= 0
    ensures var after := all[id := all[id].(votes := next)];
      && Sum(VoteMap(after)) == Sum(VoteMap(all)) - all[id].votes + next
      && Sum(VoterMap(after)) == Sum(VoterMap(all)) - One(all[id].votes > 0) + One(next > 0)
      && NoNegativeVotes(after)
  {
    VotePut(all, id, all[id].(votes := next));
    VoterPut(all, id, all[id].(votes := next));
  }

  lemma VotesChangedTotals(s: Store, id: Address, previous: int, next: int)
    ensures var s', all := VotesChangedStep(s, id, previous, next), WithDelegate(s.delegates, id);
      && s'.delegates == all[id := all[id].(votes := next)] && all[id].votes == VotesOf(s, id)
      && s'.Gov().delegatedVotes == s.Gov().delegatedVotes + next - previous
      && s'.Gov().currentDelegates == s.Gov().currentDelegates + One(previous == 0 && next > 0) - One(next == 0)
  {
  }

  // ---------- Represented holders

  /** Moving a holder from one delegate to another. */
  lemma HandOver(all: map<Address, Delegate>, from: Address, to: Address, p: Delegate, n: Delegate)
    requires from in all && to in all
    requires p.votes == all[from].votes && p.holders == all[from].holders - 1
    requires n.votes == all[to].votes && n.holders == all[to].holders + 1
    ensures var after := all[from := p][to := n];
      && Sum(RepresentedMap(after)) == Sum(RepresentedMap(all)) + One(from == to)
      && Sum(VoteMap(after)) == Sum(VoteMap(all)) && Sum(VoterMap(after)) == Sum(VoterMap(all))
      && (NoNegativeVotes(all) ==> NoNegativeVotes(after))
  {
    var mid := all[from := p];
    VotePut(all, from, p);
    VoterPut(all, from, p);
    RepresentedPut(all, from, p);
    VotePut(mid, to, n);
    VoterPut(mid, to, n);
    RepresentedPut(mid, to, n);
  }

  lemma TwoDelegatesSums(delegates: map<Address, Delegate>, d: Address, e: Address)
    ensures SameSums(delegates, WithDelegate(WithDelegate(delegates, d), e))
  {
    WithDelegateSums(delegates, d);
    WithDelegateSums(WithDelegate(delegates, d), e);
  }

  /** What HandOver says, from any map with the same sums. */
  ghost predicate HandedOver(before: map<Address, Delegate>, after: map<Address, Delegate>, net: int) {
    && Sum(RepresentedMap(after)) == Sum(RepresentedMap(before)) + net
    && Sum(VoteMap(after)) == Sum(VoteMap(before)) && Sum(VoterMap(after)) == Sum(VoterMap(before))
    && (NoNegativeVotes(before) ==> NoNegativeVotes(after))
  }

  lemma DelegateChangedDelegates(s: Store, delegator: Address, from: Address, to: Address) returns (p: Delegate,
          n: Delegate)
    ensures var all := WithDelegate(WithDelegate(s.delegates, from), to);
      && DelegateChangedStep(s, delegator, from, to).delegates == all[from := p][to := n]
      && p.votes == all[from].votes && p.holders == all[from].holders - 1
      && n.votes == all[to].votes && n.holders == all[to].holders + 1
  {
    var all := WithDelegate(WithDelegate(s.delegates, from), to);
    var alps := WithAccount(s.accounts, delegator)[delegator].alps;
    p, n := all[from], all[to];
    p := p.(holders := p.holders - 1, alps := Without(p.alps, alps));
    n := n.(holders := n.holders + 1, alps := n.alps + alps);
  }

  /** The sum of `tokenHoldersRepresentedAmount` changes only where a delegate is replaced by itself. */
  lemma DelegateChangedSums(s: Store, delegator: Address, from: Address, to: Address)
    ensures HandedOver(s.delegates, DelegateChangedStep(s, delegator, from, to).delegates, One(from == to))
  {
    var all := WithDelegate(WithDelegate(s.delegates, from), to);
    TwoDelegatesSums(s.delegates, from, to);
    var p, n := DelegateChangedDelegates(s, delegator, from, to);
    HandOver(all, from, to, p, n);
  }
}
