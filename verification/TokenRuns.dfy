/** What the token indexes and counters are after any run: each conclusion under the rules it needs. */
module TokenRuns {
  import opened ProposalIndex
  import opened Runs
  import opened Sequences
  import opened Store
  import opened Sums
  import opened TokenCounts
  import opened TokenIndex
  import opened Wrappers

  // ---------- Supply

  lemma StepSupply(s: Store, block: nat, e: Event)
    requires SupplyCounted(s) && Obeys(s, e, Moves) && Step(s, block, e).Some?
    ensures SupplyCounted(Step(s, block, e).value)
  {
    match e
    case Transfer(from, to, token) => TransferSupplyCounted(s, from, to, token);
    case DelegateChanged(delegator, from, to) => DelegateChangedFrame(s, delegator, from, to);
    case DelegateVotesChanged(id, previous, next) => VotesChangedFrame(s, id, previous, next);
    case _ => GovernanceStepFrame(s, block, e);
  }

  lemma {:induction false} RunSupply(es: seq<Stamped>)
    requires Abides(es, Moves) && Run(es).Some?
    ensures SupplyCounted(Run(es).value)
  {
    if es == [] {
      assert LiveMap(EMPTY.owners) == map[];
    } else {
      var init, last := es[..|es| - 1], es[|es| - 1];
      RunSupply(init);
      StepSupply(Run(init).value, last.block, last.event);
    }
  }

  /** `totalTokenHolders` is the number of tokens that are not burned. */
  lemma SupplyIndex(es: seq<Stamped>)
    requires Abides(es, Moves) && Run(es).Some?
    ensures Run(es).value.Gov().totalTokenHolders == |LiveTokens(Run(es).value)|
  {
    RunSupply(es);
    SupplyCountedSet(Run(es).value);
  }

  // ---------- Owners

  lemma OwnedFrame(s: Store, s': Store)
    requires Owned(s) && HoldersCounted(s) && s'.accounts == s.accounts && s'.owners == s.owners
    requires s'.Gov().currentTokenHolders == s.Gov().currentTokenHolders
    requires s'.Gov().totalTokenHolders == s.Gov().totalTokenHolders
    ensures Owned(s') && HoldersCounted(s')
  {
    forall a | a in s'.accounts ensures OwnedBy(s', a) {
      assert OwnedBy(s, a);
    }
  }

  lemma DelegateChangedOwners(s: Store, delegator: Address, from: Address, to: Address)
    requires Owned(s) && HoldersCounted(s)
    ensures var s' := DelegateChangedStep(s, delegator, from, to); Owned(s') && HoldersCounted(s')
  {
    DelegateChangedOwned(s, delegator, from, to);
    DelegateChangedFrame(s, delegator, from, to);
    var a := AccountOf(s, delegator);
    HolderPut(s.accounts, delegator, a.(delegate := Some(to)));
  }

  /** A transfer of the sender's token to another account, or any other event, keeps the ownership
      index and its counters. */
  lemma StepOwners(s: Store, block: nat, e: Event)
    requires Owned(s) && HoldersCounted(s) && Step(s, block, e).Some?
    requires Obeys(s, e, Moves) && Obeys(s, e, Distinct)
    ensures Owned(Step(s, block, e).value) && HoldersCounted(Step(s, block, e).value)
  {
    match e
    case Transfer(from, to, token) =>
      TransferOwned(s, from, to, token);
      TransferHoldersCounted(s, from, to, token);
    case DelegateChanged(delegator, from, to) => DelegateChangedOwners(s, delegator, from, to);
    case DelegateVotesChanged(id, previous, next) =>
      VotesChangedFrame(s, id, previous, next);
      OwnedFrame(s, VotesChangedStep(s, id, previous, next));
    case _ =>
      GovernanceStepFrame(s, block, e);
      OwnedFrame(s, Step(s, block, e).value);
  }

  lemma {:induction false} RunOwners(es: seq<Stamped>)
    requires Abides(es, Moves) && Abides(es, Distinct) && Run(es).Some?
    ensures Owned(Run(es).value) && HoldersCounted(Run(es).value)
  {
    if es == [] {
      assert LiveMap(EMPTY.owners) == map[] && HolderMap(EMPTY.accounts) == map[];
    } else {
      var init, last := es[..|es| - 1], es[|es| - 1];
      RunOwners(init);
      StepOwners(Run(init).value, last.block, last.event);
    }
  }

  /** The ownership index and its counters. */
  lemma OwnershipIndex(es: seq<Stamped>)
    requires Abides(es, Moves) && Abides(es, Distinct) && Run(es).Some?
    ensures var s := Run(es).value;
      && (forall a :: a in s.accounts ==> NoDup(s.accounts[a].alps) && s.accounts[a].balance == |s.accounts[a].alps|)
      && (forall a, t :: a in s.accounts ==> (t in s.accounts[a].alps <==> (t in s.owners && s.owners[t] == a)))
      && s.Gov().currentTokenHolders == |Holders(s)|
      && s.Gov().totalTokenHolders == |LiveTokens(s)|
  {
    RunOwners(es);
    SupplyIndex(es);
    var s := Run(es).value;
    HoldersCountedSets(s);
    forall a | a in s.accounts
      ensures NoDup(s.accounts[a].alps) && s.accounts[a].balance == |s.accounts[a].alps|
      ensures forall t :: t in s.accounts[a].alps <==> (t in s.owners && s.owners[t] == a)
    {
      assert OwnedBy(s, a);
    }
  }

  // ---------- Votes

  lemma StepVotes(s: Store, block: nat, e: Event)
    requires VotesCounted(s) && Obeys(s, e, Chained) && Step(s, block, e).Some?
    ensures VotesCounted(Step(s, block, e).value)
  {
    match e
    case Transfer(from, to, token) => TransferVotesCounted(s, from, to, token);
    case DelegateChanged(delegator, from, to) =>
      DelegateChangedFrame(s, delegator, from, to);
      DelegateChangedSums(s, delegator, from, to);
    case DelegateVotesChanged(id, previous, next) => VotesChangedCounted(s, id, previous, next);
    case _ =>
      GovernanceStepFrame(s, block, e);
      WithTouchedSums(s.delegates, Touched(e));
  }

  lemma WithTouchedSums(delegates: map<Address, Delegate>, d: Option<Address>)
    ensures SameSums(delegates, WithTouched(delegates, d))
  {
    if d.Some? {
      WithDelegateSums(delegates, d.value);
    }
  }

  lemma {:induction false} RunVotes(es: seq<Stamped>)
    requires Abides(es, Chained) && Run(es).Some?
    ensures VotesCounted(Run(es).value)
  {
    if es == [] {
      assert VoteMap(EMPTY.delegates) == map[] && VoterMap(EMPTY.delegates) == map[];
    } else {
      var init, last := es[..|es| - 1], es[|es| - 1];
      RunVotes(init);
      StepVotes(Run(init).value, last.block, last.event);
    }
  }

  /** The vote total and the number of delegates with votes. */
  lemma VoteIndex(es: seq<Stamped>)
    requires Abides(es, Chained) && Run(es).Some?
    ensures var s := Run(es).value;
      s.Gov().delegatedVotes == Sum(VoteMap(s.delegates)) && s.Gov().currentDelegates == |Voters(s)|
  {
    RunVotes(es);
    VotesCountedSets(Run(es).value);
  }

  // ---------- Represented holders

  /** How often a delegate was replaced by itself. */
  function SelfDelegations(es: seq<Stamped>): int {
    if es == [] then 0
    else
      var e := es[|es| - 1].event;
      SelfDelegations(es[..|es| - 1]) + One(e.DelegateChanged? && e.fromDelegate == e.toDelegate)
  }

  lemma StepRepresentedSum(s: Store, block: nat, e: Event)
    requires Step(s, block, e).Some?
    ensures Sum(RepresentedMap(Step(s, block, e).value.delegates)) ==
      Sum(RepresentedMap(s.delegates)) + One(e.DelegateChanged? && e.fromDelegate == e.toDelegate)
  {
    match e
    case Transfer(from, to, token) => TransferSums(s, from, to, token);
    case DelegateChanged(delegator, from, to) => DelegateChangedSums(s, delegator, from, to);
    case DelegateVotesChanged(id, previous, next) =>
      VotesChangedFrame(s, id, previous, next);
      WithDelegateSums(s.delegates, id);
      var all := WithDelegate(s.delegates, id);
      RepresentedPut(all, id, all[id].(votes := next));
    case _ =>
      GovernanceStepFrame(s, block, e);
      WithTouchedSums(s.delegates, Touched(e));
  }

  /** Over every run, `tokenHoldersRepresentedAmount` sums to the number of self-replacements. */
  lemma {:induction false} RepresentedSum(es: seq<Stamped>)
    requires Run(es).Some?
    ensures Sum(RepresentedMap(Run(es).value.delegates)) == SelfDelegations(es)
  {
    if es == [] {
      assert RepresentedMap(EMPTY.delegates) == map[];
    } else {
      var init, last := es[..|es| - 1], es[|es| - 1];
      RepresentedSum(init);
      StepRepresentedSum(Run(init).value, last.block, last.event);
    }
  }

  lemma {:induction false} NoSelfDelegations(es: seq<Stamped>)
    requires Abides(es, Holding) && Run(es).Some?
    ensures SelfDelegations(es) == 0
  {
    if es != [] {
      NoSelfDelegations(es[..|es| - 1]);
    }
  }

  // ---------- Delegation

  /** The delegates' lists are right, and accounts without tokens have no delegate. */
  ghost predicate Delegated(s: Store) {
    Represented(s) && NoneWhenEmpty(s)
  }

  /** Accounts, owners and token lists are as before; new delegates have none. */
  ghost predicate SameTokens(s: Store, s': Store) {
    && s'.accounts == s.accounts && s'.owners == s.owners
    && (forall d :: d in s.delegates ==> d in s'.delegates && s'.delegates[d].alps == s.delegates[d].alps)
    && (forall d :: d in s'.delegates && d !in s.delegates ==> s'.delegates[d].alps == [])
  }

  lemma SameTokensDelegated(s: Store, s': Store)
    requires Delegated(s) && SameTokens(s, s')
    ensures Delegated(s')
  {
    forall d | d in s'.delegates ensures RepresentedBy(s', d) {
      assert d in s.delegates ==> RepresentedBy(s, d);
      assert forall t :: DelegateIs(s', t, d) <==> DelegateIs(s, t, d);
    }
  }

  lemma TransferDelegated(s: Store, from: Address, to: Address, token: Token)
    requires Owned(s) && Delegated(s) && TokenMoves(s, from, token)
    ensures Delegated(TransferStep(s, from, to, token))
  {
    assert !StaleDelegate(s, to);
    TransferRepresented(s, from, to, token);
    TransferNoneWhenEmpty(s, from, to, token);
  }

  lemma DelegateChangedDelegated(s: Store, delegator: Address, from: Address, to: Address)
    requires Owned(s) && Delegated(s) && Obeys(s, DelegateChanged(delegator, from, to), Holding)
    ensures Delegated(DelegateChangedStep(s, delegator, from, to))
  {
    DelegateChangedRepresented(s, delegator, from, to);
    DelegateChangedNoneWhenEmpty(s, delegator, from, to);
  }

  lemma VotesChangedDelegated(s: Store, id: Address, previous: int, next: int)
    requires Delegated(s)
    ensures Delegated(VotesChangedStep(s, id, previous, next))
  {
    VotesChangedFrame(s, id, previous, next);
    SameTokensDelegated(s, VotesChangedStep(s, id, previous, next));
  }

  lemma TouchedDelegated(s: Store, s': Store, d: Option<Address>)
    requires Delegated(s) && TokensKept(s, s', d)
    ensures Delegated(s')
  {
    SameTokensDelegated(s, s');
  }

  lemma StepDelegated(s: Store, block: nat, e: Event)
    requires Owned(s) && Delegated(s) && Step(s, block, e).Some?
    requires Obeys(s, e, Moves) && Obeys(s, e, Holding)
    ensures Delegated(Step(s, block, e).value)
  {
    match e
    case Transfer(from, to, token) => TransferDelegated(s, from, to, token);
    case DelegateChanged(delegator, from, to) => DelegateChangedDelegated(s, delegator, from, to);
    case DelegateVotesChanged(id, previous, next) => VotesChangedDelegated(s, id, previous, next);
    case _ =>
      GovernanceStepFrame(s, block, e);
      TouchedDelegated(s, Step(s, block, e).value, Touched(e));
  }

  /** A run of transfers between two accounts and of holders changing delegates. */
  ghost predicate TokenRules(es: seq<Stamped>) {
    Abides(es, Moves) && Abides(es, Distinct) && Abides(es, Holding)
  }

  lemma {:induction false} RunDelegated(es: seq<Stamped>)
    requires TokenRules(es) && Run(es).Some?
    ensures Owned(Run(es).value) && Delegated(Run(es).value)
  {
    if es != [] {
      var init, last := es[..|es| - 1], es[|es| - 1];
      RunDelegated(init);
      RunOwners(es);
      StepDelegated(Run(init).value, last.block, last.event);
    }
  }

  /** Each token is in exactly one delegate's list, exactly once: the list of its owner's delegate.
      An account has no delegate exactly when it holds nothing. */
  lemma DelegationPartition(es: seq<Stamped>, t: Token)
    requires TokenRules(es) && Run(es).Some?
    ensures var s := Run(es).value;
      && (t in s.owners ==>
           var owner := s.owners[t];
           && owner in s.accounts && s.accounts[owner].delegate.Some?
           && var d := s.accounts[owner].delegate.value;
             && d in s.delegates && multiset(s.delegates[d].alps)[t] == 1
             && forall e :: e in s.delegates && e != d ==> t !in s.delegates[e].alps)
      && (t !in s.owners ==> forall e :: e in s.delegates ==> t !in s.delegates[e].alps)
      && (forall a :: a in s.accounts ==> (s.accounts[a].delegate == None <==> s.accounts[a].balance == 0))
      && Sum(RepresentedMap(s.delegates)) == 0
  {
    RunDelegated(es);
    RepresentedSum(es);
    NoSelfDelegations(es);
    TokenPartition(Run(es).value, t);
  }

  lemma TokenPartition(s: Store, t: Token)
    requires Owned(s) && Delegated(s)
    ensures t in s.owners ==>
      var owner := s.owners[t];
      && owner in s.accounts && s.accounts[owner].delegate.Some?
      && var d := s.accounts[owner].delegate.value;
        && d in s.delegates && multiset(s.delegates[d].alps)[t] == 1
        && forall e :: e in s.delegates && e != d ==> t !in s.delegates[e].alps
    ensures t !in s.owners ==> forall e :: e in s.delegates ==> t !in s.delegates[e].alps
    ensures forall a :: a in s.accounts ==> (s.accounts[a].delegate == None <==> s.accounts[a].balance == 0)
  {
    forall a | a in s.accounts ensures s.accounts[a].delegate == None <==> s.accounts[a].balance == 0 {
      assert OwnedBy(s, a);
    }
    forall d | d in s.delegates ensures t in s.delegates[d].alps <==> DelegateIs(s, t, d) {
      assert RepresentedBy(s, d);
    }
    if t in s.owners {
      var a := s.owners[t];
      assert OwnedBy(s, a) && t in s.accounts[a].alps;
      var d := s.accounts[a].delegate.value;
      assert RepresentedBy(s, d) && DelegateIs(s, t, d);
      NoDupOnce(s.delegates[d].alps, t);
    }
  }

  lemma {:induction false} NoDupOnce<T>(s: seq<T>, x: T)
    requires NoDup(s)
    ensures multiset(s)[x] == if x in s then 1 else 0
  {
    if s != [] {
      assert s == [s[0]] + s[1..];
      NoDupOnce(s[1..], x);
    }
  }

  // ---------- Delegates without count

  /** The event creates a delegate that `totalDelegates` misses: the handler saves an older copy of the
      governance entity over its count. */
  predicate LosesCount(s: Store, e: Event) {
    match e
    case Transfer(_, to, _) => NewDelegate(s, GivenTo(s, to))
    case DelegateVotesChanged(id, _, _) => NewDelegate(s, id)
    case _ => false
  }

  /** Governance events count the delegate they create. */
  lemma GovernanceStepTotal(s: Store, block: nat, e: Event)
    requires IsGovernanceEvent(e) && Step(s, block, e).Some?
    ensures Step(s, block, e).value.Gov().totalDelegates ==
      s.Gov().totalDelegates + One(Touched(e).Some? && NewDelegate(s, Touched(e).value))
  {
  }

  lemma GovernanceUncounted(s: Store, block: nat, e: Event)
    requires IsGovernanceEvent(e) && Step(s, block, e).Some?
    ensures Uncounted(Step(s, block, e).value) == Uncounted(s)
  {
    GovernanceStepFrame(s, block, e);
    GovernanceStepTotal(s, block, e);
    CountedOne(s, Step(s, block, e).value, Touched(e));
  }

  lemma CountedOne(s: Store, s': Store, d: Option<Address>)
    requires s'.delegates == WithTouched(s.delegates, d)
    requires s'.Gov().totalDelegates == s.Gov().totalDelegates + One(d.Some? && NewDelegate(s, d.value))
    ensures Uncounted(s') == Uncounted(s)
  {
    if d.Some? {
      WithDelegateKeys(s.delegates, d.value);
      CountableMore(s.delegates.Keys, d.value);
    }
  }

  lemma StepUncounted(s: Store, block: nat, e: Event)
    requires Owned(s) && Represented(s) && Step(s, block, e).Some?
    ensures Uncounted(Step(s, block, e).value) == Uncounted(s) + One(LosesCount(s, e))
  {
    match e
    case Transfer(from, to, token) => TransferUncounted(s, from, to, token);
    case DelegateChanged(delegator, from, to) => DelegateChangedUncounted(s, delegator, from, to);
    case DelegateVotesChanged(id, previous, next) => VotesChangedUncounted(s, id, previous, next);
    case _ => GovernanceUncounted(s, block, e);
  }

  /** How many events of the run lose a count. */
  function LostCounts(es: seq<Stamped>): int {
    if es == [] then 0
    else
      var init := es[..|es| - 1];
      LostCounts(init) + One(Run(init).Some? && LosesCount(Run(init).value, es[|es| - 1].event))
  }

  /** `totalDelegates` is short of the number of delegates, the zero address aside, by exactly the
      lost counts. */
  lemma {:induction false} DelegatesUncounted(es: seq<Stamped>)
    requires TokenRules(es) && Run(es).Some?
    ensures |Countable(Run(es).value.delegates.Keys)| == Run(es).value.Gov().totalDelegates + LostCounts(es)
  {
    if es == [] {
      assert Countable(EMPTY.delegates.Keys) == {};
    } else {
      var init, last := es[..|es| - 1], es[|es| - 1];
      DelegatesUncounted(init);
      RunDelegated(init);
      StepUncounted(Run(init).value, last.block, last.event);
    }
  }

  // ---------- Receipts and votes

  /** How many transfers of the run went to the account. */
  function ReceiptsOf(es: seq<Stamped>, a: Address): nat {
    if es == [] then 0
    else
      var e := es[|es| - 1].event;
      ReceiptsOf(es[..|es| - 1], a) + if e.Transfer? && e.to == a then 1 else 0
  }

  lemma StepReceipts(s: Store, block: nat, e: Event, a: Address)
    requires Step(s, block, e).Some?
    ensures AccountOf(Step(s, block, e).value, a).totalHeld ==
      AccountOf(s, a).totalHeld + if e.Transfer? && e.to == a then 1 else 0
  {
    if e.Transfer? {
      TransferMoves(s, e.from, e.to, e.token);
    }
  }

  /** `totalTokensHeldRaw` counts an account's receipts, on every run, well-formed or not. */
  lemma {:induction false} TotalHeldCountsReceipts(es: seq<Stamped>, a: Address)
    requires Run(es).Some?
    ensures AccountOf(Run(es).value, a).totalHeld == ReceiptsOf(es, a)
  {
    if es != [] {
      var init, last := es[..|es| - 1], es[|es| - 1];
      TotalHeldCountsReceipts(init, a);
      StepReceipts(Run(init).value, last.block, last.event, a);
    }
  }

  /** The list of a delegate, or the empty list of one not seen yet, is what it represents. */
  lemma ListIsRepresented(s: Store, d: Address)
    requires Owned(s) && Represented(s)
    ensures var alps := s.TouchDelegate(d).delegates[d].alps;
      NoDup(alps) && forall t :: t in alps <==> DelegateIs(s, t, d)
  {
    if d in s.delegates {
      assert RepresentedBy(s, d);
    }
  }

  lemma VoteStores(s: Store, block: nat, e: Event)
    requires Owned(s) && Represented(s) && e.VoteCast? && Step(s, block, e).Some?
    ensures var s' := Step(s, block, e).value;
      && (e.voter, e.id) in s'.votes && NoDup(s'.votes[(e.voter, e.id)].alps)
      && forall t :: t in s'.votes[(e.voter, e.id)].alps <==> DelegateIs(s, t, e.voter)
  {
    ListIsRepresented(s, e.voter);
    VoteVoted(s, e.voter, e.id, e.support, e.votes, block);
  }

  /** A vote stores exactly the tokens that its voter represents at that moment, each once. */
  lemma VoteStoresRepresented(es: seq<Stamped>)
    requires es != [] && TokenRules(es[..|es| - 1]) && Run(es).Some? && es[|es| - 1].event.VoteCast?
    ensures var before, e := Run(es[..|es| - 1]), es[|es| - 1].event;
      && before.Some? && (e.voter, e.id) in Run(es).value.votes
      && var alps := Run(es).value.votes[(e.voter, e.id)].alps;
        && NoDup(alps)
        && forall t :: t in alps <==> DelegateIs(before.value, t, e.voter)
  {
    var init, last := es[..|es| - 1], es[|es| - 1];
    RunDelegated(init);
    VoteStores(Run(init).value, last.block, last.event);
  }
}
