/** What the ERC-721 handlers keep: the indexes of tokens by owner and by delegate. */
module TokenIndex {
  import opened Sequences
  import opened Store
  import opened Wrappers

  /** The account lists exactly the tokens it owns, each once, and its balance is their number. */
  ghost predicate OwnedBy(s: Store, a: Address)
    requires a in s.accounts
  {
    && NoDup(s.accounts[a].alps)
    && s.accounts[a].balance == |s.accounts[a].alps|
    && forall t :: t in s.accounts[a].alps <==> (t in s.owners && s.owners[t] == a)
  }

  ghost predicate Owned(s: Store) {
    && (forall a :: a in s.accounts ==> OwnedBy(s, a))
    && (forall t :: t in s.owners ==> s.owners[t] in s.accounts)
  }

  ghost predicate DelegateIs(s: Store, t: Token, d: Address) {
    t in s.owners && s.owners[t] in s.accounts && s.accounts[s.owners[t]].delegate == Some(d)
  }

  /** The delegate represents exactly the tokens of the accounts that name it, each once. */
  ghost predicate RepresentedBy(s: Store, d: Address)
    requires d in s.delegates
  {
    && NoDup(s.delegates[d].alps)
    && forall t :: t in s.delegates[d].alps <==> DelegateIs(s, t, d)
  }

  /** Every account that holds tokens has a delegate, and every delegate is known. */
  ghost predicate Represented(s: Store) {
    && (forall a :: a in s.accounts && s.accounts[a].delegate.Some? ==> s.accounts[a].delegate.value in s.delegates)
    && (forall a :: a in s.accounts && s.accounts[a].balance > 0 ==> s.accounts[a].delegate.Some?)
    && (forall d :: d in s.delegates ==> RepresentedBy(s, d))
  }

  /** ERC-721: a mint creates a fresh token, any other transfer moves a token of the sender. */
  ghost predicate TokenMoves(s: Store, from: Address, token: Token) {
    if from == ZERO then token !in s.owners else token in s.owners && s.owners[token] == from
  }

  function AccountOf(s: Store, a: Address): Account {
    if a in s.accounts then s.accounts[a] else NEW_ACCOUNT
  }

  function AlpsOf(s: Store, d: Address): seq<Token> {
    if d in s.delegates then s.delegates[d].alps else []
  }

  /** Accounts and owners after a transfer. Both accounts were read before either was written. */
  ghost predicate Moved(s: Store, s': Store, from: Address, to: Address, token: Token) {
    && s'.owners == s.owners[token := to]
    && s'.accounts == s.accounts
      [from := if from == ZERO then AccountOf(s, from) else Sent(AccountOf(s, from), token)]
      [to := Received(to, AccountOf(s, to), token)]
  }

  lemma TransferMoves(s: Store, from: Address, to: Address, token: Token)
    ensures Moved(s, TransferStep(s, from, to, token), from, to, token)
  {
    var s0 := s.TouchAccount(from).TouchAccount(to);
    assert s0.accounts[from] == AccountOf(s, from) && s0.accounts[to] == AccountOf(s, to);
  }

  /** Whether the sender's delegate is d, so that its list is filtered. */
  predicate TakesFrom(from: Address, f: Account, d: Address) {
    from != ZERO && f.delegate == Some(d)
  }

  /** The token list of delegate d after a transfer. */
  ghost predicate Relisted(s: Store, s': Store, from: Address, to: Address, token: Token, d: Address) {
    var f, given := AccountOf(s, from), AccountOf(s, to).delegate.GetOr(to);
    var kept := if TakesFrom(from, f, d) then Without(AlpsOf(s, d), [token]) else AlpsOf(s, d);
    && (d in s'.delegates <==> (d in s.delegates || TakesFrom(from, f, d) || d == given))
    && AlpsOf(s', d) == if d == given then kept + [token] else kept
  }

  lemma TransferRelists(s: Store, from: Address, to: Address, token: Token, d: Address)
    ensures Relisted(s, TransferStep(s, from, to, token), from, to, token, d)
  {
    var s0 := s.TouchAccount(from).TouchAccount(to);
    assert s0.accounts[from] == AccountOf(s, from) && s0.accounts[to] == AccountOf(s, to);
  }

  lemma MovedOwnedBy(s: Store, s': Store, from: Address, to: Address, token: Token, a: Address)
    requires Owned(s) && TokenMoves(s, from, token) && Moved(s, s', from, to, token)
    requires (from != to || from == ZERO) && a in s'.accounts
    ensures OwnedBy(s', a)
  {
    var old' := AccountOf(s, a);
    assert NoDup(old'.alps) && old'.balance == |old'.alps|;
    assert forall t :: t in old'.alps <==> (t in s.owners && s.owners[t] == a);
    if a == to {
      NoDupAppend(old'.alps, [token]);
    } else if a == from && from != ZERO {
      WithoutOne(old'.alps, token);
    }
  }

  /** Transfers keep the ownership index, except that a self-transfer lists the token twice. */
  lemma TransferOwned(s: Store, from: Address, to: Address, token: Token)
    requires Owned(s) && TokenMoves(s, from, token)
    ensures Owned(TransferStep(s, from, to, token)) <==> from != to || from == ZERO
  {
    TransferMoves(s, from, to, token);
    MovedOwned(s, TransferStep(s, from, to, token), from, to, token);
  }

  lemma MovedOwned(s: Store, s': Store, from: Address, to: Address, token: Token)
    requires Owned(s) && TokenMoves(s, from, token) && Moved(s, s', from, to, token)
    ensures Owned(s') <==> from != to || from == ZERO
  {
    if from != to || from == ZERO {
      forall a | a in s'.accounts ensures OwnedBy(s', a) {
        MovedOwnedBy(s, s', from, to, token, a);
      }
    } else {
      var alps := AccountOf(s, to).alps;
      assert OwnedBy(s, to) && token in alps;
      var i :| 0 <= i < |alps| && alps[i] == token;
      assert s'.accounts[to].alps[i] == s'.accounts[to].alps[|alps|];
      assert !OwnedBy(s', to);
    }
  }

  /** The receiver holds nothing and has a delegate other than itself on record. The transfer adds
      the token to that delegate's list and then records the receiver as its own delegate. */
  predicate StaleDelegate(s: Store, to: Address) {
    var r := AccountOf(s, to);
    r.balance == 0 && r.delegate.Some? && r.delegate.value != to
  }

  lemma TwoMembers(s: seq<Token>, t: Token, u: Token)
    requires t in s && u in s && t != u
    ensures |s| >= 2
  {
  }

  lemma MovedDelegateIs(s: Store, s': Store, from: Address, to: Address, token: Token, t: Token, d: Address)
    requires Owned(s) && TokenMoves(s, from, token) && Moved(s, s', from, to, token)
    ensures DelegateIs(s', t, d) <==>
      if t == token then Received(to, AccountOf(s, to), token).delegate == Some(d) else DelegateIs(s, t, d)
  {
    if t != token && t in s.owners {
      var a := s.owners[t];
      assert OwnedBy(s, a) && t in s.accounts[a].alps;
      if a == from && from != ZERO {
        TwoMembers(s.accounts[a].alps, t, token);
      }
    }
  }

  lemma RelistedRepresentedBy(s: Store, s': Store, from: Address, to: Address, token: Token, d: Address)
    requires Owned(s) && Represented(s) && TokenMoves(s, from, token) && !StaleDelegate(s, to)
    requires Moved(s, s', from, to, token) && Relisted(s, s', from, to, token, d) && d in s'.delegates
    ensures RepresentedBy(s', d)
  {
    var alps := AlpsOf(s, d);
    var kept := if TakesFrom(from, AccountOf(s, from), d) then Without(alps, [token]) else alps;
    assert NoDup(alps) && forall t :: t in alps <==> (d in s.delegates && DelegateIs(s, t, d));
    assert forall t :: DelegateIs(s, t, d) ==> d in s.delegates;
    assert token !in kept;
    NoDupAppend(kept, [token]);
    forall t ensures t in s'.delegates[d].alps <==> DelegateIs(s', t, d) {
      MovedDelegateIs(s, s', from, to, token, t, d);
    }
  }

  lemma MovedRepresented(s: Store, s': Store, from: Address, to: Address, token: Token)
    requires Owned(s) && Represented(s) && TokenMoves(s, from, token) && !StaleDelegate(s, to)
    requires Moved(s, s', from, to, token) && forall d :: Relisted(s, s', from, to, token, d)
    ensures Represented(s')
  {
    forall d | d in s'.delegates ensures RepresentedBy(s', d) {
      assert Relisted(s, s', from, to, token, d);
      RelistedRepresentedBy(s, s', from, to, token, d);
    }
    forall a | a in s'.accounts
      ensures s'.accounts[a].delegate.Some? ==> s'.accounts[a].delegate.value in s'.delegates
      ensures s'.accounts[a].balance > 0 ==> s'.accounts[a].delegate.Some?
    {
      assert a in s.accounts ==> OwnedBy(s, a);
      if s'.accounts[a].delegate.Some? {
        assert Relisted(s, s', from, to, token, s'.accounts[a].delegate.value);
      }
    }
  }

  /** Transfers, to the sender itself too, keep the delegation index exactly when the receiver has no
      stale delegate. */
  lemma TransferRepresented(s: Store, from: Address, to: Address, token: Token)
    requires Owned(s) && Represented(s) && TokenMoves(s, from, token)
    ensures Represented(TransferStep(s, from, to, token)) <==> !StaleDelegate(s, to)
  {
    var s' := TransferStep(s, from, to, token);
    TransferMoves(s, from, to, token);
    forall d ensures Relisted(s, s', from, to, token, d) {
      TransferRelists(s, from, to, token, d);
    }
    if StaleDelegate(s, to) {
      StaleBreaks(s, s', from, to, token);
    } else {
      MovedRepresented(s, s', from, to, token);
    }
  }

  lemma StaleBreaks(s: Store, s': Store, from: Address, to: Address, token: Token)
    requires Owned(s) && TokenMoves(s, from, token) && StaleDelegate(s, to)
    requires Moved(s, s', from, to, token) && forall d :: Relisted(s, s', from, to, token, d)
    ensures !Represented(s')
  {
    var given := AccountOf(s, to).delegate.value;
    assert Relisted(s, s', from, to, token, given);
    MovedDelegateIs(s, s', from, to, token, token, given);
    var alps := s'.delegates[given].alps;
    assert alps[|alps| - 1] == token && !DelegateIs(s', token, given);
    assert !RepresentedBy(s', given);
  }

  // ---------- DelegateChanged

  /** Accounts and delegates after a DelegateChanged event. The new delegate's saved copy is older
      than the previous delegate's, so it wins where both are the same. */
  ghost predicate Redelegated(s: Store, s': Store, delegator: Address, from: Address, to: Address) {
    var a := AccountOf(s, delegator);
    && s'.owners == s.owners
    && s'.accounts == s.accounts[delegator := a.(delegate := Some(to))]
    && (forall d :: d in s'.delegates <==> (d in s.delegates || d == from || d == to))
    && (forall d {:trigger d in s.delegates} {:trigger d in s'.delegates} :: AlpsOf(s', d) ==
          if d == to then AlpsOf(s, d) + a.alps
          else if d == from then Without(AlpsOf(s, d), a.alps) else AlpsOf(s, d))
  }

  lemma DelegateChangedRedelegates(s: Store, delegator: Address, from: Address, to: Address)
    ensures Redelegated(s, DelegateChangedStep(s, delegator, from, to), delegator, from, to)
  {
    var s0 := s.TouchAccount(delegator).TouchDelegate(from).TouchDelegate(to);
    assert s0.accounts[delegator] == AccountOf(s, delegator);
    assert s0.delegates[from].alps == AlpsOf(s, from) && s0.delegates[to].alps == AlpsOf(s, to);
    assert forall d :: AlpsOf(s0, d) == AlpsOf(s, d);
  }

  lemma DelegateChangedOwned(s: Store, delegator: Address, from: Address, to: Address)
    requires Owned(s)
    ensures Owned(DelegateChangedStep(s, delegator, from, to))
  {
    var s' := DelegateChangedStep(s, delegator, from, to);
    DelegateChangedRedelegates(s, delegator, from, to);
    forall a | a in s'.accounts ensures OwnedBy(s', a) {
      assert a in s.accounts ==> OwnedBy(s, a);
    }
  }

  /** Which delegate a token has afterwards. */
  lemma RedelegatedDelegateIs(s: Store, s': Store, delegator: Address, from: Address, to: Address, t: Token, d: Address)
    requires Owned(s) && Redelegated(s, s', delegator, from, to)
    ensures DelegateIs(s', t, d) <==> if t in AccountOf(s, delegator).alps then d == to else DelegateIs(s, t, d)
  {
    assert delegator in s.accounts ==> OwnedBy(s, delegator);
  }

  lemma RedelegatedList(s: Store, s': Store, delegator: Address, from: Address, to: Address, d: Address)
    requires Owned(s) && Represented(s) && Redelegated(s, s', delegator, from, to) && d in s'.delegates
    requires AccountOf(s, delegator).alps == [] || (from != to && AccountOf(s, delegator).delegate == Some(from))
    ensures RepresentedBy(s', d)
  {
    var moved, alps := AccountOf(s, delegator).alps, AlpsOf(s, d);
    assert delegator in s.accounts ==> OwnedBy(s, delegator);
    assert d in s.delegates ==> RepresentedBy(s, d);
    assert s'.delegates[d].alps == AlpsOf(s', d);
    assert forall t :: t in moved ==> DelegateIs(s, t, from);
    forall t ensures t in alps <==> DelegateIs(s, t, d) {
      assert DelegateIs(s, t, d) ==> s.accounts[s.owners[t]].delegate.value in s.delegates;
    }
    if d == to {
      assert forall t :: t in moved ==> !DelegateIs(s, t, d);
      NoDupAppend(alps, moved);
    }
    forall t ensures t in s'.delegates[d].alps <==> DelegateIs(s', t, d) {
      RedelegatedDelegateIs(s, s', delegator, from, to, t, d);
    }
  }

  lemma RedelegatedRepresented(s: Store, s': Store, delegator: Address, from: Address, to: Address)
    requires Owned(s) && Represented(s) && Redelegated(s, s', delegator, from, to)
    requires AccountOf(s, delegator).alps == [] || (from != to && AccountOf(s, delegator).delegate == Some(from))
    ensures Represented(s')
  {
    forall d | d in s'.delegates ensures RepresentedBy(s', d) {
      RedelegatedList(s, s', delegator, from, to, d);
    }
  }

  lemma RedelegatedBreaks(s: Store, s': Store, delegator: Address, from: Address, to: Address)
    requires Owned(s) && Represented(s) && Redelegated(s, s', delegator, from, to)
    requires AccountOf(s, delegator).alps != [] && (from == to || AccountOf(s, delegator).delegate != Some(from))
    ensures !Represented(s')
  {
    var a := AccountOf(s, delegator);
    var t := a.alps[0];
    assert OwnedBy(s, delegator) && t in a.alps;
    var d := a.delegate.value;
    assert RepresentedBy(s, d) && DelegateIs(s, t, d) && t in AlpsOf(s, d);
    if d == to {
      var old', alps := AlpsOf(s, d), s'.delegates[d].alps;
      assert alps == old' + a.alps;
      var i :| 0 <= i < |old'| && old'[i] == t;
      assert alps[i] == alps[|old'|];
      assert !RepresentedBy(s', d);
    } else {
      assert t in s'.delegates[d].alps && !DelegateIs(s', t, d);
      assert !RepresentedBy(s', d);
    }
  }

  /** Re-delegation keeps the delegation index exactly when the delegator holds nothing, or the event
      moves it from its recorded delegate to another one. */
  lemma DelegateChangedRepresented(s: Store, delegator: Address, from: Address, to: Address)
    requires Owned(s) && Represented(s)
    ensures Represented(DelegateChangedStep(s, delegator, from, to)) <==>
      AccountOf(s, delegator).alps == [] || (from != to && AccountOf(s, delegator).delegate == Some(from))
  {
    var s' := DelegateChangedStep(s, delegator, from, to);
    DelegateChangedRedelegates(s, delegator, from, to);
    if AccountOf(s, delegator).alps == [] || (from != to && AccountOf(s, delegator).delegate == Some(from)) {
      RedelegatedRepresented(s, s', delegator, from, to);
    } else {
      RedelegatedBreaks(s, s', delegator, from, to);
    }
  }

  // ---------- Accounts without tokens

  /** An account that holds nothing has no delegate; so no delegate is ever stale. */
  ghost predicate NoneWhenEmpty(s: Store) {
    forall a :: a in s.accounts && s.accounts[a].balance == 0 ==> s.accounts[a].delegate == None
  }

  lemma TransferNoneWhenEmpty(s: Store, from: Address, to: Address, token: Token)
    requires Owned(s) && NoneWhenEmpty(s)
    ensures NoneWhenEmpty(TransferStep(s, from, to, token))
  {
    TransferMoves(s, from, to, token);
    assert to in s.accounts ==> OwnedBy(s, to);
  }

  /** A delegate recorded for an account without tokens is exactly what spoils this. */
  lemma DelegateChangedNoneWhenEmpty(s: Store, delegator: Address, from: Address, to: Address)
    requires NoneWhenEmpty(s)
    ensures NoneWhenEmpty(DelegateChangedStep(s, delegator, from, to)) <==> AccountOf(s, delegator).balance != 0
  {
    DelegateChangedRedelegates(s, delegator, from, to);
    var s' := DelegateChangedStep(s, delegator, from, to);
    assert s'.accounts[delegator].delegate == Some(to);
  }

  /** A run that breaks the delegation index: an account without tokens delegates, then receives one. */
  lemma StaleDelegateExample()
    ensures var s := TransferStep(DelegateChangedStep(EMPTY, 5, 5, 7), ZERO, 5, 1);
      && 5 in s.accounts && s.accounts[5].delegate == Some(5)
      && 7 in s.delegates && 1 in s.delegates[7].alps
  {
    DelegateChangedRedelegates(EMPTY, 5, 5, 7);
    var s := DelegateChangedStep(EMPTY, 5, 5, 7);
    assert s.accounts[5] == Account(0, 0, [], Some(7));
    TransferMoves(s, ZERO, 5, 1);
    TransferRelists(s, ZERO, 5, 1, 7);
    assert AlpsOf(TransferStep(s, ZERO, 5, 1), 7) == AlpsOf(s, 7) + [1];
  }

  /** An account that gave its last token away has no delegate in the store. If it then receives a
      token and leaves a delegate chosen earlier, the token is in two lists. */
  lemma ForgottenDelegate(s: Store, sender: Address, a: Address, token: Token, from: Address, to: Address)
    requires AccountOf(s, a).balance == 0 && AccountOf(s, a).alps == [] && AccountOf(s, a).delegate == None
    requires a != sender && a != from && a != to
    ensures var s' := DelegateChangedStep(TransferStep(s, sender, a, token), a, from, to);
      && a in s'.accounts && s'.accounts[a].delegate == Some(to)
      && to in s'.delegates && token in s'.delegates[to].alps
      && a in s'.delegates && token in s'.delegates[a].alps
  {
    var got := TransferStep(s, sender, a, token);
    TransferMoves(s, sender, a, token);
    TransferRelists(s, sender, a, token, a);
    ForgottenAfter(got, DelegateChangedStep(got, a, from, to), a, token, from, to);
  }

  lemma ForgottenAfter(got: Store, s': Store, a: Address, token: Token, from: Address, to: Address)
    requires s' == DelegateChangedStep(got, a, from, to) && a != from && a != to
    requires AccountOf(got, a).alps == [token] && AlpsOf(got, a) != []
    requires AlpsOf(got, a)[|AlpsOf(got, a)| - 1] == token
    ensures a in s'.accounts && s'.accounts[a].delegate == Some(to)
    ensures to in s'.delegates && token in s'.delegates[to].alps
    ensures a in s'.delegates && token in s'.delegates[a].alps
  {
    DelegateChangedRedelegates(got, a, from, to);
    assert AlpsOf(s', a) == AlpsOf(got, a) && AlpsOf(s', to) == AlpsOf(got, to) + [token];
    assert AlpsOf(s', to)[|AlpsOf(got, to)|] == token;
  }

  /** Account 5 in such a state: it is minted a token, delegates to 7, and gives the token to 6. */
  lemma ForgottenDelegateExample()
    ensures var s := TransferStep(DelegateChangedStep(TransferStep(EMPTY, ZERO, 5, 1), 5, 5, 7), 5, 6, 1);
      var s' := DelegateChangedStep(TransferStep(s, 6, 5, 1), 5, 7, 8);
      && 5 in s'.accounts && s'.accounts[5].delegate == Some(8)
      && 8 in s'.delegates && 1 in s'.delegates[8].alps
      && 5 in s'.delegates && 1 in s'.delegates[5].alps
  {
    var minted := TransferStep(EMPTY, ZERO, 5, 1);
    TransferMoves(EMPTY, ZERO, 5, 1);
    GivenAway(minted, DelegateChangedStep(minted, 5, 5, 7), 1);
    ForgottenDelegate(TransferStep(DelegateChangedStep(minted, 5, 5, 7), 5, 6, 1), 6, 5, 1, 7, 8);
  }

  lemma GivenAway(s: Store, s': Store, token: Token)
    requires AccountOf(s, 5).balance == 1 && AccountOf(s, 5).alps == [token]
    requires s' == DelegateChangedStep(s, 5, 5, 7)
    ensures var a := AccountOf(TransferStep(s', 5, 6, token), 5);
      a.balance == 0 && a.alps == [] && a.delegate == None
  {
    DelegateChangedRedelegates(s, 5, 5, 7);
    TransferMoves(s', 5, 6, token);
    assert Without([token], [token]) == [];
  }
}
