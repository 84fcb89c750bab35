/** The client's state of the current auction (packages/nouns-webapp/src/state/slices/auction.ts).
    Big numbers are kept as their value; None stands for the empty bidder. */
module AuctionState {
  import opened Wrappers

  datatype Bid = Bid(alpId: nat, sender: nat, value: nat, extended: bool, hash: nat, timestamp: nat)

  datatype Auction = Auction(
    amount: nat, bidder: Option<nat>, startTime: nat, endTime: nat, alpId: nat, settled: bool)

  datatype State = State(active: Option<Auction>, bids: seq<Bid>)

  /** `reduce` from the left: of two equal values the later one in the list stays. */
  function MaxBid(bids: seq<Bid>): Bid
    requires bids != []
  {
    if |bids| == 1 then bids[0]
    else
      var prev, current := MaxBid(bids[..|bids| - 1]), bids[|bids| - 1];
      if prev.value > current.value then prev else current
  }

  predicate ContainsBid(bids: seq<Bid>, bid: Bid) {
    exists i :: 0 <= i < |bids| && bids[i].hash == bid.hash
  }

  predicate IsActive(s: State, alpId: nat) {
    s.active.Some? && s.active.value.alpId == alpId
  }

  function AppendBid(s: State, bid: Bid): State {
    if !IsActive(s, bid.alpId) || ContainsBid(s.bids, bid) then s
    else
      var bids := [bid] + s.bids;
      var top := MaxBid(bids);
      State(Some(s.active.value.(amount := top.value, bidder := Some(top.sender))), bids)
  }

  /** What can be dispatched to the slice. */
  datatype Action =
    | Create(alpId: nat, startTime: nat, endTime: nat)
    | Load(auction: Auction)
    | Place(bid: Bid)
    | Settle(alpId: nat, winner: nat, amount: nat)
    | Extend(alpId: nat, endTime: nat)

  function Reduce(s: State, a: Action): State {
    match a
    case Create(alpId, startTime, endTime) => State(Some(Auction(0, None, startTime, endTime, alpId, false)), [])
    case Load(auction) => s.(active := Some(auction))
    case Place(bid) => AppendBid(s, bid)
    case Settle(alpId, winner, amount) =>
      if !IsActive(s, alpId) then s
      else s.(active := Some(s.active.value.(settled := true, bidder := Some(winner), amount := amount)))
    case Extend(alpId, endTime) =>
      if !IsActive(s, alpId) then s else s.(active := Some(s.active.value.(endTime := endTime)))
  }

  function Run(s: State, actions: seq<Action>): State {
    if actions == [] then s else Reduce(Run(s, actions[..|actions| - 1]), actions[|actions| - 1])
  }

  /** Every bid held is a bid on the active auction. */
  ghost predicate OwnBids(s: State) {
    forall b :: b in s.bids ==> IsActive(s, b.alpId)
  }

  /** The reducers. */
  class AuctionSlice {
    var activeAuction: Option<Auction>
    var bids: seq<Bid>

    function Value(): State
      reads this
    {
      State(activeAuction, bids)
    }

    constructor ()
      ensures Value() == State(None, [])
    {
      activeAuction, bids := None, [];
    }

    method SetActiveAuction(alpId: nat, startTime: nat, endTime: nat)
      modifies this
      ensures Value() == Reduce(old(Value()), Create(alpId, startTime, endTime))
      ensures OwnBids(Value())
    {
      activeAuction := Some(Auction(0, None, startTime, endTime, alpId, false));
      bids := [];
    }

    /** Keeps whatever bids were there, also those of another auction. */
    method SetFullAuction(auction: Auction)
      modifies this
      ensures Value() == Reduce(old(Value()), Load(auction))
      ensures OwnBids(Value()) <==> forall b :: b in old(bids) ==> b.alpId == auction.alpId
    {
      activeAuction := Some(auction);
    }

    method MaxOf(list: seq<Bid>) returns (top: Bid)
      requires list != []
      ensures top == MaxBid(list)
    {
      top := list[0];
      for i := 1 to |list|
        invariant top == MaxBid(list[..i])
      {
        assert list[..i + 1][..i] == list[..i];
        if !(top.value > list[i].value) {
          top := list[i];
        }
      }
      assert list[..|list|] == list;
    }

    method Append(bid: Bid)
      modifies this
      ensures Value() == Reduce(old(Value()), Place(bid))
    {
      if !(activeAuction.Some? && activeAuction.value.alpId == bid.alpId) { return; }
      if ContainsBid(bids, bid) { return; }
      bids := [bid] + bids;
      var top := MaxOf(bids);
      activeAuction := Some(activeAuction.value.(amount := top.value));
      activeAuction := Some(activeAuction.value.(bidder := Some(top.sender)));
    }

    method SetAuctionSettled(alpId: nat, winner: nat, amount: nat)
      modifies this
      ensures Value() == Reduce(old(Value()), Settle(alpId, winner, amount))
      ensures OwnBids(old(Value())) ==> OwnBids(Value())
    {
      if !(activeAuction.Some? && activeAuction.value.alpId == alpId) { return; }
      activeAuction := Some(activeAuction.value.(settled := true, bidder := Some(winner), amount := amount));
    }

    method SetAuctionExtended(alpId: nat, endTime: nat)
      modifies this
      ensures Value() == Reduce(old(Value()), Extend(alpId, endTime))
      ensures OwnBids(old(Value())) ==> OwnBids(Value())
    {
      if !(activeAuction.Some? && activeAuction.value.alpId == alpId) { return; }
      activeAuction := Some(activeAuction.value.(endTime := endTime));
    }
  }

  /** The bids placed on the auction. */
  ghost function Placed(alpId: nat, actions: seq<Action>): set<Bid> {
    set a | a in actions && a.Place? && a.bid.alpId == alpId :: a.bid
  }

  ghost predicate Settled(alpId: nat, actions: seq<Action>) {
    exists a :: a in actions && a.Settle? && a.alpId == alpId
  }

  /** The end the last extension of the auction gives it. */
  function LastEnd(start: Auction, actions: seq<Action>): nat {
    if actions == [] then start.endTime
    else
      var last := actions[|actions| - 1];
      if last.Extend? && last.alpId == start.alpId then last.endTime else LastEnd(start, actions[..|actions| - 1])
  }

  /** A transaction carries one bid. */
  ghost predicate HashDetermines(bids: set<Bid>) {
    forall b, c :: b in bids && c in bids && b.hash == c.hash ==> b == c
  }

  /** The auction house accepts only higher bids, so no two have the same value. */
  ghost predicate DistinctValues(bids: set<Bid>) {
    forall b, c :: b in bids && c in bids && b.value == c.value ==> b == c
  }

  ghost predicate Highest(top: Bid, bids: set<Bid>) {
    top in bids && forall b :: b in bids ==> b.value <= top.value
  }

  /** A settlement with a highest bid or, without bids, for nothing and to the account `house`. */
  ghost predicate Fair(winner: nat, amount: nat, bids: set<Bid>, house: nat) {
    if bids == {} then winner == house && amount == 0
    else exists top :: Highest(top, bids) && winner == top.sender && amount == top.value
  }

  ghost predicate Truthful(alpId: nat, actions: seq<Action>, house: nat) {
    forall winner, amount :: Settle(alpId, winner, amount) in actions ==>
      Fair(winner, amount, Placed(alpId, actions), house)
  }

  /** No action replaces the auction. */
  ghost predicate Updates(actions: seq<Action>) {
    forall a :: a in actions ==> !a.Create? && !a.Load?
  }

  /** The bid at k has the highest value, and no later one has it too. */
  ghost predicate LastGreatest(bids: seq<Bid>, k: int) {
    && 0 <= k < |bids|
    && (forall i :: 0 <= i < |bids| ==> bids[i].value <= bids[k].value)
    && (forall i :: k < i < |bids| ==> bids[i].value < bids[k].value)
  }

  lemma LastGreatestMore(init: seq<Bid>, last: Bid, k: int)
    requires LastGreatest(init, k)
    ensures LastGreatest(init + [last], if init[k].value > last.value then k else |init|)
  {
  }

  lemma {:induction false} MaxBidIsGreatest(bids: seq<Bid>)
    requires bids != []
    ensures exists k :: LastGreatest(bids, k) && bids[k] == MaxBid(bids)
    ensures MaxBid(bids) in bids && forall b :: b in bids ==> b.value <= MaxBid(bids).value
  {
    if |bids| == 1 {
      assert LastGreatest(bids, 0);
    } else {
      var init, last := bids[..|bids| - 1], bids[|bids| - 1];
      assert bids == init + [last];
      MaxBidIsGreatest(init);
      var k :| LastGreatest(init, k) && init[k] == MaxBid(init);
      LastGreatestMore(init, last, k);
    }
  }

  /** The position of the action that first places the bid. */
  function FirstPlaced(actions: seq<Action>, bid: Bid): nat {
    if actions == [] then 0
    else
      var init := actions[..|actions| - 1];
      if FirstPlaced(init, bid) < |init| then FirstPlaced(init, bid)
      else if actions[|actions| - 1] == Place(bid) then |init|
      else |actions|
  }

  lemma {:induction false} FirstPlacedIs(actions: seq<Action>, bid: Bid)
    ensures FirstPlaced(actions, bid) <= |actions|
    ensures forall i :: 0 <= i < FirstPlaced(actions, bid) ==> actions[i] != Place(bid)
    ensures FirstPlaced(actions, bid) < |actions| <==> Place(bid) in actions
    ensures FirstPlaced(actions, bid) < |actions| ==> actions[FirstPlaced(actions, bid)] == Place(bid)
  {
    if actions != [] {
      FirstPlacedIs(actions[..|actions| - 1], bid);
    }
  }

  /** The newest bid is held first. */
  ghost predicate NewestFirst(bids: seq<Bid>, actions: seq<Action>) {
    forall i, j :: 0 <= i < j < |bids| ==> FirstPlaced(actions, bids[j]) < FirstPlaced(actions, bids[i])
  }

  lemma PlacedIn(alpId: nat, actions: seq<Action>, bid: Bid)
    ensures bid in Placed(alpId, actions) <==> Place(bid) in actions && bid.alpId == alpId
  {
    if Place(bid) in actions && bid.alpId == alpId {
      var a := Place(bid);
      assert a in actions && a.Place? && a.bid == bid;
    }
  }

  ghost predicate ShowsTop(s: State) {
    && s.active.Some? && s.bids != []
    && s.active.value.amount == MaxBid(s.bids).value
    && s.active.value.bidder == Some(MaxBid(s.bids).sender)
  }

  /** What an auction becomes under the actions: the bids held are those placed on it, once each, and
      amount and bidder come from the highest of them or from a settlement. */
  ghost predicate Follows(s: State, start: Auction, actions: seq<Action>) {
    && s.active.Some?
    && (forall b :: b in s.bids <==> b in Placed(start.alpId, actions))
    && (forall i, j :: 0 <= i < j < |s.bids| ==> s.bids[i].hash != s.bids[j].hash)
    && var shown := s.active.value;
    && shown.alpId == start.alpId && shown.startTime == start.startTime
    && shown.endTime == LastEnd(start, actions)
    && (shown.settled <==> start.settled || Settled(start.alpId, actions))
    && (|| ShowsTop(s)
        || (shown.bidder.Some? && Settle(start.alpId, shown.bidder.value, shown.amount) in actions)
        || (&& s.bids == [] && !Settled(start.alpId, actions)
            && shown.amount == start.amount && shown.bidder == start.bidder))
  }

  lemma {:induction false} Delivered(start: Auction, actions: seq<Action>)
    requires Updates(actions) && HashDetermines(Placed(start.alpId, actions))
    ensures Follows(Run(State(Some(start), []), actions), start, actions)
  {
    if actions != [] {
      var init, last := actions[..|actions| - 1], actions[|actions| - 1];
      assert actions == init + [last];
      Delivered(start, init);
      DeliverOne(Run(State(Some(start), []), init), start, init, last);
    }
  }

  lemma OneMore(init: seq<Action>, last: Action, bid: Bid)
    ensures FirstPlaced(init + [last], bid) ==
      if FirstPlaced(init, bid) < |init| then FirstPlaced(init, bid)
      else if last == Place(bid) then |init| else |init| + 1
  {
    assert (init + [last])[..|init|] == init;
  }

  lemma OrderMore(s: State, start: Auction, init: seq<Action>, last: Action)
    requires Follows(s, start, init) && NewestFirst(s.bids, init) && !last.Create? && !last.Load?
    ensures NewestFirst(Reduce(s, last).bids, init + [last])
  {
    var bids := Reduce(s, last).bids;
    forall b | b in s.bids
      ensures FirstPlaced(init, b) < |init| && FirstPlaced(init + [last], b) == FirstPlaced(init, b)
    {
      PlacedIn(start.alpId, init, b);
      FirstPlacedIs(init, b);
      OneMore(init, last, b);
    }
    if bids != s.bids {
      assert bids == [last.bid] + s.bids && last.bid !in s.bids;
      PlacedIn(start.alpId, init, last.bid);
      FirstPlacedIs(init, last.bid);
      OneMore(init, last, last.bid);
      assert FirstPlaced(init + [last], last.bid) == |init|;
      forall i, j | 0 <= i < j < |bids|
        ensures FirstPlaced(init + [last], bids[j]) < FirstPlaced(init + [last], bids[i])
      {
        assert bids[j] == s.bids[j - 1];
        assert i > 0 ==> bids[i] == s.bids[i - 1];
      }
    }
  }

  /** Bids are held newest first. */
  lemma {:induction false} DeliveredInOrder(start: Auction, actions: seq<Action>)
    requires Updates(actions) && HashDetermines(Placed(start.alpId, actions))
    ensures NewestFirst(Run(State(Some(start), []), actions).bids, actions)
  {
    if actions != [] {
      var init, last := actions[..|actions| - 1], actions[|actions| - 1];
      assert actions == init + [last];
      PlacedMore(start.alpId, init, last);
      DeliveredInOrder(start, init);
      Delivered(start, init);
      OrderMore(Run(State(Some(start), []), init), start, init, last);
    }
  }

  lemma PlacedMore(alpId: nat, init: seq<Action>, last: Action)
    ensures Placed(alpId, init + [last]) ==
      Placed(alpId, init) + (if last.Place? && last.bid.alpId == alpId then {last.bid} else {})
    ensures Settled(alpId, init + [last]) <==> Settled(alpId, init) || (last.Settle? && last.alpId == alpId)
  {
    var all := init + [last];
    assert last == all[|init|];
    assert forall a :: a in all <==> a in init || a == last;
  }

  lemma DeliverOne(s: State, start: Auction, init: seq<Action>, last: Action)
    requires Follows(s, start, init) && !last.Create? && !last.Load?
    requires HashDetermines(Placed(start.alpId, init + [last]))
    ensures Follows(Reduce(s, last), start, init + [last])
  {
    PlacedMore(start.alpId, init, last);
    assert (init + [last])[..|init|] == init && last in init + [last];
    if last.Place? && last.bid.alpId == start.alpId && ContainsBid(s.bids, last.bid) {
      var i :| 0 <= i < |s.bids| && s.bids[i].hash == last.bid.hash;
      assert s.bids[i] == last.bid;
    }
  }

  /** The outcome of an auction with bids, whatever the order and repetition of the actions: the highest
      bid placed, its sender, and the end of the last extension. */
  lemma AuctionOutcome(start: Auction, actions: seq<Action>, house: nat)
    requires Updates(actions) && HashDetermines(Placed(start.alpId, actions))
    requires Truthful(start.alpId, actions, house) && Placed(start.alpId, actions) != {}
    ensures var s := Run(State(Some(start), []), actions);
      exists top :: Highest(top, Placed(start.alpId, actions))
        && s.active == Some(Auction(top.value, Some(top.sender), start.startTime, LastEnd(start, actions),
                                    start.alpId, start.settled || Settled(start.alpId, actions)))
  {
    Delivered(start, actions);
    var s := Run(State(Some(start), []), actions);
    var shown := s.active.value;
    var any :| any in Placed(start.alpId, actions);
    assert any in s.bids;
    MaxBidIsGreatest(s.bids);
    assert Highest(MaxBid(s.bids), Placed(start.alpId, actions));
    if !ShowsTop(s) {
      assert Settle(start.alpId, shown.bidder.value, shown.amount) in actions;
      assert Fair(shown.bidder.value, shown.amount, Placed(start.alpId, actions), house);
    }
  }

  /** A highest bid, and of those the one placed first. */
  ghost predicate Earliest(top: Bid, bids: set<Bid>, actions: seq<Action>) {
    Highest(top, bids) && forall b :: b in bids && b.value == top.value ==>
      FirstPlaced(actions, top) <= FirstPlaced(actions, b)
  }

  lemma LastIsEarliest(held: seq<Bid>, bids: set<Bid>, actions: seq<Action>, k: int)
    requires LastGreatest(held, k) && NewestFirst(held, actions) && forall b :: b in held <==> b in bids
    ensures Earliest(held[k], bids, actions)
  {
    assert held[k] in held;
    forall b | b in bids ensures b.value <= held[k].value
      ensures b.value == held[k].value ==> FirstPlaced(actions, held[k]) <= FirstPlaced(actions, b)
    {
      assert b in held;
      var i :| 0 <= i < |held| && held[i] == b;
    }
  }

  /** While an auction is open, of the highest bids the one placed first is shown. */
  lemma EarliestOfHighest(start: Auction, actions: seq<Action>)
    requires Updates(actions) && HashDetermines(Placed(start.alpId, actions))
    requires Placed(start.alpId, actions) != {} && !Settled(start.alpId, actions)
    ensures var s := Run(State(Some(start), []), actions);
      exists top :: Earliest(top, Placed(start.alpId, actions), actions)
        && s.active.Some? && s.active.value.amount == top.value && s.active.value.bidder == Some(top.sender)
  {
    Delivered(start, actions);
    DeliveredInOrder(start, actions);
    var s := Run(State(Some(start), []), actions);
    var any :| any in Placed(start.alpId, actions);
    assert any in s.bids;
    MaxBidIsGreatest(s.bids);
    var k :| LastGreatest(s.bids, k) && s.bids[k] == MaxBid(s.bids);
    LastIsEarliest(s.bids, Placed(start.alpId, actions), actions, k);
    OpenShowsTop(s, start, actions);
  }

  lemma OpenShowsTop(s: State, start: Auction, actions: seq<Action>)
    requires Follows(s, start, actions) && s.bids != [] && !Settled(start.alpId, actions)
    ensures ShowsTop(s)
  {
    var shown := s.active.value;
    assert shown.bidder.Some? ==> Settle(start.alpId, shown.bidder.value, shown.amount) !in actions;
  }

  /** The outcome of an auction without bids: nothing is shown but the end and a settlement. */
  lemma EmptyOutcome(start: Auction, actions: seq<Action>, house: nat)
    requires Updates(actions) && Truthful(start.alpId, actions, house) && Placed(start.alpId, actions) == {}
    ensures var s := Run(State(Some(start), []), actions);
      && s.bids == []
      && s.active == Some(
           if Settled(start.alpId, actions)
           then Auction(0, Some(house), start.startTime, LastEnd(start, actions), start.alpId, true)
           else start.(endTime := LastEnd(start, actions)))
  {
    Delivered(start, actions);
    var s := Run(State(Some(start), []), actions);
    assert forall b :: b !in s.bids;
    var shown := s.active.value;
    if Settled(start.alpId, actions) {
      assert Fair(shown.bidder.value, shown.amount, Placed(start.alpId, actions), house);
    } else if shown.bidder.Some? {
      assert Settle(start.alpId, shown.bidder.value, shown.amount) !in actions;
    }
  }

  /** Both runs settle the auction or neither does, or its start already shows what settling shows. */
  ghost predicate SettledAlike(start: Auction, actions: seq<Action>, actions': seq<Action>, house: nat) {
    || (Settled(start.alpId, actions) <==> Settled(start.alpId, actions'))
    || (start.settled && (Placed(start.alpId, actions) != {} || (start.amount == 0 && start.bidder == Some(house))))
  }

  /** Two orders of delivery that place the same bids end with the same bids and, if there are any, the
      same amount. If no two values are equal they end with the same auction exactly if the last
      extensions agree and both or none are settled. */
  lemma BidConfluence(start: Auction, actions: seq<Action>, actions': seq<Action>, house: nat)
    requires Updates(actions) && Updates(actions')
    requires Placed(start.alpId, actions) == Placed(start.alpId, actions')
    requires HashDetermines(Placed(start.alpId, actions))
    requires Truthful(start.alpId, actions, house) && Truthful(start.alpId, actions', house)
    ensures var s, s' := Run(State(Some(start), []), actions), Run(State(Some(start), []), actions');
      && (forall b :: b in s.bids <==> b in s'.bids)
      && s.active.Some? && s'.active.Some?
      && (Placed(start.alpId, actions) != {} ==> s.active.value.amount == s'.active.value.amount)
      && (DistinctValues(Placed(start.alpId, actions)) ==>
            (s.active == s'.active <==>
               LastEnd(start, actions) == LastEnd(start, actions') && SettledAlike(start, actions, actions', house)))
  {
    Delivered(start, actions);
    Delivered(start, actions');
    if Placed(start.alpId, actions) != {} {
      AuctionOutcome(start, actions, house);
      AuctionOutcome(start, actions', house);
    } else {
      EmptyOutcome(start, actions, house);
      EmptyOutcome(start, actions', house);
    }
  }

  /** A bid and a settlement of the auction commute exactly if the bid changes nothing or the
      settlement names the highest bid. */
  lemma PlaceSettleCommute(s: State, bid: Bid, winner: nat, amount: nat)
    requires IsActive(s, bid.alpId)
    ensures var settle := Settle(bid.alpId, winner, amount);
      Reduce(Reduce(s, Place(bid)), settle) == Reduce(Reduce(s, settle), Place(bid)) <==>
        || ContainsBid(s.bids, bid)
        || (MaxBid([bid] + s.bids).sender == winner && MaxBid([bid] + s.bids).value == amount)
  {
    var settle := Settle(bid.alpId, winner, amount);
    var there, back := Reduce(Reduce(s, Place(bid)), settle), Reduce(Reduce(s, settle), Place(bid));
    if !ContainsBid(s.bids, bid) {
      assert there.active.value.bidder == Some(winner) && there.active.value.amount == amount;
      assert back.active.value.bidder == Some(MaxBid([bid] + s.bids).sender);
    }
  }

  lemma {:induction false} RunConcat(s: State, before: seq<Action>, after: seq<Action>)
    ensures Run(s, before + after) == Run(Run(s, before), after)
  {
    var all := before + after;
    if after == [] {
      assert all == before;
    } else {
      assert all[..|all| - 1] == before + after[..|after| - 1];
      RunConcat(s, before, after[..|after| - 1]);
    }
  }

  /** A new auction wipes out everything before it. */
  lemma CreateForgets(s: State, s': State, before: seq<Action>, create: Action, after: seq<Action>)
    requires create.Create?
    ensures Run(s, before + [create] + after) == Run(s', [create] + after)
  {
    RunConcat(s, before + [create], after);
    RunConcat(s', [create], after);
    assert (before + [create])[..|before|] == before && [create][..0] == [];
  }

  /** So an auction follows its own actions from its creation on, in any run that no other replaces. */
  lemma FromCreation(s: State, before: seq<Action>, create: Action, after: seq<Action>)
    requires create.Create? && Updates(after) && HashDetermines(Placed(create.alpId, after))
    ensures Follows(Run(s, before + [create] + after),
                    Auction(0, None, create.startTime, create.endTime, create.alpId, false), after)
  {
    RunConcat(s, before + [create], after);
    assert (before + [create])[..|before|] == before;
    Delivered(Auction(0, None, create.startTime, create.endTime, create.alpId, false), after);
  }

  /** Only loading another auction mixes the bids of two auctions. */
  lemma OwnBidsStep(s: State, a: Action)
    requires OwnBids(s)
    ensures OwnBids(Reduce(s, a)) <==> !(a.Load? && s.bids != [] && !IsActive(s, a.auction.alpId))
  {
    if a.Load? && s.bids != [] {
      assert s.bids[0] in s.bids;
    }
  }

  /** A client that loads an auction only at the start, as the subscriber does, never mixes them. */
  lemma {:induction false} OwnBidsRun(actions: seq<Action>)
    requires forall i :: 0 < i < |actions| ==> !actions[i].Load?
    ensures OwnBids(Run(State(None, []), actions))
  {
    if actions != [] {
      var init, last := actions[..|actions| - 1], actions[|actions| - 1];
      OwnBidsRun(init);
      OwnBidsStep(Run(State(None, []), init), last);
    }
  }

  /** Since the state s either no bid was new and amount and bidder are as they were, or the highest
      bid held is shown. */
  ghost predicate OnTop(s: State, t: State, placed: set<Bid>) {
    && t.active.Some? && s.active.Some?
    && t.active.value.alpId == s.active.value.alpId
    && (forall b :: b in t.bids <==> b in s.bids || b in placed)
    && if t.bids == s.bids
       then && (forall b :: b in placed ==> b in s.bids)
            && t.active.value.amount == s.active.value.amount && t.active.value.bidder == s.active.value.bidder
       else ShowsTop(t) && |t.bids| > |s.bids| && exists b :: b in placed && b !in s.bids
  }

  lemma PlaceOnTop(s: State, t: State, placed: set<Bid>, bid: Bid)
    requires OnTop(s, t, placed) && HashDetermines((set b | b in s.bids) + placed + {bid})
    requires s.active.value.alpId == bid.alpId
    ensures OnTop(s, AppendBid(t, bid), placed + {bid})
  {
    if ContainsBid(t.bids, bid) {
      var i :| 0 <= i < |t.bids| && t.bids[i].hash == bid.hash;
      assert t.bids[i] in t.bids && t.bids[i] == bid;
    } else {
      assert bid !in t.bids;
      assert bid in placed + {bid} && bid !in s.bids;
    }
  }

  lemma {:induction false} PlacedOnTop(s: State, alpId: nat, actions: seq<Action>)
    requires IsActive(s, alpId) && Updates(actions) && !Settled(alpId, actions)
    requires HashDetermines((set b | b in s.bids) + Placed(alpId, actions))
    ensures OnTop(s, Run(s, actions), Placed(alpId, actions))
  {
    if actions != [] {
      var init, last := actions[..|actions| - 1], actions[|actions| - 1];
      assert actions == init + [last];
      PlacedMore(alpId, init, last);
      PlacedOnTop(s, alpId, init);
      if last.Place? && last.bid.alpId == alpId {
        PlaceOnTop(s, Run(s, init), Placed(alpId, init), last.bid);
      }
    }
  }

  /** The amount shown in state s has dropped in state t exactly if a bid was new and all bids, held and
      placed, are lower: the first new bid overwrites the amount, even an old one. */
  ghost predicate DropsIfLower(s: State, t: State, placed: set<Bid>) {
    && s.active.Some? && t.active.Some?
    && (t.active.value.amount < s.active.value.amount <==>
          && (exists b :: b in placed && b !in s.bids)
          && (forall b :: b in s.bids || b in placed ==> b.value < s.active.value.amount))
  }

  /** While an auction is not settled, its amount drops exactly so, over any other actions. */
  lemma AmountDrops(s: State, alpId: nat, actions: seq<Action>)
    requires IsActive(s, alpId) && Updates(actions) && !Settled(alpId, actions)
    requires HashDetermines((set b | b in s.bids) + Placed(alpId, actions))
    ensures DropsIfLower(s, Run(s, actions), Placed(alpId, actions))
  {
    PlacedOnTop(s, alpId, actions);
    var t := Run(s, actions);
    if t.bids != s.bids {
      MaxBidIsGreatest(t.bids);
    }
  }

  /** A bid, a settlement or an extension of the auction, or another auction in its place. */
  predicate Concerns(a: Action, alpId: nat) {
    match a
    case Place(bid) => bid.alpId == alpId
    case Settle(id, _, _) => id == alpId
    case Extend(id, _) => id == alpId
    case _ => true
  }

  /** A loaded auction is shown as it was loaded, over the bids held, until an action concerns it. */
  lemma {:induction false} LoadedShown(s: State, auction: Auction, actions: seq<Action>)
    requires forall a :: a in actions ==> !Concerns(a, auction.alpId)
    ensures Run(Reduce(s, Load(auction)), actions) == State(Some(auction), s.bids)
  {
    if actions != [] {
      LoadedShown(s, auction, actions[..|actions| - 1]);
      assert actions[|actions| - 1] in actions;
    }
  }

  /** So after an auction is loaded with its current amount, over whatever bids are held. */
  lemma FirstBidOverwrites(s: State, auction: Auction, actions: seq<Action>)
    requires Updates(actions) && !Settled(auction.alpId, actions)
    requires HashDetermines((set b | b in s.bids) + Placed(auction.alpId, actions))
    ensures DropsIfLower(Reduce(s, Load(auction)), Run(Reduce(s, Load(auction)), actions),
                         Placed(auction.alpId, actions))
  {
    AmountDrops(Reduce(s, Load(auction)), auction.alpId, actions);
  }

  /** And so after its last settlement, of the settled amount. */
  lemma LateBidOverwrites(s: State, before: seq<Action>, settle: Action, after: seq<Action>)
    requires Updates(before) && settle.Settle? && IsActive(s, settle.alpId)
    requires Updates(after) && !Settled(settle.alpId, after)
    requires var settled := Run(s, before + [settle]);
      HashDetermines((set b | b in settled.bids) + Placed(settle.alpId, after))
    ensures var settled := Run(s, before + [settle]);
      && IsActive(settled, settle.alpId) && settled.active.value.amount == settle.amount
      && DropsIfLower(settled, Run(s, before + [settle] + after), Placed(settle.alpId, after))
  {
    StaysActive(s, before, settle.alpId);
    assert (before + [settle])[..|before|] == before;
    RunConcat(s, before + [settle], after);
    AmountDrops(Run(s, before + [settle]), settle.alpId, after);
  }

  lemma {:induction false} StaysActive(s: State, actions: seq<Action>, alpId: nat)
    requires IsActive(s, alpId) && Updates(actions)
    ensures IsActive(Run(s, actions), alpId)
  {
    if actions != [] {
      StaysActive(s, actions[..|actions| - 1], alpId);
    }
  }

  lemma AppendKeepsAmount(s: State, bid: Bid)
    requires ShowsTop(s)
    ensures AppendBid(s, bid).active.Some? && AppendBid(s, bid).active.value.amount >= s.active.value.amount
  {
    var all := [bid] + s.bids;
    MaxBidIsGreatest(s.bids);
    MaxBidIsGreatest(all);
    assert MaxBid(s.bids) in all;
  }

  /** While the auction is open and a bid is present, no bid lowers the amount. */
  lemma AmountNeverDecreases(start: Auction, actions: seq<Action>, bid: Bid)
    requires Updates(actions) && HashDetermines(Placed(start.alpId, actions))
    requires Placed(start.alpId, actions) != {} && !Settled(start.alpId, actions)
    ensures var s := Run(State(Some(start), []), actions);
      && s.active.Some? && Reduce(s, Place(bid)).active.Some?
      && Reduce(s, Place(bid)).active.value.amount >= s.active.value.amount
  {
    Delivered(start, actions);
    var s := Run(State(Some(start), []), actions);
    var any :| any in Placed(start.alpId, actions);
    assert any in s.bids;
    AppendKeepsAmount(s, bid);
  }
}
