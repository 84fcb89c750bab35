/** The log cache (packages/nouns-webapp/src/state/slices/logs.ts) and the updater that decides what
    to fetch (packages/nouns-webapp/src/state/updaters/logs.ts). */
module LogFetch {
  import opened LogKeys
  import opened Wrappers

  type Log = nat

  /** Fetched logs, or None after an error. */
  datatype Results = Results(block: nat, logs: Option<seq<Log>>)

  datatype FetchState = FetchState(listeners: int, fetching: Option<nat>, results: Option<Results>)

  type Cache = map<string, FetchState>

  function AddListener(s: Cache, key: string): Cache {
    if key in s then s[key := s[key].(listeners := s[key].listeners + 1)]
    else s[key := FetchState(1, None, None)]
  }

  function RemoveListener(s: Cache, key: string): Cache {
    if key in s then s[key := s[key].(listeners := s[key].listeners - 1)] else s
  }

  /** fetchingLogs for one key. */
  function Mark(s: Cache, key: string, block: nat): Cache {
    if key in s then s[key := s[key].(fetching := Some(block))] else s
  }

  function MarkAll(s: Cache, keys: seq<string>, block: nat): Cache {
    if keys == [] then s else Mark(MarkAll(s, keys[..|keys| - 1], block), keys[|keys| - 1], block)
  }

  /** fetchedLogs and fetchedLogsError: an older answer never replaces a newer one. */
  function Answer(s: Cache, key: string, r: Results): Cache {
    if key !in s || (s[key].results.Some? && s[key].results.value.block > r.block) then s
    else s[key := s[key].(results := Some(r))]
  }

  /** filtersNeedFetch */
  predicate NeedsFetch(s: Cache, key: string, block: nat) {
    && key in s
    && s[key].listeners != 0
    && !(s[key].fetching.Some? && s[key].fetching.value >= block)
    && !(s[key].results.Some? && s[key].results.value.block >= block)
  }

  /** The reducers. Each derives its key from the filter it is given. */
  class LogsSlice {
    var state: Cache

    constructor ()
      ensures state == map[]
    {
      state := map[];
    }

    method Add(filter: Filter)
      modifies this
      ensures state == AddListener(old(state), FilterToKey(filter))
    {
      var key := FilterToKey(filter);
      if key !in state {
        state := state[key := FetchState(1, None, None)];
      } else {
        state := state[key := state[key].(listeners := state[key].listeners + 1)];
      }
    }

    method Remove(filter: Filter)
      modifies this
      ensures state == RemoveListener(old(state), FilterToKey(filter))
    {
      var key := FilterToKey(filter);
      if key !in state { return; }
      state := state[key := state[key].(listeners := state[key].listeners - 1)];
    }

    method FetchingLogs(filters: seq<Filter>, block: nat)
      modifies this
      ensures state == MarkAll(old(state), Keys(filters), block)
    {
      for i := 0 to |filters|
        invariant state == MarkAll(old(state), Keys(filters[..i]), block)
      {
        assert Keys(filters[..i + 1])[..i] == Keys(filters[..i]);
        var key := FilterToKey(filters[i]);
        if key !in state { continue; }
        state := state[key := state[key].(fetching := Some(block))];
      }
      assert filters[..|filters|] == filters;
    }

    method FetchedLogs(filter: Filter, block: nat, logs: seq<Log>)
      modifies this
      ensures state == Answer(old(state), FilterToKey(filter), Results(block, Some(logs)))
    {
      var key := FilterToKey(filter);
      if key !in state || (state[key].results.Some? && state[key].results.value.block > block) { return; }
      state := state[key := state[key].(results := Some(Results(block, Some(logs))))];
    }

    method FetchedLogsError(filter: Filter, block: nat)
      modifies this
      ensures state == Answer(old(state), FilterToKey(filter), Results(block, None))
    {
      var key := FilterToKey(filter);
      if key !in state || (state[key].results.Some? && state[key].results.value.block > block) { return; }
      state := state[key := state[key].(results := Some(Results(block, None)))];
    }
  }

  function Keys(filters: seq<Filter>): (r: seq<string>)
    ensures |r| == |filters|
  {
    seq(|filters|, i requires 0 <= i < |filters| => FilterToKey(filters[i]))
  }

  // ---------- Block ranges

  const MAX_BLOCKS_PER_CALL := 1_000_000

  /** Both ends are inclusive, as in the call. */
  datatype Range = Range(fromBlock: nat, toBlock: nat)

  /** How many of the ranges contain the block. */
  function Hits(ranges: seq<Range>, block: nat): nat {
    if ranges == [] then 0
    else
      var last := ranges[|ranges| - 1];
      var hit := if last.fromBlock <= block <= last.toBlock then 1 else 0;
      Hits(ranges[..|ranges| - 1], block) + hit
  }

  /** How many should: one for each requested block, two where ranges meet. */
  function Expected(start: nat, blockNumber: nat, block: nat): nat {
    if !(start <= block <= blockNumber) then 0
    else if start < block && (block - start) % 1_000_000 == 0 then 2
    else 1
  }

  /** Splits the blocks up to blockNumber into calls. Every requested block is in a range, nothing
      else is; ranges meet in one block, which is requested twice. */
  method SplitRanges(start: nat, blockNumber: nat) returns (ranges: seq<Range>)
    ensures forall b: nat :: Hits(ranges, b) == Expected(start, blockNumber, b)
    ensures forall i :: 0 <= i < |ranges| ==> ranges[i].toBlock - ranges[i].fromBlock <= 1_000_000
  {
    ranges := [];
    var fromBlock := start;
    ghost var k := 0;
    while fromBlock <= blockNumber
      invariant fromBlock == start + k * MAX_BLOCKS_PER_CALL
      invariant k >= 0
      invariant forall b: nat :: Hits(ranges, b) == HitsBefore(start, blockNumber, k, b)
      invariant forall i :: 0 <= i < |ranges| ==> ranges[i].toBlock - ranges[i].fromBlock <= MAX_BLOCKS_PER_CALL
      decreases blockNumber - fromBlock
    {
      var end := fromBlock + MAX_BLOCKS_PER_CALL;
      var toBlock := if end < blockNumber then end else blockNumber;
      ghost var next := ranges + [Range(fromBlock, toBlock)];
      forall b: nat ensures Hits(next, b) == HitsBefore(start, blockNumber, k + 1, b) {
        assert next[..|ranges|] == ranges;
        HitsStep(start, blockNumber, k, b);
      }
      ranges := ranges + [Range(fromBlock, toBlock)];
      fromBlock := fromBlock + MAX_BLOCKS_PER_CALL;
      k := k + 1;
    }
  }

  /** How often the first k ranges contain block b. */
  ghost function HitsBefore(start: nat, blockNumber: nat, k: nat, b: nat): nat {
    var end := start + k * MAX_BLOCKS_PER_CALL;
    (if k > 0 && start <= b <= blockNumber && b <= end then 1 else 0)
    + if start < b <= blockNumber && b < end && (b - start) % MAX_BLOCKS_PER_CALL == 0 then 1 else 0
  }

  lemma HitsStep(start: nat, blockNumber: nat, k: nat, b: nat)
    requires start + k * MAX_BLOCKS_PER_CALL <= blockNumber
    ensures var fromBlock := start + k * MAX_BLOCKS_PER_CALL;
      HitsBefore(start, blockNumber, k + 1, b) == HitsBefore(start, blockNumber, k, b)
        + if fromBlock <= b <= fromBlock + MAX_BLOCKS_PER_CALL && b <= blockNumber then 1 else 0
  {
    if start <= b {
      var d := b - start;
      assert d == MAX_BLOCKS_PER_CALL * (d / MAX_BLOCKS_PER_CALL) + d % MAX_BLOCKS_PER_CALL;
    }
  }

  // ---------- Runs

  /** What happens to the cache: listeners come and go, the updater sees a block number and starts
      fetches, answers arrive in any order. */
  datatype Action =
    | Listen(filter: Filter)
    | Unlisten(filter: Filter)
    | Update(block: nat)
    | Arrive(filter: Filter, results: Results)

  /** The key the updater's fetch of `key` is filed under: it parses the key and prints the filter. */
  function FiledUnder(key: string): string {
    var f := KeyToFilter(key);
    if f.None? then key else FilterToKey(f.value)
  }

  /** The updater marks what it fetches, under the reprinted keys. */
  ghost function UpdateStep(s: Cache, block: nat): Cache {
    map key | key in s ::
      if Marked(s, key, block) then s[key].(fetching := Some(block)) else s[key]
  }

  ghost predicate Marked(s: Cache, key: string, block: nat) {
    exists j :: NeedsFetch(s, j, block) && FiledUnder(j) == key
  }

  lemma {:induction false} MarkAllMarks(s: Cache, keys: seq<string>, block: nat)
    ensures MarkAll(s, keys, block).Keys == s.Keys
    ensures forall key :: key in s ==>
      MarkAll(s, keys, block)[key] == if key in keys then s[key].(fetching := Some(block)) else s[key]
  {
    if keys != [] {
      MarkAllMarks(s, keys[..|keys| - 1], block);
      assert forall key :: key in keys <==> key in keys[..|keys| - 1] || key == keys[|keys| - 1];
    }
  }

  /** The updater's list: the keys that need a fetch, and their filters. */
  ghost predicate Listed(s: Cache, need: seq<string>, filters: seq<Filter>, block: nat) {
    && (forall key :: key in need <==> NeedsFetch(s, key, block))
    && |filters| == |need|
    && forall i :: 0 <= i < |need| ==> KeyToFilter(need[i]) == Some(filters[i])
  }

  lemma ListedIsMarked(s: Cache, need: seq<string>, filters: seq<Filter>, block: nat, key: string)
    requires Listed(s, need, filters, block)
    ensures key in Keys(filters) <==> Marked(s, key, block)
  {
    if key in Keys(filters) {
      var i :| 0 <= i < |need| && Keys(filters)[i] == key;
      assert need[i] in need && FiledUnder(need[i]) == key;
    }
    if Marked(s, key, block) {
      var j :| NeedsFetch(s, j, block) && FiledUnder(j) == key;
      var i :| 0 <= i < |need| && need[i] == j;
      assert Keys(filters)[i] == key;
    }
  }

  /** The updater's dispatch: marking the filters of the keys that need a fetch is this step. */
  lemma UpdateRefines(s: Cache, need: seq<string>, filters: seq<Filter>, block: nat)
    requires Listed(s, need, filters, block)
    ensures MarkAll(s, Keys(filters), block) == UpdateStep(s, block)
  {
    MarkAllMarks(s, Keys(filters), block);
    forall key | key in s ensures MarkAll(s, Keys(filters), block)[key] == UpdateStep(s, block)[key] {
      ListedIsMarked(s, need, filters, block, key);
    }
  }

  ghost function Step(s: Cache, a: Action): Cache {
    match a
    case Listen(filter) => AddListener(s, FilterToKey(filter))
    case Unlisten(filter) => RemoveListener(s, FilterToKey(filter))
    case Update(block) => UpdateStep(s, block)
    case Arrive(filter, results) => Answer(s, FilterToKey(filter), results)
  }

  ghost function Run(actions: seq<Action>): Cache {
    if actions == [] then map[] else Step(Run(actions[..|actions| - 1]), actions[|actions| - 1])
  }

  /** The i-th action fetches the key. */
  ghost predicate Fetches(actions: seq<Action>, i: nat, key: string) {
    i < |actions| && actions[i].Update? && NeedsFetch(Run(actions[..i]), key, actions[i].block)
  }

  /** The fetches of the key start at strictly increasing blocks. */
  ghost predicate Increasing(actions: seq<Action>, key: string) {
    forall i: nat, j: nat :: i < j && Fetches(actions, i, key) && Fetches(actions, j, key) ==>
      actions[i].block < actions[j].block
  }

  /** The block numbers the updater sees never decrease. */
  ghost predicate Ordered(actions: seq<Action>) {
    forall i, j :: 0 <= i < j < |actions| && actions[i].Update? && actions[j].Update? ==>
      actions[i].block <= actions[j].block
  }

  /** The fetch of no other key is filed under this one. */
  predicate FiledAlone(filter: Filter, key: string) {
    FiledUnder(FilterToKey(filter)) == key ==> FilterToKey(filter) == key
  }

  /** No filter with another key filed under this one is listened to. */
  ghost predicate Alone(actions: seq<Action>, key: string) {
    forall i :: 0 <= i < |actions| && actions[i].Listen? ==> FiledAlone(actions[i].filter, key)
  }

  lemma StableFiled(filter: Filter)
    ensures FiledUnder(FilterToKey(filter)) == FilterToKey(filter) <==> Stable(FilterToKey(filter))
  {
    KeysParse(filter);
    KeyRoundTrip(FilterToKey(filter));
  }

  lemma StableKeyFiled(key: string)
    requires Stable(key)
    ensures FiledUnder(key) == key
  {
    KeyRoundTrip(key);
  }

  lemma RunNext(actions: seq<Action>, n: nat)
    requires n < |actions|
    ensures Run(actions[..n + 1]) == Step(Run(actions[..n]), actions[n])
  {
    assert actions[..n + 1][..n] == actions[..n];
  }

  /** No other key in the cache is filed under this one. */
  ghost predicate SoleKey(s: Cache, key: string) {
    forall k :: k in s && FiledUnder(k) == key ==> k == key
  }

  lemma {:induction false} RunAlone(actions: seq<Action>, n: nat, key: string)
    requires Alone(actions, key) && n <= |actions|
    ensures SoleKey(Run(actions[..n]), key)
  {
    if n > 0 {
      RunAlone(actions, n - 1, key);
      RunNext(actions, n - 1);
      StepAlone(Run(actions[..n - 1]), actions[n - 1], key);
    }
  }

  lemma StepAlone(s: Cache, a: Action, key: string)
    requires SoleKey(s, key) && (a.Listen? ==> FiledAlone(a.filter, key))
    ensures SoleKey(Step(s, a), key)
  {
  }

  ghost predicate Remembers(s: Cache, key: string, block: nat) {
    key in s && s[key].fetching.Some? && s[key].fetching.value >= block
  }

  /** A key is never forgotten. The block it was last fetched at decreases exactly when an update at
      an older block marks it. */
  lemma FetchingGrows(s: Cache, a: Action, key: string, block: nat)
    requires Remembers(s, key, block)
    ensures Remembers(Step(s, a), key, block) <==> !(a.Update? && a.block < block && Marked(s, key, a.block))
    ensures key in Step(s, a) && Step(s, a)[key].fetching.Some?
  {
  }

  lemma FetchedNow(s: Cache, block: nat, key: string)
    requires Stable(key) && NeedsFetch(s, key, block)
    ensures Remembers(Step(s, Update(block)), key, block)
  {
    StableKeyFiled(key);
    assert Marked(s, key, block);
  }

  lemma FetchedRemembers(actions: seq<Action>, i: nat, key: string)
    requires Stable(key) && Fetches(actions, i, key)
    ensures Remembers(Run(actions[..i + 1]), key, actions[i].block)
  {
    RunNext(actions, i);
    FetchedNow(Run(actions[..i]), actions[i].block, key);
  }

  /** Blocks that never decrease, or a key alone under its name. */
  ghost predicate Undisturbed(actions: seq<Action>, key: string) {
    Ordered(actions) || Alone(actions, key)
  }

  lemma NextUndisturbed(actions: seq<Action>, i: nat, n: nat, key: string)
    requires Undisturbed(actions, key) && i < n < |actions| && actions[i].Update?
    requires Remembers(Run(actions[..n]), key, actions[i].block)
    ensures Remembers(Run(actions[..n + 1]), key, actions[i].block)
  {
    RunNext(actions, n);
    FetchingGrows(Run(actions[..n]), actions[n], key, actions[i].block);
    if !Ordered(actions) {
      RunAlone(actions, n, key);
    }
  }

  /** After a fetch under a stable key, the cache remembers its block or a later one, if block numbers
      are ordered or no other key is filed under this one. */
  lemma {:induction false} FetchRemembered(actions: seq<Action>, i: nat, n: nat, key: string)
    requires Stable(key) && Undisturbed(actions, key)
    requires Fetches(actions, i, key) && i < n <= |actions|
    ensures Remembers(Run(actions[..n]), key, actions[i].block)
  {
    if i == n - 1 {
      FetchedRemembers(actions, i, key);
    } else {
      FetchRemembered(actions, i, n - 1, key);
      NextUndisturbed(actions, i, n - 1, key);
    }
  }

  lemma StableIncreases(actions: seq<Action>, key: string)
    requires Stable(key) && Undisturbed(actions, key)
    ensures Increasing(actions, key)
  {
    forall i: nat, j: nat | i < j && Fetches(actions, i, key) && Fetches(actions, j, key)
      ensures actions[i].block < actions[j].block
    {
      FetchRemembered(actions, i, j, key);
    }
  }

  /** Right after an update, a key still asks for a fetch of the same block exactly when it asked
      before and no fetch is filed under it. */
  lemma StillNeeded(s: Cache, key: string, block: nat)
    ensures NeedsFetch(UpdateStep(s, block), key, block) <==>
      NeedsFetch(s, key, block) && !Marked(s, key, block)
  {
  }

  /** The fetch of an unstable key is filed elsewhere, so the next update fetches it again. */
  lemma UnstableRepeats(filter: Filter, block: nat)
    requires !Stable(FilterToKey(filter))
    ensures var actions, key := [Listen(filter), Update(block), Update(block)], FilterToKey(filter);
      Ordered(actions) && Fetches(actions, 1, key) && Fetches(actions, 2, key) && !Increasing(actions, key)
  {
    var actions, key := [Listen(filter), Update(block), Update(block)], FilterToKey(filter);
    StableFiled(filter);
    RunNext(actions, 0);
    RunNext(actions, 1);
    assert actions[..0] == [];
    var listening := Run(actions[..1]);
    assert listening == map[key := FetchState(1, None, None)];
    StillNeeded(listening, key, block);
    assert Fetches(actions, 1, key) && Fetches(actions, 2, key);
  }

  /** Where block numbers never decrease, the fetches of a filter's key start at strictly increasing
      blocks over every run, whatever else is listened to, exactly when the key is stable. */
  lemma FetchesIncrease(filter: Filter)
    ensures (forall actions :: Ordered(actions) ==> Increasing(actions, FilterToKey(filter))) <==>
      Stable(FilterToKey(filter))
  {
    var key := FilterToKey(filter);
    if Stable(key) {
      forall actions | Ordered(actions) ensures Increasing(actions, key) {
        StableIncreases(actions, key);
      }
    } else {
      UnstableRepeats(filter, 0);
    }
  }

  // ---------- Blocks in any order

  lemma MarkedByOther(s: Cache, key: string, other: string, block: nat)
    requires key in s && NeedsFetch(s, other, block) && FiledUnder(other) == key
    requires forall k :: k in s ==> FiledUnder(k) != other
    ensures UpdateStep(s, block)[key] == s[key].(fetching := Some(block))
    ensures UpdateStep(s, block)[other] == s[other]
  {
    assert Marked(s, key, block);
  }

  /** With two keys filed under one, an update at an older block takes back the block it remembers. */
  lemma TakenBack(s: Cache, key: string, other: string)
    requires s == map[key := FetchState(1, None, None), other := FetchState(1, None, None)] && key != other
    requires FiledUnder(key) == key && FiledUnder(other) == key
    ensures NeedsFetch(s, key, 10) && NeedsFetch(UpdateStep(UpdateStep(s, 10), 5), key, 7)
  {
    MarkedByOther(s, key, other, 10);
    MarkedByOther(UpdateStep(s, 10), key, other, 5);
  }

  lemma RunFour(actions: seq<Action>)
    requires |actions| >= 4
    ensures Run(actions[..2]) == Step(Step(map[], actions[0]), actions[1])
    ensures Run(actions[..4]) == Step(Step(Run(actions[..2]), actions[2]), actions[3])
  {
    assert actions[..0] == [];
    RunNext(actions, 0);
    RunNext(actions, 1);
    RunNext(actions, 2);
    RunNext(actions, 3);
  }

  lemma FiledOverRepeats(filter: Filter, other: Filter)
    requires Stable(FilterToKey(filter)) && !FiledAlone(other, FilterToKey(filter))
    ensures var actions := [Listen(filter), Listen(other), Update(10), Update(5), Update(7)];
      !Increasing(actions, FilterToKey(filter))
  {
    var actions := [Listen(filter), Listen(other), Update(10), Update(5), Update(7)];
    var key := FilterToKey(filter);
    StableKeyFiled(key);
    RunFour(actions);
    TakenBack(Run(actions[..2]), key, FilterToKey(other));
    assert Fetches(actions, 2, key) && Fetches(actions, 4, key);
  }

  /** The run listens to no other filters. */
  ghost predicate ListensTo(actions: seq<Action>, filters: set<Filter>) {
    forall i :: 0 <= i < |actions| && actions[i].Listen? ==> actions[i].filter in filters
  }

  /** Increasing fetches over every run on the filters. */
  ghost predicate AlwaysIncreasing(filters: set<Filter>, key: string) {
    forall actions :: ListensTo(actions, filters) ==> Increasing(actions, key)
  }

  /** Only fetches of the key itself are filed under it. */
  ghost predicate FiledAloneIn(filters: set<Filter>, key: string) {
    forall filter :: filter in filters ==> FiledAlone(filter, key)
  }

  lemma AloneIncreases(filters: set<Filter>, key: string)
    requires Stable(key) && FiledAloneIn(filters, key)
    ensures AlwaysIncreasing(filters, key)
  {
    forall actions | ListensTo(actions, filters) ensures Increasing(actions, key) {
      assert Alone(actions, key);
      StableIncreases(actions, key);
    }
  }

  lemma UnstableFails(filter: Filter, filters: set<Filter>)
    requires filter in filters && !Stable(FilterToKey(filter))
    ensures !AlwaysIncreasing(filters, FilterToKey(filter))
  {
    UnstableRepeats(filter, 0);
    RunFails([Listen(filter), Update(0), Update(0)], filters, FilterToKey(filter));
  }

  lemma RunFails(actions: seq<Action>, filters: set<Filter>, key: string)
    requires ListensTo(actions, filters) && !Increasing(actions, key)
    ensures !AlwaysIncreasing(filters, key)
  {
  }

  lemma ListensToTwo(filter: Filter, other: Filter, filters: set<Filter>)
    requires filter in filters && other in filters
    ensures ListensTo([Listen(filter), Listen(other), Update(10), Update(5), Update(7)], filters)
  {
  }

  lemma FiledOverFails(filter: Filter, other: Filter, filters: set<Filter>)
    requires filter in filters && other in filters
    requires Stable(FilterToKey(filter)) && !FiledAlone(other, FilterToKey(filter))
    ensures !AlwaysIncreasing(filters, FilterToKey(filter))
  {
    FiledOverRepeats(filter, other);
    ListensToTwo(filter, other, filters);
    RunFails([Listen(filter), Listen(other), Update(10), Update(5), Update(7)], filters, FilterToKey(filter));
  }

  /** Where block numbers may come in any order, the fetches of a filter's key start at strictly
      increasing blocks over every run exactly when the key is stable and no other key listened to is
      filed under it. */
  lemma FetchesIncreaseInAnyOrder(filter: Filter, filters: set<Filter>)
    requires filter in filters
    ensures AlwaysIncreasing(filters, FilterToKey(filter)) <==>
      Stable(FilterToKey(filter)) && FiledAloneIn(filters, FilterToKey(filter))
  {
    var key := FilterToKey(filter);
    if !Stable(key) {
      UnstableFails(filter, filters);
    } else if FiledAloneIn(filters, key) {
      AloneIncreases(filters, key);
    } else {
      var other :| other in filters && !FiledAlone(other, key);
      FiledOverFails(filter, other, filters);
    }
  }

  /** Two such filters: the key of the one without topics is filed under that of the wildcard topic. */
  lemma FiledOverExample()
    ensures var wildcard, none := Filter(Some("a"), Some([Null]), None), Filter(Some("a"), None, None);
      Stable(FilterToKey(wildcard)) && !FiledAlone(none, FilterToKey(wildcard))
  {
    var wildcard, none := Filter(Some("a"), Some([Null]), None), Filter(Some("a"), None, None);
    UnstableKeyExample();
    ColonSplits("a", "");
    Reprint(FilterToKey(none));
    assert ReprintAll(Split("", '-')) == ["\0"] == TopicKeys([Null]);
    assert FiledUnder(FilterToKey(none)) == FilterToKey(wildcard);
    ColonSplits("a", "\0");
    SplitPrefix("\0", "", '-');
    ReprintIsStable(FilterToKey(none));
    StableFiled(wildcard);
  }

  /** A cached answer is only ever replaced by one for the same or a later block. */
  lemma ResultsNeverAge(s: Cache, a: Action, key: string)
    requires key in s && s[key].results.Some?
    ensures var s' := Step(s, a);
      key in s' && s'[key].results.Some? && s'[key].results.value.block >= s[key].results.value.block
  {
  }

  // ---------- The cache, from the actions alone

  /** The key was listened to, at some time. */
  ghost predicate Known(actions: seq<Action>, key: string) {
    exists i :: 0 <= i < |actions| && ListensFor(actions[i], key)
  }

  predicate ListensFor(a: Action, key: string) {
    a.Listen? && FilterToKey(a.filter) == key
  }

  /** Listeners that came, less those that left since the first one came. */
  ghost function Listeners(actions: seq<Action>, key: string): int {
    if actions == [] then 0
    else
      var init, last := actions[..|actions| - 1], actions[|actions| - 1];
      if ListensFor(last, key) then Listeners(init, key) + 1
      else if last.Unlisten? && FilterToKey(last.filter) == key && Known(init, key) then Listeners(init, key) - 1
      else Listeners(init, key)
  }

  lemma KnownMore(actions: seq<Action>, key: string)
    requires actions != []
    ensures var init, last := actions[..|actions| - 1], actions[|actions| - 1];
      Known(actions, key) <==> Known(init, key) || ListensFor(last, key)
  {
    var init, last := actions[..|actions| - 1], actions[|actions| - 1];
    assert forall i :: 0 <= i < |init| ==> init[i] == actions[i];
    if ListensFor(last, key) {
      assert ListensFor(actions[|actions| - 1], key);
    }
  }

  /** Every key ever listened to has an entry, with the number of its listeners. */
  lemma {:induction false} ListenersCounted(actions: seq<Action>, key: string)
    ensures key in Run(actions) <==> Known(actions, key)
    ensures key in Run(actions) ==> Run(actions)[key].listeners == Listeners(actions, key)
    ensures key !in Run(actions) ==> Listeners(actions, key) == 0
  {
    if actions != [] {
      ListenersCounted(actions[..|actions| - 1], key);
      KnownMore(actions, key);
    }
  }

  /** The i-th action brings an answer for a known key. */
  ghost predicate Brings(actions: seq<Action>, i: nat, key: string) {
    i < |actions| && actions[i].Arrive? && FilterToKey(actions[i].filter) == key && Known(actions[..i], key)
  }

  /** The i-th action brought the last of the answers for the latest block. */
  ghost predicate Latest(actions: seq<Action>, i: nat, key: string) {
    && Brings(actions, i, key)
    && forall j: nat :: Brings(actions, j, key) ==>
         actions[j].results.block <= actions[i].results.block
         && (actions[j].results.block == actions[i].results.block ==> j <= i)
  }

  lemma BringsPrefix(actions: seq<Action>, n: nat, i: nat, key: string)
    requires n <= |actions|
    ensures Brings(actions[..n], i, key) <==> i < n && Brings(actions, i, key)
  {
    if i < n {
      assert actions[..n][..i] == actions[..i];
    }
  }

  /** The cached answer is the last one delivered for the latest block, and there is none before one is. */
  ghost predicate HoldsLatest(results: Option<Results>, actions: seq<Action>, key: string) {
    if results.None? then forall i: nat :: !Brings(actions, i, key)
    else exists i: nat :: Latest(actions, i, key) && actions[i].results == results.value
  }

  lemma NothingBrought(actions: seq<Action>, results: Option<Results>, key: string)
    requires actions != [] && HoldsLatest(results, actions[..|actions| - 1], key)
    requires !Brings(actions, |actions| - 1, key)
    ensures HoldsLatest(results, actions, key)
  {
    var n := |actions| - 1;
    forall i: nat ensures Brings(actions[..n], i, key) <==> Brings(actions, i, key) {
      BringsPrefix(actions, n, i, key);
    }
    if results.Some? {
      var i: nat :| Latest(actions[..n], i, key) && actions[..n][i].results == results.value;
      assert Latest(actions, i, key);
    }
  }

  lemma LatestKept(actions: seq<Action>, i: nat, key: string)
    requires actions != [] && Latest(actions[..|actions| - 1], i, key)
    requires Brings(actions, |actions| - 1, key)
    requires actions[i].results.block > actions[|actions| - 1].results.block
    ensures Latest(actions, i, key)
  {
    forall j: nat | Brings(actions, j, key)
      ensures actions[j].results.block <= actions[i].results.block
      ensures actions[j].results.block == actions[i].results.block ==> j <= i
    {
      BringsPrefix(actions, |actions| - 1, j, key);
    }
    BringsPrefix(actions, |actions| - 1, i, key);
  }

  lemma LatestNew(actions: seq<Action>, key: string)
    requires actions != [] && Brings(actions, |actions| - 1, key)
    requires forall j: nat :: Brings(actions[..|actions| - 1], j, key) ==>
      actions[j].results.block <= actions[|actions| - 1].results.block
    ensures Latest(actions, |actions| - 1, key)
  {
    forall j: nat | Brings(actions, j, key)
      ensures actions[j].results.block <= actions[|actions| - 1].results.block
    {
      BringsPrefix(actions, |actions| - 1, j, key);
    }
  }

  lemma AnswerBrought(actions: seq<Action>, results: Option<Results>, key: string)
    requires actions != [] && HoldsLatest(results, actions[..|actions| - 1], key)
    requires Brings(actions, |actions| - 1, key)
    ensures var r := actions[|actions| - 1].results;
      HoldsLatest(if results.Some? && results.value.block > r.block then results else Some(r), actions, key)
  {
    var n := |actions| - 1;
    if results.Some? {
      var i: nat :| Latest(actions[..n], i, key) && actions[..n][i].results == results.value;
      if results.value.block > actions[n].results.block {
        LatestKept(actions, i, key);
      } else {
        LatestNew(actions, key);
      }
    } else {
      LatestNew(actions, key);
    }
  }

  function ResultsOf(s: Cache, key: string): Option<Results> {
    if key in s then s[key].results else None
  }

  lemma StepResults(s: Cache, a: Action, key: string)
    ensures ResultsOf(Step(s, a), key) ==
      if a.Arrive? && FilterToKey(a.filter) == key && key in s
         && !(s[key].results.Some? && s[key].results.value.block > a.results.block)
      then Some(a.results) else ResultsOf(s, key)
  {
  }

  lemma AnswerNext(actions: seq<Action>, key: string)
    requires actions != []
    requires HoldsLatest(ResultsOf(Run(actions[..|actions| - 1]), key), actions[..|actions| - 1], key)
    ensures HoldsLatest(ResultsOf(Run(actions), key), actions, key)
  {
    var n := |actions| - 1;
    var before := Run(actions[..n]);
    ListenersCounted(actions[..n], key);
    StepResults(before, actions[n], key);
    if Brings(actions, n, key) {
      AnswerBrought(actions, ResultsOf(before, key), key);
    } else {
      NothingBrought(actions, ResultsOf(before, key), key);
    }
  }

  /** The cached answer is the last one delivered for the latest block since the key is known. */
  lemma {:induction false} AnswerHeld(actions: seq<Action>, key: string)
    ensures HoldsLatest(ResultsOf(Run(actions), key), actions, key)
  {
    if actions != [] {
      AnswerHeld(actions[..|actions| - 1], key);
      AnswerNext(actions, key);
    }
  }

  /** The block fetched last is the latest of all fetches of the key. */
  ghost predicate FetchedLast(fetching: Option<nat>, actions: seq<Action>, n: nat, key: string) {
    if fetching.None? then forall j: nat :: j < n ==> !Fetches(actions, j, key)
    else
      && (exists j: nat :: j < n && Fetches(actions, j, key) && actions[j].block == fetching.value)
      && forall j: nat :: j < n && Fetches(actions, j, key) ==> actions[j].block <= fetching.value
  }

  function FetchingOf(s: Cache, key: string): Option<nat> {
    if key in s then s[key].fetching else None
  }

  lemma StepFetching(s: Cache, a: Action, key: string)
    requires Stable(key) && SoleKey(s, key)
    ensures FetchingOf(Step(s, a), key) ==
      if a.Update? && NeedsFetch(s, key, a.block) then Some(a.block) else FetchingOf(s, key)
  {
    StableKeyFiled(key);
    if a.Update? && NeedsFetch(s, key, a.block) {
      assert Marked(s, key, a.block);
    }
  }

  lemma FetchedMore(before: Option<nat>, after: Option<nat>, actions: seq<Action>, n: nat, key: string)
    requires n < |actions| && FetchedLast(before, actions, n, key)
    requires Fetches(actions, n, key) ==> before.None? || before.value < actions[n].block
    requires after == if Fetches(actions, n, key) then Some(actions[n].block) else before
    ensures FetchedLast(after, actions, n + 1, key)
  {
  }

  lemma FetchingNext(actions: seq<Action>, n: nat, key: string)
    requires Stable(key) && Alone(actions, key) && n < |actions|
    ensures FetchingOf(Run(actions[..n + 1]), key) ==
      if Fetches(actions, n, key) then Some(actions[n].block) else FetchingOf(Run(actions[..n]), key)
    ensures Fetches(actions, n, key) && FetchingOf(Run(actions[..n]), key).Some? ==>
      FetchingOf(Run(actions[..n]), key).value < actions[n].block
  {
    RunNext(actions, n);
    RunAlone(actions, n, key);
    StepFetching(Run(actions[..n]), actions[n], key);
  }

  lemma NothingFetched(actions: seq<Action>, key: string)
    ensures FetchedLast(FetchingOf(Run(actions[..0]), key), actions, 0, key)
  {
    assert actions[..0] == [];
  }

  lemma {:induction false} RunFetching(actions: seq<Action>, n: nat, key: string)
    requires Stable(key) && Alone(actions, key) && n <= |actions|
    ensures FetchedLast(FetchingOf(Run(actions[..n]), key), actions, n, key)
  {
    if n == 0 {
      NothingFetched(actions, key);
    } else {
      RunFetching(actions, n - 1, key);
      FetchingNext(actions, n - 1, key);
      FetchedMore(FetchingOf(Run(actions[..n - 1]), key), FetchingOf(Run(actions[..n]), key), actions, n - 1, key);
    }
  }

  /** The updater has reason to fetch the key: it is listened to, and neither a fetch nor an answer for
      this block or a later one came before. */
  ghost predicate AskedFor(actions: seq<Action>, i: nat, key: string) {
    && i < |actions| && actions[i].Update?
    && Known(actions[..i], key) && Listeners(actions[..i], key) != 0
    && (forall j: nat :: j < i && Fetches(actions, j, key) ==> actions[j].block < actions[i].block)
    && (forall j: nat :: j < i && Brings(actions, j, key) ==> actions[j].results.block < actions[i].block)
  }

  lemma AnswerBlocks(actions: seq<Action>, i: nat, key: string, block: nat)
    requires i <= |actions| && key in Run(actions[..i])
    ensures var results := Run(actions[..i])[key].results;
      !(results.Some? && results.value.block >= block) <==>
        forall j: nat :: j < i && Brings(actions, j, key) ==> actions[j].results.block < block
  {
    AnswerHeld(actions[..i], key);
    var results := Run(actions[..i])[key].results;
    forall j: nat ensures Brings(actions[..i], j, key) <==> j < i && Brings(actions, j, key) {
      BringsPrefix(actions, i, j, key);
    }
    if results.Some? {
      var j: nat :| Latest(actions[..i], j, key) && actions[..i][j].results == results.value;
      assert j < i && Brings(actions, j, key) && actions[j].results == results.value;
      assert forall k: nat :: k < i && Brings(actions, k, key) ==> actions[k].results.block <= results.value.block by {
        forall k: nat | k < i && Brings(actions, k, key) ensures actions[k].results.block <= results.value.block {
          assert Brings(actions[..i], k, key) && actions[..i][k] == actions[k];
        }
      }
    }
  }

  lemma FetchedBlocks(fetching: Option<nat>, actions: seq<Action>, n: nat, key: string, block: nat)
    requires FetchedLast(fetching, actions, n, key)
    ensures !(fetching.Some? && fetching.value >= block) <==>
      forall j: nat :: j < n && Fetches(actions, j, key) ==> actions[j].block < block
  {
  }

  /** A stable key that no other key is filed under is fetched exactly when there is reason to. */
  lemma FetchesExactly(actions: seq<Action>, i: nat, key: string)
    requires Stable(key) && Alone(actions, key) && i < |actions| && actions[i].Update?
    ensures Fetches(actions, i, key) <==> AskedFor(actions, i, key)
  {
    var s := Run(actions[..i]);
    ListenersCounted(actions[..i], key);
    if key in s {
      RunFetching(actions, i, key);
      FetchedBlocks(s[key].fetching, actions, i, key, actions[i].block);
      AnswerBlocks(actions, i, key, actions[i].block);
    }
  }
}
