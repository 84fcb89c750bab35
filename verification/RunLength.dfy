/** The run-length encoding of packages/nouns-sdk/src/image/image.ts. */
module RunLength {

  const MAX_RUN := 255

  datatype Run = Run(length: nat, index: nat)

  function Repeat(v: nat, n: nat): (r: seq<nat>)
    ensures |r| == n && forall i :: 0 <= i < n ==> r[i] == v
  {
    seq(n, _ => v)
  }

  /** The data a list of runs stands for. */
  function Expand(runs: seq<Run>): seq<nat> {
    if runs == [] then [] else Repeat(runs[0].index, runs[0].length) + Expand(runs[1..])
  }

  /** One more value: the last run grows until the value changes or the run holds 255 items. */
  function Grow(runs: seq<Run>, v: nat): seq<Run> {
    if runs == [] then [Run(1, v)]
    else
      var done, last := runs[..|runs| - 1], runs[|runs| - 1];
      if v != last.index || last.length == MAX_RUN then runs + [Run(1, v)]
      else done + [Run(last.length + 1, v)]
  }

  /** The runs of `encode`. */
  function Runs(data: seq<nat>): seq<Run> {
    if data == [] then [] else Grow(Runs(data[..|data| - 1]), data[|data| - 1])
  }

  /** Every run is non-empty, fits a byte, and could not have been longer. */
  ghost predicate Greedy(runs: seq<Run>) {
    && (forall i :: 0 <= i < |runs| ==> 1 <= runs[i].length <= 255)
    && (forall i, j :: 0 <= i && i + 1 == j < |runs| ==>
          runs[i].length == 255 || runs[i].index != runs[j].index)
  }

  lemma {:induction false} ExpandConcat(a: seq<Run>, b: seq<Run>)
    ensures Expand(a + b) == Expand(a) + Expand(b)
  {
    if a == [] {
      assert a + b == b;
    } else {
      assert (a + b)[1..] == a[1..] + b;
      ExpandConcat(a[1..], b);
    }
  }

  lemma ExpandAppend(runs: seq<Run>, r: Run)
    ensures Expand(runs + [r]) == Expand(runs) + Repeat(r.index, r.length)
  {
    ExpandConcat(runs, [r]);
    assert Expand([r]) == Repeat(r.index, r.length) + Expand([]);
  }

  lemma ExpandGrow(runs: seq<Run>, v: nat)
    ensures Expand(Grow(runs, v)) == Expand(runs) + [v]
  {
    ExpandAppend(runs, Run(1, v));
    assert Repeat(v, 1) == [v];
    if runs == [] {
      assert [] + [Run(1, v)] == [Run(1, v)];
    } else {
      var done, last := runs[..|runs| - 1], runs[|runs| - 1];
      assert runs == done + [last];
      ExpandAppend(done, last);
      ExpandAppend(done, Run(last.length + 1, v));
      assert Repeat(v, last.length + 1) == Repeat(v, last.length) + [v];
    }
  }

  lemma GreedyGrow(runs: seq<Run>, v: nat)
    requires Greedy(runs)
    ensures Greedy(Grow(runs, v))
  {
  }

  /** The encoder loses nothing, emits runs of 1 to 255 items, and is greedy. */
  lemma {:induction false} RunsExpand(data: seq<nat>)
    ensures Expand(Runs(data)) == data
    ensures Greedy(Runs(data))
    ensures Runs(data) == [] <==> data == []
  {
    if data != [] {
      var init, v := data[..|data| - 1], data[|data| - 1];
      RunsExpand(init);
      assert data == init + [v];
      ExpandGrow(Runs(init), v);
      GreedyGrow(Runs(init), v);
    }
  }

  lemma {:induction false} RunsIndexes(data: seq<nat>)
    ensures forall r :: r in Runs(data) ==> r.index in data
  {
    if data != [] {
      RunsIndexes(data[..|data| - 1]);
    }
  }

  /** A greedy list never falls behind: if `other` still has to spell what `greedy` spells,
      preceded by `lead` items more, it needs at least as many runs. */
  lemma {:induction false} GreedyStaysAhead(greedy: seq<Run>, other: seq<Run>, lead: nat)
    requires Greedy(greedy)
    requires forall i :: 0 <= i < |other| ==> other[i].length <= 255
    requires lead <= |Expand(other)| && Expand(other)[lead..] == Expand(greedy)
    ensures |greedy| <= |other|
    decreases |other|
  {
    if greedy != [] {
      var g, o := greedy[0], other[0];
      if o.length <= lead {
        assert Expand(other)[lead..] == Expand(other[1..])[lead - o.length..];
        GreedyStaysAhead(greedy, other[1..], lead - o.length);
      } else {
        var taken := o.length - lead;
        assert forall i :: 0 <= i < taken ==> Expand(greedy)[i] == Expand(other)[lead + i] == o.index;
        FirstRunCovers(greedy, taken, o.index);
        assert Expand(other[1..])[g.length - taken..] == Expand(other)[lead..][g.length..] == Expand(greedy[1..]);
        assert Greedy(greedy[1..]);
        GreedyStaysAhead(greedy[1..], other[1..], g.length - taken);
      }
    }
  }

  lemma SecondRunStart(runs: seq<Run>)
    requires |runs| > 1 && runs[1].length > 0
    ensures |Expand(runs)| > runs[0].length && Expand(runs)[runs[0].length] == runs[1].index
  {
    var rest := runs[1..];
    assert Expand(rest) == Repeat(rest[0].index, rest[0].length) + Expand(rest[1..]);
  }

  /** A constant stretch of at most 255 items at the front fits in the first greedy run. */
  lemma FirstRunCovers(greedy: seq<Run>, taken: nat, v: nat)
    requires greedy != [] && Greedy(greedy)
    requires 0 < taken <= 255 && taken <= |Expand(greedy)|
    requires forall i :: 0 <= i < taken ==> Expand(greedy)[i] == v
    ensures taken <= greedy[0].length
  {
    assert Expand(greedy)[0] == greedy[0].index;
    if |greedy| > 1 {
      SecondRunStart(greedy);
    } else {
      assert greedy[1..] == [];
    }
  }

  /** No list of runs of at most 255 items that expands to the same data is shorter. */
  lemma RunsOptimal(data: seq<nat>, other: seq<Run>)
    requires forall i :: 0 <= i < |other| ==> other[i].length <= 255
    requires Expand(other) == data
    ensures |Runs(data)| <= |other|
  {
    RunsExpand(data);
    assert Expand(other)[0..] == data;
    GreedyStaysAhead(Runs(data), other, 0);
  }
}
