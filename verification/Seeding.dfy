/** Pre-populating the palette (packages/nouns-sdk/src/image/png-collection-encoder.ts). The colours
    are of any type; `first` is the entry for transparent pixels. */
module Seeding {
  import opened JsMap
  import opened Palette
  import opened Sequences

  /** The colour map after the constructor: `first` at 0, then each given colour at its position. */
  function Seeded<K(!new, ==)>(first: K, colours: seq<K>): JsMap<K, nat> {
    if colours == [] then JsMap([first], map[first := 0])
    else Seeded(first, colours[..|colours| - 1]).Put(colours[|colours| - 1], |colours| - 1)
  }

  /** Keys are added one at a time; if every one of them was new, each colour sits at its position. */
  lemma {:induction false} SeededKeys<K(!new)>(first: K, colours: seq<K>)
    ensures var t := Seeded(first, colours);
      && t.Valid() && 1 <= |t.keys| <= |colours| + 1 && t.keys[0] == first
      && (forall k :: k in t.keys <==> k == first || k in colours)
      && (forall k :: k in t.vals ==> t.vals[k] < |colours| || t.vals[k] == 0)
      && (|t.keys| == |colours| + 1 ==>
           forall i :: 0 <= i < |colours| ==> t.keys[i + 1] == colours[i] && t.vals[colours[i]] == i)
  {
    if colours != [] {
      SeededKeys(first, colours[..|colours| - 1]);
      assert colours == colours[..|colours| - 1] + [colours[|colours| - 1]];
    }
  }

  // ---------- Counting names

  /** How many different names there are, `first` included. */
  ghost function Distinct<K(!new)>(first: K, s: seq<K>): nat {
    |{first} + (set c | c in s)|
  }

  /** None of t is `first`, in s, or twice in t. */
  ghost predicate AllNew<K(!new)>(first: K, s: seq<K>, t: seq<K>) {
    NoDup(t) && forall c :: c in t ==> c != first && c !in s
  }

  lemma DistinctOne<K(!new)>(first: K, s: seq<K>, c: K)
    ensures Distinct(first, s + [c]) == Distinct(first, s) + if c == first || c in s then 0 else 1
  {
    var names := {first} + (set x | x in s);
    assert {first} + (set x | x in s + [c]) == names + {c};
    if c == first || c in s {
      assert names + {c} == names;
    }
  }

  lemma NoDupSnoc<K(!new)>(t: seq<K>, c: K)
    ensures NoDup(t + [c]) <==> NoDup(t) && c !in t
  {
    var all := t + [c];
    assert all[|t|] == c && forall i :: 0 <= i < |t| ==> all[i] == t[i];
  }

  lemma AllNewOne<K(!new)>(first: K, s: seq<K>, t: seq<K>, c: K)
    ensures AllNew(first, s, t + [c]) <==> AllNew(first, s, t) && c != first && c !in s + t
  {
    NoDupSnoc(t, c);
    assert forall x :: x in t + [c] <==> x in t || x == c;
    assert c in s + t <==> c in s || c in t;
  }

  /** Appending t adds at most |t| names, and exactly that many if all of them are new. */
  lemma {:induction false} DistinctConcat<K(!new)>(first: K, s: seq<K>, t: seq<K>)
    ensures Distinct(first, s + t) <= Distinct(first, s) + |t|
    ensures Distinct(first, s + t) == Distinct(first, s) + |t| <==> AllNew(first, s, t)
  {
    if t == [] {
      assert s + t == s;
    } else {
      var init, c := t[..|t| - 1], t[|t| - 1];
      assert t == init + [c] && s + t == s + init + [c];
      DistinctConcat(first, s, init);
      DistinctOne(first, s + init, c);
      AllNewOne(first, s, init, c);
    }
  }

  lemma {:induction false} SeededSize<K(!new)>(first: K, colours: seq<K>)
    ensures |Seeded(first, colours).keys| == Distinct(first, colours)
  {
    if colours == [] {
      assert {first} + (set c | c in colours) == {first};
    } else {
      var init, c := colours[..|colours| - 1], colours[|colours| - 1];
      assert colours == init + [c];
      SeededSize(first, init);
      SeededKeys(first, init);
      DistinctOne(first, init, c);
    }
  }

  // ---------- One more colour

  lemma RankedPut<K(!new)>(t: JsMap<K, nat>, first: K, names: iset<K>, c: K, n: nat)
    requires t.Valid() && t.keys != [] && c !in t.vals
    ensures Ranked(t.Put(c, n), first, names) <==> Ranked(t, first, names) && (c in names ==> n == |t.keys|)
  {
    var t' := t.Put(c, n);
    assert t'.keys[|t.keys|] == c;
    assert forall i :: 0 <= i < |t.keys| ==> t.keys[i] == t'.keys[i] && t.keys[i] in t.keys;
  }

  ghost predicate NoneOf<K(!new)>(s: seq<K>, names: iset<K>) {
    forall c :: c in s ==> c !in names
  }

  lemma RankedOverwrite<K(!new)>(t: JsMap<K, nat>, first: K, names: iset<K>, c: K, n: nat)
    requires t.Valid() && t.keys != [] && c in t.vals && c !in names
    ensures Ranked(t.Put(c, n), first, names) <==> Ranked(t, first, names)
  {
    assert forall i :: 0 <= i < |t.keys| && t.keys[i] in names ==> t.Put(c, n).vals[t.keys[i]] == t.vals[t.keys[i]];
  }

  lemma UnreadColour<K(!new)>(first: K, names: iset<K>, init: seq<K>, c: K)
    requires c !in names
    ensures Ranked(Seeded(first, init + [c]), first, names) <==> Ranked(Seeded(first, init), first, names)
  {
    assert (init + [c])[..|init|] == init;
    SeededKeys(first, init);
    if c in init || c == first {
      RankedOverwrite(Seeded(first, init), first, names, c, |init|);
    } else {
      RankedPut(Seeded(first, init), first, names, c, |init|);
    }
  }

  /** The map was ranked, had as many keys as colours, and the colour is new. */
  ghost predicate NextInRank<K(!new)>(first: K, names: iset<K>, init: seq<K>, c: K) {
    c !in init && Ranked(Seeded(first, init), first, names) && Distinct(first, init) == |init|
  }

  /** The colour, given a second time, gets to where it stands; no other one was given before. */
  ghost predicate SecondTime<K(!new)>(first: K, names: iset<K>, init: seq<K>, c: K) {
    && init != [] && init[|init| - 1] == c && Distinct(first, init) == |init| + 1
    && NoneOf(init[..|init| - 1], names)
  }

  /** The keys are `first` and the given colours, each mapped to the position it was given at. */
  ghost predicate Lined<K(!new)>(t: JsMap<K, nat>, first: K, init: seq<K>) {
    && t.Valid() && |t.keys| == |init| + 1 && t.keys[0] == first
    && forall i :: 0 <= i < |init| ==> t.keys[i + 1] == init[i] && init[i] in t.vals && t.vals[init[i]] == i
  }

  lemma LinedAgain<K(!new)>(t: JsMap<K, nat>, first: K, names: iset<K>, init: seq<K>, p: nat)
    requires Lined(t, first, init) && p < |init| && init[p] in names && first !in names
    ensures Ranked(t.Put(init[p], |init|), first, names) <==> p == |init| - 1 && NoneOf(init[..|init| - 1], names)
  {
    var t', n := t.Put(init[p], |init|), |init|;
    assert t'.keys[p + 1] == init[p];
    assert forall i :: 0 <= i < n && i != p ==> t'.keys[i + 1] == init[i] != t.keys[p + 1] && t'.vals[init[i]] == i;
    if Ranked(t', first, names) {
      forall x | x in init[..n - 1] ensures x !in names {
        var i :| 0 <= i < n - 1 && init[i] == x;
        assert t'.keys[i + 1] == init[i];
      }
    }
    if p == n - 1 && NoneOf(init[..n - 1], names) {
      forall i | 0 <= i < n ensures t'.keys[i] !in names {
        assert i > 0 ==> t'.keys[i - 1 + 1] == init[..n - 1][i - 1];
      }
    }
  }

  lemma OldColour<K(!new)>(first: K, names: iset<K>, init: seq<K>, c: K)
    requires c in names && first !in names && c in init
    ensures Ranked(Seeded(first, init).Put(c, |init|), first, names) <==> SecondTime(first, names, init, c)
  {
    var t := Seeded(first, init);
    SeededKeys(first, init);
    SeededSize(first, init);
    if |t.keys| == |init| + 1 {
      assert forall i :: 0 <= i < |init| ==> init[i] in t.keys;
      var p :| 0 <= p < |init| && init[p] == c;
      LinedAgain(t, first, names, init, p);
      assert init[|init| - 1] == c ==> t.keys[|init| - 1 + 1] == t.keys[p + 1];
    } else {
      var p :| 0 <= p < |t.keys| && t.keys[p] == c;
      assert t.Put(c, |init|).vals[t.keys[p]] != p;
    }
  }

  lemma ReadColour<K(!new)>(first: K, names: iset<K>, init: seq<K>, c: K)
    requires c in names && first !in names
    ensures Ranked(Seeded(first, init + [c]), first, names) <==>
      NextInRank(first, names, init, c) || SecondTime(first, names, init, c)
  {
    var t := Seeded(first, init);
    assert (init + [c])[..|init|] == init;
    SeededKeys(first, init);
    SeededSize(first, init);
    if c in init {
      OldColour(first, names, init, c);
    } else {
      RankedPut(t, first, names, c, |init|);
    }
  }

  // ---------- The usable palettes

  /** A palette a + b + d of which only b matters. All of b is new where a has lost exactly one name.
      Where it has lost none, the first of b is given twice. */
  ghost predicate SeedShape<K(!new)>(first: K, names: iset<K>, a: seq<K>, b: seq<K>, d: seq<K>) {
    && NoneOf(a, names) && NoneOf(d, names)
    && (|| b == []
        || (Distinct(first, a) == |a| && AllNew(first, a, b))
        || (Distinct(first, a) == |a| + 1 && |b| >= 2 && b[0] == b[1] && AllNew(first, a, b[1..])))
  }

  /** The palettes the constructor seeds properly, if `names` are the names that are read. */
  ghost predicate Usable<K(!new)>(first: K, names: iset<K>, colours: seq<K>) {
    exists a, b, d :: colours == a + b + d && SeedShape(first, names, a, b, d)
  }

  lemma NoneUsable<K(!new)>(first: K, names: iset<K>, colours: seq<K>)
    requires NoneOf(colours, names)
    ensures Usable(first, names, colours)
  {
    assert colours == colours + [] + [];
    assert SeedShape(first, names, colours, [], []);
  }

  lemma UnreadLonger<K(!new)>(first: K, names: iset<K>, init: seq<K>, c: K)
    requires c !in names && Usable(first, names, init)
    ensures Usable(first, names, init + [c])
  {
    var a, b, d :| init == a + b + d && SeedShape(first, names, a, b, d);
    assert init + [c] == a + b + (d + [c]);
    assert SeedShape(first, names, a, b, d + [c]);
  }

  lemma Snoc<K>(s: seq<K>, t: seq<K>, init: seq<K>, c: K)
    requires s + t == init + [c] && t != []
    ensures t[|t| - 1] == c && t == t[..|t| - 1] + [c] && init == s + t[..|t| - 1]
  {
    assert (s + t)[|init|] == c;
    assert (s + t)[..|init|] == s + t[..|t| - 1];
    assert (init + [c])[..|init|] == init;
  }

  lemma UnreadShorter<K(!new)>(first: K, names: iset<K>, init: seq<K>, c: K, a: seq<K>, b: seq<K>, d: seq<K>)
    requires c !in names && init + [c] == a + b + d && SeedShape(first, names, a, b, d)
    ensures Usable(first, names, init)
  {
    if d != [] {
      Snoc(a + b, d, init, c);
      assert SeedShape(first, names, a, b, d[..|d| - 1]);
    } else if b == [] {
      assert a + b + d == a;
      assert forall x :: x in init ==> x in init + [c];
      NoneUsable(first, names, init);
    } else {
      assert a + b + d == a + b;
      Snoc(a, b, init, c);
      if Distinct(first, a) == |a| + 1 && |b| == 2 {
        assert forall x :: x in init ==> x in a || x == c;
        NoneUsable(first, names, init);
      } else {
        ShapeShorter(first, names, a, b[..|b| - 1], c);
        assert init == a + b[..|b| - 1] + [];
      }
    }
  }

  /** Cutting off the last colour that matters. */
  lemma ShapeShorter<K(!new)>(first: K, names: iset<K>, a: seq<K>, b: seq<K>, c: K)
    requires SeedShape(first, names, a, b + [c], []) && !(Distinct(first, a) == |a| + 1 && |b| == 1)
    ensures SeedShape(first, names, a, b, [])
    ensures Distinct(first, a + b) == |a + b| && c != first && c !in a + b
  {
    if Distinct(first, a) == |a| {
      AllNewOne(first, a, b, c);
      DistinctConcat(first, a, b);
    } else {
      assert b[0] == (b + [c])[0] && b[1] == (b + [c])[1];
      assert (b + [c])[1..] == b[1..] + [c];
      AllNewOne(first, a, b[1..], c);
      DistinctAgain(first, a, b);
    }
  }

  /** A colour given twice adds one name. */
  lemma DistinctAgain<K(!new)>(first: K, a: seq<K>, b: seq<K>)
    requires |b| >= 2 && b[0] == b[1]
    ensures Distinct(first, a + b) == Distinct(first, a + b[1..])
    ensures Distinct(first, a + b) == Distinct(first, a) + |b| - 1 <==> AllNew(first, a, b[1..])
  {
    assert b[1..][0] == b[0];
    assert forall x :: x in a + b <==> x in a + b[1..];
    assert (set x | x in a + b) == (set x | x in a + b[1..]);
    DistinctConcat(first, a, b[1..]);
  }

  lemma LastOf<K>(a: seq<K>, b: seq<K>, d: seq<K>)
    requires a + b + d != []
    ensures (a + b + d)[|a + b + d| - 1] ==
      if d != [] then d[|d| - 1] else if b != [] then b[|b| - 1] else a[|a| - 1]
  {
  }

  /** One more colour that is read. */
  lemma ReadShorter<K(!new)>(first: K, names: iset<K>, init: seq<K>, c: K, a: seq<K>, b: seq<K>, d: seq<K>)
    requires c in names && init + [c] == a + b + d && SeedShape(first, names, a, b, d)
    ensures (Usable(first, names, init) && Distinct(first, init) == |init| && c !in init) ||
      SecondTime(first, names, init, c)
  {
    LastOf(a, b, d);
    assert (init + [c])[|init|] == c;
    if b != [] && d == [] {
      assert a + b + d == a + b;
      Snoc(a, b, init, c);
      if Distinct(first, a) == |a| + 1 && |b| == 2 {
        assert b[1..] == [c] && init == a + [c];
        DistinctConcat(first, a, [c]);
        assert init[..|init| - 1] == a;
      } else {
        ShapeShorter(first, names, a, b[..|b| - 1], c);
        assert init == a + b[..|b| - 1] + [];
      }
    }
  }

  lemma OneShape<K(!new)>(first: K, names: iset<K>, init: seq<K>, c: K)
    requires NoneOf(init, names) && Distinct(first, init) == |init| && c != first && c !in init
    ensures SeedShape(first, names, init, [] + [] + [c], [])
  {
  }

  lemma LongerShape<K(!new)>(first: K, names: iset<K>, a: seq<K>, b: seq<K>, d: seq<K>, c: K)
    requires SeedShape(first, names, a, b, d) && b != [] && c != first && c !in a + (b + d)
    requires Distinct(first, a + (b + d)) == |a + (b + d)|
    ensures SeedShape(first, names, a, b + d + [c], [])
  {
    var all := b + d;
    if Distinct(first, a) == |a| {
      DistinctConcat(first, a, all);
      AllNewOne(first, a, all, c);
    } else {
      assert all[0] == all[1] && (all + [c])[0] == (all + [c])[1];
      DistinctAgain(first, a, all);
      AllNewOne(first, a, all[1..], c);
      assert (all + [c])[1..] == all[1..] + [c];
    }
  }

  lemma Regroup<K>(a: seq<K>, b: seq<K>, d: seq<K>, c: K)
    ensures a + (b + d) == a + b + d
    ensures a + (b + d + [c]) + [] == a + b + d + [c]
  {
  }

  lemma NextLonger<K(!new)>(first: K, names: iset<K>, init: seq<K>, c: K)
    requires c in names && c != first && c !in init && Usable(first, names, init) && Distinct(first, init) == |init|
    ensures Usable(first, names, init + [c])
  {
    var a, b, d :| init == a + b + d && SeedShape(first, names, a, b, d);
    Regroup(a, b, d, c);
    if b == [] {
      Regroup(init, [], [], c);
      OneShape(first, names, init, c);
    } else {
      LongerShape(first, names, a, b, d, c);
    }
  }

  lemma DistinctAtMost<K(!new)>(first: K, s: seq<K>)
    ensures Distinct(first, s) <= |s| + 1
  {
    DistinctConcat(first, [], s);
    assert [] + s == s;
    assert {first} + (set x | x in []) == {first};
  }

  lemma SecondLonger<K(!new)>(first: K, names: iset<K>, init: seq<K>, c: K)
    requires SecondTime(first, names, init, c)
    ensures Usable(first, names, init + [c])
  {
    var a := init[..|init| - 1];
    assert init == a + [c];
    DistinctConcat(first, a, [c]);
    DistinctAtMost(first, a);
    TwiceShape(first, names, a, c);
    assert init + [c] == a + [c, c] + [];
  }

  lemma TwiceShape<K(!new)>(first: K, names: iset<K>, a: seq<K>, c: K)
    requires NoneOf(a, names) && Distinct(first, a) == |a| + 1 && AllNew(first, a, [c])
    ensures SeedShape(first, names, a, [c, c], [])
  {
    assert [c, c][1..] == [c];
  }

  lemma UsableStep<K(!new)>(first: K, names: iset<K>, init: seq<K>, c: K)
    requires first !in names
    ensures Usable(first, names, init + [c]) <==>
      if c in names
      then
        || (c !in init && Usable(first, names, init) && Distinct(first, init) == |init|)
        || SecondTime(first, names, init, c)
      else Usable(first, names, init)
  {
    if Usable(first, names, init + [c]) {
      var a, b, d :| init + [c] == a + b + d && SeedShape(first, names, a, b, d);
      if c in names {
        ReadShorter(first, names, init, c, a, b, d);
      } else {
        UnreadShorter(first, names, init, c, a, b, d);
      }
    }
    if c !in names && Usable(first, names, init) {
      UnreadLonger(first, names, init, c);
    } else if c in names && SecondTime(first, names, init, c) {
      SecondLonger(first, names, init, c);
    } else if c in names && c !in init && Usable(first, names, init) && Distinct(first, init) == |init| {
      NextLonger(first, names, init, c);
    }
  }

  /** Exactly these palettes seed a map in which every name that is read maps to its position. */
  lemma {:induction false} UsableExact<K(!new)>(first: K, names: iset<K>, colours: seq<K>)
    requires first !in names
    ensures Ranked(Seeded(first, colours), first, names) <==> Usable(first, names, colours)
  {
    if colours == [] {
      NoneUsable(first, names, colours);
    } else {
      var init, c := colours[..|colours| - 1], colours[|colours| - 1];
      assert colours == init + [c];
      UsableExact(first, names, init);
      UsableStep(first, names, init, c);
      if c in names {
        ReadColour(first, names, init, c);
      } else {
        UnreadColour(first, names, init, c);
      }
    }
  }

  // ---------- Palettes of colours

  /** The palettes for which every key maps to its position: none, one that starts with `first` and
      repeats nothing, or one without `first` whose first colour, and no other, stands twice in front. */
  ghost predicate SeedOk<K(!new)>(first: K, colours: seq<K>) {
    || colours == []
    || (colours[0] == first && NoDup(colours))
    || (|colours| >= 2 && colours[0] == colours[1] && first !in colours && NoDup(colours[1..]))
  }

  /** Such a palette, followed by nothing but `first`. */
  ghost predicate SeedOkThen<K(!new)>(first: K, a: seq<K>, d: seq<K>) {
    SeedOk(first, a) && forall c :: c in d ==> c == first
  }

  /** Up to some place such a palette, from there on `first` only. */
  ghost predicate SeedOkPrefix<K(!new)>(first: K, colours: seq<K>) {
    exists k :: 0 <= k <= |colours| && SeedOkThen(first, colours[..k], colours[k..])
  }

  lemma OnlyFirst<K(!new)>(first: K, a: seq<K>)
    requires forall c :: c in a ==> c == first
    ensures Distinct(first, a) == 1
  {
    assert {first} + (set c | c in a) == {first};
  }

  lemma ShapeSeedOk<K(!new)>(first: K, names: iset<K>, a: seq<K>, b: seq<K>, d: seq<K>)
    requires SeedShape(first, names, a, b, d) && first !in names
    requires forall c :: c in a + b + d ==> c == first || c in names
    ensures SeedOkPrefix(first, a + b + d)
  {
    var colours := a + b + d;
    assert forall c :: c in a || c in b || c in d ==> c in colours;
    OnlyFirst(first, a);
    if b == [] {
      assert colours[..0] == [] && colours[0..] == colours;
      assert SeedOkThen(first, colours[..0], colours[0..]);
    } else {
      assert colours[..|a + b|] == a + b && colours[|a + b|..] == d;
      if Distinct(first, a) == |a| {
        assert a == [a[0]] && a[0] in a && (a + b)[0] == first;
        NoDupAppend(a, b);
      } else {
        assert a == [] && a + b == b;
        assert forall i :: 1 <= i < |b| ==> b[i] == b[1..][i - 1];
        assert first !in b by { assert b[0] == b[1..][0]; }
      }
      assert SeedOkThen(first, colours[..|a + b|], colours[|a + b|..]);
    }
  }

  lemma SeedOkShape<K(!new)>(first: K, names: iset<K>, a: seq<K>, d: seq<K>)
    requires SeedOkThen(first, a, d) && first !in names
    ensures Usable(first, names, a + d)
  {
    if a == [] {
      NoneUsable(first, names, a + d);
    } else if a[0] == first {
      assert a == [first] + a[1..];
      OnlyFirst(first, [first]);
      assert AllNew(first, [first], a[1..]);
      assert a + d == [first] + a[1..] + d;
      assert SeedShape(first, names, [first], a[1..], d);
    } else {
      OnlyFirst(first, []);
      assert forall c :: c in a[1..] ==> c in a;
      assert a + d == [] + a + d;
      assert SeedShape(first, names, [], a, d);
    }
  }

  lemma UsablePrefix<K(!new)>(first: K, names: iset<K>, colours: seq<K>)
    requires first !in names && forall c :: c in colours ==> c == first || c in names
    ensures Usable(first, names, colours) ==> SeedOkPrefix(first, colours)
  {
    if Usable(first, names, colours) {
      var a, b, d :| colours == a + b + d && SeedShape(first, names, a, b, d);
      ShapeSeedOk(first, names, a, b, d);
    }
  }

  lemma PrefixUsable<K(!new)>(first: K, names: iset<K>, colours: seq<K>)
    requires first !in names && SeedOkPrefix(first, colours)
    ensures Usable(first, names, colours)
  {
    var k :| 0 <= k <= |colours| && SeedOkThen(first, colours[..k], colours[k..]);
    SeedOkShape(first, names, colours[..k], colours[k..]);
    assert colours == colours[..k] + colours[k..];
  }

  /** Where all entries are `first` or names that are read, those are the usable palettes. */
  lemma ColourSeedExact<K(!new)>(first: K, names: iset<K>, colours: seq<K>)
    requires first !in names && forall c :: c in colours ==> c == first || c in names
    ensures Ranked(Seeded(first, colours), first, names) <==> SeedOkPrefix(first, colours)
  {
    UsableExact(first, names, colours);
    UsablePrefix(first, names, colours);
    if SeedOkPrefix(first, colours) {
      PrefixUsable(first, names, colours);
    }
  }

  lemma {:induction false} FirstValue<K(!new)>(first: K, colours: seq<K>)
    ensures first in Seeded(first, colours).vals
    ensures Seeded(first, colours).vals[first] == 0 <==> forall i :: 0 < i < |colours| ==> colours[i] != first
  {
    if colours != [] {
      FirstValue(first, colours[..|colours| - 1]);
    }
  }

  ghost predicate Other<K(!new)>(first: K, c: K) {
    c != first
  }

  ghost function Others<K(!new)>(first: K): iset<K> {
    iset c | Other(first, c)
  }

  lemma SeedOkWhole<K(!new)>(first: K, colours: seq<K>)
    requires forall i :: 0 < i < |colours| ==> colours[i] != first
    ensures SeedOkPrefix(first, colours) <==> SeedOk(first, colours)
  {
    assert colours[..|colours|] == colours && colours[|colours|..] == [];
    if SeedOk(first, colours) {
      assert SeedOkThen(first, colours[..|colours|], colours[|colours|..]);
    }
    if k :| 0 <= k < |colours| && SeedOkThen(first, colours[..k], colours[k..]) {
      assert colours[k] in colours[k..] && colours[|colours| - 1] in colours[k..];
      assert colours == [colours[0]];
    }
  }

  lemma SeedOkFirst<K(!new)>(first: K, colours: seq<K>)
    requires SeedOk(first, colours)
    ensures forall i :: 0 < i < |colours| ==> colours[i] != first
  {
  }

  /** The palettes for which every key maps to its position, that of `first` included. */
  lemma SeedExact<K(!new)>(first: K, colours: seq<K>)
    ensures var t := Seeded(first, colours);
      (forall i :: 0 <= i < |t.keys| ==> t.keys[i] in t.vals && t.vals[t.keys[i]] == i) <==> SeedOk(first, colours)
  {
    var t := Seeded(first, colours);
    SeededKeys(first, colours);
    FirstValue(first, colours);
    ColourSeedExact(first, Others(first), colours);
    assert forall i :: 0 <= i < |t.keys| ==> t.keys[i] in t.keys && (i > 0 ==> t.keys[i] in Others(first));
    if forall i :: 0 < i < |colours| ==> colours[i] != first {
      SeedOkWhole(first, colours);
    }
    if SeedOk(first, colours) {
      SeedOkFirst(first, colours);
    }
  }
}
