/** The encoder class of packages/nouns-sdk/src/image/image.ts. */
module ImageEncoder {
  import opened Hex
  import opened Palette
  import opened Picture
  import opened RunLength

  function FormatRun(r: Run): string {
    ToPaddedHex(r.length) + ToPaddedHex(r.index)
  }

  /** `parts.join('')` */
  function Join(parts: seq<string>): string {
    if parts == [] then "" else Join(parts[..|parts| - 1]) + parts[|parts| - 1]
  }

  lemma {:induction false} JoinHead(parts: seq<string>)
    requires parts != []
    ensures Join(parts) == parts[0] + Join(parts[1..])
  {
    var init, tail, last := parts[..|parts| - 1], parts[1..], parts[|parts| - 1];
    if init != [] {
      JoinHead(init);
      assert tail[..|tail| - 1] == init[1..] && tail[|tail| - 1] == last;
      assert parts[0] + Join(init[1..]) + last == parts[0] + (Join(init[1..]) + last);
    }
  }

  function Chunks(runs: seq<Run>): (parts: seq<string>)
    ensures |parts| == |runs|
  {
    seq(|runs|, i requires 0 <= i < |runs| => FormatRun(runs[i]))
  }

  function FormatRuns(runs: seq<Run>): string {
    Join(Chunks(runs))
  }

  lemma FormatAppend(runs: seq<Run>, r: Run)
    ensures FormatRuns(runs + [r]) == FormatRuns(runs) + ToPaddedHex(r.length) + ToPaddedHex(r.index)
  {
    assert Chunks(runs + [r]) == Chunks(runs) + [FormatRun(r)];
  }

  lemma RunsNext(data: seq<nat>, i: nat)
    requires i < |data|
    ensures Runs(data[..i + 1]) == Grow(Runs(data[..i]), data[i])
  {
    assert data[..i + 1][..i] == data[..i];
  }

  lemma GrowLast(done: seq<Run>, last: Run, v: nat)
    ensures Grow(done + [last], v) ==
      if v != last.index || last.length == MAX_RUN then done + [last] + [Run(1, v)]
      else done + [Run(last.length + 1, v)]
  {
    assert (done + [last])[..|done|] == done;
  }

  /** The runs of the first i items. */
  ghost predicate RunsSoFar(data: seq<nat>, i: nat, done: seq<Run>, last: Run) {
    i <= |data| && Runs(data[..i]) == done + [last]
  }

  lemma RunsSoFarNext(data: seq<nat>, i: nat, done: seq<Run>, last: Run)
    requires RunsSoFar(data, i, done, last) && i < |data|
    ensures if data[i] != last.index || last.length == MAX_RUN
            then RunsSoFar(data, i + 1, done + [last], Run(1, data[i]))
            else RunsSoFar(data, i + 1, done, Run(last.length + 1, data[i]))
  {
    RunsNext(data, i);
    GrowLast(done, last, data[i]);
  }

  lemma RunsAll(data: seq<nat>, done: seq<Run>, last: Run)
    requires RunsSoFar(data, |data|, done, last)
    ensures Runs(data) == done + [last] && Runs(data)[..|Runs(data)| - 1] == done
  {
    assert data[..|data|] == data;
  }

  /** The palette index 0 and the bounds as top, right, bottom, left. */
  function Metadata(b: Bounds): seq<string> {
    [ToPaddedHex(0), ToPaddedHex(b.top), ToPaddedHex(b.right), ToPaddedHex(b.bottom), ToPaddedHex(b.left)]
  }

  function Format(b: Bounds, runs: seq<Run>): string {
    "0x" + Join(Metadata(b)) + FormatRuns(runs)
  }

  /** The k-th pixel of a box. */
  function PixelAt(p: Picture, b: Bounds, k: nat): Rgba
    requires b.left < b.right && 0 <= b.left && 0 <= b.top
  {
    IndexXY(b, k);
    p.rgbaAt(b.X(k), b.Y(k))
  }

  /** The colours of the first n pixels of a box, transparent ones included. */
  function BoxColours(p: Picture, b: Bounds, n: nat): (s: seq<string>)
    requires n > 0 ==> b.left < b.right && 0 <= b.left && 0 <= b.top
    ensures |s| == n
  {
    seq(n, k requires 0 <= k < n => PixelAt(p, b, k).Colour())
  }

  /** The palette after an image with crop box b was encoded with palette t. */
  function Absorb(t: Colours, p: Picture, b: Bounds): Colours
    requires b.Readable()
  {
    InsertAll(t, BoxColours(p, b, b.Area()))
  }

  lemma AbsorbHasColours(t: Colours, p: Picture, b: Bounds, n: nat, k: nat)
    requires k < n && b.left < b.right && 0 <= b.left && 0 <= b.top
    ensures PixelAt(p, b, k).Colour() in InsertAll(t, BoxColours(p, b, n)).vals
  {
    InsertAllGrows(t, BoxColours(p, b, n));
    assert BoxColours(p, b, n)[k] == PixelAt(p, b, k).Colour();
  }

  /** The palette indexes of the first n pixels, looked up in a palette that has their colours. */
  function BoxIndexes(p: Picture, b: Bounds, t: Colours, n: nat): (s: seq<nat>)
    requires n > 0 ==> b.left < b.right && 0 <= b.left && 0 <= b.top
    requires forall k: nat :: k < n ==> PixelAt(p, b, k).Colour() in t.vals
    ensures |s| == n
  {
    seq(n, k requires 0 <= k < n => PixelIndex(t, PixelAt(p, b, k)))
  }

  /** What `toRLE` returns for crop box b, starting from palette t. */
  function Encoded(t: Colours, p: Picture, b: Bounds): string
    requires b.Readable()
  {
    forall k: nat | k < b.Area() ensures PixelAt(p, b, k).Colour() in Absorb(t, p, b).vals {
      AbsorbHasColours(t, p, b, b.Area(), k);
    }
    Format(b, Runs(BoxIndexes(p, b, Absorb(t, p, b), b.Area())))
  }

  /** One more pixel, row by row. */
  lemma BoxStep(t: Colours, p: Picture, b: Bounds, n: nat)
    requires b.left < b.right && 0 <= b.left && 0 <= b.top
    ensures InsertAll(t, BoxColours(p, b, n + 1)) ==
      Insert(InsertAll(t, BoxColours(p, b, n)), PixelAt(p, b, n).Colour())
  {
    BoxColoursNext(p, b, n);
    InsertAllNext(t, BoxColours(p, b, n), PixelAt(p, b, n).Colour());
  }

  lemma BoxColoursNext(p: Picture, b: Bounds, n: nat)
    requires b.left < b.right && 0 <= b.left && 0 <= b.top
    ensures BoxColours(p, b, n + 1) == BoxColours(p, b, n) + [PixelAt(p, b, n).Colour()]
  {
  }

  /** The index is the one the map gives the pixel. */
  ghost predicate IndexedPixel(now: Colours, c: Rgba, index: nat) {
    c.Colour() in now.vals && index == PixelIndex(now, c)
  }

  ghost predicate IndexedPixels(now: Colours, p: Picture, b: Bounds, indexes: seq<nat>)
    requires b.left < b.right && 0 <= b.left && 0 <= b.top
  {
    forall k :: 0 <= k < |indexes| ==> IndexedPixel(now, PixelAt(p, b, k), indexes[k])
  }

  /** The state of the pixel loop: the map has absorbed the colours of the pixels read so far,
      and each index read is the one this map gives. */
  ghost predicate Indexed(now: Colours, t: Colours, p: Picture, b: Bounds, indexes: seq<nat>) {
    && (indexes == [] ==> now == t)
    && (indexes != [] ==>
          && b.left < b.right && 0 <= b.left && 0 <= b.top
          && now == InsertAll(t, BoxColours(p, b, |indexes|))
          && IndexedPixels(now, p, b, indexes))
  }

  /** A colour more in the map changes no index. */
  lemma IndexedOld(now: Colours, p: Picture, b: Bounds, indexes: seq<nat>, colour: string)
    requires b.left < b.right && 0 <= b.left && 0 <= b.top && IndexedPixels(now, p, b, indexes)
    ensures IndexedPixels(Insert(now, colour), p, b, indexes)
  {
    forall k | 0 <= k < |indexes| ensures IndexedPixel(Insert(now, colour), PixelAt(p, b, k), indexes[k]) {
      assert IndexedPixel(now, PixelAt(p, b, k), indexes[k]);
      InsertKeepsIndex(now, colour, PixelAt(p, b, k));
    }
  }

  lemma IndexedSnoc(now: Colours, p: Picture, b: Bounds, indexes: seq<nat>, index: nat)
    requires b.left < b.right && 0 <= b.left && 0 <= b.top && IndexedPixels(now, p, b, indexes)
    requires IndexedPixel(now, PixelAt(p, b, |indexes|), index)
    ensures IndexedPixels(now, p, b, indexes + [index])
  {
    var all := indexes + [index];
    forall k | 0 <= k < |all| ensures IndexedPixel(now, PixelAt(p, b, k), all[k]) {
      assert all[k] == if k < |indexes| then indexes[k] else index;
    }
  }

  lemma IndexedNext(now: Colours, t: Colours, p: Picture, b: Bounds, indexes: seq<nat>, c: Rgba)
    requires Indexed(now, t, p, b, indexes) && b.left < b.right && 0 <= b.left && 0 <= b.top
    requires PixelAt(p, b, |indexes|) == c
    ensures var next := Insert(now, c.Colour());
      Indexed(next, t, p, b, indexes + [PixelIndex(next, c)])
  {
    BoxStep(t, p, b, |indexes|);
    IndexedOld(now, p, b, indexes, c.Colour());
    var next := Insert(now, c.Colour());
    IndexedSnoc(next, p, b, indexes, PixelIndex(next, c));
  }

  lemma IndexedStep(now: Colours, t: Colours, p: Picture, b: Bounds, indexes: seq<nat>, x: int, y: int)
    requires Indexed(now, t, p, b, indexes)
    requires 0 <= b.left <= x < b.right && 0 <= b.top <= y && |indexes| == b.Index(x, y)
    ensures var c := p.rgbaAt(x, y);
      var next := Insert(now, c.Colour());
      Indexed(next, t, p, b, indexes + [PixelIndex(next, c)])
  {
    XYIndex(b, x, y);
    IndexedNext(now, t, p, b, indexes, p.rgbaAt(x, y));
  }

  /** At the end of the loop. */
  lemma IndexedAll(now: Colours, t: Colours, p: Picture, b: Bounds, indexes: seq<nat>)
    requires b.Readable()
    requires |indexes| == b.Area() && Indexed(now, t, p, b, indexes)
    ensures now == Absorb(t, p, b)
    ensures Encoded(t, p, b) == Format(b, Runs(indexes))
  {
    assert indexes == BoxIndexes(p, b, now, b.Area());
  }

  class Image {
    const picture: Picture
    var bounds: Bounds
    var tuples: seq<Run>

    constructor (p: Picture)
      ensures picture == p && bounds == Bounds(0, 0, 0, 0) && tuples == []
    {
      picture := p;
      bounds := Bounds(0, 0, 0, 0);
      tuples := [];
    }

    method IsTransparentRow(row: nat) returns (clear: bool)
      requires row < picture.height
      ensures clear <==> picture.RowClear(row)
    {
      for column := 0 to picture.width
        invariant forall x :: x < column ==> !picture.Opaque(x, row)
      {
        if picture.rgbaAt(column, row).a != 0 {
          assert picture.Opaque(column, row);
          return false;
        }
      }
      return true;
    }

    method IsTransparentColumn(column: nat) returns (clear: bool)
      requires column < picture.width
      ensures clear <==> picture.ColumnClear(column)
    {
      for row := 0 to picture.height
        invariant forall y :: y < row ==> !picture.Opaque(column, y)
      {
        if picture.rgbaAt(column, row).a != 0 {
          assert picture.Opaque(column, row);
          return false;
        }
      }
      return true;
    }

    method CalcBounds() returns (b: Bounds)
      ensures IsCrop(picture, b)
    {
      var p := picture;
      var bottom := p.height - 1;
      var clear := true;
      while bottom > 0
        invariant -1 <= bottom < p.height
        invariant bottom == -1 ==> p.height == 0
        invariant forall x, y :: bottom < y ==> !p.Opaque(x, y)
      {
        clear := IsTransparentRow(bottom);
        if !clear { break; }
        bottom := bottom - 1;
      }
      var top := 0;
      while top < bottom
        invariant 0 <= top && (top <= bottom || (top == 0 && bottom == -1))
        invariant forall x, y :: y < top ==> !p.Opaque(x, y)
      {
        clear := IsTransparentRow(top);
        if !clear { break; }
        top := top + 1;
      }
      var right := p.width - 1;
      while right >= 0
        invariant -1 <= right < p.width
        invariant forall x, y :: right < x ==> !p.Opaque(x, y)
      {
        clear := IsTransparentColumn(right);
        if !clear { break; }
        right := right - 1;
      }
      var left := 0;
      while left < right
        invariant 0 <= left && (left <= right || (left == 0 && right == -1))
        invariant forall x, y :: x < left ==> !p.Opaque(x, y)
      {
        clear := IsTransparentColumn(left);
        if !clear { break; }
        left := left + 1;
      }
      b := Bounds(top, right + 1, bottom, left);
      if !p.Blank() {
        TightIsLeast(p, b);
      }
    }

    /** Run-length encodes the data. `tuples` collects all runs but the last one. */
    method Encode(data: seq<nat>) returns (encoding: string)
      modifies this`tuples
      ensures encoding == FormatRuns(Runs(data))
      ensures tuples == old(tuples) + if data == [] then [] else Runs(data)[..|Runs(data)| - 1]
    {
      encoding := "";
      if data == [] { return; }
      var previous := data[0];
      var count := 1;
      ghost var done: seq<Run> := [];
      RunsNext(data, 0);
      for i := 1 to |data|
        invariant RunsSoFar(data, i, done, Run(count, previous))
        invariant encoding == FormatRuns(done)
        invariant tuples == old(tuples) + done
      {
        RunsSoFarNext(data, i, done, Run(count, previous));
        if data[i] != previous || count == MAX_RUN {
          FormatAppend(done, Run(count, previous));
          encoding := encoding + ToPaddedHex(count) + ToPaddedHex(previous);
          tuples := tuples + [Run(count, previous)];
          done := done + [Run(count, previous)];
          count := 1;
          previous := data[i];
        } else {
          count := count + 1;
        }
      }
      RunsAll(data, done, Run(count, previous));
      FormatAppend(done, Run(count, previous));
      encoding := encoding + ToPaddedHex(count) + ToPaddedHex(previous);
    }

    /** The inner loop of `toRLE`: reads one row of the box. */
    method ReadRow(colours: ColourMap, before: seq<nat>, y: int, ghost t: Colours) returns (indexes: seq<nat>)
      requires bounds.left < bounds.right ==> 0 <= bounds.left && 0 <= bounds.top <= y
      requires bounds.left <= bounds.right && |before| == bounds.Index(bounds.left, y)
      requires Indexed(colours.table, t, picture, bounds, before)
      modifies colours
      ensures |indexes| == bounds.Index(bounds.left, y + 1)
      ensures Indexed(colours.table, t, picture, bounds, indexes)
    {
      indexes := before;
      var x := bounds.left;
      while x < bounds.right
        invariant bounds.left <= x <= bounds.right
        invariant |indexes| == bounds.Index(x, y)
        invariant Indexed(colours.table, t, picture, bounds, indexes)
      {
        IndexedStep(colours.table, t, picture, bounds, indexes, x, y);
        IndexNext(bounds, x, y);
        var index := colours.IndexOf(picture.rgbaAt(x, y));
        indexes := indexes + [index];
        x := x + 1;
      }
      IndexNext(bounds, x, y);
    }

    /** The two loops of `toRLE`: inserts the colours of the box and collects its palette indexes. */
    method ReadBox(colours: ColourMap) returns (indexes: seq<nat>)
      requires bounds.left < bounds.right ==> 0 <= bounds.left && 0 <= bounds.top
      requires bounds.left <= bounds.right && bounds.top <= bounds.bottom + 1
      modifies colours
      ensures colours.table == Absorb(old(colours.table), picture, bounds)
      ensures Encoded(old(colours.table), picture, bounds) == Format(bounds, Runs(indexes))
    {
      ghost var t := colours.table;
      IndexNext(bounds, bounds.left, bounds.top);
      indexes := [];
      var y := bounds.top;
      while y <= bounds.bottom
        invariant bounds.top <= y <= bounds.bottom + 1
        invariant |indexes| == bounds.Index(bounds.left, y)
        invariant Indexed(colours.table, t, picture, bounds, indexes)
      {
        indexes := ReadRow(colours, indexes, y, t);
        y := y + 1;
      }
      IndexEnd(bounds);
      IndexedAll(colours.table, t, picture, bounds, indexes);
    }

    /** Crops the picture, adds its colours to the map, and returns the encoded box. */
    method ToRLE(colours: ColourMap) returns (rle: string)
      modifies this, colours
      ensures IsCrop(picture, bounds)
      ensures colours.table == Absorb(old(colours.table), picture, bounds)
      ensures rle == Encoded(old(colours.table), picture, bounds)
    {
      bounds := CalcBounds();
      var indexes := ReadBox(colours);
      var runs := Encode(indexes);
      rle := "0x" + Join(Metadata(bounds)) + runs;
    }
  }
}
