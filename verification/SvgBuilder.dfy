/** Decoding and painting (packages/nouns-sdk/src/image/svg-builder.ts). Rectangles are records in
    pixel units; a later rectangle is painted on top of an earlier one. */
module SvgBuilder {
  import opened Arithmetic
  import opened Hex
  import opened Picture
  import opened RunLength
  import opened Wrappers

  datatype Decoded = Decoded(paletteIndex: nat, bounds: Bounds, runs: seq<Run>)

  /** `s.substring(from, to)` */
  function Substring(s: string, from: nat, to: nat): string
    requires from <= to
  {
    var lo, hi := if from < |s| then from else |s|, if to < |s| then to else |s|;
    s[lo..hi]
  }

  /** `parseInt(s.substring(i, i + 2), 16)` */
  function ByteAt(s: string, i: nat): (b: Option<nat>)
    ensures b.Some? ==> b.value < 256
  {
    var two := Substring(s, i, i + 2);
    if ParseHex(two).Some? then
      TwoCharsBelow256(two);
      ParseHex(two)
    else None
  }

  /** The chunks of up to four characters, as length and palette index. */
  function DecodeRuns(s: string): Option<seq<Run>> {
    if s == "" then Some([])
    else
      var chunk := Substring(s, 0, 4);
      var length :- ByteAt(chunk, 0);
      var index :- ByteAt(chunk, 2);
      var rest :- DecodeRuns(s[|chunk|..]);
      Some([Run(length, index)] + rest)
  }

  /** decodeImage; None where a field of the result would be NaN. */
  function DecodeImage(image: string): Option<Decoded> {
    var data := if "0x" <= image then image[2..] else image;
    var paletteIndex :- ByteAt(data, 0);
    var top :- ByteAt(data, 2);
    var right :- ByteAt(data, 4);
    var bottom :- ByteAt(data, 6);
    var left :- ByteAt(data, 8);
    var runs :- DecodeRuns(Substring(data, 10, 10 + |data|));
    Some(Decoded(paletteIndex, Bounds(top, right, bottom, left), runs))
  }

  /** The characters at i and i + 1, as far as there are any. */
  function Two(s: string, i: nat): string {
    if i + 2 <= |s| then s[i..i + 2] else if i < |s| then s[i..] else ""
  }

  /** Four characters a run, the last one possibly short: two for the length and two for the index. */
  ghost predicate RunsRead(s: string, runs: seq<Run>) {
    && |runs| == (|s| + 3) / 4
    && forall i :: 0 <= i < |runs| ==> RunRead(s, i, runs[i])
  }

  ghost predicate RunRead(s: string, i: nat, r: Run) {
    ParseHex(Two(s, 4 * i)) == Some(r.length) && ParseHex(Two(s, 4 * i + 2)) == Some(r.index)
  }

  lemma RunReadTail(s: string, i: nat, r: Run)
    requires |s| > 4
    ensures RunRead(s, i + 1, r) <==> RunRead(s[4..], i, r)
  {
    assert Two(s, 4 * (i + 1)) == Two(s[4..], 4 * i);
    assert Two(s, 4 * (i + 1) + 2) == Two(s[4..], 4 * i + 2);
  }

  lemma RunsReadTail(s: string, runs: seq<Run>)
    requires s != "" && runs != []
    ensures RunsRead(s, runs) <==>
      RunRead(s, 0, runs[0]) && RunsRead(if |s| > 4 then s[4..] else "", runs[1..])
  {
    if |s| > 4 {
      forall i | 0 <= i < |runs| - 1 ensures RunRead(s, i + 1, runs[i + 1]) <==> RunRead(s[4..], i, runs[1..][i]) {
        RunReadTail(s, i, runs[i + 1]);
      }
      if RunRead(s, 0, runs[0]) && RunsRead(s[4..], runs[1..]) {
        forall i | 0 < i < |runs| ensures RunRead(s, i, runs[i]) {
          assert RunRead(s[4..], i - 1, runs[1..][i - 1]);
        }
      }
    }
  }

  lemma ByteAtTwo(s: string, i: nat)
    ensures ByteAt(s, i) == ParseHex(Two(s, i))
  {
    assert Substring(s, i, i + 2) == Two(s, i);
  }

  lemma FirstRun(s: string)
    requires s != ""
    ensures var chunk := Substring(s, 0, 4);
      && ByteAt(chunk, 0) == ParseHex(Two(s, 0)) && ByteAt(chunk, 2) == ParseHex(Two(s, 2))
      && s[|chunk|..] == if |s| > 4 then s[4..] else ""
  {
    var chunk := Substring(s, 0, 4);
    if |s| >= 4 {
      assert chunk == s[..4] && chunk[0..2] == s[0..2] && chunk[2..4] == s[2..4];
    } else {
      assert chunk == s;
    }
    ByteAtTwo(chunk, 0);
    ByteAtTwo(chunk, 2);
  }

  /** Decoding succeeds exactly where every field of every chunk parses, and gives these fields. */
  lemma {:induction false} DecodeRunsExact(s: string, runs: seq<Run>)
    ensures DecodeRuns(s) == Some(runs) <==> RunsRead(s, runs)
    decreases |s|
  {
    if s != "" && runs != [] {
      FirstRun(s);
      DecodeRunsExact(if |s| > 4 then s[4..] else "", runs[1..]);
      RunsReadTail(s, runs);
      DecodeFirst(s, runs);
    }
  }

  lemma DecodeFirst(s: string, runs: seq<Run>)
    requires s != "" && runs != []
    ensures DecodeRuns(s) == Some(runs) <==>
      RunRead(s, 0, runs[0]) && DecodeRuns(if |s| > 4 then s[4..] else "") == Some(runs[1..])
  {
    FirstRun(s);
    assert [runs[0]] + runs[1..] == runs;
  }

  /** The image decodes to d: after an optional `0x` the palette index, top, right, bottom and left, and
      then the runs. */
  ghost predicate ImageRead(image: string, d: Decoded) {
    var data := if "0x" <= image then image[2..] else image;
    && ParseHex(Two(data, 0)) == Some(d.paletteIndex)
    && ParseHex(Two(data, 2)) == Some(d.bounds.top) && ParseHex(Two(data, 4)) == Some(d.bounds.right)
    && ParseHex(Two(data, 6)) == Some(d.bounds.bottom) && ParseHex(Two(data, 8)) == Some(d.bounds.left)
    && RunsRead(if |data| > 10 then data[10..] else "", d.runs)
  }

  lemma DecodeExact(image: string, d: Decoded)
    ensures DecodeImage(image) == Some(d) <==> ImageRead(image, d)
  {
    var data := if "0x" <= image then image[2..] else image;
    ByteAtTwo(data, 0);
    ByteAtTwo(data, 2);
    ByteAtTwo(data, 4);
    ByteAtTwo(data, 6);
    ByteAtTwo(data, 8);
    assert Substring(data, 10, 10 + |data|) == if |data| > 10 then data[10..] else "";
    DecodeRunsExact(if |data| > 10 then data[10..] else "", d.runs);
  }

  /** One `<rect>` of height 1. The fill is None where the palette has no such index. */
  datatype Rect = Rect(x: int, y: int, width: int, fill: Option<string>) {
    predicate Covers(px: int, py: int) {
      y == py && x <= px < x + width
    }
  }

  datatype Svg = Svg(background: string, rects: seq<Rect>)

  function Fill(palette: seq<string>, index: nat): Option<string> {
    if index < |palette| then Some(palette[index]) else None
  }

  /** How many rectangles paint a pixel. */
  function CoverCount(rects: seq<Rect>, x: int, y: int): nat {
    if rects == [] then 0
    else CoverCount(rects[..|rects| - 1], x, y) + if rects[|rects| - 1].Covers(x, y) then 1 else 0
  }

  /** What a pixel shows: the fill of the last rectangle that covers it, or what lies `below`. */
  function Shown(rects: seq<Rect>, x: int, y: int, below: Option<string>): Option<string> {
    if rects == [] then below
    else if rects[|rects| - 1].Covers(x, y) then rects[|rects| - 1].fill
    else Shown(rects[..|rects| - 1], x, y, below)
  }

  function TotalWidth(rects: seq<Rect>): int {
    if rects == [] then 0 else TotalWidth(rects[..|rects| - 1]) + rects[|rects| - 1].width
  }

  function CountOpaque(pixels: seq<nat>): nat {
    if pixels == [] then 0
    else CountOpaque(pixels[..|pixels| - 1]) + if pixels[|pixels| - 1] != 0 then 1 else 0
  }

  /** The palette index that `pixels`, read row by row from the corner of the box, gives to (x, y). */
  function PixelIn(b: Bounds, pixels: seq<nat>, x: int, y: int): nat {
    if b.left <= x < b.right && b.top <= y && 0 <= b.Index(x, y) < |pixels| then pixels[b.Index(x, y)] else 0
  }

  /** The rectangles show (x, y) once, in its own colour, if its index is not 0, and not otherwise. */
  ghost predicate PaintedAt(rects: seq<Rect>, palette: seq<string>, index: nat, x: int, y: int) {
    if index == 0 then CoverCount(rects, x, y) == 0 && forall below :: Shown(rects, x, y, below) == below
    else CoverCount(rects, x, y) == 1 && forall below :: Shown(rects, x, y, below) == Fill(palette, index)
  }

  /** Every pixel is painted as its index asks; no rectangle crosses an edge of the box, and no
      width is lost. */
  ghost predicate Painted(rects: seq<Rect>, b: Bounds, palette: seq<string>, pixels: seq<nat>) {
    && (forall i :: 0 <= i < |rects| ==>
          b.left <= rects[i].x && 0 < rects[i].width && rects[i].x + rects[i].width <= b.right)
    && TotalWidth(rects) == CountOpaque(pixels)
    && (forall x, y :: PaintedAt(rects, palette, PixelIn(b, pixels, x, y), x, y))
  }

  /** One stroke of `length` pixels from (cx, cy), where the pixels so far end. */
  lemma PixelInStroke(b: Bounds, pixels: seq<nat>, v: nat, length: nat, cx: int, cy: int, x: int, y: int)
    requires b.left <= cx && cx + length <= b.right && b.top <= cy && |pixels| == b.Index(cx, cy)
    ensures PixelIn(b, pixels + Repeat(v, length), x, y) ==
      if y == cy && cx <= x < cx + length then v else PixelIn(b, pixels, x, y)
    ensures y == cy && cx <= x < cx + length ==> PixelIn(b, pixels, x, y) == 0
  {
    if b.left <= x < b.right && b.top <= y {
      var w := b.right - b.left;
      assert b.Index(x, y) - |pixels| == (y - cy) * w + (x - cx);
      MulAtLeast(y - cy, w);
    }
  }

  lemma {:induction false} CountOpaqueRepeat(pixels: seq<nat>, v: nat, n: nat)
    ensures CountOpaque(pixels + Repeat(v, n)) == CountOpaque(pixels) + if v != 0 then n else 0
  {
    if n == 0 {
      assert pixels + Repeat(v, n) == pixels;
    } else {
      CountOpaqueRepeat(pixels, v, n - 1);
      assert (pixels + Repeat(v, n))[..|pixels| + n - 1] == pixels + Repeat(v, n - 1);
    }
  }

  lemma PushRect(rects: seq<Rect>, r: Rect, x: int, y: int)
    ensures CoverCount(rects + [r], x, y) == CoverCount(rects, x, y) + if r.Covers(x, y) then 1 else 0
    ensures forall below ::
      Shown(rects + [r], x, y, below) == if r.Covers(x, y) then r.fill else Shown(rects, x, y, below)
    ensures TotalWidth(rects + [r]) == TotalWidth(rects) + r.width
  {
    assert (rects + [r])[..|rects|] == rects;
  }

  /** The rectangle of a stroke is pushed, or none for palette index 0. */
  function Stroked(rects: seq<Rect>, palette: seq<string>, v: nat, length: nat, cx: int, cy: int): seq<Rect> {
    if v != 0 then rects + [Rect(cx, cy, length, Fill(palette, v))] else rects
  }

  lemma StrokePixel(rects: seq<Rect>, b: Bounds, palette: seq<string>, pixels: seq<nat>, v: nat, length: nat,
          cx: int, cy: int, x: int, y: int)
    requires PaintedAt(rects, palette, PixelIn(b, pixels, x, y), x, y) && 0 < length
    requires b.left <= cx && cx + length <= b.right && b.top <= cy && |pixels| == b.Index(cx, cy)
    ensures PaintedAt(Stroked(rects, palette, v, length, cx, cy), palette,
                      PixelIn(b, pixels + Repeat(v, length), x, y), x, y)
  {
    PixelInStroke(b, pixels, v, length, cx, cy, x, y);
    if v != 0 {
      PushRect(rects, Rect(cx, cy, length, Fill(palette, v)), x, y);
    }
  }

  lemma PaintStroke(rects: seq<Rect>, b: Bounds, palette: seq<string>, pixels: seq<nat>, v: nat, length: nat, cx: int,
          cy: int)
    requires Painted(rects, b, palette, pixels) && 0 < length
    requires b.left <= cx && cx + length <= b.right && b.top <= cy && |pixels| == b.Index(cx, cy)
    ensures Painted(Stroked(rects, palette, v, length, cx, cy), b, palette, pixels + Repeat(v, length))
  {
    CountOpaqueRepeat(pixels, v, length);
    forall x, y
      ensures PaintedAt(Stroked(rects, palette, v, length, cx, cy), palette,
                        PixelIn(b, pixels + Repeat(v, length), x, y), x, y)
    {
      assert PaintedAt(rects, palette, PixelIn(b, pixels, x, y), x, y);
      StrokePixel(rects, b, palette, pixels, v, length, cx, cy, x, y);
    }
    if v != 0 {
      PushRect(rects, Rect(cx, cy, length, Fill(palette, v)), cx, cy);
    }
  }

  function GetRectLength(currentX: int, drawLength: int, rightBound: int): int {
    var remaining := rightBound - currentX;
    if drawLength <= remaining then drawLength else remaining
  }

  /** The pen of the drawing loop stands where the pixels painted so far end. */
  ghost predicate Drawing(rects: seq<Rect>, b: Bounds, palette: seq<string>, pixels: seq<nat>, cx: int, cy: int) {
    && Painted(rects, b, palette, pixels)
    && b.left <= cx < b.right && b.top <= cy
    && |pixels| == b.Index(cx, cy)
  }

  lemma DrawStep(rects: seq<Rect>, b: Bounds, palette: seq<string>, pixels: seq<nat>, v: nat, length: nat, cx: int,
          cy: int)
    requires Drawing(rects, b, palette, pixels, cx, cy) && 0 < length && cx + length <= b.right
    ensures Drawing(if v != 0 then rects + [Rect(cx, cy, length, Fill(palette, v))] else rects,
                    b, palette, pixels + Repeat(v, length),
                    if cx + length == b.right then b.left else cx + length,
                    if cx + length == b.right then cy + 1 else cy)
  {
    PaintStroke(rects, b, palette, pixels, v, length, cx, cy);
    IndexNext(b, b.right, cy);
    assert b.Index(cx + length, cy) == b.Index(cx, cy) + length;
  }

  /** Draws one run, splitting it at the right bound. */
  method PaintRun(draw: Run, b: Bounds, palette: seq<string>, before: seq<Rect>, startX: int, startY: int,
          ghost pixels: seq<nat>)
    returns (rects: seq<Rect>, currentX: int, currentY: int)
    requires b.left < b.right ==> Drawing(before, b, palette, pixels, startX, startY)
    requires b.right <= b.left ==> startX == b.left
    ensures b.left < b.right ==>
      Drawing(rects, b, palette, pixels + Repeat(draw.index, draw.length), currentX, currentY)
    ensures b.right <= b.left ==> rects == before && currentX == b.left
  {
    rects, currentX, currentY := before, startX, startY;
    var drawLength := draw.length;
    var length := GetRectLength(currentX, drawLength, b.right);
    ghost var drawn := pixels;
    assert pixels + Repeat(draw.index, 0) == pixels;
    while length > 0
      invariant length == GetRectLength(currentX, drawLength, b.right)
      invariant 0 <= drawLength <= draw.length
      invariant b.left < b.right ==> Drawing(rects, b, palette, drawn, currentX, currentY)
      invariant drawn == pixels + Repeat(draw.index, draw.length - drawLength)
      invariant b.right <= b.left ==> rects == before && currentX == b.left
      decreases drawLength
    {
      DrawStep(rects, b, palette, drawn, draw.index, length, currentX, currentY);
      drawn := drawn + Repeat(draw.index, length);
      // Do not push a rectangle if transparent.
      if draw.index != 0 {
        rects := rects + [Rect(currentX, currentY, length, Fill(palette, draw.index))];
      }
      currentX := currentX + length;
      if currentX == b.right {
        currentX := b.left;
        currentY := currentY + 1;
      }
      drawLength := drawLength - length;
      length := GetRectLength(currentX, drawLength, b.right);
    }
  }

  /** A part paints each pixel as its layer asks; a box without width paints nothing. */
  lemma PartPaintsLayer(layer: seq<Rect>, part: Decoded, palette: seq<string>, x: int, y: int)
    requires part.bounds.left < part.bounds.right ==> Painted(layer, part.bounds, palette, Expand(part.runs))
    requires part.bounds.right <= part.bounds.left ==> layer == []
    ensures PaintedAt(layer, palette, LayerIndex(part, x, y), x, y)
  {
  }

  /** The palette index one part gives to a pixel; 0 is transparent. */
  function LayerIndex(part: Decoded, x: int, y: int): nat {
    PixelIn(part.bounds, Expand(part.runs), x, y)
  }

  /** The drawing loop for one part. It ends for every list of runs and every bounds. */
  method PaintPart(part: Decoded, palette: seq<string>) returns (rects: seq<Rect>)
    ensures part.bounds.left < part.bounds.right ==> Painted(rects, part.bounds, palette, Expand(part.runs))
    ensures part.bounds.right <= part.bounds.left ==> rects == []
    ensures forall x, y :: PaintedAt(rects, palette, LayerIndex(part, x, y), x, y)
  {
    var b := part.bounds;
    rects := [];
    var currentX, currentY := b.left, b.top;
    for i := 0 to |part.runs|
      invariant b.left < b.right ==> Drawing(rects, b, palette, Expand(part.runs[..i]), currentX, currentY)
      invariant b.right <= b.left ==> rects == [] && currentX == b.left
    {
      var draw := part.runs[i];
      assert part.runs[..i + 1] == part.runs[..i] + [draw];
      ExpandAppend(part.runs[..i], draw);
      rects, currentX, currentY := PaintRun(draw, b, palette, rects, currentX, currentY, Expand(part.runs[..i]));
    }
    assert part.runs[..|part.runs|] == part.runs;
    forall x, y ensures PaintedAt(rects, palette, LayerIndex(part, x, y), x, y) {
      PartPaintsLayer(rects, part, palette, x, y);
    }
  }

  predicate AllDecode(parts: seq<string>) {
    forall i :: 0 <= i < |parts| ==> DecodeImage(parts[i]).Some?
  }

  /** The palette indexes of all parts at one pixel, from bottom to top. */
  function Layers(parts: seq<string>, x: int, y: int): (r: seq<nat>)
    requires AllDecode(parts)
    ensures |r| == |parts|
  {
    seq(|parts|, i requires 0 <= i < |parts| => LayerIndex(DecodeImage(parts[i]).value, x, y))
  }

  /** Layer i is the last one that is not transparent. */
  ghost predicate Topmost(layers: seq<nat>, i: int) {
    0 <= i < |layers| && layers[i] != 0 && forall j :: i < j < |layers| ==> layers[j] == 0
  }

  /** The colour of the topmost layer, or the background where all layers are transparent. */
  ghost predicate Composed(shown: Option<string>, layers: seq<nat>, palette: seq<string>, background: string) {
    && (forall i :: Topmost(layers, i) ==> shown == Fill(palette, layers[i]))
    && ((forall i :: 0 <= i < |layers| ==> layers[i] == 0) ==> shown == Some(background))
  }

  lemma {:induction false} ShownConcat(below: seq<Rect>, above: seq<Rect>, x: int, y: int, base: Option<string>)
    ensures Shown(below + above, x, y, base) == Shown(above, x, y, Shown(below, x, y, base))
  {
    if above == [] {
      assert below + above == below;
    } else {
      assert (below + above)[..|below + above| - 1] == below + above[..|above| - 1];
      ShownConcat(below, above[..|above| - 1], x, y, base);
    }
  }

  lemma ComposeLayer(rects: seq<Rect>, layers: seq<nat>, palette: seq<string>, background: string,
                     layer: seq<Rect>, index: nat, x: int, y: int)
    requires Composed(Shown(rects, x, y, Some(background)), layers, palette, background)
    requires PaintedAt(layer, palette, index, x, y)
    ensures Composed(Shown(rects + layer, x, y, Some(background)), layers + [index], palette, background)
  {
    ShownConcat(rects, layer, x, y, Some(background));
    var all := layers + [index];
    assert all[|layers|] == index;
    if index == 0 {
      forall i | Topmost(all, i) ensures Topmost(layers, i) {
        assert forall j :: i < j < |layers| ==> layers[j] == all[j];
      }
      assert forall i :: 0 <= i < |layers| ==> layers[i] == all[i];
    }
  }

  /** Every pixel of the drawing shows its topmost layer. */
  ghost predicate Drawn(rects: seq<Rect>, parts: seq<string>, palette: seq<string>, background: string) {
    && AllDecode(parts)
    && forall x, y :: Composed(Shown(rects, x, y, Some(background)), Layers(parts, x, y), palette, background)
  }

  lemma LayersAppend(parts: seq<string>, data: string, x: int, y: int)
    requires AllDecode(parts) && DecodeImage(data).Some?
    ensures AllDecode(parts + [data])
    ensures Layers(parts + [data], x, y) == Layers(parts, x, y) + [LayerIndex(DecodeImage(data).value, x, y)]
  {
  }

  lemma DrawPart(rects: seq<Rect>, parts: seq<string>, palette: seq<string>, background: string,
                 layer: seq<Rect>, data: string)
    requires Drawn(rects, parts, palette, background) && DecodeImage(data).Some?
    requires forall x, y :: PaintedAt(layer, palette, LayerIndex(DecodeImage(data).value, x, y), x, y)
    ensures Drawn(rects + layer, parts + [data], palette, background)
  {
    LayersAppend(parts, data, 0, 0);
    forall x, y
      ensures Composed(Shown(rects + layer, x, y, Some(background)), Layers(parts + [data], x, y), palette, background)
    {
      LayersAppend(parts, data, x, y);
      ComposeLayer(rects, Layers(parts, x, y), palette, background, layer,
                   LayerIndex(DecodeImage(data).value, x, y), x, y);
    }
  }

  lemma DrawNext(rects: seq<Rect>, parts: seq<string>, n: nat, palette: seq<string>, background: string,
                 layer: seq<Rect>)
    requires n < |parts| && Drawn(rects, parts[..n], palette, background) && DecodeImage(parts[n]).Some?
    requires forall x, y :: PaintedAt(layer, palette, LayerIndex(DecodeImage(parts[n]).value, x, y), x, y)
    ensures Drawn(rects + layer, parts[..n + 1], palette, background)
  {
    DrawPart(rects, parts[..n], palette, background, layer, parts[n]);
    assert parts[..n + 1] == parts[..n] + [parts[n]];
  }

  /** buildSVG: layers the parts from first to last over the background. */
  method BuildSVG(parts: seq<string>, palette: seq<string>, background: string) returns (svg: Option<Svg>)
    ensures svg.Some? <==> AllDecode(parts)
    ensures svg.Some? ==> svg.value.background == background && Drawn(svg.value.rects, parts, palette, background)
  {
    var rects: seq<Rect> := [];
    for n := 0 to |parts|
      invariant Drawn(rects, parts[..n], palette, background)
    {
      var decoded := DecodeImage(parts[n]);
      if decoded.None? {
        return None;
      }
      var layer := PaintPart(decoded.value, palette);
      DrawNext(rects, parts, n, palette, background, layer);
      rects := rects + layer;
    }
    assert parts[..|parts|] == parts;
    svg := Some(Svg(background, rects));
  }
}
