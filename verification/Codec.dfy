/** The encoder of Image.dfy and the decoder and painter of SvgBuilder.dfy undo each other. */
module Codec {
  import opened Hex
  import opened ImageEncoder
  import opened Palette
  import opened Picture
  import opened RunLength
  import opened Sequences
  import opened SvgBuilder
  import opened Wrappers

  /** The format's own limits: four bounds of one byte each, runs of one length and one index byte. */
  ghost predicate FitsBytes(b: Bounds, runs: seq<Run>) {
    && 0 <= b.top < 256 && 0 <= b.right < 256 && 0 <= b.bottom < 256 && 0 <= b.left < 256
    && forall r :: r in runs ==> r.length < 256 && r.index < 256
  }

  lemma ChunksTail(runs: seq<Run>)
    requires runs != []
    ensures Chunks(runs)[0] == FormatRun(runs[0]) && Chunks(runs)[1..] == Chunks(runs[1..])
  {
    forall i | 0 <= i < |runs| - 1 ensures Chunks(runs)[1..][i] == Chunks(runs[1..])[i] {
      assert runs[1..][i] == runs[i + 1];
    }
  }

  lemma FormatRunsHead(runs: seq<Run>)
    requires runs != []
    ensures FormatRuns(runs) == FormatRun(runs[0]) + FormatRuns(runs[1..])
  {
    JoinHead(Chunks(runs));
    ChunksTail(runs);
  }

  /** Joined two-character strings are found again at even positions. */
  lemma {:induction false} JoinPairs(parts: seq<string>, rest: string, i: nat)
    requires forall k :: 0 <= k < |parts| ==> |parts[k]| == 2
    requires i < |parts|
    ensures |Join(parts)| == 2 * |parts|
    ensures Substring(Join(parts) + rest, 2 * i, 2 * i + 2) == parts[i]
  {
    var init, last := parts[..|parts| - 1], parts[|parts| - 1];
    if init != [] {
      JoinPairs(init, last + rest, if i < |init| then i else 0);
      assert Join(parts) + rest == Join(init) + (last + rest);
    }
  }

  /** Decoding one chunk of four characters. */
  lemma DecodeChunk(r: Run, rest: string)
    requires r.length < 256 && r.index < 256
    ensures DecodeRuns(FormatRun(r) + rest) ==
      if DecodeRuns(rest).Some? then Some([r] + DecodeRuns(rest).value) else None
  {
    ByteRoundTrip(r.length);
    ByteRoundTrip(r.index);
    var s := FormatRun(r) + rest;
    assert Substring(s, 0, 4) == FormatRun(r);
    assert Substring(FormatRun(r), 0, 2) == ToPaddedHex(r.length);
    assert Substring(FormatRun(r), 2, 4) == ToPaddedHex(r.index);
    assert s[4..] == rest;
  }

  lemma NoRuns()
    ensures FormatRuns([]) == "" && DecodeRuns("") == Some([])
  {
    assert Chunks([]) == [];
  }

  lemma {:induction false} DecodeFormatRuns(runs: seq<Run>)
    requires forall r :: r in runs ==> r.length < 256 && r.index < 256
    ensures DecodeRuns(FormatRuns(runs)) == Some(runs)
  {
    if runs == [] {
      NoRuns();
    } else {
      FormatRunsHead(runs);
      DecodeFormatRuns(runs[1..]);
      DecodeMore(FormatRuns(runs), runs[0], FormatRuns(runs[1..]), runs[1..]);
      Cons(runs);
    }
  }

  lemma Cons<T>(s: seq<T>)
    requires s != []
    ensures s == [s[0]] + s[1..]
  {
  }

  lemma DecodeMore(s: string, r: Run, rest: string, runs: seq<Run>)
    requires s == FormatRun(r) + rest && DecodeRuns(rest) == Some(runs) && r.length < 256 && r.index < 256
    ensures DecodeRuns(s) == Some([r] + runs)
  {
    DecodeChunk(r, rest);
  }

  lemma {:induction false} DecodedRunsFitBytes(s: string)
    ensures DecodeRuns(s).Some? ==> forall r :: r in DecodeRuns(s).value ==> r.length < 256 && r.index < 256
    decreases |s|
  {
    if s != "" && DecodeRuns(s).Some? {
      DecodedRunsFitBytes(s[|Substring(s, 0, 4)|..]);
    }
  }

  lemma DecodedFitsBytes(s: string)
    ensures DecodeImage(s).Some? ==> FitsBytes(DecodeImage(s).value.bounds, DecodeImage(s).value.runs)
  {
    var data := if "0x" <= s then s[2..] else s;
    DecodedParts(s, data);
    DecodedRunsFitBytes(Substring(data, 10, 10 + |data|));
  }

  lemma DecodedParts(s: string, data: string)
    requires data == if "0x" <= s then s[2..] else s
    ensures DecodeImage(s).Some? ==>
      var b, runs := DecodeImage(s).value.bounds, DecodeRuns(Substring(data, 10, 10 + |data|));
      && 0 <= b.top < 256 && 0 <= b.right < 256 && 0 <= b.bottom < 256 && 0 <= b.left < 256
      && runs.Some? && DecodeImage(s).value.runs == runs.value
  {
  }

  lemma DecodeFormatBytes(b: Bounds, runs: seq<Run>)
    requires FitsBytes(b, runs)
    ensures DecodeImage(Format(b, runs)) == Some(Decoded(0, b, runs))
  {
    var rest := FormatRuns(runs);
    DecodeFields(b, rest);
    DecodeFormatRuns(runs);
    FormatData(b, runs);
    DecodeData(Format(b, runs), Join(Metadata(b)) + rest, b, runs);
  }

  /** At k stand the length of the run and its index, two characters each. */
  ghost predicate RunAt(s: string, k: nat, r: Run) {
    k + 4 <= |s| && ParseHex(s[k..k + 2]) == Some(r.length) && ParseHex(s[k + 2..k + 4]) == Some(r.index)
  }

  lemma RunAtHead(r: Run, rest: string)
    requires r.length < 256 && r.index < 256
    ensures |FormatRun(r)| == 4 && RunAt(FormatRun(r) + rest, 0, r)
  {
    ByteRoundTrip(r.length);
    ByteRoundTrip(r.index);
    var s := FormatRun(r) + rest;
    assert s[0..2] == ToPaddedHex(r.length) && s[2..4] == ToPaddedHex(r.index);
  }

  lemma Shifted(head: string, rest: string, from: nat, to: nat)
    requires from <= to <= |rest|
    ensures (head + rest)[|head| + from..|head| + to] == rest[from..to]
  {
  }

  lemma RunAtShifted(head: string, rest: string, k: nat, at: nat, r: Run)
    requires RunAt(rest, k, r) && at == |head| + k
    ensures RunAt(head + rest, at, r)
  {
    Shifted(head, rest, k, k + 2);
    Shifted(head, rest, k + 2, k + 4);
  }

  ghost predicate RunsAt(s: string, from: nat, runs: seq<Run>) {
    forall i :: 0 <= i < |runs| ==> RunAt(s, from + 4 * i, runs[i])
  }

  lemma RunsAtCons(head: string, r: Run, rest: string, runs: seq<Run>)
    requires |head| == 4 && RunAt(head + rest, 0, r) && RunsAt(rest, 0, runs)
    ensures RunsAt(head + rest, 0, [r] + runs)
  {
    var all := [r] + runs;
    forall i | 0 <= i < |all| ensures RunAt(head + rest, 0 + 4 * i, all[i]) {
      if i > 0 {
        assert RunAt(rest, 0 + 4 * (i - 1), runs[i - 1]);
        RunAtShifted(head, rest, 0 + 4 * (i - 1), 0 + 4 * i, runs[i - 1]);
      }
    }
  }

  lemma {:induction false} RunsLaidOut(runs: seq<Run>)
    requires forall r :: r in runs ==> r.length < 256 && r.index < 256
    ensures RunsAt(FormatRuns(runs), 0, runs) && |FormatRuns(runs)| == 4 * |runs|
  {
    if runs == [] {
      NoRuns();
    } else {
      FormatRunsHead(runs);
      RunsLaidOut(runs[1..]);
      RunAtHead(runs[0], FormatRuns(runs[1..]));
      RunsAtCons(FormatRun(runs[0]), runs[0], FormatRuns(runs[1..]), runs[1..]);
      Cons(runs);
    }
  }

  lemma RunsAtShifted(head: string, rest: string, runs: seq<Run>)
    requires RunsAt(rest, 0, runs)
    ensures RunsAt(head + rest, |head|, runs)
  {
    forall i | 0 <= i < |runs| ensures RunAt(head + rest, |head| + 4 * i, runs[i]) {
      assert RunAt(rest, 0 + 4 * i, runs[i]);
      RunAtShifted(head, rest, 0 + 4 * i, |head| + 4 * i, runs[i]);
    }
  }

  /** The prefix and the five fields: 0, top, right, bottom and left. */
  ghost predicate Header(s: string, b: Bounds) {
    && |s| >= 12 && s[..2] == "0x" && ParseHex(s[2..4]) == Some(0) && ParseHex(s[4..6]) == Some(b.top)
    && ParseHex(s[6..8]) == Some(b.right) && ParseHex(s[8..10]) == Some(b.bottom)
    && ParseHex(s[10..12]) == Some(b.left)
  }

  lemma HeaderLaidOut(prefix: string, data: string, b: Bounds)
    requires prefix == "0x" && |data| >= 10 && ByteAt(data, 0) == Some(0) && ByteAt(data, 2) == Some(b.top)
    requires ByteAt(data, 4) == Some(b.right) && ByteAt(data, 6) == Some(b.bottom) && ByteAt(data, 8) == Some(b.left)
    ensures Header(prefix + data, b)
  {
    Shifted(prefix, data, 0, 2);
    Shifted(prefix, data, 2, 4);
    Shifted(prefix, data, 4, 6);
    Shifted(prefix, data, 6, 8);
    Shifted(prefix, data, 8, 10);
  }

  lemma Assoc(a: string, b: string, c: string)
    ensures a + (b + c) == a + b + c
  {
  }

  /** The layout of the data, two characters a field: the header, and then the length and the index of
      each run. */
  lemma FormatLayout(b: Bounds, runs: seq<Run>)
    requires FitsBytes(b, runs)
    ensures var s := Format(b, runs); |s| == 12 + 4 * |runs| && Header(s, b) && RunsAt(s, 12, runs)
  {
    var prefix, fields, rest := "0x", Join(Metadata(b)), FormatRuns(runs);
    DecodeFields(b, rest);
    FieldsLength(b);
    RunsLaidOut(runs);
    HeaderLaidOut(prefix, fields + rest, b);
    RunsAtShifted(prefix + fields, rest, runs);
    Assoc(prefix, fields, rest);
  }

  lemma FieldsLength(b: Bounds)
    requires 0 <= b.top < 256 && 0 <= b.right < 256 && 0 <= b.bottom < 256 && 0 <= b.left < 256
    ensures |Join(Metadata(b))| == 10
  {
    FieldBytes(b);
    JoinPairs(Metadata(b), "", 0);
  }

  lemma FormatData(b: Bounds, runs: seq<Run>)
    ensures "0x" <= Format(b, runs) && Format(b, runs)[2..] == Join(Metadata(b)) + FormatRuns(runs)
  {
    DropPrefix("0x", Join(Metadata(b)), FormatRuns(runs));
  }

  lemma DropPrefix(prefix: string, s: string, t: string)
    ensures prefix <= prefix + s + t && (prefix + s + t)[|prefix|..] == s + t
  {
  }

  lemma DecodeData(image: string, data: string, b: Bounds, runs: seq<Run>)
    requires "0x" <= image && image[2..] == data
    requires ByteAt(data, 0) == Some(0) && ByteAt(data, 2) == Some(b.top) && ByteAt(data, 4) == Some(b.right)
    requires ByteAt(data, 6) == Some(b.bottom) && ByteAt(data, 8) == Some(b.left)
    requires DecodeRuns(Substring(data, 10, 10 + |data|)) == Some(runs)
    ensures DecodeImage(image) == Some(Decoded(0, b, runs))
  {
  }

  lemma FieldBytes(b: Bounds)
    requires 0 <= b.top < 256 && 0 <= b.right < 256 && 0 <= b.bottom < 256 && 0 <= b.left < 256
    ensures forall k :: 0 <= k < 5 ==> |Metadata(b)[k]| == 2
    ensures forall k :: 0 <= k < 5 ==> ParseHex(Metadata(b)[k]) == Some([0, b.top, b.right, b.bottom, b.left][k])
  {
    ByteRoundTrip(0);
    ByteRoundTrip(b.top);
    ByteRoundTrip(b.right);
    ByteRoundTrip(b.bottom);
    ByteRoundTrip(b.left);
  }

  /** The five fields are found again, with what follows them. */
  lemma DecodeFields(b: Bounds, rest: string)
    requires 0 <= b.top < 256 && 0 <= b.right < 256 && 0 <= b.bottom < 256 && 0 <= b.left < 256
    ensures var data := Join(Metadata(b)) + rest;
      && ByteAt(data, 0) == Some(0) && ByteAt(data, 2) == Some(b.top) && ByteAt(data, 4) == Some(b.right)
      && ByteAt(data, 6) == Some(b.bottom) && ByteAt(data, 8) == Some(b.left)
      && Substring(data, 10, 10 + |data|) == rest
  {
    var fields := Metadata(b);
    FieldBytes(b);
    JoinPairs(fields, rest, 0);
    JoinPairs(fields, rest, 1);
    JoinPairs(fields, rest, 2);
    JoinPairs(fields, rest, 3);
    JoinPairs(fields, rest, 4);
  }

  /** Bounds and runs survive printing and parsing exactly when each of them fits its byte. */
  lemma DecodeFormat(b: Bounds, runs: seq<Run>)
    ensures DecodeImage(Format(b, runs)) == Some(Decoded(0, b, runs)) <==> FitsBytes(b, runs)
  {
    if FitsBytes(b, runs) {
      DecodeFormatBytes(b, runs);
    }
    DecodedFitsBytes(Format(b, runs));
  }

  /** The palette indexes that are encoded for a picture with crop box b and starting palette t. */
  ghost function Indexes(t: Colours, p: Picture, b: Bounds): (s: seq<nat>)
    requires b.Readable()
    ensures |s| == b.Area()
    ensures forall k :: 0 <= k < |s| ==>
      PixelAt(p, b, k).Colour() in Absorb(t, p, b).vals && s[k] == PixelIndex(Absorb(t, p, b), PixelAt(p, b, k))
    ensures Encoded(t, p, b) == Format(b, Runs(s))
  {
    forall k: nat | k < b.Area() ensures PixelAt(p, b, k).Colour() in Absorb(t, p, b).vals {
      AbsorbHasColours(t, p, b, b.Area(), k);
    }
    BoxIndexes(p, b, Absorb(t, p, b), b.Area())
  }

  /** What the encoded data must decode to at (x, y): transparent stays transparent, an opaque pixel
      gets a non-zero index that names its colour. */
  ghost predicate Faithful(data: string, p: Picture, palette: seq<string>, x: int, y: int) {
    && DecodeImage(data).Some?
    && var index := LayerIndex(DecodeImage(data).value, x, y);
      if p.Opaque(x, y) then index != 0 && Fill(palette, index) == Some(p.rgbaAt(x, y).Colour())
      else index == 0
  }

  /** The index encoded for a pixel of the box. */
  lemma IndexesAt(t: Colours, p: Picture, b: Bounds, k: nat)
    requires b.Readable() && WellFormed(t) && k < b.Area()
    ensures Names(Absorb(t, p, b).keys, Indexes(t, p, b)[k], PixelAt(p, b, k))
  {
    InsertAllNames(t, BoxColours(p, b, b.Area()), k, PixelAt(p, b, k));
  }

  /** A decoded pixel is the encoded one, inside and outside the crop. */
  lemma PixelInIndexes(t: Colours, p: Picture, b: Bounds, x: int, y: int)
    requires IsCrop(p, b) && WellFormed(t)
    ensures var index := PixelIn(b, Indexes(t, p, b), x, y); var keys := Absorb(t, p, b).keys;
      if p.Opaque(x, y) then 0 < index < |keys| && keys[index] == p.rgbaAt(x, y).Colour()
      else index == 0
  {
    if b.left <= x < b.right && b.top <= y {
      XYIndex(b, x, y);
      AreaIndex(b, x, y);
      if b.Contains(x, y) {
        InBox(p, b, x, y);
        IndexesAt(t, p, b, b.Index(x, y));
      }
    }
  }

  lemma InBox(p: Picture, b: Bounds, x: int, y: int)
    requires IsCrop(p, b) && b.Contains(x, y)
    ensures b.left < b.right && 0 <= b.left && 0 <= b.top
    ensures 0 <= b.Index(x, y) < b.Area() && PixelAt(p, b, b.Index(x, y)) == p.rgbaAt(x, y)
    ensures p.Opaque(x, y) <==> p.rgbaAt(x, y).a != 0
  {
    XYIndex(b, x, y);
    AreaIndex(b, x, y);
  }

  lemma {:induction false} ExpandIndexes(runs: seq<Run>)
    requires forall r :: r in runs ==> r.index < 256
    ensures forall k :: 0 <= k < |Expand(runs)| ==> Expand(runs)[k] < 256
  {
    if runs != [] {
      ExpandIndexes(runs[1..]);
    }
  }

  /** The encoded data decodes to its own box and runs exactly when the picture fits and every index
      used fits its byte. */
  lemma EncodedDecodes(t: Colours, p: Picture, b: Bounds)
    requires IsCrop(p, b)
    ensures DecodeImage(Encoded(t, p, b)) == Some(Decoded(0, b, Runs(Indexes(t, p, b)))) <==>
      Fits(p) && forall k :: 0 <= k < b.Area() ==> Indexes(t, p, b)[k] < 256
  {
    var data := Indexes(t, p, b);
    RunsExpand(data);
    RunsIndexes(data);
    FitsCrop(p, b);
    DecodeFormat(b, Runs(data));
    if FitsBytes(b, Runs(data)) {
      ExpandIndexes(Runs(data));
    }
  }

  /** Data whose indexes fit a byte decodes to the indexes that were encoded, whatever the palette. */
  lemma ByteIndexesDecode(t: Colours, p: Picture, b: Bounds, x: int, y: int)
    requires IsCrop(p, b) && Fits(p) && forall k :: 0 <= k < b.Area() ==> Indexes(t, p, b)[k] < 256
    ensures var image := DecodeImage(Encoded(t, p, b));
      image.Some? && LayerIndex(image.value, x, y) == PixelIn(b, Indexes(t, p, b), x, y)
  {
    EncodedDecodes(t, p, b);
    RunsExpand(Indexes(t, p, b));
  }

  lemma ByteIndexesFaithful(t: Colours, p: Picture, b: Bounds, palette: seq<string>, x: int, y: int)
    requires IsCrop(p, b) && WellFormed(t) && Fits(p) && Absorb(t, p, b).keys <= palette
    requires forall k :: 0 <= k < b.Area() ==> Indexes(t, p, b)[k] < 256
    ensures Faithful(Encoded(t, p, b), p, palette, x, y)
  {
    ByteIndexesDecode(t, p, b, x, y);
    PixelInIndexes(t, p, b, x, y);
  }

  /** Every opaque colour of the picture is among the first 256 entries of the palette. */
  ghost predicate WithinByte(p: Picture, palette: seq<string>) {
    forall x, y :: p.Opaque(x, y) ==> InFirst256(palette, p.rgbaAt(x, y).Colour())
  }

  predicate InFirst256(palette: seq<string>, colour: string) {
    colour in palette[..if |palette| < 256 then |palette| else 256]
  }

  lemma UniqueIndex(palette: seq<string>, index: nat)
    requires NoDup(palette) && index < |palette| && InFirst256(palette, palette[index])
    ensures index < 256
  {
    var first := palette[..if |palette| < 256 then |palette| else 256];
    var j :| 0 <= j < |first| && first[j] == palette[index];
    assert palette[j] == palette[index];
  }

  /** An opaque pixel of the box is an opaque pixel of the picture. */
  lemma BoxPixelOpaque(p: Picture, b: Bounds, k: nat)
    requires IsCrop(p, b) && k < b.Area()
    ensures b.left < b.right && 0 <= b.left && 0 <= b.top
    ensures PixelAt(p, b, k).a != 0 ==> p.Opaque(b.X(k), b.Y(k))
  {
    IndexXY(b, k);
    AreaIndex(b, b.X(k), b.Y(k));
    InBox(p, b, b.X(k), b.Y(k));
  }

  lemma NamedWithin(palette: seq<string>, keys: seq<string>, index: nat, c: Rgba)
    requires Names(keys, index, c) && keys <= palette && NoDup(palette)
    requires c.a != 0 ==> InFirst256(palette, c.Colour())
    ensures index < 256
  {
    if c.a != 0 {
      UniqueIndex(palette, index);
    }
  }

  lemma IndexesWithin(t: Colours, p: Picture, b: Bounds, palette: seq<string>, k: nat)
    requires IsCrop(p, b) && WellFormed(t) && Absorb(t, p, b).keys <= palette && NoDup(palette)
    requires WithinByte(p, palette) && k < b.Area()
    ensures Indexes(t, p, b)[k] < 256
  {
    IndexesAt(t, p, b, k);
    BoxPixelOpaque(p, b, k);
    NamedWithin(palette, Absorb(t, p, b).keys, Indexes(t, p, b)[k], PixelAt(p, b, k));
  }

  /** A pixel that decodes to its colour finds it among the first 256 entries. */
  lemma FaithfulWithin(data: string, p: Picture, palette: seq<string>, x: int, y: int)
    requires Faithful(data, p, palette, x, y) && p.Opaque(x, y)
    ensures InFirst256(palette, p.rgbaAt(x, y).Colour())
  {
    var part := DecodeImage(data).value;
    DecodedFitsBytes(data);
    ExpandIndexes(part.runs);
    var index := LayerIndex(part, x, y);
    assert index < 256 && palette[index] == p.rgbaAt(x, y).Colour();
    assert palette[..if |palette| < 256 then |palette| else 256][index] == palette[index];
  }

  /** The codec round trip. The data of a picture that fits a byte-sized box decodes all its pixels to
      themselves, under any later palette, exactly if its opaque colours are among the first 256. */
  lemma CodecRoundTrip(t: Colours, p: Picture, b: Bounds, palette: seq<string>)
    requires IsCrop(p, b) && WellFormed(t) && Fits(p)
    requires Absorb(t, p, b).keys <= palette && NoDup(palette)
    ensures (forall x, y :: Faithful(Encoded(t, p, b), p, palette, x, y)) <==> WithinByte(p, palette)
  {
    if WithinByte(p, palette) {
      forall k: nat | k < b.Area() ensures Indexes(t, p, b)[k] < 256 {
        IndexesWithin(t, p, b, palette, k);
      }
      forall x, y ensures Faithful(Encoded(t, p, b), p, palette, x, y) {
        ByteIndexesFaithful(t, p, b, palette, x, y);
      }
    }
    if forall x, y :: Faithful(Encoded(t, p, b), p, palette, x, y) {
      forall x, y | p.Opaque(x, y) ensures InFirst256(palette, p.rgbaAt(x, y).Colour()) {
        FaithfulWithin(Encoded(t, p, b), p, palette, x, y);
      }
    }
  }

  /** Where the palette has at most 256 entries they always are. */
  lemma SmallPaletteWithin(t: Colours, p: Picture, b: Bounds, palette: seq<string>)
    requires IsCrop(p, b) && WellFormed(t) && Absorb(t, p, b).keys <= palette && |palette| <= 256
    ensures WithinByte(p, palette)
  {
    forall x, y | p.Opaque(x, y) ensures InFirst256(palette, p.rgbaAt(x, y).Colour()) {
      ColourAbsorbed(t, p, b, palette, x, y);
      assert palette[..|palette|] == palette;
    }
  }

  /** The palette has every opaque colour of a picture that was read. */
  lemma ColourAbsorbed(t: Colours, p: Picture, b: Bounds, palette: seq<string>, x: int, y: int)
    requires IsCrop(p, b) && WellFormed(t) && Absorb(t, p, b).keys <= palette && p.Opaque(x, y)
    ensures p.rgbaAt(x, y).Colour() in palette
  {
    PixelInIndexes(t, p, b, x, y);
  }

  /** A picture of one pixel. */
  function Dot(c: Rgba): Picture {
    Picture(1, 1, (x, y) => c)
  }

  const DOT := Bounds(0, 1, 0, 0)

  lemma DotCrop(c: Rgba)
    requires c.a != 0
    ensures IsCrop(Dot(c), DOT) && Fits(Dot(c)) && DOT.Area() == 1 && PixelAt(Dot(c), DOT, 0) == c
  {
    assert Dot(c).Opaque(0, 0);
  }

  lemma DotIndexes(t: Colours, c: Rgba)
    requires c.a != 0 && c.Colour() in t.vals
    ensures IsCrop(Dot(c), DOT) && Fits(Dot(c)) && DOT.Area() == 1
    ensures Absorb(t, Dot(c), DOT) == t && Indexes(t, Dot(c), DOT) == [t.vals[c.Colour()]]
  {
    DotCrop(c);
    var colours := BoxColours(Dot(c), DOT, 1);
    assert colours == [c.Colour()] && colours[..0] == [];
    assert InsertAll(t, colours) == Insert(InsertAll(t, []), c.Colour());
  }

  lemma CornerPixel(b: Bounds, pixels: seq<nat>)
    requires b.left < b.right && pixels != []
    ensures PixelIn(b, pixels, b.left, b.top) == pixels[0]
  {
    assert (b.top - b.top) * (b.right - b.left) == 0;
  }

  lemma MisnamedPixel(data: string, p: Picture, palette: seq<string>, x: int, y: int)
    requires DecodeImage(data).Some? && p.Opaque(x, y)
    requires !Names(palette, LayerIndex(DecodeImage(data).value, x, y), p.rgbaAt(x, y))
    ensures !Faithful(data, p, palette, x, y)
  {
  }

  lemma DotDecodes(t: Colours, c: Rgba)
    requires c.a != 0 && c.Colour() in t.vals && t.vals[c.Colour()] < 256
    ensures IsCrop(Dot(c), DOT)
    ensures var image := DecodeImage(Encoded(t, Dot(c), DOT));
      image.Some? && LayerIndex(image.value, 0, 0) == t.vals[c.Colour()]
  {
    DotIndexes(t, c);
    ByteIndexesDecode(t, Dot(c), DOT, 0, 0);
    CornerPixel(DOT, Indexes(t, Dot(c), DOT));
  }

  /** A pixel whose index fits a byte but does not name it decodes to something else. */
  lemma MisnamedDot(t: Colours, c: Rgba)
    requires c.a != 0 && c.Colour() in t.vals && t.vals[c.Colour()] < 256
    requires !Names(t.keys, t.vals[c.Colour()], c)
    ensures IsCrop(Dot(c), DOT) && !Faithful(Encoded(t, Dot(c), DOT), Dot(c), t.keys, 0, 0)
  {
    DotDecodes(t, c);
    MisnamedPixel(Encoded(t, Dot(c), DOT), Dot(c), t.keys, 0, 0);
  }

  /** Exactly the pictures without opaque pixels have no runs at all. */
  lemma BlankHasNoRuns(t: Colours, p: Picture, b: Bounds)
    requires IsCrop(p, b)
    ensures p.Blank() <==> Runs(Indexes(t, p, b)) == []
  {
    RunsExpand(Indexes(t, p, b));
    if !p.Blank() {
      AreaPositive(b);
    }
  }

  lemma JoinSnoc(parts: seq<string>, part: string)
    ensures Join(parts + [part]) == Join(parts) + part
  {
    assert (parts + [part])[..|parts|] == parts;
  }

  lemma FiveZeroBytes()
    ensures Join(["00", "00", "00", "00", "00"]) == "0000000000"
  {
    var zeros := ["00", "00", "00", "00"];
    JoinSnoc([], "00");
    assert [] + ["00"] == ["00"] && Join([]) == "";
    JoinSnoc(["00"], "00");
    assert ["00"] + ["00"] == ["00", "00"];
    JoinSnoc(["00", "00"], "00");
    assert ["00", "00"] + ["00"] == ["00", "00", "00"];
    JoinSnoc(["00", "00", "00"], "00");
    assert ["00", "00", "00"] + ["00"] == zeros;
    JoinSnoc(zeros, "00");
    assert zeros + ["00"] == ["00", "00", "00", "00", "00"];
  }

  /** They are encoded as five zero bytes. */
  lemma BlankEncodesEmpty(t: Colours, p: Picture, b: Bounds)
    requires IsCrop(p, b) && p.height > 0 && p.Blank()
    ensures Encoded(t, p, b) == "0x0000000000"
  {
    BlankHasNoRuns(t, p, b);
    assert ToHex(0) == "0" && PadStart("0", 2) == "00";
    assert Metadata(b) == ["00", "00", "00", "00", "00"];
    FiveZeroBytes();
    NoRuns();
    assert Encoded(t, p, b) == Format(b, []);
  }

  /** A faithful part is painted once on each opaque pixel, in its own colour, and nowhere else. */
  lemma FaithfulPainted(data: string, p: Picture, palette: seq<string>, rects: seq<Rect>, x: int, y: int)
    requires Faithful(data, p, palette, x, y)
    requires PaintedAt(rects, palette, LayerIndex(DecodeImage(data).value, x, y), x, y)
    ensures CoverCount(rects, x, y) == if p.Opaque(x, y) then 1 else 0
    ensures forall below :: Shown(rects, x, y, below) == if p.Opaque(x, y) then Some(p.rgbaAt(x, y).Colour()) else below
  {
  }

  /** The colour of the last picture that is opaque at (x, y), or else the background. */
  function TopColour(pictures: seq<Picture>, background: string, x: int, y: int): string {
    if pictures == [] then background
    else
      var last := pictures[|pictures| - 1];
      if last.Opaque(x, y) then last.rgbaAt(x, y).Colour()
      else TopColour(pictures[..|pictures| - 1], background, x, y)
  }

  /** It denotes the channels of that picture's pixel. */
  lemma {:induction false} TopColourIs(pictures: seq<Picture>, background: string, x: int, y: int) returns (i: int)
    ensures -1 <= i < |pictures| && forall j :: i < j < |pictures| ==> !pictures[j].Opaque(x, y)
    ensures i == -1 ==> TopColour(pictures, background, x, y) == background
    ensures i != -1 ==>
      && pictures[i].Opaque(x, y)
      && TopColour(pictures, background, x, y) == pictures[i].rgbaAt(x, y).Colour()
      && Denotes(TopColour(pictures, background, x, y), pictures[i].rgbaAt(x, y))
  {
    if pictures == [] || pictures[|pictures| - 1].Opaque(x, y) {
      i := |pictures| - 1;
      if i >= 0 {
        ColourDenotes(pictures[i].rgbaAt(x, y));
      }
    } else {
      i := TopColourIs(pictures[..|pictures| - 1], background, x, y);
    }
  }

  /** A drawing of faithful parts shows the last of their pictures that is opaque, at every pixel. */
  lemma FaithfulDrawn(parts: seq<string>, pictures: seq<Picture>, palette: seq<string>, background: string,
          rects: seq<Rect>, x: int, y: int)
    requires |parts| == |pictures| && forall i :: 0 <= i < |parts| ==> Faithful(parts[i], pictures[i], palette, x, y)
    requires Drawn(rects, parts, palette, background)
    ensures Shown(rects, x, y, Some(background)) == Some(TopColour(pictures, background, x, y))
  {
    var layers := Layers(parts, x, y);
    assert Composed(Shown(rects, x, y, Some(background)), layers, palette, background);
    var i := TopColourIs(pictures, background, x, y);
    assert forall j :: 0 <= j < |layers| ==> (layers[j] != 0 <==> pictures[j].Opaque(x, y));
    if i != -1 {
      assert Topmost(layers, i);
    }
  }

  /** Encoding a picture and drawing the result: every pixel shows again. */
  method EncodeAndDraw(p: Picture, colours: ColourMap, background: string) returns (rle: string, svg: Option<Svg>)
    requires WellFormed(colours.table)
    modifies colours
    ensures WellFormed(colours.table) && old(colours.table.keys) <= colours.table.keys
    ensures Fits(p) && WithinByte(p, colours.table.keys) ==> svg.Some? && forall x, y ::
      Shown(svg.value.rects, x, y, Some(background)) ==
        Some(if p.Opaque(x, y) then p.rgbaAt(x, y).Colour() else background)
    ensures svg.Some? && Fits(p) && WithinByte(p, colours.table.keys) ==> forall x, y :: p.Opaque(x, y) ==>
      var shown := Shown(svg.value.rects, x, y, Some(background));
      shown.Some? && Denotes(shown.value, p.rgbaAt(x, y))
  {
    ghost var t := colours.table;
    var image := new Image(p);
    rle := image.ToRLE(colours);
    svg := BuildSVG([rle], colours.table.keys, background);
    ghost var b := image.bounds;
    InsertAllWellFormed(t, BoxColours(p, b, b.Area()));
    InsertAllGrows(t, BoxColours(p, b, b.Area()));
    ghost var palette := colours.table.keys;
    if Fits(p) && WithinByte(p, palette) {
      CodecRoundTrip(t, p, b, palette);
      assert Faithful(rle, p, palette, 0, 0);
      assert [rle][0] == rle;
      forall x, y ensures Shown(svg.value.rects, x, y, Some(background)) ==
          Some(if p.Opaque(x, y) then p.rgbaAt(x, y).Colour() else background)
      {
        FaithfulDrawn([rle], [p], palette, background, svg.value.rects, x, y);
        assert TopColour([p][..0], background, x, y) == background;
      }
      forall x, y | p.Opaque(x, y) ensures Denotes(p.rgbaAt(x, y).Colour(), p.rgbaAt(x, y)) {
        ColourDenotes(p.rgbaAt(x, y));
      }
    }
  }
}
