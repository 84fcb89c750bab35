/** The collection encoder (packages/nouns-sdk/src/image/png-collection-encoder.ts). */
module Collection {
  import opened Codec
  import opened Hex
  import opened ImageEncoder
  import opened JsMap
  import opened Listing
  import opened Palette
  import opened Picture
  import opened Seeding
  import opened Sequences
  import opened SvgBuilder
  import opened Wrappers

  /** The stored data still decodes to the picture it was made from: exactly if the colours of the
      picture are among the first 256 entries. */
  ghost predicate Recoverable(data: string, p: Picture, palette: seq<string>) {
    && (forall x, y :: p.Opaque(x, y) ==> p.rgbaAt(x, y).Colour() in palette)
    && (Fits(p) ==> ((forall x, y :: Faithful(data, p, palette, x, y)) <==> WithinByte(p, palette)))
  }

  lemma WithinLater(p: Picture, palette: seq<string>, later: seq<string>)
    requires palette <= later && NoDup(later)
    requires forall x, y :: p.Opaque(x, y) ==> p.rgbaAt(x, y).Colour() in palette
    ensures WithinByte(p, palette) <==> WithinByte(p, later)
  {
    forall x, y | p.Opaque(x, y)
      ensures InFirst256(palette, p.rgbaAt(x, y).Colour()) <==> InFirst256(later, p.rgbaAt(x, y).Colour())
    {
      PlaceLater(palette, later, p.rgbaAt(x, y).Colour());
    }
  }

  lemma PlaceLater(palette: seq<string>, later: seq<string>, colour: string)
    requires palette <= later && NoDup(later) && colour in palette
    ensures InFirst256(palette, colour) <==> InFirst256(later, colour)
  {
    var i :| 0 <= i < |palette| && palette[i] == colour;
    PlaceUnique(palette, i);
    PlaceUnique(later, i);
  }

  lemma PlaceUnique(palette: seq<string>, i: nat)
    requires NoDup(palette) && i < |palette|
    ensures InFirst256(palette, palette[i]) <==> i < 256
  {
    var first := palette[..if |palette| < 256 then |palette| else 256];
    if i < 256 {
      assert first[i] == palette[i];
    }
    if InFirst256(palette, palette[i]) {
      UniqueIndex(palette, i);
    }
  }

  /** At an opaque pixel whose colour the shorter palette has, both palettes name the same index. */
  lemma FaithfulBoth(data: string, p: Picture, palette: seq<string>, later: seq<string>, x: int, y: int)
    requires palette <= later && NoDup(later)
    requires p.Opaque(x, y) ==> p.rgbaAt(x, y).Colour() in palette
    ensures Faithful(data, p, palette, x, y) <==> Faithful(data, p, later, x, y)
  {
    if p.Opaque(x, y) && Faithful(data, p, later, x, y) {
      var i :| 0 <= i < |palette| && palette[i] == p.rgbaAt(x, y).Colour();
      assert later[i] == later[LayerIndex(DecodeImage(data).value, x, y)];
    }
  }

  lemma RecoverableLater(data: string, p: Picture, palette: seq<string>, later: seq<string>)
    requires Recoverable(data, p, palette) && palette <= later && NoDup(later)
    ensures Recoverable(data, p, later)
  {
    WithinLater(p, palette, later);
    forall x, y ensures Faithful(data, p, palette, x, y) <==> Faithful(data, p, later, x, y) {
      FaithfulBoth(data, p, palette, later, x, y);
    }
  }

  lemma EncodedRecoverable(t: Colours, p: Picture, b: Bounds)
    requires IsCrop(p, b) && WellFormed(t)
    ensures t.keys <= Absorb(t, p, b).keys && WellFormed(Absorb(t, p, b))
    ensures Recoverable(Encoded(t, p, b), p, Absorb(t, p, b).keys)
  {
    InsertAllGrows(t, BoxColours(p, b, b.Area()));
    InsertAllWellFormed(t, BoxColours(p, b, b.Area()));
    var palette := Absorb(t, p, b).keys;
    forall x, y | p.Opaque(x, y) ensures p.rgbaAt(x, y).Colour() in palette {
      ColourAbsorbed(t, p, b, palette, x, y);
    }
    if Fits(p) {
      CodecRoundTrip(t, p, b, palette);
    }
  }

  // ---------- Pre-populated palettes

  lemma ColoursAreNames()
    ensures "" !in ColourNames()
  {
    forall c: Rgba ensures c.Colour() != "" {
      ColourNamed(c);
    }
  }

  /** Seeding with these palettes is safe, and with no others: the index of every pixel names it. */
  ghost predicate SeedUsable(palette: seq<string>) {
    Usable("", ColourNames(), palette)
  }

  lemma SeedWellFormed(palette: seq<string>)
    ensures WellFormed(Seeded("", palette)) <==> SeedUsable(palette)
  {
    ColoursAreNames();
    UsableExact("", ColourNames(), palette);
  }

  lemma SeededMap(palette: seq<string>)
    ensures var t := Seeded("", palette);
      && t.Valid() && t.keys != [] && t.keys[0] == ""
      && (WellFormed(t) <==> SeedUsable(palette))
  {
    SeededKeys("", palette);
    SeedWellFormed(palette);
  }

  lemma SeedNames(palette: seq<string>)
    ensures var t := Seeded("", palette);
      SeedUsable(palette) <==> forall c: Rgba :: c.Colour() in t.vals ==> Names(t.keys, PixelIndex(t, c), c)
  {
    SeededKeys("", palette);
    SeedWellFormed(palette);
    WellFormedNames(Seeded("", palette));
  }

  /** Encoded with this map, the picture decodes to itself. */
  ghost predicate Decodes(t: Colours, p: Picture, b: Bounds)
    requires IsCrop(p, b)
  {
    forall x, y :: Faithful(Encoded(t, p, b), p, Absorb(t, p, b).keys, x, y)
  }

  /** Every picture that fits does. */
  ghost predicate AllPicturesDecode(t: Colours) {
    forall p, b :: IsCrop(p, b) && Fits(p) && WithinByte(p, Absorb(t, p, b).keys) ==> Decodes(t, p, b)
  }

  lemma WellFormedDecodes(t: Colours)
    requires WellFormed(t)
    ensures AllPicturesDecode(t)
  {
    forall p, b | IsCrop(p, b) && Fits(p) && WithinByte(p, Absorb(t, p, b).keys) ensures Decodes(t, p, b) {
      EncodedRecoverable(t, p, b);
    }
  }

  lemma MisnamedFails(t: Colours, c: Rgba)
    requires c.a != 0 && c.Colour() in t.keys && c.Colour() in t.vals && t.vals[c.Colour()] < 256
    requires !Names(t.keys, PixelIndex(t, c), c) && |t.keys| <= 256
    ensures !AllPicturesDecode(t)
  {
    DotIndexes(t, c);
    MisnamedDot(t, c);
    assert t.keys[..|t.keys|] == t.keys;
    assert InFirst256(t.keys, c.Colour());
    assert WithinByte(Dot(c), Absorb(t, Dot(c), DOT).keys) && !Decodes(t, Dot(c), DOT);
  }

  /** Seeds of fewer than 256 entries are usable exactly if all pictures decode. */
  lemma SeedDecodes(palette: seq<string>)
    requires |palette| < 256
    ensures AllPicturesDecode(Seeded("", palette)) <==> SeedUsable(palette)
  {
    var t := Seeded("", palette);
    SeededKeys("", palette);
    SeedWellFormed(palette);
    if SeedUsable(palette) {
      WellFormedDecodes(t);
    } else {
      SeedNames(palette);
      var c: Rgba :| c.Colour() in t.vals && !Names(t.keys, PixelIndex(t, c), c);
      MisnamedFails(t, c);
    }
  }

  /** The palettes of colour names, and `''`, that are usable. */
  lemma ColourSeeds(palette: seq<string>)
    requires forall name :: name in palette ==> name == "" || name in ColourNames()
    ensures SeedUsable(palette) <==> SeedOkPrefix("", palette)
  {
    ColoursAreNames();
    UsableExact("", ColourNames(), palette);
    ColourSeedExact("", ColourNames(), palette);
  }

  /** With a palette that does not start with the entry for transparent pixels, opaque red is encoded
      as transparent; with one that repeats red, as a colour that is not in the palette. */
  lemma RedBecomesTransparent()
    ensures var red, t, t' := Rgba(255, 0, 0, 255), Seeded("", ["ff0000"]), Seeded("", ["", "ff0000", "ff0000"]);
      && red.Colour() in t.vals && PixelIndex(t, red) == 0
      && red.Colour() in t'.vals && PixelIndex(t', red) == 2 == |t'.keys|
  {
    assert ToHex(255) == "ff" && ToHex(0) == "0" && PadStart("0", 2) == "00";
    assert RgbToHex(255, 0, 0) == "ff0000";
    assert ["ff0000"][..0] == [];
    assert Seeded("", []) == JsMap([""], map["" := 0]);
    assert Seeded("", ["ff0000"]) == Seeded("", []).Put("ff0000", 0);
    var twice := ["", "ff0000", "ff0000"];
    assert twice[..2] == ["", "ff0000"] && twice[..2][..1] == [""] && twice[..2][..1][..0] == [];
    assert Seeded("", twice[..2][..1]) == Seeded("", []).Put("", 0);
    assert Seeded("", twice[..2]) == Seeded("", [""]).Put("ff0000", 1);
    assert Seeded("", twice) == Seeded("", twice[..2]).Put("ff0000", 2);
  }

  function ValuesOf<V>(m: map<string, V>, names: seq<string>): (r: seq<V>)
    requires forall n :: n in names ==> n in m
    ensures |r| == |names| && forall i :: 0 <= i < |names| ==> r[i] == m[names[i]]
  {
    seq(|names|, i requires 0 <= i < |names| => m[names[i]])
  }

  lemma AllDecodes(parts: seq<string>, pictures: seq<Picture>, palette: seq<string>)
    requires |parts| == |pictures|
    requires forall i, x, y :: 0 <= i < |parts| ==> Faithful(parts[i], pictures[i], palette, x, y)
    ensures AllDecode(parts)
  {
    forall i | 0 <= i < |parts| ensures DecodeImage(parts[i]).Some? {
      assert Faithful(parts[i], pictures[i], palette, 0, 0);
    }
  }

  /** The pictures fit, with colours among the first 256. */
  ghost predicate AllFit(pictures: seq<Picture>, palette: seq<string>) {
    forall i :: 0 <= i < |pictures| ==> Fits(pictures[i]) && WithinByte(pictures[i], palette)
  }

  /** Folders list stored images only. */
  ghost predicate AllStored(folders: JsMap<string, seq<string>>, images: JsMap<string, string>) {
    forall f, n :: f in folders.vals && n in folders.vals[f] ==> n in images.vals
  }

  ghost predicate AllRecoverable(originals: map<string, Picture>, images: JsMap<string, string>, palette: seq<string>)
    requires originals.Keys == images.vals.Keys
  {
    forall n :: n in originals ==> Recoverable(images.vals[n], originals[n], palette)
  }

  lemma StoreOne(originals: map<string, Picture>, images: JsMap<string, string>, palette: seq<string>, name: string,
          p: Picture, data: string, later: seq<string>)
    requires originals.Keys == images.vals.Keys && AllRecoverable(originals, images, palette)
    requires palette <= later && NoDup(later) && Recoverable(data, p, later)
    ensures originals[name := p].Keys == images.Put(name, data).vals.Keys
    ensures AllRecoverable(originals[name := p], images.Put(name, data), later)
  {
    forall n | n in originals ensures Recoverable(images.vals[n], originals[n], later) {
      RecoverableLater(images.vals[n], originals[n], palette, later);
    }
  }

  lemma ListOne(folders: JsMap<string, seq<string>>, images: JsMap<string, string>, folder: string, name: string,
          data: string)
    requires AllStored(folders, images)
    ensures AllStored(folders, images.Put(name, data))
    ensures AllStored(folders.Put(folder, (if folder in folders.vals then folders.vals[folder] else []) + [name]),
                      images.Put(name, data))
  {
  }

  class PNGCollectionEncoder {
    const colours: ColourMap
    var images: JsMap<string, string>
    var folders: JsMap<string, seq<string>>
    // The palette given to the constructor, and the picture last encoded under each name.
    ghost const seed: seq<string>
    ghost var originals: map<string, Picture>

    ghost predicate Valid()
      reads this, colours
    {
      && images.Valid() && folders.Valid()
      && originals.Keys == images.vals.Keys
      && AllStored(folders, images)
      && colours.table.Valid() && colours.table.keys != [] && colours.table.keys[0] == ""
      && (WellFormed(colours.table) <==> SeedUsable(seed))
      && (SeedUsable(seed) ==> AllRecoverable(originals, images, colours.table.keys))
    }

    constructor (palette: seq<string>)
      ensures Valid() && fresh(colours) && seed == palette
      ensures colours.table == Seeded("", palette)
      ensures images.keys == [] && folders.keys == []
    {
      colours := new ColourMap(JsMap([""], map["" := 0]));
      images := JsMap([], map[]);
      folders := JsMap([], map[]);
      seed := palette;
      originals := map[];
      new;
      for i := 0 to |palette|
        modifies colours
        invariant colours.table == Seeded("", palette[..i])
      {
        assert palette[..i + 1][..i] == palette[..i];
        colours.Set(palette[i], i);
      }
      assert palette[..|palette|] == palette;
      SeededMap(palette);
    }

    /** Encodes a picture under a name and lists it in the folder, unless the folder name is empty.
        Everything encoded before stays recoverable under the grown palette. */
    method EncodeImage(name: string, png: Picture, folder: string) returns (rle: string)
      requires Valid()
      modifies this, colours
      ensures Valid()
      ensures originals == old(originals)[name := png]
      ensures images == old(images).Put(name, rle)
      ensures folders == if folder == "" then old(folders) else
          old(folders).Put(folder, (if folder in old(folders.vals) then old(folders.vals)[folder] else []) + [name])
      ensures old(colours.table.keys) <= colours.table.keys
    {
      ghost var t := colours.table;
      var image := new Image(png);
      rle := image.ToRLE(colours);
      InsertAllGrows(t, BoxColours(png, image.bounds, image.bounds.Area()));
      InsertAllWellFormed(t, BoxColours(png, image.bounds, image.bounds.Area()));
      if SeedUsable(seed) {
        EncodedRecoverable(t, png, image.bounds);
        StoreOne(originals, images, t.keys, name, png, rle, colours.table.keys);
      }
      ListOne(folders, images, folder, name, rle);
      images := images.Put(name, rle);
      originals := originals[name := png];
      if folder != "" {
        var listed := if folder in folders.vals then folders.vals[folder] else [];
        folders := folders.Put(folder, listed + [name]);
      }
    }

    /** The stored images by folder, or all of them under `root`. */
    method Format(flatten: bool) returns (data: JsMap<string, seq<Entry<string, string>>>)
      requires Valid()
      ensures data == Formatted(images, folders, "root", flatten)
    {
      data := Listing.Format(images, folders, "root", flatten);
    }

    /** What is written to the file. From a usable seed, a stored picture that fits can be read back
        from it exactly if its colours are among the first 256 of the palette. An image is lost exactly
        if the folder that lists it first is called `root` and some other image is in no folder. */
    method Data() returns (palette: seq<string>, data: JsMap<string, seq<Entry<string, string>>>)
      requires Valid()
      ensures palette == colours.table.keys && palette[..1] == [""] && NoDup(palette)
      ensures SeedUsable(seed) ==> AllRecoverable(originals, images, palette)
      ensures forall n :: n in originals ==>
        (Written(data, images, n) <==> !(FirstListedIn(folders, n, "root") && SomeUnlisted(images, folders)))
    {
      palette := colours.table.keys;
      data := Format(false);
      forall n | n in originals
        ensures Written(data, images, n) <==> !(FirstListedIn(folders, n, "root") && SomeUnlisted(images, folders))
      {
        FormatComplete(images, folders, "root", false, n);
      }
    }

    /** Draws stored images over each other under the final palette: every pixel shows the colour of the
        last picture that is opaque there, or else the background. */
    method DrawStored(names: seq<string>, background: string) returns (svg: Option<Svg>)
      requires Valid() && forall n :: n in names ==> n in images.vals
      ensures SeedUsable(seed) && AllFit(ValuesOf(originals, names), colours.table.keys) ==>
        && svg.Some?
        && (forall x, y :: Shown(svg.value.rects, x, y, Some(background)) ==
              Some(TopColour(ValuesOf(originals, names), background, x, y)))
    {
      var parts := ValuesOf(images.vals, names);
      svg := BuildSVG(parts, colours.table.keys, background);
      ghost var pictures := ValuesOf(originals, names);
      if SeedUsable(seed) && AllFit(pictures, colours.table.keys) {
        forall i, x, y | 0 <= i < |names| ensures Faithful(parts[i], pictures[i], colours.table.keys, x, y) {
          assert names[i] in names && names[i] in originals;
        }
        AllDecodes(parts, pictures, colours.table.keys);
        forall x, y ensures Shown(svg.value.rects, x, y, Some(background)) ==
          Some(TopColour(pictures, background, x, y))
        {
          FaithfulDrawn(parts, pictures, colours.table.keys, background, svg.value.rects, x, y);
        }
      }
    }
  }
}
