/** The colour map shared by all images of a collection
    (packages/nouns-sdk/src/image/image.ts, packages/nouns-sdk/src/image/png-collection-encoder.ts). */
module Palette {
  import opened JsMap
  import opened Picture

  type Colours = JsMap<string, nat>

  /** A colour not seen yet gets the current size of the map as its index. */
  function Insert(t: Colours, colour: string): Colours {
    if colour in t.vals then t else t.Put(colour, |t.keys|)
  }

  function InsertAll(t: Colours, colours: seq<string>): Colours {
    if colours == [] then t
    else Insert(InsertAll(t, colours[..|colours| - 1]), colours[|colours| - 1])
  }

  lemma InsertAllNext(t: Colours, colours: seq<string>, colour: string)
    ensures InsertAll(t, colours + [colour]) == Insert(InsertAll(t, colours), colour)
  {
    assert (colours + [colour])[..|colours|] == colours;
  }

  /** Transparent pixels use index 0, all others the index of their colour. */
  function PixelIndex(t: Colours, c: Rgba): nat
    requires c.a != 0 ==> c.Colour() in t.vals
  {
    if c.a == 0 then 0 else t.vals[c.Colour()]
  }

  /** The `Map<string, number>` object handed from the encoder to each image. */
  class ColourMap {
    var table: Colours

    constructor (t: Colours)
      ensures table == t
    {
      table := t;
    }

    method Set(colour: string, index: nat)
      modifies this
      ensures table == old(table).Put(colour, index)
    {
      table := table.Put(colour, index);
    }

    /** Inserts the colour of a pixel if it does not yet exist; returns the index of the pixel. */
    method IndexOf(c: Rgba) returns (index: nat)
      modifies this
      ensures table == Insert(old(table), c.Colour())
      ensures index == PixelIndex(table, c)
    {
      var hexColour := c.Colour();
      if hexColour !in table.vals {
        Set(hexColour, |table.keys|);
      }
      index := if c.a == 0 then 0 else table.vals[hexColour];
    }
  }

  /** `first` is key 0, and every key among `names` maps to its position. */
  ghost predicate Ranked<K(!new)>(t: JsMap<K, nat>, first: K, names: iset<K>) {
    && t.Valid()
    && t.keys != [] && t.keys[0] == first
    && forall i :: 0 <= i < |t.keys| && t.keys[i] in names ==> t.keys[i] in t.vals && t.vals[t.keys[i]] == i
  }

  /** The keys that pixels can have. */
  ghost predicate IsColourName(name: string) {
    exists c: Rgba {:trigger c.Colour()} :: c.Colour() == name
  }

  ghost function ColourNames(): iset<string> {
    iset name | IsColourName(name)
  }

  /** The palettes the encoder needs: `''`, for transparent pixels, stands first, and every colour maps
      to its position. What `''` maps to is never read. */
  ghost predicate WellFormed(t: Colours) {
    Ranked(t, "", ColourNames())
  }

  lemma InsertKeepsIndex(t: Colours, colour: string, c: Rgba)
    requires c.Colour() in t.vals
    ensures c.Colour() in Insert(t, colour).vals
    ensures PixelIndex(Insert(t, colour), c) == PixelIndex(t, c)
  {
  }

  lemma {:induction false} InsertAllGrows(t: Colours, colours: seq<string>)
    ensures var t' := InsertAll(t, colours);
      && t.keys <= t'.keys
      && (forall c :: c in t.vals ==> c in t'.vals && t'.vals[c] == t.vals[c])
      && (forall i :: 0 <= i < |colours| ==> colours[i] in t'.vals)
  {
    if colours != [] {
      InsertAllGrows(t, colours[..|colours| - 1]);
    }
  }

  /** A pixel's index names its colour and is 0 only for transparent pixels. */
  ghost predicate Names(keys: seq<string>, index: nat, c: Rgba) {
    index < |keys| && if c.a != 0 then 0 < index && keys[index] == c.Colour() else index == 0
  }

  lemma ColourNamed(c: Rgba)
    ensures c.Colour() in ColourNames() && |c.Colour()| == 6
  {
    Hex.RgbToHexInjective(c.r, c.g, c.b, c.r, c.g, c.b);
  }

  lemma PixelIndexNames(t: Colours, c: Rgba)
    requires WellFormed(t) && c.Colour() in t.vals
    ensures Names(t.keys, PixelIndex(t, c), c)
  {
    if c.a != 0 {
      ColourNamed(c);
      assert c.Colour() in t.keys;
      var i :| 0 <= i < |t.keys| && t.keys[i] == c.Colour();
    }
  }

  /** These are exactly the palettes in which the index of every pixel names it. */
  lemma WellFormedNames(t: Colours)
    requires t.Valid() && t.keys != [] && t.keys[0] == ""
    ensures WellFormed(t) <==>
      forall c: Rgba :: c.Colour() in t.vals ==> Names(t.keys, PixelIndex(t, c), c)
  {
    if WellFormed(t) {
      forall c: Rgba | c.Colour() in t.vals ensures Names(t.keys, PixelIndex(t, c), c) {
        PixelIndexNames(t, c);
      }
    } else {
      var i :| 0 <= i < |t.keys| && t.keys[i] in ColourNames() && t.vals[t.keys[i]] != i;
      var c: Rgba :| c.Colour() == t.keys[i];
      var solid := c.(a := 255);
      assert solid.Colour() == t.keys[i] && solid.Colour() in t.vals;
      assert !Names(t.keys, PixelIndex(t, solid), solid);
    }
  }

  /** Reading colours into a palette neither makes nor breaks this. */
  lemma {:induction false} InsertAllWellFormed(t: Colours, colours: seq<string>)
    requires t.Valid() && t.keys != []
    ensures InsertAll(t, colours).Valid() && InsertAll(t, colours).keys != []
    ensures WellFormed(InsertAll(t, colours)) <==> WellFormed(t)
  {
    if colours != [] {
      InsertAllWellFormed(t, colours[..|colours| - 1]);
      InsertWellFormed(InsertAll(t, colours[..|colours| - 1]), colours[|colours| - 1]);
    }
  }

  lemma InsertWellFormed(t: Colours, colour: string)
    requires t.Valid() && t.keys != []
    ensures WellFormed(Insert(t, colour)) <==> WellFormed(t)
  {
    if colour !in t.vals {
      var t' := Insert(t, colour);
      assert forall i :: 0 <= i < |t.keys| ==> t'.keys[i] == t.keys[i] && t.keys[i] in t.keys;
    }
  }

  /** Every colour read into a palette is named by its index there. */
  lemma InsertAllNames(t: Colours, colours: seq<string>, i: nat, c: Rgba)
    requires WellFormed(t) && i < |colours| && colours[i] == c.Colour()
    ensures c.Colour() in InsertAll(t, colours).vals
    ensures Names(InsertAll(t, colours).keys, PixelIndex(InsertAll(t, colours), c), c)
  {
    InsertAllGrows(t, colours);
    InsertAllWellFormed(t, colours);
    PixelIndexNames(InsertAll(t, colours), c);
  }
}
