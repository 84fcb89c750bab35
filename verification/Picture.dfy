/** Pictures, their crop box, and the row-by-row order in which a box is read
    (packages/nouns-sdk/src/image/image.ts, packages/nouns-sdk/src/image/types.ts). */
module Picture {
  import opened Arithmetic
  import opened Hex

  datatype Rgba = Rgba(r: Byte, g: Byte, b: Byte, a: Byte) {
    function Colour(): string {
      RgbToHex(r, g, b)
    }
  }

  /** The name has six hex digits, two for each channel: red, green, blue. */
  predicate Denotes(name: string, c: Rgba) {
    IsHex(name) && |name| == 6 && FromHex(name) == 65536 * c.r + 256 * c.g + c.b
  }

  lemma ColourDenotes(c: Rgba)
    ensures Denotes(c.Colour(), c)
  {
    RgbToHexDenotes(c.r, c.g, c.b);
  }

  /** Width, height and `rgbaAt` of a decoded image. */
  datatype Picture = Picture(width: nat, height: nat, rgbaAt: (nat, nat) -> Rgba) {

    predicate Opaque(x: int, y: int) {
      0 <= x < width && 0 <= y < height && rgbaAt(x, y).a != 0
    }

    ghost predicate Blank() {
      forall x, y :: !Opaque(x, y)
    }

    ghost predicate RowClear(y: int) {
      forall x :: !Opaque(x, y)
    }

    ghost predicate ColumnClear(x: int) {
      forall y :: !Opaque(x, y)
    }
  }

  /** `top` and `bottom` are both inside the box; `right` is one past it. */
  datatype Bounds = Bounds(top: int, right: int, bottom: int, left: int) {

    predicate Contains(x: int, y: int) {
      left <= x < right && top <= y <= bottom
    }

    predicate Within(other: Bounds) {
      other.top <= top && bottom <= other.bottom && other.left <= left && right <= other.right
    }

    /** An empty box, or one without negative coordinates. */
    predicate Readable() {
      left < right && top <= bottom ==> 0 <= left && 0 <= top
    }

    /** Number of pixels in the box. */
    function Area(): nat {
      if left < right && top <= bottom then (right - left) * (bottom - top + 1) else 0
    }

    function X(k: nat): int
      requires left < right
    {
      left + k % (right - left)
    }

    function Y(k: nat): int
      requires left < right
    {
      top + k / (right - left)
    }

    /** Position of a pixel in row-by-row order. */
    function Index(x: int, y: int): int {
      (y - top) * (right - left) + (x - left)
    }
  }

  ghost predicate Encloses(b: Bounds, p: Picture) {
    forall x, y :: p.Opaque(x, y) ==> b.Contains(x, y)
  }

  /** The box `calcBounds` promises: the least one around the opaque pixels, and for a picture
      without any the empty box in the corner. */
  ghost predicate IsCrop(p: Picture, b: Bounds) {
    if p.Blank() then b == Bounds(0, 0, if p.height == 0 then -1 else 0, 0)
    else
      && Encloses(b, p)
      && (forall other :: Encloses(other, p) ==> b.Within(other))
      && 0 <= b.left < b.right <= p.width
      && 0 <= b.top <= b.bottom < p.height
  }

  /** The pictures a byte-sized box can hold: at least one row, and no opaque pixel beyond column 254
      or row 255. In particular every picture of 1 to 256 rows and at most 255 columns. */
  ghost predicate Fits(p: Picture) {
    p.height > 0 && forall x, y :: p.Opaque(x, y) ==> x < 255 && y < 256
  }

  lemma FitsCrop(p: Picture, b: Bounds)
    requires IsCrop(p, b)
    ensures Fits(p) <==> p.height > 0 && b.right < 256 && b.bottom < 256
  {
    var bytes := Bounds(0, 255, 255, 0);
    if Fits(p) && !p.Blank() {
      assert Encloses(bytes, p);
      assert b.Within(bytes);
    }
  }

  /** Both conditions of IsCrop together leave one box. */
  lemma CropUnique(p: Picture, b: Bounds, b': Bounds)
    requires IsCrop(p, b) && IsCrop(p, b')
    ensures b == b'
  {
    if !p.Blank() {
      assert b.Within(b') && b'.Within(b);
    }
  }

  /** A box whose four edges each touch an opaque pixel lies in every box around the picture. */
  lemma TightIsLeast(p: Picture, b: Bounds)
    requires Encloses(b, p)
    requires !p.RowClear(b.top) && !p.RowClear(b.bottom)
    requires !p.ColumnClear(b.left) && !p.ColumnClear(b.right - 1)
    ensures forall other :: Encloses(other, p) ==> b.Within(other)
  {
  }

  /** Index and (X, Y) are inverse to each other: the k-th pixel of a box is at
      (left + k mod w, top + k div w). */
  lemma IndexXY(b: Bounds, k: nat)
    requires b.left < b.right
    ensures b.left <= b.X(k) < b.right && b.top <= b.Y(k)
    ensures b.Index(b.X(k), b.Y(k)) == k
  {
    var w := b.right - b.left;
    assert k == (k / w) * w + k % w;
  }

  lemma XYIndex(b: Bounds, x: int, y: int)
    requires b.left <= x < b.right && b.top <= y
    ensures 0 <= b.Index(x, y)
    ensures b.X(b.Index(x, y)) == x && b.Y(b.Index(x, y)) == y
  {
    MulMonotone(0, y - b.top, b.right - b.left);
    DivModUnique(b.right - b.left, y - b.top, x - b.left);
  }

  /** Index counts along a row, and from the end of a row to the start of the next. */
  lemma IndexNext(b: Bounds, x: int, y: int)
    ensures b.Index(x + 1, y) == b.Index(x, y) + 1
    ensures b.Index(b.left, y + 1) == b.Index(b.right, y)
    ensures b.Index(b.left, b.top) == 0
  {
    var w := b.right - b.left;
    assert (y + 1 - b.top) * w == (y - b.top) * w + w;
  }

  lemma AreaPositive(b: Bounds)
    requires b.left < b.right && b.top <= b.bottom
    ensures b.Area() >= 1
  {
    MulAtLeast(b.bottom - b.top + 1, b.right - b.left);
  }

  lemma IndexEnd(b: Bounds)
    requires b.left <= b.right && b.top <= b.bottom + 1
    ensures b.Index(b.left, b.bottom + 1) == b.Area()
  {
  }

  /** The pixels of a box are exactly those with an index below its area. */
  lemma AreaIndex(b: Bounds, x: int, y: int)
    requires b.left <= x < b.right && b.top <= y
    ensures b.Contains(x, y) <==> b.Index(x, y) < b.Area()
  {
    var w := b.right - b.left;
    if y <= b.bottom {
      assert (y - b.top) * w <= (b.bottom - b.top) * w;
      assert (b.bottom - b.top) * w + w == (b.bottom - b.top + 1) * w;
    } else if b.top <= b.bottom {
      assert (y - b.top) * w >= (b.bottom - b.top + 1) * w;
    } else {
      assert (y - b.top) * w >= 0;
    }
  }
}
