/** Bitmaps on the host's 16-colour palette, where colour 0 is transparent.
    An image is a value: every image the effects store is a fresh clone, so no
    two owners ever share one. */
module Images {
  import opened Numbers

  /** A palette index. */
  predicate IsColor(c: int) {
    0 <= c <= 15
  }

  /** A palette argument as the effects take it: `clamp(Math.round(c), low, 15)`. */
  function PaletteArgument(c: real, low: int): (r: int)
    requires 0 <= low <= 15
    ensures low <= r <= 15 && IsColor(r)
    ensures low as real - 0.5 <= c < 15.5 ==> c - 0.5 < r as real <= c + 0.5
  {
    Clamp(Round(c), low, 15)
  }

  /** `height` rows of `width` palette indices each; `rows[y][x]` is the pixel at (x, y). */
  datatype Image = Image(width: nat, height: nat, rows: seq<seq<int>>)
  {
    predicate Valid() {
      |rows| == height &&
      (forall y :: 0 <= y < height ==> |rows[y]| == width) &&
      (forall x, y :: 0 <= x < width && 0 <= y < height ==> IsColor(Get(x, y)))
    }

    predicate InBounds(x: int, y: int) {
      0 <= x < width && 0 <= y < height
    }

    /** `getPixel(x, y)`: reading outside the image yields 0. */
    function Get(x: int, y: int): int {
      if 0 <= y < |rows| && 0 <= x < |rows[y]| then rows[y][x] else 0
    }

    /** `setPixel(x, y, c)` on a copy: writing outside the image changes nothing. */
    function SetPixel(x: int, y: int, c: int): (r: Image)
      requires Valid() && IsColor(c)
      ensures r.Valid() && r.width == width && r.height == height
      ensures forall px, py :: r.Get(px, py) == if px == x && py == y && InBounds(x, y) then c else Get(px, py)
    {
      if InBounds(x, y) then
        var r := this.(rows := rows[y := rows[y][x := c]]);
        assert forall px, py :: r.Get(px, py) == if px == x && py == y then c else Get(px, py);
        r
      else this
    }
  }

  /** Every pixel read from a valid image, inside it or not, is a palette index. */
  lemma ColorsEverywhere(img: Image)
    requires img.Valid()
    ensures forall x, y :: IsColor(img.Get(x, y))
  {
    forall x, y ensures IsColor(img.Get(x, y)) {
      if !img.InBounds(x, y) {
        assert img.Get(x, y) == 0;
      }
    }
  }

  /** `image.create(width, height)`: an all-transparent image. */
  function Blank(width: nat, height: nat): (r: Image)
    ensures r.Valid() && r.width == width && r.height == height
    ensures forall x, y :: r.Get(x, y) == 0
  {
    Image(width, height, seq(height, _ => seq(width, _ => 0)))
  }

  /** True when no pixel of the image is opaque. */
  ghost predicate AllTransparent(img: Image) {
    forall x, y :: img.InBounds(x, y) ==> img.Get(x, y) == 0
  }

  /** Two valid images of the same size with the same pixels are the same image. */
  lemma SamePixels(a: Image, b: Image)
    requires a.Valid() && b.Valid() && a.width == b.width && a.height == b.height
    requires forall x, y :: a.InBounds(x, y) ==> a.Get(x, y) == b.Get(x, y)
    ensures a == b
  {
    forall y | 0 <= y < a.height
      ensures a.rows[y] == b.rows[y]
    {
      forall x | 0 <= x < a.width
        ensures a.rows[y][x] == b.rows[y][x]
      {
        assert a.Get(x, y) == b.Get(x, y);
      }
    }
  }

  /** `flipX`: the mirror image left to right. */
  function FlipX(img: Image): (r: Image)
    requires img.Valid()
    ensures r.Valid() && r.width == img.width && r.height == img.height
    ensures forall x, y :: r.InBounds(x, y) ==> r.Get(x, y) == img.Get(img.width - 1 - x, y)
  {
    Image(img.width, img.height, seq(img.height, y => seq(img.width, x => img.Get(img.width - 1 - x, y))))
  }

  /** `flipY`: the mirror image top to bottom. */
  function FlipY(img: Image): (r: Image)
    requires img.Valid()
    ensures r.Valid() && r.width == img.width && r.height == img.height
    ensures forall x, y :: r.InBounds(x, y) ==> r.Get(x, y) == img.Get(x, img.height - 1 - y)
  {
    Image(img.width, img.height, seq(img.height, y => seq(img.width, x => img.Get(x, img.height - 1 - y))))
  }

  /** Flipping horizontally twice gives back the original image. */
  lemma FlipXInvolution(img: Image)
    requires img.Valid()
    ensures FlipX(FlipX(img)) == img
  {
    SamePixels(FlipX(FlipX(img)), img);
  }

  /** Flipping vertically twice gives back the original image. */
  lemma FlipYInvolution(img: Image)
    requires img.Valid()
    ensures FlipY(FlipY(img)) == img
  {
    SamePixels(FlipY(FlipY(img)), img);
  }

  /** The two flips commute: both orders give the half-turn of the image. */
  lemma FlipsCommute(img: Image)
    requires img.Valid()
    ensures FlipX(FlipY(img)) == FlipY(FlipX(img))
  {
    SamePixels(FlipX(FlipY(img)), FlipY(FlipX(img)));
  }
}
