/** `applyOpacityDither`: partial transparency on a palette without alpha, by a
    4x4 Bayer ordered-dither threshold tiled over the image. */
module Dither {
  import opened Numbers
  import opened Images

  /** The 4x4 Bayer threshold matrix, indexed [row][column]. */
  const Bayer: seq<seq<int>> := [
    [0, 8, 2, 10],
    [12, 4, 14, 6],
    [3, 11, 1, 9],
    [15, 7, 13, 5]
  ]

  /** The threshold tiled over the image: `matrix[y % 4][x % 4]`. */
  function Threshold(x: int, y: int): (t: int)
    ensures 0 <= t <= 15
  {
    Bayer[y % 4][x % 4]
  }

  /** Pixel (x, y) survives at `opacity` iff its threshold is below `opacity * 16 / 100`. */
  predicate Keeps(x: int, y: int, opacity: int) {
    (Threshold(x, y) as real) < (opacity as real) * 16.0 / 100.0
  }

  /** The threshold test needs no division: it is `threshold * 100 < opacity * 16`. */
  lemma KeepsInIntegers(x: int, y: int, opacity: int)
    ensures Keeps(x, y, opacity) <==> Threshold(x, y) * 100 < opacity * 16
  {
  }

  /** One output pixel of the general case: an opaque pixel kept by the threshold, else transparent. */
  function DitherPixel(color: int, x: int, y: int, opacity: int): int {
    if color != 0 && Keeps(x, y, opacity) then color else 0
  }

  /** What `applyOpacityDither(source, opacityPercent)` returns. */
  function Dithered(source: Image, opacityPercent: int): (r: Image)
    requires source.Valid()
    ensures r.Valid() && r.width == source.width && r.height == source.height
  {
    var opacity := Clamp(opacityPercent, 0, 100);
    if opacity >= 100 then source
    else if opacity <= 0 then Blank(source.width, source.height)
    else
      Image(source.width, source.height,
        seq(source.height, y => seq(source.width, x => DitherPixel(source.Get(x, y), x, y, opacity))))
  }

  /** The two early returns agree with the threshold rule: every pixel of the result is
      the threshold rule applied at the clamped opacity. */
  lemma DitheredAt(source: Image, opacityPercent: int, x: int, y: int)
    requires source.Valid() && source.InBounds(x, y)
    ensures Dithered(source, opacityPercent).Get(x, y)
            == DitherPixel(source.Get(x, y), x, y, Clamp(opacityPercent, 0, 100))
  {
    var opacity := Clamp(opacityPercent, 0, 100);
    KeepsInIntegers(x, y, opacity);
  }

  /** Full opacity (or more) gives back a pixel-identical copy. */
  lemma DitherFullOpacity(source: Image, opacityPercent: int)
    requires source.Valid() && opacityPercent >= 100
    ensures Dithered(source, opacityPercent) == source
  {
  }

  /** No opacity (or less) gives an all-transparent image of the same size. */
  lemma DitherZeroOpacity(source: Image, opacityPercent: int)
    requires source.Valid() && opacityPercent <= 0
    ensures Dithered(source, opacityPercent) == Blank(source.width, source.height)
    ensures AllTransparent(Dithered(source, opacityPercent))
  {
  }

  /** Every output pixel is either the source pixel or transparent, and transparent
      source pixels stay transparent. */
  lemma DitherKeepsOrClears(source: Image, opacityPercent: int)
    requires source.Valid()
    ensures forall x, y :: source.InBounds(x, y) ==>
      var out := Dithered(source, opacityPercent).Get(x, y);
      (out == source.Get(x, y) || out == 0) && (source.Get(x, y) == 0 ==> out == 0)
  {
    forall x, y | source.InBounds(x, y)
      ensures var out := Dithered(source, opacityPercent).Get(x, y);
              (out == source.Get(x, y) || out == 0) && (source.Get(x, y) == 0 ==> out == 0)
    {
      DitheredAt(source, opacityPercent, x, y);
    }
  }

  /** Monotonicity: a pixel shown at opacity `low` is shown, unchanged, at every higher opacity. */
  lemma DitherMonotone(source: Image, low: int, high: int)
    requires source.Valid() && low <= high
    ensures forall x, y :: source.InBounds(x, y) && Dithered(source, low).Get(x, y) != 0 ==>
      Dithered(source, high).Get(x, y) == source.Get(x, y)
  {
    forall x, y | source.InBounds(x, y) && Dithered(source, low).Get(x, y) != 0
      ensures Dithered(source, high).Get(x, y) == source.Get(x, y)
    {
      DitheredAt(source, low, x, y);
      DitheredAt(source, high, x, y);
      KeepsInIntegers(x, y, Clamp(low, 0, 100));
      KeepsInIntegers(x, y, Clamp(high, 0, 100));
    }
  }

  /** `applyOpacityDither`: clamps the opacity, returns early at 100 and at 0, and
      otherwise copies each opaque pixel its threshold keeps into a blank image. */
  method ApplyOpacityDither(source: Image, opacityPercent: int) returns (output: Image)
    requires source.Valid()
    ensures output == Dithered(source, opacityPercent)
  {
    var opacity := Clamp(opacityPercent, 0, 100);
    if opacity >= 100 {
      return source;
    }
    if opacity <= 0 {
      return Blank(source.width, source.height);
    }
    output := Blank(source.width, source.height);
    var y := 0;
    while y < source.height
      invariant 0 <= y <= source.height
      invariant output.Valid() && output.width == source.width && output.height == source.height
      invariant forall px, py :: output.InBounds(px, py) ==>
        output.Get(px, py) == if py < y then DitherPixel(source.Get(px, py), px, py, opacity) else 0
    {
      var x := 0;
      while x < source.width
        invariant 0 <= x <= source.width
        invariant output.Valid() && output.width == source.width && output.height == source.height
        invariant forall px, py :: output.InBounds(px, py) ==>
          output.Get(px, py) ==
            if py < y || (py == y && px < x) then DitherPixel(source.Get(px, py), px, py, opacity) else 0
      {
        var color := source.Get(x, y);
        if color != 0 {
          KeepsInIntegers(x, y, opacity);
          if Threshold(x, y) * 100 < opacity * 16 {
            output := output.SetPixel(x, y, color);
          }
        }
        x := x + 1;
      }
      y := y + 1;
    }
    forall px, py | output.InBounds(px, py)
      ensures output.Get(px, py) == Dithered(source, opacityPercent).Get(px, py)
    {
      DitheredAt(source, opacityPercent, px, py);
    }
    SamePixels(output, Dithered(source, opacityPercent));
  }
}
