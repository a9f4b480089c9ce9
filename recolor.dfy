/** `recolor`: replace one palette index by another throughout an image. */
module Recolor {
  import opened Images

  /** One pixel of a recoloured image. */
  function RecolorPixel(color: int, from: int, to: int): int {
    if color == from then to else color
  }

  /** The image with every pixel equal to `from` replaced by `to`. */
  function Recolored(img: Image, from: int, to: int): (r: Image)
    requires img.Valid() && IsColor(to)
    ensures r.Valid() && r.width == img.width && r.height == img.height
    ensures forall x, y :: r.InBounds(x, y) ==> r.Get(x, y) == RecolorPixel(img.Get(x, y), from, to)
  {
    Image(img.width, img.height,
      seq(img.height, y => seq(img.width, x => RecolorPixel(img.Get(x, y), from, to))))
  }

  /** After recolouring, no pixel has colour `from` unless `from` is the new colour. */
  lemma RecoloredRemovesFrom(img: Image, from: int, to: int)
    requires img.Valid() && IsColor(to) && from != to
    ensures forall x, y :: img.InBounds(x, y) ==> Recolored(img, from, to).Get(x, y) != from
  {
  }

  /** Recolouring twice with the same arguments is recolouring once. */
  lemma RecolorIdempotent(img: Image, from: int, to: int)
    requires img.Valid() && IsColor(to)
    ensures Recolored(Recolored(img, from, to), from, to) == Recolored(img, from, to)
  {
    var once := Recolored(img, from, to);
    SamePixels(Recolored(once, from, to), once);
  }

  /** Recolouring a colour to itself changes nothing. */
  lemma RecolorToSelf(img: Image, c: int)
    requires img.Valid() && IsColor(c)
    ensures Recolored(img, c, c) == img
  {
    SamePixels(Recolored(img, c, c), img);
  }

  /** The loop of `recolor`: on a clone of the baseline, every pixel that reads `from`
      is set to `to`. */
  method RecolorImage(source: Image, from: int, to: int) returns (recolored: Image)
    requires source.Valid() && IsColor(to)
    ensures recolored == Recolored(source, from, to)
  {
    recolored := source;
    var y := 0;
    while y < recolored.height
      invariant 0 <= y <= source.height
      invariant recolored.Valid() && recolored.width == source.width && recolored.height == source.height
      invariant forall px, py :: recolored.InBounds(px, py) ==>
        recolored.Get(px, py) ==
          if py < y then RecolorPixel(source.Get(px, py), from, to) else source.Get(px, py)
    {
      var x := 0;
      while x < recolored.width
        invariant 0 <= x <= source.width
        invariant recolored.Valid() && recolored.width == source.width && recolored.height == source.height
        invariant forall px, py :: recolored.InBounds(px, py) ==>
          recolored.Get(px, py) ==
            if py < y || (py == y && px < x) then RecolorPixel(source.Get(px, py), from, to)
            else source.Get(px, py)
      {
        if recolored.Get(x, y) == from {
          recolored := recolored.SetPixel(x, y, to);
        }
        x := x + 1;
      }
      y := y + 1;
    }
    SamePixels(recolored, Recolored(source, from, to));
  }
}
