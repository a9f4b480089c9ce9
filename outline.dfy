/** `outline`: paint every transparent pixel that touches an opaque one (Moore
    neighbourhood, edges clamped) with an outline colour, reading the unmodified source. */
module Outline {
  import opened Images

  /** (nx, ny) is one of the eight pixels around (x, y). */
  predicate IsNeighbour(x: int, y: int, nx: int, ny: int) {
    x - 1 <= nx <= x + 1 && y - 1 <= ny <= y + 1 && (nx != x || ny != y)
  }

  /** Some in-bounds neighbour of (x, y) is opaque in `img`. */
  ghost predicate SolidNeighbour(img: Image, x: int, y: int) {
    exists nx, ny :: IsNeighbour(x, y, nx, ny) && img.InBounds(nx, ny) && img.Get(nx, ny) != 0
  }

  /** One pixel of the outlined image. */
  ghost function OutlinePixel(source: Image, x: int, y: int, color: int): int {
    if source.Get(x, y) != 0 then source.Get(x, y)
    else if SolidNeighbour(source, x, y) then color
    else 0
  }

  /** The outlined image: opaque pixels kept, transparent pixels next to an opaque pixel
      of the SOURCE painted, all other pixels left transparent. */
  ghost function Outlined(source: Image, color: int): (r: Image)
    requires source.Valid() && IsColor(color)
    ensures r.Valid() && r.width == source.width && r.height == source.height
    ensures forall x, y :: r.InBounds(x, y) ==> r.Get(x, y) == OutlinePixel(source, x, y, color)
  {
    Image(source.width, source.height,
      seq(source.height, y => seq(source.width, x => OutlinePixel(source, x, y, color))))
  }

  /** The outline only adds colour: opaque pixels are unchanged, and a transparent pixel
      becomes the outline colour exactly when it has an opaque neighbour in the source. */
  lemma OutlineCharacterised(source: Image, color: int)
    requires source.Valid() && 1 <= color <= 15
    ensures forall x, y :: source.InBounds(x, y) && source.Get(x, y) != 0 ==>
      Outlined(source, color).Get(x, y) == source.Get(x, y)
    ensures forall x, y :: source.InBounds(x, y) && source.Get(x, y) == 0 ==>
      (Outlined(source, color).Get(x, y) == color <==> SolidNeighbour(source, x, y)) &&
      (Outlined(source, color).Get(x, y) == 0 <==> !SolidNeighbour(source, x, y))
  {
  }

  /** A single opaque pixel at (px, py) gets exactly its in-bounds eight neighbours painted;
      every other pixel is unchanged. */
  lemma OutlineSinglePixel(source: Image, color: int, px: int, py: int)
    requires source.Valid() && 1 <= color <= 15 && source.InBounds(px, py)
    requires forall x, y :: source.InBounds(x, y) && (x != px || y != py) ==> source.Get(x, y) == 0
    ensures forall x, y :: source.InBounds(x, y) ==>
      Outlined(source, color).Get(x, y) ==
        if IsNeighbour(x, y, px, py) && source.Get(px, py) != 0 then color else source.Get(x, y)
  {
    forall x, y | source.InBounds(x, y)
      ensures Outlined(source, color).Get(x, y) ==
        if IsNeighbour(x, y, px, py) && source.Get(px, py) != 0 then color else source.Get(x, y)
    {
      if IsNeighbour(x, y, px, py) && source.Get(px, py) != 0 {
        assert SolidNeighbour(source, x, y);
      }
    }
  }

  /** The neighbour scan of `outline` for one pixel: rows dy = -1..1, columns dx = -1..1,
      skipping the pixel itself and out-of-bounds neighbours, stopping at the first opaque one. */
  method HasSolidNeighbour(source: Image, x: int, y: int) returns (neighborSolid: bool)
    requires source.Valid()
    ensures neighborSolid == SolidNeighbour(source, x, y)
  {
    neighborSolid := false;
    var dy := -1;
    while dy <= 1 && !neighborSolid
      invariant -1 <= dy <= 2
      invariant neighborSolid ==> SolidNeighbour(source, x, y)
      invariant !neighborSolid ==> forall nx, ny ::
        (IsNeighbour(x, y, nx, ny) && ny < y + dy && source.InBounds(nx, ny)) ==> source.Get(nx, ny) == 0
    {
      var dx := -1;
      while dx <= 1 && !neighborSolid
        invariant -1 <= dx <= 2
        invariant neighborSolid ==> SolidNeighbour(source, x, y)
        invariant !neighborSolid ==> forall nx, ny ::
          (IsNeighbour(x, y, nx, ny) && (ny < y + dy || (ny == y + dy && nx < x + dx)) &&
           source.InBounds(nx, ny)) ==> source.Get(nx, ny) == 0
      {
        if dx != 0 || dy != 0 {
          var nx := x + dx;
          var ny := y + dy;
          if 0 <= nx && 0 <= ny && nx < source.width && ny < source.height {
            if source.Get(nx, ny) != 0 {
              assert IsNeighbour(x, y, nx, ny);
              neighborSolid := true;
            }
          }
        }
        dx := dx + 1;
      }
      dy := dy + 1;
    }
  }

  /** The loop of `outline`: on a clone of the source, each transparent pixel with an opaque
      neighbour in the source is set to the outline colour. */
  method OutlineImage(source: Image, color: int) returns (outlined: Image)
    requires source.Valid() && IsColor(color)
    ensures outlined == Outlined(source, color)
  {
    outlined := source;
    var y := 0;
    while y < source.height
      invariant 0 <= y <= source.height
      invariant outlined.Valid() && outlined.width == source.width && outlined.height == source.height
      invariant forall px, py :: outlined.InBounds(px, py) ==>
        outlined.Get(px, py) == if py < y then OutlinePixel(source, px, py, color) else source.Get(px, py)
    {
      var x := 0;
      while x < source.width
        invariant 0 <= x <= source.width
        invariant outlined.Valid() && outlined.width == source.width && outlined.height == source.height
        invariant forall px, py :: outlined.InBounds(px, py) ==>
          outlined.Get(px, py) ==
            if py < y || (py == y && px < x) then OutlinePixel(source, px, py, color)
            else source.Get(px, py)
      {
        if source.Get(x, y) == 0 {
          var neighborSolid := HasSolidNeighbour(source, x, y);
          if neighborSolid {
            outlined := outlined.SetPixel(x, y, color);
          }
        }
        x := x + 1;
      }
      y := y + 1;
    }
    SamePixels(outlined, Outlined(source, color));
  }
}
