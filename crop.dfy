/** `cropImage`: cut an image down to the tight bounding box of its opaque pixels,
    or to a single transparent pixel when it has none. */
module Crop {
  import opened Images

  /** An inclusive rectangle of pixel coordinates. */
  datatype Box = Box(minX: int, minY: int, maxX: int, maxY: int)

  /** Pixel (x, y) lies in the image and is not transparent. */
  predicate Opaque(img: Image, x: int, y: int) {
    img.InBounds(x, y) && img.Get(x, y) != 0
  }

  ghost predicate HasOpaque(img: Image) {
    exists x, y :: Opaque(img, x, y)
  }

  /** Every opaque pixel lies inside the box. */
  ghost predicate Encloses(img: Image, b: Box) {
    forall x, y :: Opaque(img, x, y) ==> b.minX <= x <= b.maxX && b.minY <= y <= b.maxY
  }

  /** The box encloses every opaque pixel and each of its four edges touches one. */
  ghost predicate TightBox(img: Image, b: Box) {
    b.minX <= b.maxX && b.minY <= b.maxY &&
    Encloses(img, b) &&
    (exists y :: Opaque(img, b.minX, y)) &&
    (exists x :: Opaque(img, x, b.minY)) &&
    (exists y :: Opaque(img, b.maxX, y)) &&
    (exists x :: Opaque(img, x, b.maxY))
  }

  /** The part of `img` covered by the box, moved to the origin. */
  function SubImage(img: Image, b: Box): (r: Image)
    requires img.Valid() && b.minX <= b.maxX && b.minY <= b.maxY
    ensures r.Valid() && r.width == b.maxX - b.minX + 1 && r.height == b.maxY - b.minY + 1
    ensures forall x, y :: r.InBounds(x, y) ==> r.Get(x, y) == img.Get(b.minX + x, b.minY + y)
  {
    ColorsEverywhere(img);
    Image(b.maxX - b.minX + 1, b.maxY - b.minY + 1,
      seq(b.maxY - b.minY + 1, y => seq(b.maxX - b.minX + 1, x => img.Get(b.minX + x, b.minY + y))))
  }

  /** What `cropImage(source)` may return: a 1x1 transparent image when nothing is opaque,
      otherwise the sub-image of the tight bounding box. */
  ghost predicate CropOf(source: Image, cropped: Image)
    requires source.Valid()
  {
    (!HasOpaque(source) ==> cropped == Blank(1, 1)) &&
    (HasOpaque(source) ==> exists b :: TightBox(source, b) && cropped == SubImage(source, b))
  }

  /** An image has only one tight bounding box. */
  lemma TightBoxUnique(img: Image, b1: Box, b2: Box)
    requires TightBox(img, b1) && TightBox(img, b2)
    ensures b1 == b2
  {
    var y1 :| Opaque(img, b1.minX, y1);
    var y2 :| Opaque(img, b2.minX, y2);
    var x3 :| Opaque(img, x3, b1.minY);
    var x4 :| Opaque(img, x4, b2.minY);
    var y5 :| Opaque(img, b1.maxX, y5);
    var y6 :| Opaque(img, b2.maxX, y6);
    var x7 :| Opaque(img, x7, b1.maxY);
    var x8 :| Opaque(img, x8, b2.maxY);
  }

  /** The crop is determined by the source. */
  lemma CropOfUnique(source: Image, c1: Image, c2: Image)
    requires source.Valid() && CropOf(source, c1) && CropOf(source, c2)
    ensures c1 == c2
  {
    if HasOpaque(source) {
      var b1 :| TightBox(source, b1) && c1 == SubImage(source, b1);
      var b2 :| TightBox(source, b2) && c2 == SubImage(source, b2);
      TightBoxUnique(source, b1, b2);
    }
  }

  /** Cropping loses no opaque pixel: each one reappears at its place relative to the box. */
  lemma CropKeepsOpaque(source: Image, b: Box, x: int, y: int)
    requires source.Valid() && TightBox(source, b) && Opaque(source, x, y)
    ensures SubImage(source, b).InBounds(x - b.minX, y - b.minY)
    ensures SubImage(source, b).Get(x - b.minX, y - b.minY) == source.Get(x, y)
  {
  }

  /** An image whose only opaque pixel is (px, py) crops to the 1x1 image of that pixel. */
  lemma CropSinglePixel(source: Image, cropped: Image, px: int, py: int)
    requires source.Valid() && Opaque(source, px, py)
    requires forall x, y :: Opaque(source, x, y) ==> x == px && y == py
    requires CropOf(source, cropped)
    ensures cropped.width == 1 && cropped.height == 1 && cropped.Get(0, 0) == source.Get(px, py)
  {
    var b := Box(px, py, px, py);
    assert TightBox(source, b);
    assert HasOpaque(source);
    var b' :| TightBox(source, b') && cropped == SubImage(source, b');
    TightBoxUnique(source, b, b');
  }

  /** Pixel (px, py) comes before (x, y) in the row-by-row scan. */
  predicate ScannedBefore(px: int, py: int, x: int, y: int) {
    py < y || (py == y && px < x)
  }

  /** The first loop of `cropImage`: widen minX/minY/maxX/maxY over every opaque pixel,
      starting from the empty box (width, height, -1, -1). */
  method OpaqueBounds(source: Image) returns (minX: int, minY: int, maxX: int, maxY: int)
    requires source.Valid()
    ensures !HasOpaque(source) ==> minX == source.width && minY == source.height && maxX == -1 && maxY == -1
    ensures HasOpaque(source) ==> TightBox(source, Box(minX, minY, maxX, maxY))
  {
    minX, minY, maxX, maxY := source.width, source.height, -1, -1;
    // Ghost witnesses: opaque pixels (minX, ay), (bx, minY), (maxX, cy), (dx, maxY).
    ghost var ay, bx, cy, dx := 0, 0, 0, 0;
    var y := 0;
    while y < source.height
      invariant 0 <= y <= source.height
      invariant maxX < 0 ==> minX == source.width && minY == source.height && maxY == -1
      invariant maxX < 0 ==> forall px, py :: Opaque(source, px, py) ==> !ScannedBefore(px, py, 0, y)
      invariant maxX >= 0 ==> Opaque(source, minX, ay) && Opaque(source, bx, minY) &&
                              Opaque(source, maxX, cy) && Opaque(source, dx, maxY)
      invariant forall px, py :: Opaque(source, px, py) && ScannedBefore(px, py, 0, y) ==>
        minX <= px <= maxX && minY <= py <= maxY
    {
      var x := 0;
      while x < source.width
        invariant 0 <= x <= source.width
        invariant maxX < 0 ==> minX == source.width && minY == source.height && maxY == -1
        invariant maxX < 0 ==> forall px, py :: Opaque(source, px, py) ==> !ScannedBefore(px, py, x, y)
        invariant maxX >= 0 ==> Opaque(source, minX, ay) && Opaque(source, bx, minY) &&
                                Opaque(source, maxX, cy) && Opaque(source, dx, maxY)
        invariant forall px, py :: Opaque(source, px, py) && ScannedBefore(px, py, x, y) ==>
          minX <= px <= maxX && minY <= py <= maxY
      {
        if source.Get(x, y) != 0 {
          if x < minX { minX, ay := x, y; }
          if y < minY { minY, bx := y, x; }
          if x > maxX { maxX, cy := x, y; }
          if y > maxY { maxY, dx := y, x; }
        }
        x := x + 1;
      }
      y := y + 1;
    }
    if HasOpaque(source) {
      var px, py :| Opaque(source, px, py);
      assert ScannedBefore(px, py, 0, source.height);
    }
  }

  /** `cropImage`: find the bounds, fall back to a 1x1 image when they are empty, otherwise
      copy the bounded pixels into a new image of the box's size. */
  method CropImage(source: Image) returns (cropped: Image)
    requires source.Valid()
    ensures CropOf(source, cropped)
  {
    var minX, minY, maxX, maxY := OpaqueBounds(source);
    if maxX < minX || maxY < minY {
      return Blank(1, 1);
    }
    var width := maxX - minX + 1;
    var height := maxY - minY + 1;
    cropped := Blank(width, height);
    var y := 0;
    while y < height
      invariant 0 <= y <= height
      invariant cropped.Valid() && cropped.width == width && cropped.height == height
      invariant forall px, py :: cropped.InBounds(px, py) ==>
        cropped.Get(px, py) == if py < y then source.Get(minX + px, minY + py) else 0
    {
      var x := 0;
      while x < width
        invariant 0 <= x <= width
        invariant cropped.Valid() && cropped.width == width && cropped.height == height
        invariant forall px, py :: cropped.InBounds(px, py) ==>
          cropped.Get(px, py) ==
            if ScannedBefore(px, py, x, y) then source.Get(minX + px, minY + py) else 0
      {
        cropped := cropped.SetPixel(x, y, source.Get(minX + x, minY + y));
        x := x + 1;
      }
      y := y + 1;
    }
    var b := Box(minX, minY, maxX, maxY);
    SamePixels(cropped, SubImage(source, b));
  }
}
