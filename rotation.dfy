/** `rotateImage`: nearest-neighbour rotation about the image centre by inverse mapping.
    The sine and cosine of the angle come from the host's `Math.sin`/`Math.cos`; they
    are parameters here (`sinDeg(a)` stands for `Math.sin(a * Math.PI / 180)`), and
    everything after them is computed exactly. */
module Rotation {
  import opened Numbers
  import opened Images

  /** The centre coordinate `(n - 1) / 2` of a side of length `n`. */
  function Center(n: int): real {
    (n as real - 1.0) / 2.0
  }

  /** The column read for destination (x, y): `round(cos*dx + sin*dy + centerX)`. */
  function SourceX(w: int, h: int, sine: real, cosine: real, x: int, y: int): int {
    var dx, dy := x as real - Center(w), y as real - Center(h);
    Round(cosine * dx + sine * dy + Center(w))
  }

  /** The row read for destination (x, y): `round(-sin*dx + cos*dy + centerY)`. */
  function SourceY(w: int, h: int, sine: real, cosine: real, x: int, y: int): int {
    var dx, dy := x as real - Center(w), y as real - Center(h);
    Round(-(sine * dx) + cosine * dy + Center(h))
  }

  /** Destination pixel (x, y): the source pixel it maps back to, or transparent when that
      falls outside the image. */
  function Sample(source: Image, sine: real, cosine: real, x: int, y: int): int {
    var sx := SourceX(source.width, source.height, sine, cosine, x, y);
    var sy := SourceY(source.width, source.height, sine, cosine, x, y);
    if 0 <= sx < source.width && 0 <= sy < source.height then source.Get(sx, sy) else 0
  }

  /** The resampled image for a given sine and cosine. */
  function Resampled(source: Image, sine: real, cosine: real): (r: Image)
    requires source.Valid()
    ensures r.Valid() && r.width == source.width && r.height == source.height
    ensures forall x, y :: r.InBounds(x, y) ==> r.Get(x, y) == Sample(source, sine, cosine, x, y)
  {
    Image(source.width, source.height,
      seq(source.height, y => seq(source.width, x => Sample(source, sine, cosine, x, y))))
  }

  /** What `rotateImage(source, angle)` returns: the angle is normalised first. */
  function Rotated(source: Image, angle: real, sinDeg: real -> real, cosDeg: real -> real): (r: Image)
    requires source.Valid()
    ensures r.Valid() && r.width == source.width && r.height == source.height
  {
    var normalized := NormalizeAngle(angle);
    Resampled(source, sinDeg(normalized), cosDeg(normalized))
  }

  /** A rotation whose angle normalises to 0 (sine 0, cosine 1) is pixel-identical to the source. */
  lemma RotatedByZero(source: Image, angle: real, sinDeg: real -> real, cosDeg: real -> real)
    requires source.Valid() && NormalizeAngle(angle) == 0.0
    requires sinDeg(0.0) == 0.0 && cosDeg(0.0) == 1.0
    ensures Rotated(source, angle, sinDeg, cosDeg) == source
  {
    var r := Rotated(source, angle, sinDeg, cosDeg);
    forall x, y | source.InBounds(x, y)
      ensures r.Get(x, y) == source.Get(x, y)
    {
      assert SourceX(source.width, source.height, 0.0, 1.0, x, y) == x;
      assert SourceY(source.width, source.height, 0.0, 1.0, x, y) == y;
    }
    SamePixels(r, source);
  }

  /** A half turn (sine 0, cosine -1) maps every pixel through the centre: it is both flips. */
  lemma ResampledHalfTurn(source: Image)
    requires source.Valid()
    ensures Resampled(source, 0.0, -1.0) == FlipX(FlipY(source))
  {
    var r := Resampled(source, 0.0, -1.0);
    forall x, y | source.InBounds(x, y)
      ensures r.Get(x, y) == FlipX(FlipY(source)).Get(x, y)
    {
      assert SourceX(source.width, source.height, 0.0, -1.0, x, y) == source.width - 1 - x;
      assert SourceY(source.width, source.height, 0.0, -1.0, x, y) == source.height - 1 - y;
    }
    SamePixels(r, FlipX(FlipY(source)));
  }

  /** A quarter turn (sine 1, cosine 0) of a square image reads pixel (y, n-1-x) into (x, y). */
  lemma ResampledQuarterTurn(source: Image, x: int, y: int)
    requires source.Valid() && source.width == source.height && source.InBounds(x, y)
    ensures Resampled(source, 1.0, 0.0).Get(x, y) == source.Get(y, source.width - 1 - x)
  {
    assert SourceX(source.width, source.height, 1.0, 0.0, x, y) == y;
    assert SourceY(source.width, source.height, 1.0, 0.0, x, y) == source.width - 1 - x;
  }

  /** `rotateImage`: for every destination pixel, map back by the negative angle about the
      centre, round to the nearest pixel and copy it when it is inside the source. */
  method RotateImage(source: Image, angle: real, sinDeg: real -> real, cosDeg: real -> real)
    returns (rotated: Image)
    requires source.Valid()
    ensures rotated == Rotated(source, angle, sinDeg, cosDeg)
  {
    var normalized := NormalizeAngle(angle);
    var sine := sinDeg(normalized);
    var cosine := cosDeg(normalized);
    var w := source.width;
    var h := source.height;
    rotated := Blank(w, h);
    var y := 0;
    while y < h
      invariant 0 <= y <= h
      invariant rotated.Valid() && rotated.width == w && rotated.height == h
      invariant forall px, py :: rotated.InBounds(px, py) ==>
        rotated.Get(px, py) == if py < y then Sample(source, sine, cosine, px, py) else 0
    {
      var x := 0;
      while x < w
        invariant 0 <= x <= w
        invariant rotated.Valid() && rotated.width == w && rotated.height == h
        invariant forall px, py :: rotated.InBounds(px, py) ==>
          rotated.Get(px, py) ==
            if py < y || (py == y && px < x) then Sample(source, sine, cosine, px, py) else 0
      {
        var sourceX := SourceX(w, h, sine, cosine, x, y);
        var sourceY := SourceY(w, h, sine, cosine, x, y);
        if 0 <= sourceX < w && 0 <= sourceY < h {
          rotated := rotated.SetPixel(x, y, source.Get(sourceX, sourceY));
        }
        x := x + 1;
      }
      y := y + 1;
    }
    SamePixels(rotated, Rotated(source, angle, sinDeg, cosDeg));
  }
}
