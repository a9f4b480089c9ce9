/** The `spriteFx` namespace: a registry of four parallel arrays (tracked sprites, baseline
    images, stored angles, stored opacities) and the effects that edit one slot and then
    recompute the sprite's displayed image from it. */
module SpriteFx {
  import opened Numbers
  import opened Images
  import opened Dither
  import opened Rotation
  import opened Recolor
  import opened Outline
  import Crop
  import opened SmoothRotation
  import opened Records

  /** The module-level state of `spriteFx`. The ghost `records` views the four arrays as one
      sequence of rows; the trigonometry of the host's `Math.sin`/`Math.cos` in degrees is
      fixed when the registry is created. */
  class Registry {
    var trackedSprites: seq<Sprite>
    var originalImages: seq<Image>
    var rotationAngles: seq<real>
    var opacityPercents: seq<int>
    ghost var records: seq<Record>
    const sinDeg: real -> real
    const cosDeg: real -> real

    /** The arrays stay parallel, their rows are the records, and the records are valid. */
    ghost predicate Valid()
      reads this
    {
      |trackedSprites| == |records| && |originalImages| == |records| &&
      |rotationAngles| == |records| && |opacityPercents| == |records| &&
      (forall i :: 0 <= i < |records| ==>
        records[i] == Record(trackedSprites[i], originalImages[i], rotationAngles[i], opacityPercents[i])) &&
      ValidRecords(records) &&
      sinDeg(0.0) == 0.0 && cosDeg(0.0) == 1.0
    }

    /** The empty registry the namespace starts with. */
    constructor (sinDeg: real -> real, cosDeg: real -> real)
      requires sinDeg(0.0) == 0.0 && cosDeg(0.0) == 1.0
      ensures Valid() && records == []
      ensures this.sinDeg == sinDeg && this.cosDeg == cosDeg
    {
      this.sinDeg := sinDeg;
      this.cosDeg := cosDeg;
      trackedSprites, originalImages, rotationAngles, opacityPercents := [], [], [], [];
      records := [];
    }

    /** What a sprite displays for its record: the baseline rotated by the stored angle, then
        dithered at the stored opacity. */
    function Display(r: Record): (img: Image)
      requires r.baseline.Valid()
      ensures img.Valid() && img.width == r.baseline.width && img.height == r.baseline.height
    {
      Dithered(Rotated(r.baseline, r.angle, sinDeg, cosDeg), r.opacity)
    }

    /** The sprite is tracked and displays what its record says. */
    ghost predicate Shows(sprite: Sprite)
      requires Valid()
      reads this, sprite
    {
      var i := Find(records, sprite);
      0 <= i && sprite.image == Display(records[i])
    }

    /** A record at angle 0 and full opacity displays its baseline unchanged. */
    lemma DisplayAtRest(r: Record)
      requires Valid() && r.baseline.Valid() && r.angle == 0.0 && r.opacity >= 100
      ensures Display(r) == r.baseline
    {
      NormalizeAngleFixes(0.0);
      RotatedByZero(r.baseline, r.angle, sinDeg, cosDeg);
      DitherFullOpacity(r.baseline, r.opacity);
    }

    /** At full opacity the display is exactly the rotated baseline. */
    lemma DisplayOpaque(r: Record)
      requires r.baseline.Valid() && r.opacity >= 100
      ensures Display(r) == Rotated(r.baseline, r.angle, sinDeg, cosDeg)
    {
      DitherFullOpacity(Rotated(r.baseline, r.angle, sinDeg, cosDeg), r.opacity);
    }

    /** At opacity 0 the display is fully transparent, at the baseline's size. */
    lemma DisplayInvisible(r: Record)
      requires r.baseline.Valid() && r.opacity <= 0
      ensures AllTransparent(Display(r))
      ensures Display(r) == Blank(r.baseline.width, r.baseline.height)
    {
      DitherZeroOpacity(Rotated(r.baseline, r.angle, sinDeg, cosDeg), r.opacity);
    }

    /** `spriteIndex`: scan for the sprite; on a miss append a row holding a copy of its current
        image, angle 0 and opacity 100. */
    method SpriteIndex(sprite: Sprite) returns (idx: int)
      requires Valid() && sprite.image.Valid()
      modifies this
      ensures Valid()
      ensures records == Resolve(old(records), sprite, sprite.image)
      ensures idx == Find(records, sprite) && 0 <= idx < |records|
    {
      var i := 0;
      while i < |trackedSprites|
        invariant 0 <= i <= |trackedSprites|
        invariant forall j :: 0 <= j < i ==> trackedSprites[j] != sprite
      {
        if trackedSprites[i] == sprite {
          return i;
        }
        i := i + 1;
      }
      trackedSprites := trackedSprites + [sprite];
      originalImages := originalImages + [sprite.image];
      rotationAngles := rotationAngles + [0.0];
      opacityPercents := opacityPercents + [100];
      records := records + [Record(sprite, sprite.image, 0.0, 100)];
      idx := |trackedSprites| - 1;
    }

    /** `originalImages[idx] = baseline`, with the matching update of the ghost rows. */
    method StoreBaseline(idx: int, baseline: Image)
      requires Valid() && 0 <= idx < |records| && baseline.Valid()
      modifies this
      ensures Valid()
      ensures records == old(records)[idx := EditRecord(old(records)[idx], NewBaseline(baseline))]
    {
      EditKeepsValid(records, idx, NewBaseline(baseline));
      originalImages := originalImages[idx := baseline];
      records := records[idx := EditRecord(records[idx], NewBaseline(baseline))];
    }

    /** `rotationAngles[idx] = angle`, with the matching update of the ghost rows. */
    method StoreAngle(idx: int, angle: real)
      requires Valid() && 0 <= idx < |records| && 0.0 <= angle < 360.0
      modifies this
      ensures Valid()
      ensures records == old(records)[idx := EditRecord(old(records)[idx], NewAngle(angle))]
    {
      EditKeepsValid(records, idx, NewAngle(angle));
      rotationAngles := rotationAngles[idx := angle];
      records := records[idx := EditRecord(records[idx], NewAngle(angle))];
    }

    /** `opacityPercents[idx] = opacity`, with the matching update of the ghost rows. */
    method StoreOpacity(idx: int, opacity: int)
      requires Valid() && 0 <= idx < |records| && 0 <= opacity <= 100
      modifies this
      ensures Valid()
      ensures records == old(records)[idx := EditRecord(old(records)[idx], NewOpacity(opacity))]
    {
      EditKeepsValid(records, idx, NewOpacity(opacity));
      opacityPercents := opacityPercents[idx := opacity];
      records := records[idx := EditRecord(records[idx], NewOpacity(opacity))];
    }

    /** The three writes of `setSpriteData` into row `idx`. */
    method StoreData(idx: int, baseline: Image, angle: real, opacity: int)
      requires Valid() && 0 <= idx < |records| && baseline.Valid()
      requires 0.0 <= angle < 360.0 && 0 <= opacity <= 100
      modifies this
      ensures Valid()
      ensures records == old(records)[idx := EditRecord(old(records)[idx], NewData(baseline, angle, opacity))]
    {
      EditKeepsValid(records, idx, NewData(baseline, angle, opacity));
      originalImages := originalImages[idx := baseline];
      rotationAngles := rotationAngles[idx := angle];
      opacityPercents := opacityPercents[idx := opacity];
      records := records[idx := EditRecord(records[idx], NewData(baseline, angle, opacity))];
    }

    /** `refreshSpriteImage`: resolve the sprite and give it the display of its row. */
    method Refresh(sprite: Sprite)
      requires Valid() && sprite.image.Valid()
      modifies this, sprite
      ensures Valid()
      ensures records == Resolve(old(records), sprite, old(sprite.image))
      ensures Find(old(records), sprite) >= 0 ==> records == old(records)
      ensures Shows(sprite)
    {
      var idx := SpriteIndex(sprite);
      var rotated := RotateImage(originalImages[idx], rotationAngles[idx], sinDeg, cosDeg);
      var shown := ApplyOpacityDither(rotated, opacityPercents[idx]);
      sprite.image := shown;
    }

    /** `setSpriteData`: replace the whole row, normalising the angle and clamping the opacity. */
    method SetSpriteData(sprite: Sprite, original: Image, angle: real, opacity: int)
      requires Valid() && sprite.image.Valid() && original.Valid()
      modifies this, sprite
      ensures Valid()
      ensures records == Apply(old(records), sprite, old(sprite.image),
                               NewData(original, NormalizeAngle(angle), Clamp(opacity, 0, 100)))
      ensures Shows(sprite)
    {
      var idx := SpriteIndex(sprite);
      StoreData(idx, original, NormalizeAngle(angle), Clamp(opacity, 0, 100));
      Refresh(sprite);
    }

    /** `setRotation`: store the normalised angle and refresh; a null sprite is ignored. */
    method SetRotation(sprite: Sprite?, angle: real)
      requires Valid() && (sprite != null ==> sprite.image.Valid())
      modifies this, sprite
      ensures Valid()
      ensures sprite == null ==> unchanged(this)
      ensures sprite != null ==>
        records == Apply(old(records), sprite, old(sprite.image), NewAngle(NormalizeAngle(angle))) &&
        Shows(sprite)
    {
      if sprite == null {
        return;
      }
      var idx := SpriteIndex(sprite);
      StoreAngle(idx, NormalizeAngle(angle));
      Refresh(sprite);
    }

    /** `rotation`: the stored angle, which tracks the sprite if it was not yet; 0 for null. */
    method Rotation(sprite: Sprite?) returns (angle: real)
      requires Valid() && (sprite != null ==> sprite.image.Valid())
      modifies this
      ensures Valid()
      ensures 0.0 <= angle < 360.0
      ensures sprite == null ==> unchanged(this) && angle == 0.0
      ensures sprite != null ==>
        records == Resolve(old(records), sprite, sprite.image) &&
        angle == Current(old(records), sprite, sprite.image).angle
    {
      if sprite == null {
        return 0.0;
      }
      var idx := SpriteIndex(sprite);
      angle := rotationAngles[idx];
    }

    /** `rotate`: turn by `angle` relative to the stored angle. */
    method Rotate(sprite: Sprite?, angle: real)
      requires Valid() && (sprite != null ==> sprite.image.Valid())
      modifies this, sprite
      ensures Valid()
      ensures sprite == null ==> unchanged(this)
      ensures sprite != null ==>
        records == Apply(old(records), sprite, old(sprite.image),
          NewAngle(NormalizeAngle(Current(old(records), sprite, old(sprite.image)).angle + angle))) &&
        Shows(sprite)
    {
      var current := Rotation(sprite);
      SetRotation(sprite, current + angle);
      if sprite != null {
        ApplyAfterResolve(old(records), sprite, old(sprite.image), old(sprite.image),
          NewAngle(NormalizeAngle(current + angle)));
      }
    }

    /** `resetRotation`: store angle 0 and refresh; a null sprite is ignored. */
    method ResetRotation(sprite: Sprite?)
      requires Valid() && (sprite != null ==> sprite.image.Valid())
      modifies this, sprite
      ensures Valid()
      ensures sprite == null ==> unchanged(this)
      ensures sprite != null ==>
        records == Apply(old(records), sprite, old(sprite.image), NewAngle(0.0)) && Shows(sprite)
    {
      if sprite == null {
        return;
      }
      var idx := SpriteIndex(sprite);
      StoreAngle(idx, 0.0);
      Refresh(sprite);
    }

    /** `faceDirection`: the same as `setRotation`. */
    method FaceDirection(sprite: Sprite?, angle: real)
      requires Valid() && (sprite != null ==> sprite.image.Valid())
      modifies this, sprite
      ensures Valid()
      ensures sprite == null ==> unchanged(this)
      ensures sprite != null ==>
        records == Apply(old(records), sprite, old(sprite.image), NewAngle(NormalizeAngle(angle))) &&
        Shows(sprite)
    {
      SetRotation(sprite, angle);
    }

    /** `smoothRotate`, with its background task run to completion: read the start angle, take
        the shorter way to the normalised target in `max(1, idiv(duration, 20))` even ticks,
        then write the target itself. `written` records the arguments of the `setRotation`
        calls in order. A non-positive duration sets the rotation at once. */
    method SmoothRotate(sprite: Sprite?, targetAngle: real, duration: int) returns (ghost written: seq<real>)
      requires Valid() && (sprite != null ==> sprite.image.Valid())
      modifies this, sprite
      ensures Valid()
      ensures sprite == null ==> unchanged(this) && written == []
      ensures sprite != null ==>
        records == Apply(old(records), sprite, old(sprite.image), NewAngle(NormalizeAngle(targetAngle))) &&
        Shows(sprite)
      ensures sprite != null && duration <= 0 ==> written == [targetAngle]
      ensures sprite != null && duration > 0 ==>
        written == RotationPlan(Current(old(records), sprite, old(sprite.image)).angle, targetAngle, duration)
    {
      written := [];
      if sprite == null {
        return;
      }
      if duration <= 0 {
        SetRotation(sprite, targetAngle);
        written := [targetAngle];
        return;
      }
      var startAngle := Rotation(sprite);
      var target := NormalizeAngle(targetAngle);
      var delta := target - startAngle;
      if delta > 180.0 {
        delta := delta - 360.0;
      }
      if delta < -180.0 {
        delta := delta + 360.0;
      }
      assert delta == ShortestDelta(startAngle, target);
      var interval := TickMs;
      var steps := Max(1, Idiv(duration, interval));
      ResolveIdempotent(old(records), sprite, old(sprite.image), sprite.image);
      ApplySameAngle(records, sprite, sprite.image);
      written := RunTicks(sprite, startAngle, delta, steps, TickAngles(startAngle, delta, steps));
      ApplyAfterResolve(old(records), sprite, old(sprite.image), old(sprite.image),
        NewAngle(NormalizeAngle(written[steps - 1])));
      ghost var shown := sprite.image;
      SetRotation(sprite, target);
      NormalizeAngleIdempotent(targetAngle);
      ApplyAngleTwice(old(records), sprite, old(sprite.image), shown, NormalizeAngle(written[steps - 1]), target);
      written := written + [target];
    }

    /** The tick loop of `smoothRotate`: at tick number `k` (0-based; the loop counter `i` of
        the source is k + 1) write `startAngle + delta * ((k + 1) / steps)`, which `ticks`
        lists. The sprite is tracked and already at `startAngle`; only the last write
        survives in the registry. */
    method RunTicks(sprite: Sprite, startAngle: real, delta: real, steps: int, ghost ticks: seq<real>)
      returns (ghost written: seq<real>)
      requires Valid() && sprite.image.Valid() && steps >= 1
      requires records == Apply(records, sprite, sprite.image, NewAngle(startAngle))
      requires |ticks| == steps
      requires forall j :: 0 <= j < steps ==> ticks[j] == StepAngle(startAngle, delta, j + 1, steps)
      modifies this, sprite
      ensures Valid() && sprite.image.Valid()
      ensures written == ticks
      ensures records == Apply(old(records), sprite, old(sprite.image), NewAngle(NormalizeAngle(ticks[steps - 1])))
    {
      written := [];
      ghost var stored := startAngle;
      var k := 0;
      while k < steps
        invariant 0 <= k <= steps
        invariant Valid() && sprite.image.Valid()
        invariant |written| == k && forall j :: 0 <= j < k ==> written[j] == ticks[j]
        invariant records == Apply(old(records), sprite, old(sprite.image), NewAngle(stored))
        invariant k > 0 ==> stored == NormalizeAngle(ticks[k - 1])
      {
        var angle := StepAngle(startAngle, delta, k + 1, steps);
        Tick(sprite, old(records), old(sprite.image), stored, angle);
        stored := NormalizeAngle(angle);
        written := written + [angle];
        k := k + 1;
      }
    }

    /** One tick of `smoothRotate`: `setRotation(sprite, angle)` on a sprite whose record differs
        from `base` only by an earlier angle write, which this write overrides. */
    method Tick(sprite: Sprite, ghost base: seq<Record>, ghost baseImage: Image, ghost previous: real, angle: real)
      requires Valid() && sprite.image.Valid() && ValidRecords(base)
      requires records == Apply(base, sprite, baseImage, NewAngle(previous))
      modifies this, sprite
      ensures Valid() && sprite.image.Valid()
      ensures records == Apply(base, sprite, baseImage, NewAngle(NormalizeAngle(angle)))
    {
      ghost var shown := sprite.image;
      SetRotation(sprite, angle);
      ApplyAngleTwice(base, sprite, baseImage, shown, previous, NormalizeAngle(angle));
    }

    /** `flipHorizontal`: mirror the baseline left to right and refresh. */
    method FlipHorizontal(sprite: Sprite?)
      requires Valid() && (sprite != null ==> sprite.image.Valid())
      modifies this, sprite
      ensures Valid()
      ensures sprite == null ==> unchanged(this)
      ensures sprite != null ==>
        records == Apply(old(records), sprite, old(sprite.image),
          NewBaseline(FlipX(Current(old(records), sprite, old(sprite.image)).baseline))) &&
        Shows(sprite)
    {
      if sprite == null {
        return;
      }
      var idx := SpriteIndex(sprite);
      var flipped := FlipX(originalImages[idx]);
      StoreBaseline(idx, flipped);
      Refresh(sprite);
    }

    /** `flipVertical`: mirror the baseline top to bottom and refresh. */
    method FlipVertical(sprite: Sprite?)
      requires Valid() && (sprite != null ==> sprite.image.Valid())
      modifies this, sprite
      ensures Valid()
      ensures sprite == null ==> unchanged(this)
      ensures sprite != null ==>
        records == Apply(old(records), sprite, old(sprite.image),
          NewBaseline(FlipY(Current(old(records), sprite, old(sprite.image)).baseline))) &&
        Shows(sprite)
    {
      if sprite == null {
        return;
      }
      var idx := SpriteIndex(sprite);
      var flipped := FlipY(originalImages[idx]);
      StoreBaseline(idx, flipped);
      Refresh(sprite);
    }

    /** `setOpacity`: store the opacity clamped to 0..100 and refresh. */
    method SetOpacity(sprite: Sprite?, opacity: int)
      requires Valid() && (sprite != null ==> sprite.image.Valid())
      modifies this, sprite
      ensures Valid()
      ensures sprite == null ==> unchanged(this)
      ensures sprite != null ==>
        records == Apply(old(records), sprite, old(sprite.image), NewOpacity(Clamp(opacity, 0, 100))) &&
        Shows(sprite)
    {
      if sprite == null {
        return;
      }
      var idx := SpriteIndex(sprite);
      StoreOpacity(idx, Clamp(opacity, 0, 100));
      Refresh(sprite);
    }

    /** `recolor`: round and clamp both colours to 0..15, replace one by the other in the
        baseline, and refresh. */
    method Recolor(sprite: Sprite?, fromColor: real, toColor: real)
      requires Valid() && (sprite != null ==> sprite.image.Valid())
      modifies this, sprite
      ensures Valid()
      ensures sprite == null ==> unchanged(this)
      ensures sprite != null ==>
        records == Apply(old(records), sprite, old(sprite.image),
          NewBaseline(Recolored(Current(old(records), sprite, old(sprite.image)).baseline,
                                        PaletteArgument(fromColor, 0), PaletteArgument(toColor, 0)))) &&
        Shows(sprite)
    {
      if sprite == null {
        return;
      }
      var idx := SpriteIndex(sprite);
      var from := PaletteArgument(fromColor, 0);
      var to := PaletteArgument(toColor, 0);
      var recolored := RecolorImage(originalImages[idx], from, to);
      StoreBaseline(idx, recolored);
      Refresh(sprite);
    }

    /** `outline`: round and clamp the colour to 1..15, outline the baseline, and refresh. */
    method Outline(sprite: Sprite?, color: real)
      requires Valid() && (sprite != null ==> sprite.image.Valid())
      modifies this, sprite
      ensures Valid()
      ensures sprite == null ==> unchanged(this)
      ensures sprite != null ==>
        records == Apply(old(records), sprite, old(sprite.image),
          NewBaseline(Outlined(Current(old(records), sprite, old(sprite.image)).baseline,
                                       PaletteArgument(color, 1)))) &&
        Shows(sprite)
    {
      if sprite == null {
        return;
      }
      var idx := SpriteIndex(sprite);
      var outlineColor := PaletteArgument(color, 1);
      var outlined := OutlineImage(originalImages[idx], outlineColor);
      StoreBaseline(idx, outlined);
      Refresh(sprite);
    }

    /** `cloneSpriteImage`: give the target the source's current image, and make that image the
        target's baseline at angle 0 and opacity 100, so the target shows exactly that image.
        Nothing happens when either sprite is null. */
    method CloneSpriteImage(source: Sprite?, target: Sprite?)
      requires Valid()
      requires source != null ==> source.image.Valid()
      requires target != null ==> target.image.Valid()
      modifies this, target
      ensures Valid()
      ensures source == null || target == null ==> unchanged(this)
      ensures source == null && target != null ==> unchanged(target)
      ensures source != null && target != null ==>
        records == Apply(old(records), target, old(source.image), NewData(old(source.image), 0.0, 100)) &&
        Shows(target) && target.image == old(source.image)
    {
      if source == null || target == null {
        return;
      }
      var clone := source.image;
      target.image := clone;
      SetSpriteData(target, clone, 0.0, 100);
      NormalizeAngleFixes(0.0);
      DisplayAtRest(records[Find(records, target)]);
    }

    /** `cropTransparentBorder`: crop the baseline to its opaque pixels and refresh. */
    method CropTransparentBorder(sprite: Sprite?)
      requires Valid() && (sprite != null ==> sprite.image.Valid())
      modifies this, sprite
      ensures Valid()
      ensures sprite == null ==> unchanged(this)
      ensures sprite != null ==>
        (exists cropped ::
          Crop.CropOf(Current(old(records), sprite, old(sprite.image)).baseline, cropped) &&
          records == Apply(old(records), sprite, old(sprite.image), NewBaseline(cropped))) &&
        Shows(sprite)
    {
      if sprite == null {
        return;
      }
      var idx := SpriteIndex(sprite);
      var cropped := Crop.CropImage(originalImages[idx]);
      StoreBaseline(idx, cropped);
      Refresh(sprite);
    }
  }

  /** Flipping a sprite horizontally twice restores its row of the registry. */
  lemma FlipHorizontalTwice(recs: seq<Record>, s: Sprite, image: Image, image': Image)
    requires ValidRecords(recs) && image.Valid()
    ensures var once := Apply(recs, s, image, NewBaseline(FlipX(Current(recs, s, image).baseline)));
      Apply(once, s, image', NewBaseline(FlipX(Current(once, s, image').baseline))) == Resolve(recs, s, image)
  {
    var rs := Resolve(recs, s, image);
    var i := Find(rs, s);
    var b := rs[i].baseline;
    var once := Apply(recs, s, image, NewBaseline(FlipX(b)));
    ResolveSlot(once, s, image');
    FlipXInvolution(b);
    assert rs[i].(baseline := b) == rs[i];
  }

  /** `rotate` by `a` and then by `b` leaves the registry as one `rotate` by `a + b`. */
  lemma RotateTwice(recs: seq<Record>, s: Sprite, image: Image, image': Image, a: real, b: real)
    requires ValidRecords(recs)
    ensures var start := Current(recs, s, image).angle;
      var once := Apply(recs, s, image, NewAngle(NormalizeAngle(start + a)));
      Apply(once, s, image', NewAngle(NormalizeAngle(Current(once, s, image').angle + b)))
        == Apply(recs, s, image, NewAngle(NormalizeAngle(start + (a + b))))
  {
    var start := Current(recs, s, image).angle;
    var once := Apply(recs, s, image, NewAngle(NormalizeAngle(start + a)));
    ApplyThenCurrent(recs, s, image, image', NewAngle(NormalizeAngle(start + a)));
    NormalizeAngleShift(start + a, b);
    assert start + a + b == start + (a + b);
    ApplyAngleTwice(recs, s, image, image', NormalizeAngle(start + a), NormalizeAngle(start + (a + b)));
  }
}
