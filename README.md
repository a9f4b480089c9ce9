# Sprite FX, modelled in Dafny

This project models the `spriteFx` namespace of a MakeCode Arcade extension. The namespace
adds visual effects to sprites: rotation, dithered opacity, flips, recolouring, outlines and
cropping. The host's images have no alpha channel and only a 16-colour palette, in which
colour 0 is transparent. So the namespace never edits a sprite's displayed image directly.
Instead it keeps, per sprite, a baseline image, a stored angle and a stored opacity in four
parallel arrays. After every change it recomputes the displayed image: the baseline is rotated
by the angle, then dithered at the opacity.

Modules:

- `Numbers`: the JavaScript arithmetic the namespace relies on.
  - `clamp` and `Math.round`.
  - `%` on angles, which truncates.
  - `normalizeAngle`.
  - `Math.idiv`, which wraps to 32 bits and truncates.
- `Images`: palette images as values, with the host's `getPixel`, `setPixel`, `create`,
  `flipX` and `flipY`. Reading outside an image gives 0; writing outside it does nothing.
- `Dither`, `Rotation`, `Recolor`, `Outline`, `Crop`: the pixel operations. In each one, the
  source's nested pixel loop is a method, proved equal to a specification function. The
  operation's properties are lemmas about that function.
- `SmoothRotation`: the arithmetic of `smoothRotate`. It covers the shortest signed turn, the
  tick count and the angle written at each tick.
- `Records`: the registry's lookup and update rules, on values. A record is found by sprite
  identity, created on first use and never removed. An edit changes only its own sprite's slot.
- `SpriteFx`: the registry itself. It is a class whose four sequence fields are the source's
  four arrays, together with the exported effects as methods. A ghost field views the arrays
  as a sequence of records. Every effect is specified by the `Records` update it performs. It
  also guarantees `Shows(sprite)`: the sprite's displayed image is the rotated and dithered
  image of its record.

Every image the namespace stores is a fresh clone (sprite-fx.ts lines 23, 241, 255, 284, 307,
408), so images are modelled as values with no aliasing. The host's sprites are objects
(`Records.Sprite`) because the registry finds them by reference identity. The model assumes
that a sprite's image is well-formed: every row has the image's width and every pixel is a
palette index 0..15. The host guarantees this, and the methods require it.

## Model

| member | source | states |
|---|---|---|
| Numbers.Max | sprite-fx.ts:221 | `Math.max` on integers: the result is one of the two arguments and at least both |
| Numbers.Clamp | sprite-fx.ts:29-31 | the result never exceeds `max`; it is at least `min` when `min <= max`; in-range values pass through; values below `min` give `min`, values above `max` give `max` |
| Numbers.Round | sprite-fx.ts:282-283 | `Math.round` lies within half a unit of its argument, with halves rounding up |
| Numbers.Trunc | sprite-fx.ts:12 | the quotient behind JavaScript `%` is the argument truncated toward zero |
| Numbers.Remainder360 | sprite-fx.ts:12 | `angle % 360` lies strictly between -360 and 360 and takes the sign of `angle` |
| Numbers.NormalizeAngle | sprite-fx.ts:11-15 | every normalised angle lies in [0, 360) |
| Numbers.NormalizeAngleIsFlooredMod | sprite-fx.ts:11-15 | the normalised angle is `angle` minus `360 * floor(angle / 360)`, i.e. the floored modulo |
| Numbers.NormalizeAnglePeriodic | sprite-fx.ts:11-15 | adding any whole number of turns leaves the normalised angle unchanged |
| Numbers.NormalizeAngleFixes | sprite-fx.ts:11-15 | angles already in [0, 360) are unchanged |
| Numbers.NormalizeAngleShift | sprite-fx.ts:138-140 | normalising before adding a turn gives the same direction as adding first |
| Numbers.NormalizeAngleIdempotent | sprite-fx.ts:11-15 | normalising twice equals normalising once |
| Numbers.SameDirection | sprite-fx.ts:11-15 | two angles with equal normalisations differ by a whole number of turns |
| Numbers.ToInt32 | sprite-fx.ts:221 | the 32-bit conversion lands in the signed 32-bit range, is congruent to its argument modulo 2^32, and fixes in-range values |
| Numbers.TruncDiv | sprite-fx.ts:221 | truncating division agrees with Euclidean division on a natural dividend and positive divisor |
| Numbers.Idiv | sprite-fx.ts:221 | `Math.idiv` stays in the 32-bit range and is ordinary division for in-range non-negative dividends and positive divisors |
| Images.PaletteArgument | sprite-fx.ts:282-283 | a rounded and clamped palette argument is a colour in [low, 15]; for in-range arguments it is the nearest integer |
| Images.Image.SetPixel | sprite-fx.ts:288 | `setPixel` changes exactly the pixel written when it is inside the image, and nothing otherwise; shape and palette are kept |
| Images.Blank | sprite-fx.ts:44 | `image.create` gives a well-formed image of the requested size whose pixels are all transparent |
| Images.FlipX | sprite-fx.ts:241-242 | the horizontal flip keeps the size and reads pixel (w-1-x, y) into (x, y) |
| Images.FlipY | sprite-fx.ts:255-256 | the vertical flip keeps the size and reads pixel (x, h-1-y) into (x, y) |
| Images.FlipXInvolution | sprite-fx.ts:237-245 | flipping horizontally twice restores the image |
| Images.FlipYInvolution | sprite-fx.ts:251-259 | flipping vertically twice restores the image |
| Images.FlipsCommute | sprite-fx.ts:237-259 | the two flips commute |
| Dither.Threshold | sprite-fx.ts:68-73 | each entry of the tiled 4x4 ordered-dither matrix lies in 0..15 |
| Dither.KeepsInIntegers | sprite-fx.ts:75-81 | the fractional test `matrix < opacity * 16 / 100` is equivalent to `100 * matrix < 16 * opacity` |
| Dither.Dithered | sprite-fx.ts:63-86 | the dithered image is well-formed and has the source's size |
| Dither.DitheredAt | sprite-fx.ts:76-83 | each output pixel is the source pixel when that pixel is opaque and its threshold is below the clamped level, and transparent otherwise |
| Dither.DitherFullOpacity | sprite-fx.ts:65 | an opacity of 100 or more returns the source unchanged |
| Dither.DitherZeroOpacity | sprite-fx.ts:66 | an opacity of 0 or less returns an all-transparent image of the same size |
| Dither.DitherKeepsOrClears | sprite-fx.ts:78-81 | dithering never changes a colour; it only keeps a pixel or clears it, and transparent pixels stay transparent |
| Dither.DitherMonotone | sprite-fx.ts:75-81 | a pixel shown at one opacity is shown, with its own colour, at every higher opacity |
| Dither.ApplyOpacityDither | sprite-fx.ts:63-86 | the clamp, the two early returns and the pixel loop compute exactly `Dithered` |
| Rotation.Resampled | sprite-fx.ts:44-58 | resampling keeps the size; each destination pixel is the rounded inverse-rotated source pixel, or transparent outside the source |
| Rotation.Rotated | sprite-fx.ts:33-61 | rotation normalises the angle first and keeps the image's size |
| Rotation.RotatedByZero | sprite-fx.ts:33-61 | an angle that normalises to 0 leaves the image pixel-identical |
| Rotation.ResampledHalfTurn | sprite-fx.ts:50-56 | a half turn equals flipping both horizontally and vertically |
| Rotation.ResampledQuarterTurn | sprite-fx.ts:50-56 | a quarter turn of a square image reads source pixel (y, n-1-x) into (x, y) |
| Rotation.RotateImage | sprite-fx.ts:33-61 | the nested loop of `rotateImage` computes exactly `Rotated` |
| Recolor.Recolored | sprite-fx.ts:286-290 | recolouring keeps the size and maps each pixel equal to `from` to `to`, leaving the others as they were |
| Recolor.RecoloredRemovesFrom | sprite-fx.ts:286-290 | after recolouring, no pixel has colour `from` (when `from != to`) |
| Recolor.RecolorIdempotent | sprite-fx.ts:279-294 | recolouring twice with the same arguments equals recolouring once |
| Recolor.RecolorToSelf | sprite-fx.ts:286-290 | recolouring a colour to itself changes nothing |
| Recolor.RecolorImage | sprite-fx.ts:284-290 | the loop of `recolor` over a clone computes exactly `Recolored` |
| Outline.Outlined | sprite-fx.ts:307-327 | outlining keeps the size; each pixel is the source's colour when opaque, the outline colour when some neighbour is opaque in the source, and transparent otherwise |
| Outline.OutlineCharacterised | sprite-fx.ts:309-326 | opaque pixels are unchanged; a transparent pixel becomes the outline colour if and only if one of its in-bounds 8-neighbours is opaque in the unmodified source, and stays transparent otherwise |
| Outline.OutlineSinglePixel | sprite-fx.ts:307-327 | a single opaque pixel gets exactly its in-bounds eight neighbours painted; every other pixel is unchanged |
| Outline.HasSolidNeighbour | sprite-fx.ts:313-322 | the early-exit neighbour scan answers true exactly when some in-bounds 8-neighbour is opaque |
| Outline.OutlineImage | sprite-fx.ts:307-327 | the loop of `outline`, which reads the source and writes a clone, computes exactly `Outlined` |
| Crop.SubImage | sprite-fx.ts:121-128 | the sub-image has the box's size, and its pixel (x, y) is source pixel (minX + x, minY + y) |
| Crop.TightBoxUnique | sprite-fx.ts:103-117 | an image has only one tight bounding box of its opaque pixels |
| Crop.CropOfUnique | sprite-fx.ts:102-131 | the crop result is determined by the source |
| Crop.CropKeepsOpaque | sprite-fx.ts:102-131 | every opaque source pixel lies inside the box and reappears at its offset in the crop |
| Crop.CropSinglePixel | sprite-fx.ts:102-131 | an image with exactly one opaque pixel crops to the 1x1 image of that pixel |
| Crop.OpaqueBounds | sprite-fx.ts:103-117 | the scan returns the tight bounding box when some pixel is opaque, and the initial empty box (width, height, -1, -1) when none is |
| Crop.CropImage | sprite-fx.ts:102-131 | `cropImage` returns a 1x1 transparent image when nothing is opaque, and the sub-image of the tight bounding box otherwise |
| SmoothRotation.ShortestDelta | sprite-fx.ts:215-218 | the wrapped delta lies in [-180, 180] and differs from `target - start` by at most one turn |
| SmoothRotation.ShortestDeltaReachesTarget | sprite-fx.ts:213-218 | turning from the start by the delta faces the normalised target |
| SmoothRotation.ShortestDeltaIsShortest | sprite-fx.ts:213-218 | no turn that reaches the target is shorter, so the animation never goes the long way round |
| SmoothRotation.RotationSteps | sprite-fx.ts:220-221 | there is always at least one tick, and `max(1, duration / 20)` ticks for a 32-bit positive duration |
| SmoothRotation.LastStepArrives | sprite-fx.ts:223-225 | the last tick writes exactly `start + delta` |
| SmoothRotation.StepsAreEven | sprite-fx.ts:223-225 | consecutive ticks differ by `delta / steps`, which is at most `180 / steps` degrees |
| SmoothRotation.StepStaysOnArc | sprite-fx.ts:223-225 | every tick lies on the short arc between the start and `start + delta` |
| SmoothRotation.TickAngles | sprite-fx.ts:223-227 | tick i writes `start + delta * (i / steps)`, for i from 1 to `steps` |
| SmoothRotation.RotationPlan | sprite-fx.ts:211-229 | the task makes one write per tick and then one more, which is the normalised target |
| SmoothRotation.PlanLastTickFacesTarget | sprite-fx.ts:223-229 | the last tick already faces the target, so the final forced write only removes rounding drift |
| SmoothRotation.SmoothRotateExample | sprite-fx.ts:204-231 | 350 to 10 degrees over 500 ms takes 25 ticks of +0.8 degrees and ends at exactly 10 |
| Records.Find | sprite-fx.ts:18-20 | the scan returns the first index holding the sprite, or -1 when no row holds it |
| Records.Resolve | sprite-fx.ts:17-27 | after `spriteIndex` the sprite is tracked, and a valid registry stays valid |
| Records.ResolveSlot | sprite-fx.ts:17-27 | a tracked sprite keeps its index and nothing changes; an untracked one gets a single new row (its image, angle 0, opacity 100) at the end |
| Records.ResolveIdempotent | sprite-fx.ts:17-27 | resolving a sprite twice equals resolving it once |
| Records.Current | sprite-fx.ts:17-27 | the resolved record belongs to the sprite and holds a valid baseline, an angle in [0, 360) and an opacity in [0, 100] |
| Records.Apply | sprite-fx.ts:147-153 | an edit keeps the registry's length after resolving, and the sprite keeps its slot |
| Records.ApplyAfterResolve | sprite-fx.ts:147-153 | resolving before an edit changes nothing |
| Records.ApplyThenCurrent | sprite-fx.ts:147-163 | the next lookup of the sprite finds exactly what the edit stored |
| Records.ApplyTouchesOnlyTarget | sprite-fx.ts:147-153 | an edit changes only the target's slot, and only the fields the edit names |
| Records.EditKeepsValid | sprite-fx.ts:94-100 | an in-range write into one slot keeps the registry valid |
| Records.ApplyKeepsValid | sprite-fx.ts:94-100 | an in-range edit keeps the registry valid |
| Records.ApplySameAngle | sprite-fx.ts:223-225 | storing the sprite's current angle changes nothing beyond resolving it |
| Records.ApplyAngleTwice | sprite-fx.ts:223-229 | a second angle write to the same sprite overrides the first |
| SpriteFx.Registry.constructor | sprite-fx.ts:6-9 | the namespace starts with four empty arrays |
| SpriteFx.Registry.Display | sprite-fx.ts:88-92 | the displayed image is well-formed and has the baseline's size |
| SpriteFx.Registry.DisplayAtRest | sprite-fx.ts:404-409 | at angle 0 and full opacity the sprite displays its baseline exactly |
| SpriteFx.Registry.DisplayOpaque | sprite-fx.ts:88-92 | at full opacity the sprite displays exactly the rotated baseline |
| SpriteFx.Registry.DisplayInvisible | sprite-fx.ts:88-92 | at opacity 0 the sprite displays an all-transparent image of the baseline's size |
| SpriteFx.Registry.SpriteIndex | sprite-fx.ts:17-27 | the registry becomes `Resolve` of the old one, the index returned is the sprite's slot, and the arrays stay parallel |
| SpriteFx.Registry.StoreBaseline | sprite-fx.ts:243 | writing `originalImages[idx]` replaces that row's baseline only |
| SpriteFx.Registry.StoreAngle | sprite-fx.ts:151 | writing `rotationAngles[idx]` replaces that row's angle only |
| SpriteFx.Registry.StoreOpacity | sprite-fx.ts:269 | writing `opacityPercents[idx]` replaces that row's opacity only |
| SpriteFx.Registry.StoreData | sprite-fx.ts:96-98 | the three writes of `setSpriteData` replace that row's baseline, angle and opacity |
| SpriteFx.Registry.Refresh | sprite-fx.ts:88-92 | refreshing tracks the sprite, leaves an already-tracked registry unchanged, and shows the sprite's record |
| SpriteFx.Registry.SetSpriteData | sprite-fx.ts:94-100 | the sprite's row becomes the given baseline, the normalised angle and the clamped opacity; the sprite shows it |
| SpriteFx.Registry.SetRotation | sprite-fx.ts:147-153 | a null sprite is a no-op; otherwise only the sprite's angle changes, to the normalised angle, and the sprite shows it |
| SpriteFx.Registry.Rotation | sprite-fx.ts:159-163 | a null sprite gives 0 and changes nothing; otherwise the result is the stored angle in [0, 360), and the sprite becomes tracked |
| SpriteFx.Registry.Rotate | sprite-fx.ts:138-140 | the stored angle becomes the normalised sum of the old angle and the turn |
| SpriteFx.Registry.ResetRotation | sprite-fx.ts:169-175 | a null sprite is a no-op; otherwise only the angle changes, to 0 |
| SpriteFx.Registry.FaceDirection | sprite-fx.ts:182-184 | behaves exactly as `setRotation` |
| SpriteFx.Registry.SmoothRotate | sprite-fx.ts:204-231 | a null sprite is a no-op; a non-positive duration makes one write of the target. Otherwise the `setRotation` arguments are exactly `RotationPlan`. Either way the sprite ends at the normalised target, its other fields untouched |
| SpriteFx.Registry.RunTicks | sprite-fx.ts:223-227 | the tick loop writes `start + delta * (i / steps)` for i = 1..steps, and only the last write remains |
| SpriteFx.Registry.Tick | sprite-fx.ts:225 | one tick's `setRotation` overrides the previous tick's angle |
| SpriteFx.Registry.FlipHorizontal | sprite-fx.ts:237-245 | a null sprite is a no-op; otherwise only the baseline changes, to its horizontal flip |
| SpriteFx.Registry.FlipVertical | sprite-fx.ts:251-259 | a null sprite is a no-op; otherwise only the baseline changes, to its vertical flip |
| SpriteFx.Registry.SetOpacity | sprite-fx.ts:266-271 | a null sprite is a no-op; otherwise only the opacity changes, to the value clamped into [0, 100] |
| SpriteFx.Registry.Recolor | sprite-fx.ts:279-294 | a null sprite is a no-op; otherwise only the baseline changes: pixels of the rounded, clamped `from` colour become the rounded, clamped `to` colour |
| SpriteFx.Registry.Outline | sprite-fx.ts:301-330 | a null sprite is a no-op; otherwise only the baseline changes, to its outline in the colour rounded and clamped into [1, 15] |
| SpriteFx.Registry.CloneSpriteImage | sprite-fx.ts:404-409 | nothing happens when either sprite is null; otherwise the target displays the source's image and its row holds that image at angle 0 and opacity 100 |
| SpriteFx.Registry.CropTransparentBorder | sprite-fx.ts:426-431 | a null sprite is a no-op; otherwise only the baseline changes, to its crop (the tight box, or 1x1 when nothing is opaque) |
| SpriteFx.FlipHorizontalTwice | sprite-fx.ts:237-245 | flipping a sprite horizontally twice restores its row of the registry |
| SpriteFx.RotateTwice | sprite-fx.ts:138-140 | rotating by `a` and then by `b` leaves the same registry as one rotation by `a + b` |

## Left out

- Trigonometry: `rotateImage` computes `Math.sin` and `Math.cos` of the angle in radians. The
  model takes them as two functions of the angle in degrees, fixed when the `Registry` is
  built. They are only required to give sine 0 and cosine 1 at 0 degrees.
- Floating point: angles, the rotation products and dither levels are exact reals. Rounding
  error in the products, NaN and infinities are not modelled.
- SpriteFx.Registry.SetOpacity: takes an integer opacity. A fractional opacity, which
  JavaScript would store and compare as a fraction, is not modelled.
- SpriteFx.Registry.SetSpriteData: takes an integer opacity, for the same reason.
- SpriteFx.Registry.SmoothRotate: takes an integer duration. The task started by
  `control.runInParallel` runs to completion inside the call, and the 20 ms `pause` between
  ticks is left out. So other code that changes the sprite between ticks is not modelled. The
  ghost `written` result records the arguments of the `setRotation` calls in place of the
  interleaving.
- `faceToward`, `distanceBetween`, `angleBetween`, `moveForward` and `orbitAroundPoint`: these
  work on sprite positions with floating-point geometry, and sprite positions are not part of
  this model.
- `stampToBackground`: it draws onto the host's background image, which is not part of this
  model.
- The host image API (`clone`, `create`, `flipX`, `flipY`, `setImage`) is modelled by value
  operations on `Image`. In-place flipping of a clone is modelled as producing a new value.
- The block-editor annotations (`//%` comments) have no behaviour and are left out. So are the
  extension's tests.
- Sprite images are required to be well-formed palette images (`Image.Valid`). The host
  guarantees this; the source does not check it.
