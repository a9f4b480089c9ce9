/** The number helpers of the sprite effects: the host's (JavaScript's) rounding,
    clamping, remainder and 32-bit integer division, and angle normalisation. */
module Numbers {

  /** `Math.max(a, b)` on integers. */
  function Max(a: int, b: int): (r: int)
    ensures r >= a && r >= b && (r == a || r == b)
  {
    if a < b then b else a
  }

  /** `clamp(value, min, max)`, written as `Math.min(max, Math.max(min, value))`. */
  function Clamp(value: int, min: int, max: int): (r: int)
    ensures r <= max
    ensures min <= max ==> min <= r
    ensures min <= value <= max ==> r == value
    ensures value < min <= max ==> r == min
    ensures max < value ==> r == max
  {
    var atLeast := if min < value then value else min;
    if atLeast < max then atLeast else max
  }

  /** `Math.round(x)`: the nearest integer, halves rounded up. */
  function Round(x: real): (r: int)
    ensures x - 0.5 < r as real <= x + 0.5
  {
    (x + 0.5).Floor
  }

  /** Truncation toward zero, the quotient JavaScript's `%` uses. */
  function Trunc(x: real): (r: int)
    ensures 0.0 <= x ==> r as real <= x < r as real + 1.0
    ensures x < 0.0 ==> r as real - 1.0 < x <= r as real
  {
    if 0.0 <= x then x.Floor else -((-x).Floor)
  }

  /** `angle % 360` in JavaScript: the remainder takes the sign of `angle`. */
  function Remainder360(angle: real): (r: real)
    ensures -360.0 < r < 360.0
    ensures 0.0 <= angle ==> 0.0 <= r
    ensures angle < 0.0 ==> r <= 0.0
  {
    angle - 360.0 * Trunc(angle / 360.0) as real
  }

  /** `normalizeAngle`: the remainder modulo 360, negative results moved up by one turn. */
  function NormalizeAngle(angle: real): (r: real)
    ensures 0.0 <= r < 360.0
  {
    var normalized := Remainder360(angle);
    if normalized < 0.0 then normalized + 360.0 else normalized
  }

  /** The normalised angle is the floored remainder: `angle` minus a whole number of turns. */
  lemma NormalizeAngleIsFlooredMod(angle: real)
    ensures NormalizeAngle(angle) == angle - 360.0 * (angle / 360.0).Floor as real
  {
    var q := angle / 360.0;
    assert angle == 360.0 * q;
    if 0.0 <= angle {
      assert Trunc(q) == q.Floor;
    } else if Remainder360(angle) < 0.0 {
      assert Trunc(q) == q.Floor + 1;
    } else {
      assert Trunc(q) == q.Floor;
    }
  }

  /** Adding whole turns does not change the normalised angle. */
  lemma NormalizeAnglePeriodic(angle: real, turns: int)
    ensures NormalizeAngle(angle + 360.0 * turns as real) == NormalizeAngle(angle)
  {
    var shifted := angle + 360.0 * turns as real;
    NormalizeAngleIsFlooredMod(angle);
    NormalizeAngleIsFlooredMod(shifted);
    assert shifted / 360.0 == angle / 360.0 + turns as real;
    assert (shifted / 360.0).Floor == (angle / 360.0).Floor + turns;
  }

  /** An angle already in [0,360) is its own normalisation. */
  lemma NormalizeAngleFixes(angle: real)
    requires 0.0 <= angle < 360.0
    ensures NormalizeAngle(angle) == angle
  {
    NormalizeAngleIsFlooredMod(angle);
    assert (angle / 360.0).Floor == 0;
  }

  /** Normalising before adding changes nothing: turning by `a` then by `b` faces the same way
      as turning by `a + b`. */
  lemma NormalizeAngleShift(angle: real, turn: real)
    ensures NormalizeAngle(NormalizeAngle(angle) + turn) == NormalizeAngle(angle + turn)
  {
    NormalizeAngleIsFlooredMod(angle);
    var k := (angle / 360.0).Floor;
    assert NormalizeAngle(angle) + turn == (angle + turn) + 360.0 * (-k) as real;
    NormalizeAnglePeriodic(angle + turn, -k);
  }

  /** Normalising twice is normalising once. */
  lemma NormalizeAngleIdempotent(angle: real)
    ensures NormalizeAngle(NormalizeAngle(angle)) == NormalizeAngle(angle)
  {
    NormalizeAngleFixes(NormalizeAngle(angle));
  }

  /** Two angles with the same normalisation differ by a whole number of turns. */
  lemma SameDirection(a: real, b: real)
    requires NormalizeAngle(a) == NormalizeAngle(b)
    ensures a - b == 360.0 * ((a / 360.0).Floor - (b / 360.0).Floor) as real
  {
    NormalizeAngleIsFlooredMod(a);
    NormalizeAngleIsFlooredMod(b);
  }

  /** The largest and smallest signed 32-bit integers plus one, as the host's `| 0` uses them. */
  const TwoTo31: int := 0x8000_0000
  const TwoTo32: int := 0x1_0000_0000

  /** `x | 0` on an integer: wrap-around into the signed 32-bit range. */
  function ToInt32(x: int): (r: int)
    ensures -TwoTo31 <= r < TwoTo31
    ensures (x - r) % TwoTo32 == 0
    ensures -TwoTo31 <= x < TwoTo31 ==> r == x
  {
    var m := x % TwoTo32;
    if m < TwoTo31 then m else m - TwoTo32
  }

  /** Integer division truncating toward zero, as 32-bit hardware division does. */
  function TruncDiv(a: int, b: int): (q: int)
    requires b != 0
    ensures 0 <= a && 0 < b ==> q == a / b
  {
    var magnitude := (if a < 0 then -a else a) / (if b < 0 then -b else b);
    if (a < 0) != (b < 0) then -magnitude else magnitude
  }

  /** A product with a positive factor is at least the other, natural, factor. */
  lemma MulAtLeast(b: int, q: int)
    requires 1 <= b && 0 <= q
    ensures b * q >= q
    decreases b
  {
    if b > 1 {
      MulAtLeast(b - 1, q);
      assert b * q == (b - 1) * q + q;
    }
  }

  /** Dividing a natural number by a positive one does not make it larger. */
  lemma DivAtMost(a: int, b: int)
    requires 0 <= a && 0 < b
    ensures 0 <= a / b <= a
  {
    var q, r := a / b, a % b;
    assert a == b * q + r && 0 <= r < b;
    if q > a {
      MulAtLeast(b, q);
    }
  }

  /** `Math.idiv(a, b)`: signed 32-bit integer division of the 32-bit conversions of `a` and `b`. */
  function Idiv(a: int, b: int): (q: int)
    requires ToInt32(b) != 0
    ensures -TwoTo31 <= q < TwoTo31
    ensures 0 <= a < TwoTo31 && 0 < b < TwoTo31 ==> q == a / b
  {
    if 0 <= a < TwoTo31 && 0 < b < TwoTo31 then
      DivAtMost(a, b);
      ToInt32(TruncDiv(ToInt32(a), ToInt32(b)))
    else
      ToInt32(TruncDiv(ToInt32(a), ToInt32(b)))
  }
}
