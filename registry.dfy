/** The lookup and update rules of the per-sprite transform registry, on values: a record per
    tracked sprite, looked up by reference identity, created on first use, never removed. */
module Records {
  import opened Images

  /** A game sprite as far as the effects see it: an identity and a displayed image. */
  class Sprite {
    var image: Image

    constructor (image: Image)
      ensures this.image == image
    {
      this.image := image;
    }
  }

  /** One row of the four parallel arrays: the sprite, its baseline art, its stored angle and
      its stored opacity. */
  datatype Record = Record(sprite: Sprite, baseline: Image, angle: real, opacity: int)

  /** The stored values are always normalised, clamped and well-formed, and no sprite is
      tracked twice. */
  ghost predicate ValidRecords(recs: seq<Record>) {
    (forall i :: 0 <= i < |recs| ==>
      recs[i].baseline.Valid() && 0.0 <= recs[i].angle < 360.0 && 0 <= recs[i].opacity <= 100) &&
    (forall i, j :: 0 <= i < j < |recs| ==> recs[i].sprite != recs[j].sprite)
  }

  /** The linear scan of `spriteIndex`: the first index holding `s`, or -1. */
  function Find(recs: seq<Record>, s: Sprite): (r: int)
    ensures -1 <= r < |recs|
    ensures 0 <= r ==> recs[r].sprite == s && forall j :: 0 <= j < r ==> recs[j].sprite != s
    ensures r < 0 ==> forall j :: 0 <= j < |recs| ==> recs[j].sprite != s
  {
    if recs == [] then -1
    else if recs[0].sprite == s then 0
    else
      var rest := Find(recs[1..], s);
      if rest < 0 then -1 else rest + 1
  }

  /** `spriteIndex` on a miss appends a record: the sprite's current image, angle 0, opacity 100.
      The result always tracks the sprite, and stays valid when the new image is well-formed. */
  function Resolve(recs: seq<Record>, s: Sprite, image: Image): (r: seq<Record>)
    ensures 0 <= Find(r, s) < |r|
    ensures ValidRecords(recs) && image.Valid() ==> ValidRecords(r)
  {
    if Find(recs, s) >= 0 then recs
    else
      var r := recs + [Record(s, image, 0.0, 100)];
      assert r[|recs|].sprite == s;
      r
  }

  /** A tracked sprite resolves to its existing index and nothing changes; an untracked one gets
      exactly one new record at the end. Either way the earlier records are kept. */
  lemma ResolveSlot(recs: seq<Record>, s: Sprite, image: Image)
    ensures Find(recs, s) >= 0 ==> Resolve(recs, s, image) == recs
    ensures Find(recs, s) < 0 ==>
      Resolve(recs, s, image) == recs + [Record(s, image, 0.0, 100)] &&
      Find(Resolve(recs, s, image), s) == |recs|
    ensures Find(recs, s) >= 0 ==> Find(Resolve(recs, s, image), s) == Find(recs, s)
  {
  }

  /** Resolving twice is resolving once. */
  lemma ResolveIdempotent(recs: seq<Record>, s: Sprite, image: Image, image': Image)
    ensures Resolve(Resolve(recs, s, image), s, image') == Resolve(recs, s, image)
  {
  }

  /** The record a sprite resolves to. */
  function Current(recs: seq<Record>, s: Sprite, image: Image): (r: Record)
    ensures r.sprite == s
    ensures ValidRecords(recs) && image.Valid() ==>
      r.baseline.Valid() && 0.0 <= r.angle < 360.0 && 0 <= r.opacity <= 100
  {
    var rs := Resolve(recs, s, image);
    rs[Find(rs, s)]
  }

  /** What an operation stores into the sprite's record. */
  datatype Edit =
    | NewAngle(angle: real)
    | NewOpacity(opacity: int)
    | NewBaseline(baseline: Image)
    | NewData(baseline: Image, angle: real, opacity: int)

  /** The stored value of an edit is within the registry's ranges. */
  ghost predicate InRange(e: Edit) {
    match e
    case NewAngle(a) => 0.0 <= a < 360.0
    case NewOpacity(o) => 0 <= o <= 100
    case NewBaseline(b) => b.Valid()
    case NewData(b, a, o) => b.Valid() && 0.0 <= a < 360.0 && 0 <= o <= 100
  }

  function EditRecord(r: Record, e: Edit): Record {
    match e
    case NewAngle(a) => r.(angle := a)
    case NewOpacity(o) => r.(opacity := o)
    case NewBaseline(b) => r.(baseline := b)
    case NewData(b, a, o) => r.(baseline := b, angle := a, opacity := o)
  }

  /** Resolve the sprite, then store the edit into its slot only. The sprite keeps its slot. */
  function Apply(recs: seq<Record>, s: Sprite, image: Image, e: Edit): (r: seq<Record>)
    ensures |r| == |Resolve(recs, s, image)|
    ensures Find(r, s) == Find(Resolve(recs, s, image), s)
  {
    var rs := Resolve(recs, s, image);
    var i := Find(rs, s);
    var r := rs[i := EditRecord(rs[i], e)];
    assert r[i].sprite == s;
    r
  }

  /** Resolving first changes nothing an edit does. */
  lemma ApplyAfterResolve(recs: seq<Record>, s: Sprite, image: Image, image': Image, e: Edit)
    ensures Apply(Resolve(recs, s, image), s, image', e) == Apply(recs, s, image, e)
  {
  }

  /** What an edit stores is what the next lookup of the sprite finds. */
  lemma ApplyThenCurrent(recs: seq<Record>, s: Sprite, image: Image, image': Image, e: Edit)
    ensures Current(Apply(recs, s, image, e), s, image') == EditRecord(Current(recs, s, image), e)
  {
    var r := Apply(recs, s, image, e);
    ResolveSlot(r, s, image');
  }

  /** An edit changes only the target sprite's slot, and in it only the fields the edit names;
      every other sprite's record is as before (or as just created). */
  lemma ApplyTouchesOnlyTarget(recs: seq<Record>, s: Sprite, image: Image, e: Edit)
    ensures var rs, r := Resolve(recs, s, image), Apply(recs, s, image, e);
      var i := Find(rs, s);
      (forall j :: 0 <= j < |rs| && j != i ==> r[j] == rs[j]) &&
      r[i].sprite == s &&
      (!e.NewBaseline? && !e.NewData? ==> r[i].baseline == rs[i].baseline) &&
      (!e.NewAngle? && !e.NewData? ==> r[i].angle == rs[i].angle) &&
      (!e.NewOpacity? && !e.NewData? ==> r[i].opacity == rs[i].opacity)
  {
  }

  /** An in-range edit of one slot of a valid registry leaves it valid. */
  lemma EditKeepsValid(recs: seq<Record>, i: int, e: Edit)
    requires ValidRecords(recs) && 0 <= i < |recs| && InRange(e)
    ensures ValidRecords(recs[i := EditRecord(recs[i], e)])
  {
    var r := recs[i := EditRecord(recs[i], e)];
    assert forall j :: 0 <= j < |r| ==> r[j].sprite == recs[j].sprite;
  }

  /** An in-range edit of a valid registry leaves it valid. */
  lemma ApplyKeepsValid(recs: seq<Record>, s: Sprite, image: Image, e: Edit)
    requires ValidRecords(recs) && image.Valid() && InRange(e)
    ensures ValidRecords(Apply(recs, s, image, e))
  {
    var rs := Resolve(recs, s, image);
    EditKeepsValid(rs, Find(rs, s), e);
  }

  /** Storing the angle a sprite already has changes nothing beyond resolving it. */
  lemma ApplySameAngle(recs: seq<Record>, s: Sprite, image: Image)
    ensures Apply(recs, s, image, NewAngle(Current(recs, s, image).angle)) == Resolve(recs, s, image)
  {
    var rs := Resolve(recs, s, image);
    var i := Find(rs, s);
    assert rs[i].(angle := rs[i].angle) == rs[i];
  }

  /** A second angle edit of the same sprite overrides the first. */
  lemma ApplyAngleTwice(recs: seq<Record>, s: Sprite, image: Image, image': Image, a1: real, a2: real)
    requires ValidRecords(recs)
    ensures Apply(Apply(recs, s, image, NewAngle(a1)), s, image', NewAngle(a2)) == Apply(recs, s, image, NewAngle(a2))
  {
    var once := Apply(recs, s, image, NewAngle(a1));
    ResolveSlot(once, s, image');
  }
}
