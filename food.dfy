/** objects/createFood.js: a pellet the player drops and the fish eat. */
module CreateFood {
  import opened Wrappers
  import opened Objects
  import Image

  const Rows: nat := 5
  const Columns: nat := 10

  /** `width ??= ...; height ??= ...`: each dimension falls back to the first
      sprite's on its own. */
  function SizeOrEachFromSprite(width: Option<real>, height: Option<real>, sheet: seq<Image.Sprite>): (s: (Option<real>, Option<real>))
    requires width.None? || height.None? ==> |sheet| > 0
    ensures s.0.Some? && s.1.Some?
    ensures width.Some? ==> s.0 == width
    ensures height.Some? ==> s.1 == height
    ensures width.None? ==> s.0.value == sheet[0].width as real
    ensures height.None? ==> s.1.value == sheet[0].height as real
  {
    (if width.Some? then width else Some(sheet[0].width as real),
     if height.Some? then height else Some(sheet[0].height as real))
  }

  /** The two defaulting rules agree except when exactly one dimension is
      given: createFood keeps it, the fish, enemy and money factories drop it
      for the sprite's. */
  lemma SizeDefaultsDiffer(width: Option<real>, height: Option<real>, sheet: seq<Image.Sprite>)
    requires |sheet| > 0
    ensures width.Some? == height.Some? ==>
      SizeOrEachFromSprite(width, height, sheet) == SizeOrFirstSprite(width, height, sheet)
    ensures width.Some? && height.None? && width.value != sheet[0].width as real ==>
      SizeOrEachFromSprite(width, height, sheet) != SizeOrFirstSprite(width, height, sheet)
  {
  }

  /** The quality argument, defaulting to 1. */
  function QualityArgument(quality: Option<real>): real
  {
    if quality.Some? then quality.value else 1.0
  }

  /** The state of a pellet fresh from createFood(x, y, quality, width, height). */
  ghost predicate IsNew(f: Entity, x: real, y: real, quality: Option<real>, width: Option<real>, height: Option<real>,
                        sheet: seq<Image.Sprite>)
    requires width.None? || height.None? ==> |sheet| > 0
    reads f
  {
    f.kind == Food && f.x == x && f.y == y &&
    (f.width, f.height) == SizeOrEachFromSprite(width, height, sheet) &&
    f.image == ClipSet(Clip(sheet, Rows, Columns), None) &&
    f.quality == 100.0 * QualityArgument(quality) &&
    f.animationIndex == QualityArgument(quality) - 1.0 &&
    f.targetX == -1.0 && f.targetY == -1.0 && f.currentFrame == 0.0
  }

  /** createFood(x, y, quality = 1, width, height): quality becomes 100 times
      the argument and the animation row quality / 100 - 1, so a better
      pellet plays a lower row of the sheet. */
  method New(x: real, y: real, quality: Option<real>, width: Option<real>, height: Option<real>, sheet: seq<Image.Sprite>)
    returns (f: Entity)
    requires width.None? || height.None? ==> |sheet| > 0
    ensures fresh(f)
    ensures IsNew(f, x, y, quality, width, height, sheet)
  {
    var size := SizeOrEachFromSprite(width, height, sheet);
    f := new Entity(Food, ClipSet(Clip(sheet, Rows, Columns), None), x, y, size.0, size.1);
    f.quality := 100.0 * QualityArgument(quality);
    f.animationIndex := f.quality / 100.0 - 1.0;
  }
}
