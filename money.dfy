/** objects/createMoney.js: a coin, the entity the fish spawn and the
    friend and the player collect. */
module CreateMoney {
  import opened Wrappers
  import opened Objects
  import Image

  const Rows: nat := 5
  const Columns: nat := 10

  /** The state of a coin fresh from createMoney(x, y, width, height). */
  ghost predicate IsNew(m: Entity, x: real, y: real, width: Option<real>, height: Option<real>, sheet: seq<Image.Sprite>)
    requires width.None? || height.None? ==> |sheet| > 0
    reads m
  {
    m.kind == Money && m.x == x && m.y == y &&
    (m.width, m.height) == SizeOrFirstSprite(width, height, sheet) &&
    m.image == ClipSet(Clip(sheet, Rows, Columns), None) &&
    m.quality == 100.0 && m.drawCounter == 0.0 && m.animationIndex == 0.0 &&
    m.targetX == -1.0 && m.targetY == -1.0 && m.currentFrame == 0.0
  }

  /** createMoney(x, y, width, height): the clip is the record
      {data, rows: 5, columns: 10}; the quality keeps its default of 100. */
  method New(x: real, y: real, width: Option<real>, height: Option<real>, sheet: seq<Image.Sprite>) returns (m: Entity)
    requires width.None? || height.None? ==> |sheet| > 0
    ensures fresh(m)
    ensures IsNew(m, x, y, width, height, sheet)
  {
    var size := SizeOrFirstSprite(width, height, sheet);
    m := new Entity(Money, ClipSet(Clip(sheet, Rows, Columns), None), x, y, size.0, size.1);
    m.drawCounter := Columns as real * (m.quality / 100.0 - 1.0);
  }
}
