/** objects/createFriend.js: Stinky, who collects the coins. */
module CreateFriend {
  import opened Wrappers
  import opened Globals
  import opened Objects
  import opened Entry
  import opened Actions
  import Image

  const Rows: nat := 3
  const Columns: nat := 10

  /** The size createFriend passes to createObject: none at all. */
  function SizeAsWritten(): (s: (Option<real>, Option<real>))
    ensures s.0.None? && s.1.None?
  {
    (None, None)
  }

  /** The size the other factories derive, taken from the first sprite. */
  function Size(sheet: seq<Image.Sprite>): (s: (Option<real>, Option<real>))
    requires |sheet| > 0
    ensures s == SizeOrFirstSprite(None, None, sheet)
  {
    (Some(sheet[0].width as real), Some(sheet[0].height as real))
  }

  /** As written the friend has no size in either dimension, so its
      moveToRandomLocation would compute `canvas.width - undefined`, a NaN
      that has no real value here; the corrected size is the sprite's and
      is defined. */
  lemma AsWrittenHasNoSize(sheet: seq<Image.Sprite>)
    requires |sheet| > 0
    ensures SizeAsWritten().0.None? && SizeAsWritten().1.None?
    ensures Size(sheet).0.Some? && Size(sheet).1.Some? && SizeAsWritten() != Size(sheet)
  {
  }

  lemma WanderTargetInPlayfield(sheet: seq<Image.Sprite>, x: real, y: real, speed: real, r1: real, r2: real)
    requires |sheet| > 0 && 0.0 <= r1 < 1.0 && 0.0 <= r2 < 1.0
    requires (sheet[0].width as real) < CanvasWidth
    requires (sheet[0].height as real) < CanvasHeight - BarHeight - FloorHeight
    ensures var t := RandomTarget(x, y, -1.0, -1.0, speed, Size(sheet).0.value, Size(sheet).1.value, r1, r2);
      0.0 <= t.0 < CanvasWidth - sheet[0].width as real &&
      BarHeight <= t.1 < CanvasHeight - FloorHeight - sheet[0].height as real
  {
    assert NeedsNewTarget(x, y, -1.0, -1.0, speed);
  }

  /** The state of a friend fresh from the factory, with the given size. */
  ghost predicate IsNew(f: Entity, x: real, y: real, size: (Option<real>, Option<real>), sheet: seq<Image.Sprite>)
    reads f
  {
    f.kind == Friend && f.x == x && f.y == y && (f.width, f.height) == size &&
    f.image == ClipSet(Clip(sheet, Rows, Columns), None) &&
    f.animationIndex == 0.0 && f.speed == 2.0 && f.moneyAdded == 0.0 &&
    f.targetX == -1.0 && f.targetY == -1.0
  }

  /** createFriend(x, y) as written: created without width and height. */
  method NewAsWritten(x: real, y: real, sheet: seq<Image.Sprite>) returns (f: Entity)
    ensures fresh(f)
    ensures IsNew(f, x, y, SizeAsWritten(), sheet)
    ensures f.width.None? && f.height.None?
  {
    var size := SizeAsWritten();
    f := new Entity(Friend, ClipSet(Clip(sheet, Rows, Columns), None), x, y, size.0, size.1);
    f.animationIndex := 0.0;
    f.speed := 2.0;
  }

  /** createFriend(x, y) with the size of the first sprite, as the fish,
      enemy and money factories do. */
  method New(x: real, y: real, sheet: seq<Image.Sprite>) returns (f: Entity)
    requires |sheet| > 0
    ensures fresh(f)
    ensures IsNew(f, x, y, Size(sheet), sheet)
    ensures f.width.Some? && f.height.Some?
  {
    var size := Size(sheet);
    f := new Entity(Friend, ClipSet(Clip(sheet, Rows, Columns), None), x, y, size.0, size.1);
    f.animationIndex := 0.0;
    f.speed := 2.0;
  }

  /** update(delta): harvest the nearest coin within 50 (its quality goes to
      addMoney), wander only when none was taken, then move by delta. */
  method Update(self: Entity, reg: Registry, delta: Option<real>, r1: real, r2: real)
    requires self.kind == Friend && self.width.Some? && self.height.Some?
    requires 0.0 <= r1 < 1.0 && 0.0 <= r2 < 1.0
    modifies self`x, self`y, self`targetX, self`targetY, self`hp, self`moneyAdded, reg
    ensures var n := old(reg.FindNearestEntry(Money, self.x, self.y));
      var aimed := old(AimedTarget(n, self.targetX, self.targetY));
      reg.entries == AfterSeek(old(reg.entries), n, EatRadius) &&
      (Reaches(n, EatRadius) ==> (self.targetX, self.targetY) == aimed) &&
      (!Reaches(n, EatRadius) ==>
         (self.targetX, self.targetY) ==
         old(RandomTarget(self.x, self.y, aimed.0, aimed.1, self.speed, self.width.value, self.height.value, r1, r2)))
    ensures var n := old(reg.FindNearestEntry(Money, self.x, self.y));
      self.hp == old(self.hp) &&
      self.moneyAdded == old(self.moneyAdded) + (if Reaches(n, EatRadius) then old(n.entry.quality) else 0.0)
    ensures delta.None? ==> self.x == old(self.x) && self.y == old(self.y)
    ensures delta.Some? ==>
      self.x == Approach(old(self.x), self.targetX, StepLength(delta.value, self.speed)) &&
      self.y == Approach(old(self.y), self.targetY, StepLength(delta.value, self.speed))
    ensures old(reg.Valid()) ==> reg.Valid()
  {
    var _ := SeekOrWander(self, reg, Money, EatRadius, r1, r2);
    self.MoveTowardsTarget(delta);
  }
}
