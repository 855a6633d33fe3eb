/** objects/createEnemy.js: the balrog hunts fish when hungry. */
module CreateEnemy {
  import opened Wrappers
  import opened Objects
  import opened Entry
  import opened Actions
  import Image

  const Rows: nat := 2
  const Columns: nat := 10
  /** What every update takes from hp. */
  const Decay: real := 0.01

  /** The state of an enemy fresh from createEnemy(x, y, width, height). */
  ghost predicate IsNew(e: Entity, x: real, y: real, width: Option<real>, height: Option<real>, sheet: seq<Image.Sprite>)
    requires width.None? || height.None? ==> |sheet| > 0
    reads e
  {
    e.kind == Enemy && e.x == x && e.y == y &&
    (e.width, e.height) == SizeOrFirstSprite(width, height, sheet) &&
    e.image == ClipSet(Clip(sheet, Rows, Columns), None) &&
    e.speed == 3.0 && e.hp == 100.0 && e.quality == 100.0 && e.targetX == -1.0 && e.targetY == -1.0
  }

  /** createEnemy(x, y, width, height), with the balrog sheet loaded. */
  method New(x: real, y: real, width: Option<real>, height: Option<real>, sheet: seq<Image.Sprite>) returns (e: Entity)
    requires width.None? || height.None? ==> |sheet| > 0
    ensures fresh(e)
    ensures IsNew(e, x, y, width, height, sheet)
  {
    var size := SizeOrFirstSprite(width, height, sheet);
    e := new Entity(Enemy, ClipSet(Clip(sheet, Rows, Columns), None), x, y, size.0, size.1);
    e.speed := 3.0;
    e.hp := 100.0;
  }

  /** A new enemy that never eats is hungry from its 2500th update on and
      dead from its 10000th; it is never starving. */
  lemma Lifetime(x: real, targetX: real, n: nat)
    ensures StateOf(Enemy, x, targetX, Starved(100.0, Decay, n)).hungry <==> n >= 2500
    ensures StateOf(Enemy, x, targetX, Starved(100.0, Decay, n)).dead <==> n >= 10000
    ensures !StateOf(Enemy, x, targetX, Starved(100.0, Decay, n)).starving
  {
    StarvedIs(100.0, Decay, n);
  }

  /** update(): the priority chain on fish, then the decay of 0.01.
      moveTowardsTarget gets no delta, so the enemy never moves. */
  method Update(self: Entity, reg: Registry, r1: real, r2: real)
    requires self.kind == Enemy && self.width.Some? && self.height.Some?
    requires 0.0 <= r1 < 1.0 && 0.0 <= r2 < 1.0
    modifies self`x, self`y, self`targetX, self`targetY, self`hp, self`moneyAdded, reg
    ensures self.x == old(self.x) && self.y == old(self.y) && self.moneyAdded == old(self.moneyAdded)
    ensures var plan := PlanOf(old(self.State()));
      var n := old(reg.FindNearestEntry(Fish, self.x, self.y));
      var ate := plan == Seek && Reaches(n, EatRadius);
      self.hp == (if ate then Fed(old(self.hp), old(n.entry.quality)) else old(self.hp)) - Decay &&
      (self.targetX, self.targetY) ==
        old(ForagedTarget(plan, n, self.targetX, self.targetY, self.x, self.y, self.speed,
                          self.width.value, self.height.value, r1, r2)) &&
      reg.entries == Foraged(plan, old(reg.entries), self, n)
    ensures old(reg.Valid()) ==> reg.Valid()
  {
    var _ := Forage(self, reg, Fish, r1, r2);
    self.MoveTowardsTarget(None);
    self.hp := self.hp - Decay;
  }
}
