/** objects/object.js, the behaviours that act on the registry:
    moveTowardsNearestEntry (object.js:88-106) and the falling `update` that
    food and money inherit (object.js:34-40); plus the seek-else-wander
    pattern that the fish, the enemy and the friend share. */
module Actions {
  import opened Wrappers
  import opened Globals
  import opened Objects
  import opened Entry

  /** moveTowardsNearestEntry returns true: an entry was found and it is
      closer than `radius`. */
  predicate Reaches(n: Nearest, radius: real)
  {
    n.Found? && WithinRadius(n.distSq, radius)
  }

  /** The target once the nearest entry (if any) was aimed at. */
  function AimedTarget(n: Nearest, targetX: real, targetY: real): (real, real)
    reads if n.Found? then {n.entry} else {}
  {
    if n.Found? then (n.entry.x, n.entry.y) else (targetX, targetY)
  }

  /** The registry once the nearest entry, when reached, was removed. */
  function AfterSeek(entries: seq<Entity>, n: Nearest, radius: real): seq<Entity>
  {
    if Reaches(n, radius) then AfterRemoval(entries, n.entry) else entries
  }

  /** moveTowardsNearestEntry(type, radius): aim at the nearest entry of the
      type; if it is closer than `radius`, remove it from the registry and
      eat its quality. */
  method MoveTowardsNearestEntry(self: Entity, reg: Registry, kind: Kind, radius: real) returns (found: bool)
    requires HasEat(self.kind)
    modifies self`targetX, self`targetY, self`hp, self`moneyAdded, reg
    ensures var n := old(reg.FindNearestEntry(kind, self.x, self.y));
      found == Reaches(n, radius) &&
      (self.targetX, self.targetY) == old(AimedTarget(n, self.targetX, self.targetY)) &&
      reg.entries == AfterSeek(old(reg.entries), n, radius)
    ensures var n := old(reg.FindNearestEntry(kind, self.x, self.y));
      if found then Ate(self.kind, old(self.hp), old(self.moneyAdded), old(n.entry.quality), self.hp, self.moneyAdded)
      else self.hp == old(self.hp) && self.moneyAdded == old(self.moneyAdded)
    ensures old(reg.Valid()) ==> reg.Valid()
    ensures found && old(reg.Valid()) ==> old(reg.FindNearestEntry(kind, self.x, self.y)).entry !in reg.entries
  {
    var nearest := reg.FindNearestEntry(kind, self.x, self.y);
    if nearest.Found? {
      self.targetX := nearest.entry.x;
      self.targetY := nearest.entry.y;
      if WithinRadius(nearest.distSq, radius) {
        var quality := reg.HandleRemoval(nearest.entry);
        assert quality == old(nearest.entry.quality);
        assert self.hp == old(self.hp) && self.moneyAdded == old(self.moneyAdded);
        self.Eat(quality);
        return true;
      }
    }
    return false;
  }

  /** `if (!this.moveTowardsNearestEntry(type, radius)) this.moveToRandomLocation()`
      (createFish.js:55-56, createEnemy.js:47-48, createFriend.js:41-42). */
  method SeekOrWander(self: Entity, reg: Registry, kind: Kind, radius: real, r1: real, r2: real) returns (found: bool)
    requires HasEat(self.kind) && self.width.Some? && self.height.Some?
    requires 0.0 <= r1 < 1.0 && 0.0 <= r2 < 1.0
    modifies self`targetX, self`targetY, self`hp, self`moneyAdded, reg
    ensures var n := old(reg.FindNearestEntry(kind, self.x, self.y));
      var aimed := old(AimedTarget(n, self.targetX, self.targetY));
      found == Reaches(n, radius) &&
      reg.entries == AfterSeek(old(reg.entries), n, radius) &&
      (found ==> (self.targetX, self.targetY) == aimed) &&
      (!found ==>
         (self.targetX, self.targetY) ==
         RandomTarget(self.x, self.y, aimed.0, aimed.1, self.speed, self.width.value, self.height.value, r1, r2))
    ensures var n := old(reg.FindNearestEntry(kind, self.x, self.y));
      if found then Ate(self.kind, old(self.hp), old(self.moneyAdded), old(n.entry.quality), self.hp, self.moneyAdded)
      else self.hp == old(self.hp) && self.moneyAdded == old(self.moneyAdded)
    ensures old(reg.Valid()) ==> reg.Valid()
  {
    found := MoveTowardsNearestEntry(self, reg, kind, radius);
    if !found {
      self.MoveToRandomLocation(r1, r2);
    }
  }

  /** update(delta) of createObject, kept by food and money: fall by
      delta / fps60 and leave the registry once at or below the floor line
      (canvas.height - FLOOR_HEIGHT = 440). */
  method FallUpdate(self: Entity, reg: Registry, delta: real)
    modifies self`y, reg
    ensures self.y == old(self.y) + delta / Fps60
    ensures self.y >= CanvasHeight - FloorHeight ==> reg.entries == AfterRemoval(old(reg.entries), self)
    ensures self.y < CanvasHeight - FloorHeight ==> reg.entries == old(reg.entries)
    ensures old(reg.Valid()) ==> reg.Valid()
  {
    self.y := self.y + delta / Fps60;
    if self.y >= CanvasHeight - FloorHeight {
      var _ := reg.HandleRemoval(self);
    }
  }

  /** The radius within which the fish, the enemy and the friend eat. */
  const EatRadius: real := 50.0

  /** The branch the fish and enemy updates take, by priority. */
  datatype Plan = Leave | Seek | Roam

  function PlanOf(s: State): (p: Plan)
    ensures p == Leave <==> s.dead
    ensures p == Seek <==> !s.dead && s.hungry
  {
    if s.dead then Leave else if s.hungry then Seek else Roam
  }

  /** The registry after the branch: the entity itself leaves, or the prey it
      reached leaves, or nothing changes. */
  function Foraged(plan: Plan, entries: seq<Entity>, self: Entity, n: Nearest): seq<Entity>
  {
    match plan
    case Leave => AfterRemoval(entries, self)
    case Seek => AfterSeek(entries, n, EatRadius)
    case Roam => entries
  }

  /** The target after the branch. */
  function ForagedTarget(plan: Plan, n: Nearest, targetX: real, targetY: real, x: real, y: real,
                         speed: real, width: real, height: real, r1: real, r2: real): (real, real)
    requires 0.0 <= r1 < 1.0 && 0.0 <= r2 < 1.0
    reads if n.Found? then {n.entry} else {}
  {
    match plan
    case Leave => (targetX, targetY)
    case Seek =>
      var aimed := AimedTarget(n, targetX, targetY);
      if Reaches(n, EatRadius) then aimed
      else RandomTarget(x, y, aimed.0, aimed.1, speed, width, height, r1, r2)
    case Roam => RandomTarget(x, y, targetX, targetY, speed, width, height, r1, r2)
  }

  /** The priority chain of the fish and enemy updates (createFish.js:51-59,
      createEnemy.js:44-51): a dead entity removes itself; a hungry one seeks
      `prey` and wanders when it ate nothing; any other one wanders. */
  method Forage(self: Entity, reg: Registry, prey: Kind, r1: real, r2: real) returns (ate: bool)
    requires HasEat(self.kind) && self.width.Some? && self.height.Some?
    requires 0.0 <= r1 < 1.0 && 0.0 <= r2 < 1.0
    modifies self`targetX, self`targetY, self`hp, self`moneyAdded, reg
    ensures var plan := PlanOf(old(self.State()));
      var n := old(reg.FindNearestEntry(prey, self.x, self.y));
      ate == (plan == Seek && Reaches(n, EatRadius)) &&
      reg.entries == Foraged(plan, old(reg.entries), self, n) &&
      (self.targetX, self.targetY) ==
        old(ForagedTarget(plan, n, self.targetX, self.targetY, self.x, self.y, self.speed,
                          self.width.value, self.height.value, r1, r2))
    ensures var n := old(reg.FindNearestEntry(prey, self.x, self.y));
      if ate then Ate(self.kind, old(self.hp), old(self.moneyAdded), old(n.entry.quality), self.hp, self.moneyAdded)
      else self.hp == old(self.hp) && self.moneyAdded == old(self.moneyAdded)
    ensures old(reg.Valid()) ==> reg.Valid()
  {
    var state := self.State();
    if state.dead {
      var _ := reg.HandleRemoval(self);
      ate := false;
    } else if state.hungry {
      ate := SeekOrWander(self, reg, prey, EatRadius, r1, r2);
    } else {
      self.MoveToRandomLocation(r1, r2);
      ate := false;
    }
  }
}
