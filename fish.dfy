/** objects/createFish.js: the fish eat food, starve, and drop a coin every
    200 updates. */
module CreateFish {
  import opened Wrappers
  import opened Objects
  import opened Entry
  import opened Actions
  import Image
  import Arithmetic
  import CreateMoney

  const Rows: nat := 5
  const Columns: nat := 10
  /** What every update takes from hp. */
  const Decay: real := 0.1
  /** What every update adds to moneyGenerationLevel. */
  const Generation: real := 0.5
  /** The level at which a coin drops. */
  const CoinLevel: real := 100.0

  /** The state of a fish fresh from createFish(x, y, width, height). */
  ghost predicate IsNew(f: Entity, x: real, y: real, width: Option<real>, height: Option<real>,
                        swim: seq<Image.Sprite>, hungry: seq<Image.Sprite>)
    requires width.None? || height.None? ==> |swim| > 0
    reads f
  {
    f.kind == Fish && f.x == x && f.y == y &&
    (f.width, f.height) == SizeOrFirstSprite(width, height, swim) &&
    f.image == ClipSet(Clip(swim, Rows, Columns), Some(Clip(hungry, Rows, Columns))) &&
    f.hp == 100.0 && f.speed == 2.0 && f.moneyGenerationLevel == 0.0 && f.drawCounter == 0.0 &&
    f.quality == 100.0 && f.animationIndex == 0.0 && f.targetX == -1.0 && f.targetY == -1.0
  }

  /** createFish(x, y, width, height), with the swim and hungry sheets
      loaded. */
  method New(x: real, y: real, width: Option<real>, height: Option<real>,
             swim: seq<Image.Sprite>, hungry: seq<Image.Sprite>) returns (f: Entity)
    requires width.None? || height.None? ==> |swim| > 0
    ensures fresh(f)
    ensures IsNew(f, x, y, width, height, swim, hungry)
    ensures f.HasClips()
  {
    var size := SizeOrFirstSprite(width, height, swim);
    f := new Entity(Fish, ClipSet(Clip(swim, Rows, Columns), Some(Clip(hungry, Rows, Columns))), x, y, size.0, size.1);
    f.drawCounter := Columns as real * (f.quality / 100.0 - 1.0);
    f.hp := 100.0;
    f.moneyGenerationLevel := 0.0;
    f.speed := 2.0;
  }

  /** One step of the coin counter: +0.5, and back to 0 with a coin once it
      reaches 100. */
  datatype Step = Step(level: real, spawn: bool)

  function MoneyStep(level: real): (s: Step)
    ensures s.spawn <==> level + Generation >= CoinLevel
    ensures 0.0 <= level ==> 0.0 <= s.level < CoinLevel || level + Generation >= CoinLevel
    ensures s.level < CoinLevel
  {
    if level + Generation >= CoinLevel then Step(0.0, true) else Step(level + Generation, false)
  }

  /** The counter after n updates of a new fish. */
  function LevelAfter(n: nat): real
  {
    if n == 0 then 0.0 else MoneyStep(LevelAfter(n - 1)).level
  }

  /** A new fish's counter is half the number of updates since its last
      coin. */
  lemma {:induction false} LevelAfterIs(n: nat)
    ensures LevelAfter(n) == (n % 200) as real * Generation
  {
    if n > 0 {
      LevelAfterIs(n - 1);
      NextRemainder(n);
    }
  }

  /** How n % 200 follows from (n - 1) % 200. */
  lemma NextRemainder(n: nat)
    requires n >= 1
    ensures (n - 1) % 200 == 199 ==> n % 200 == 0
    ensures (n - 1) % 200 != 199 ==> n % 200 == (n - 1) % 200 + 1
  {
    var q, k := (n - 1) / 200, (n - 1) % 200;
    if k == 199 {
      Arithmetic.DivModUnique(n, 200, q + 1, 0);
    } else {
      Arithmetic.DivModUnique(n, 200, q, k + 1);
    }
  }

  /** A new fish drops a coin on update n (counted from 1) exactly when n is
      a multiple of 200. */
  lemma SpawnsEvery200(n: nat)
    requires n >= 1
    ensures MoneyStep(LevelAfter(n - 1)).spawn <==> n % 200 == 0
  {
    LevelAfterIs(n - 1);
    NextRemainder(n);
  }

  /** A new fish that never eats is hungry from its 250th update on,
      starving from its 500th, and dead from its 1000th. */
  lemma Lifetime(x: real, targetX: real, n: nat)
    ensures StateOf(Fish, x, targetX, Starved(100.0, Decay, n)).hungry <==> n >= 250
    ensures StateOf(Fish, x, targetX, Starved(100.0, Decay, n)).starving <==> n >= 500
    ensures StateOf(Fish, x, targetX, Starved(100.0, Decay, n)).dead <==> n >= 1000
  {
    StarvedIs(100.0, Decay, n);
  }

  /** update(): the priority chain on food, then the decay and the coin
      counter, which run on every call, the call that removes a dead fish
      included. moveTowardsTarget gets no delta, so the fish never moves. */
  method Update(self: Entity, reg: Registry, coins: seq<Image.Sprite>, r1: real, r2: real)
    requires self.kind == Fish && self.width.Some? && self.height.Some?
    requires 0.0 <= r1 < 1.0 && 0.0 <= r2 < 1.0
    requires |coins| > 0
    modifies self`x, self`y, self`targetX, self`targetY, self`hp, self`moneyAdded, self`moneyGenerationLevel, reg
    ensures self.x == old(self.x) && self.y == old(self.y) && self.moneyAdded == old(self.moneyAdded)
    ensures var plan := PlanOf(old(self.State()));
      var n := old(reg.FindNearestEntry(Food, self.x, self.y));
      var ate := plan == Seek && Reaches(n, EatRadius);
      self.hp == (if ate then Fed(old(self.hp), old(n.entry.quality)) else old(self.hp)) - Decay &&
      (self.targetX, self.targetY) ==
        old(ForagedTarget(plan, n, self.targetX, self.targetY, self.x, self.y, self.speed,
                          self.width.value, self.height.value, r1, r2))
    ensures self.moneyGenerationLevel == MoneyStep(old(self.moneyGenerationLevel)).level
    ensures var plan := PlanOf(old(self.State()));
      var n := old(reg.FindNearestEntry(Food, self.x, self.y));
      var rest := Foraged(plan, old(reg.entries), self, n);
      if MoneyStep(old(self.moneyGenerationLevel)).spawn then
        |reg.entries| == |rest| + 1 && reg.entries[..|rest|] == rest &&
        fresh(reg.entries[|rest|]) && CreateMoney.IsNew(reg.entries[|rest|], self.x, self.y, None, None, coins)
      else reg.entries == rest
    ensures old(reg.Valid()) ==> reg.Valid()
  {
    var _ := Forage(self, reg, Food, r1, r2);
    self.MoveTowardsTarget(None);
    self.hp := self.hp - Decay;
    self.moneyGenerationLevel := self.moneyGenerationLevel + Generation;
    if self.moneyGenerationLevel >= CoinLevel {
      self.moneyGenerationLevel := 0.0;
      var coin := CreateMoney.New(self.x, self.y, None, None, coins);
      reg.Push(coin);
    }
  }
}
