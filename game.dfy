/** index.js: the player's economy. Clicks on the menu bar buy fish and
    upgrades, clicks in the tank collect coins, strike the enemy or drop
    food; a timer brings back an enemy when none is left. */
module Game {
  import opened Wrappers
  import opened Globals
  import opened Objects
  import opened Entry
  import Image
  import CreateFish
  import CreateFood
  import CreateEnemy

  const FishCost: real := 100.0
  const FoodQualityCost: real := 100.0
  const MaxFoodCost: real := 200.0
  const FoodCost: real := 25.0
  const MaxFoodQuality: int := 3
  const MaxFoodLimit: int := 10
  const ButtonWidth: real := 73.0
  const ButtonPositions: seq<real> := [18.0, 88.0, 144.0, 217.0, 290.0, 363.0, 436.0]
  const ButtonEnabled: seq<bool> := [true, true, true, false, false, false, false]

  /** The menu bar: clicks with 4 <= y <= 63. */
  predicate InMenu(y: real)
  {
    4.0 <= y <= 63.0
  }

  /** buttonClicked(i): the button is enabled and x lies on its 73 pixels. */
  predicate ButtonClicked(i: nat, x: real)
    requires i < |ButtonPositions|
  {
    ButtonEnabled[i] && ButtonPositions[i] <= x <= ButtonPositions[i] + ButtonWidth
  }

  /** Only the first three buttons are enabled, so buttons 3 to 6 never fire. */
  lemma OnlyFirstThreeFire(i: nat, x: real)
    requires i < |ButtonPositions|
    ensures ButtonClicked(i, x) ==> i < 3 && ButtonPositions[i] <= x <= ButtonPositions[i] + ButtonWidth
    ensures 3 <= i ==> !ButtonClicked(i, x)
  {
  }

  datatype Purchase = BuyFish | BuyFoodQuality | BuyMaxFood | NoPurchase

  /** The if/else chain over the buttons: the first clicked button that is
      affordable, and below its cap, wins. */
  function MenuChoice(x: real, money: real, foodQuality: int, maxFood: int): Purchase
  {
    if ButtonClicked(0, x) && money >= FishCost then BuyFish
    else if ButtonClicked(1, x) && money >= FoodQualityCost && foodQuality < MaxFoodQuality then BuyFoodQuality
    else if ButtonClicked(2, x) && money >= MaxFoodCost && maxFood < MaxFoodLimit then BuyMaxFood
    else NoPurchase
  }

  function Cost(p: Purchase): real
  {
    match p
    case BuyFish => FishCost
    case BuyFoodQuality => FoodQualityCost
    case BuyMaxFood => MaxFoodCost
    case NoPurchase => 0.0
  }

  /** (currentMoney, foodQuality, maxFood) after a purchase. */
  function Buy(p: Purchase, money: real, foodQuality: int, maxFood: int): (real, int, int)
  {
    (money - Cost(p),
     if p == BuyFoodQuality then foodQuality + 1 else foodQuality,
     if p == BuyMaxFood then maxFood + 1 else maxFood)
  }

  /** The invariant of the shop: money never negative, food quality in
      [1, 3], the food limit in [1, 10]. */
  predicate InRange(money: real, foodQuality: int, maxFood: int)
  {
    money >= 0.0 && 1 <= foodQuality <= MaxFoodQuality && 1 <= maxFood <= MaxFoodLimit
  }

  /** A purchase is made only when affordable and below its cap, so the
      menu keeps the invariant; a click off every button buys nothing. */
  lemma MenuKeepsRange(x: real, money: real, foodQuality: int, maxFood: int)
    requires InRange(money, foodQuality, maxFood)
    ensures var p := MenuChoice(x, money, foodQuality, maxFood);
      p != NoPurchase ==> money >= Cost(p) > 0.0
    ensures var p := MenuChoice(x, money, foodQuality, maxFood);
      var after := Buy(p, money, foodQuality, maxFood);
      InRange(after.0, after.1, after.2)
    ensures (x < ButtonPositions[0] || x > ButtonPositions[2] + ButtonWidth) ==>
      MenuChoice(x, money, foodQuality, maxFood) == NoPurchase
  {
  }

  /** Buttons 0 (18..91) and 1 (88..161) overlap on 88 <= x <= 91. The fish
      button is tried first and costs as much as the food upgrade, so there
      the chain falls through to button 1 only when it cannot afford it, and
      then cannot afford button 1 either: the upgrade is never bought
      there. */
  lemma OverlapNeverUpgradesFood(x: real, money: real, foodQuality: int, maxFood: int)
    requires ButtonPositions[1] <= x <= ButtonPositions[0] + ButtonWidth
    ensures ButtonClicked(0, x) && ButtonClicked(1, x)
    ensures MenuChoice(x, money, foodQuality, maxFood) == if money >= FishCost then BuyFish else NoPurchase
  {
  }

  /** The branch a click takes. */
  datatype Branch = MenuBranch | MoneyBranch | EnemyBranch | FoodBranch

  /** index.js as written: entryIntersects reports a miss as `{}`, which is
      never -1, so every click below the menu takes the coin branch. */
  function BranchAsWritten(y: real, money: Option<Entity>, enemy: Option<Entity>): Branch
  {
    if InMenu(y) then MenuBranch else MoneyBranch
  }

  /** The branch the chain evidently means: coin, else enemy, else food. */
  function BranchOf(y: real, money: Option<Entity>, enemy: Option<Entity>): Branch
  {
    if InMenu(y) then MenuBranch
    else if money.Some? then MoneyBranch
    else if enemy.Some? then EnemyBranch
    else FoodBranch
  }

  /** As written no click strikes the enemy or drops food, and a click on
      empty water takes the coin branch with no coin. */
  lemma AsWrittenNeverFeeds(y: real, money: Option<Entity>, enemy: Option<Entity>)
    ensures BranchAsWritten(y, money, enemy) != EnemyBranch
    ensures BranchAsWritten(y, money, enemy) != FoodBranch
    ensures !InMenu(y) && money.None? ==>
      BranchAsWritten(y, money, enemy) == MoneyBranch && BranchOf(y, money, enemy) != MoneyBranch
  {
  }

  /** The intended chain reaches every branch, each exactly when the click
      is where it belongs. */
  lemma BranchCases(y: real, money: Option<Entity>, enemy: Option<Entity>)
    ensures BranchOf(y, money, enemy) == MenuBranch <==> InMenu(y)
    ensures BranchOf(y, money, enemy) == MoneyBranch <==> !InMenu(y) && money.Some?
    ensures BranchOf(y, money, enemy) == EnemyBranch <==> !InMenu(y) && money.None? && enemy.Some?
    ensures BranchOf(y, money, enemy) == FoodBranch <==> !InMenu(y) && money.None? && enemy.None?
    ensures BranchOf(y, money, enemy) != MoneyBranch ==> BranchAsWritten(y, money, enemy) == MoneyBranch || InMenu(y)
  {
  }

  datatype ClickOutcome = Bought(p: Purchase) | Collected(quality: real) | Struck | Dropped | Declined | TypeError

  /** The last entity of a registry that grew by one. */
  ghost predicate AppendedOne(now: seq<Entity>, before: seq<Entity>)
  {
    |now| == |before| + 1 && now[..|before|] == before
  }

  /** The closure state of init(): money, weapon, food limit and quality. */
  class Shop {
    var currentMoney: real
    var weaponQuality: real
    var maxFood: int
    var foodQuality: int

    ghost predicate Valid()
      reads this
    {
      InRange(currentMoney, foodQuality, maxFood)
    }

    constructor ()
      ensures currentMoney == 300.0 && weaponQuality == 30.0 && maxFood == 1 && foodQuality == 1
      ensures Valid()
    {
      currentMoney := 300.0;
      weaponQuality := 30.0;
      maxFood := 1;
      foodQuality := 1;
    }

    /** The menu half of handleClick (index.js:37-65). The new fish is placed
        at (rx * 640, ry * 480). */
    method Menu(reg: Registry, x: real, swim: seq<Image.Sprite>, hungry: seq<Image.Sprite>, rx: real, ry: real)
      returns (p: Purchase)
      requires |swim| > 0
      modifies this`currentMoney, this`foodQuality, this`maxFood, reg
      ensures p == old(MenuChoice(x, currentMoney, foodQuality, maxFood))
      ensures (currentMoney, foodQuality, maxFood) == old(Buy(p, currentMoney, foodQuality, maxFood))
      ensures p == BuyFish ==>
        AppendedOne(reg.entries, old(reg.entries)) && fresh(reg.entries[|reg.entries| - 1]) &&
        CreateFish.IsNew(reg.entries[|reg.entries| - 1], rx * CanvasWidth, ry * CanvasHeight, None, None, swim, hungry)
      ensures p != BuyFish ==> reg.entries == old(reg.entries)
      ensures old(Valid()) ==> Valid()
      ensures old(reg.Valid()) ==> reg.Valid()
    {
      if old(Valid()) {
        MenuKeepsRange(x, currentMoney, foodQuality, maxFood);
      }
      p := MenuChoice(x, currentMoney, foodQuality, maxFood);
      match p
      case BuyFish =>
        currentMoney := currentMoney - FishCost;
        var fish := CreateFish.New(rx * CanvasWidth, ry * CanvasHeight, None, None, swim, hungry);
        reg.Push(fish);
      case BuyFoodQuality =>
        currentMoney := currentMoney - FoodQualityCost;
        foodQuality := foodQuality + 1;
      case BuyMaxFood =>
        currentMoney := currentMoney - MaxFoodCost;
        maxFood := maxFood + 1;
      case NoPurchase =>
    }

    /** handleClick as written. Below the menu the coin test is always true;
        with no coin under the cursor `{}.handleRemoval()` throws and the
        click changes nothing. The enemy and food branches are never
        reached. */
    method HandleClickAsWritten(reg: Registry, x: real, y: real, swim: seq<Image.Sprite>, hungry: seq<Image.Sprite>,
                                rx: real, ry: real) returns (out: ClickOutcome)
      requires |swim| > 0
      modifies this`currentMoney, this`foodQuality, this`maxFood, reg
      ensures InMenu(y) ==> out == Bought(old(MenuChoice(x, currentMoney, foodQuality, maxFood)))
      ensures InMenu(y) ==> (currentMoney, foodQuality, maxFood) == old(Buy(out.p, currentMoney, foodQuality, maxFood))
      ensures InMenu(y) && out.p == BuyFish ==>
        AppendedOne(reg.entries, old(reg.entries)) && fresh(reg.entries[|reg.entries| - 1]) &&
        CreateFish.IsNew(reg.entries[|reg.entries| - 1], rx * CanvasWidth, ry * CanvasHeight, None, None, swim, hungry)
      ensures InMenu(y) && out.p != BuyFish ==> reg.entries == old(reg.entries)
      ensures var m := old(reg.EntryIntersects(Money, x, y));
        !InMenu(y) && m.None? ==>
          out == TypeError && reg.entries == old(reg.entries) &&
          (currentMoney, foodQuality, maxFood) == old((currentMoney, foodQuality, maxFood))
      ensures var m := old(reg.EntryIntersects(Money, x, y));
        !InMenu(y) && m.Some? ==>
          out == Collected(old(m.value.quality)) && currentMoney == old(currentMoney) + old(m.value.quality) &&
          reg.entries == AfterRemoval(old(reg.entries), m.value) &&
          foodQuality == old(foodQuality) && maxFood == old(maxFood)
      ensures out != Struck && out != Dropped
      ensures old(Valid()) && old(CoinsNonNegative(reg.entries)) ==> Valid()
      ensures old(reg.Valid()) ==> reg.Valid()
    {
      if InMenu(y) {
        var p := Menu(reg, x, swim, hungry, rx, ry);
        return Bought(p);
      }
      var money := reg.EntryIntersects(Money, x, y);
      // `money !== -1` holds for every result, the miss value {} included.
      if money.None? {
        return TypeError;
      }
      FirstHitSpec(reg.entries, Money, x, y);
      var moneyQuality := reg.HandleRemoval(money.value);
      currentMoney := currentMoney + moneyQuality;
      return Collected(moneyQuality);
    }

    /** handleClick with the coin test reading a miss as a miss: a coin under
        the cursor is collected, else an enemy under it loses weaponQuality
        hp, else a pellet of the current quality is dropped when fewer than
        maxFood are in the tank and 25 can be paid. */
    method HandleClick(reg: Registry, x: real, y: real, swim: seq<Image.Sprite>, hungry: seq<Image.Sprite>,
                       food: seq<Image.Sprite>, rx: real, ry: real) returns (out: ClickOutcome)
      requires |swim| > 0 && |food| > 0
      modifies this`currentMoney, this`foodQuality, this`maxFood, reg, reg.entries`hp
      ensures var m := old(reg.EntryIntersects(Money, x, y));
        var e := old(reg.EntryIntersects(Enemy, x, y));
        var b := BranchOf(y, m, e);
        (b == MenuBranch ==>
           out == Bought(old(MenuChoice(x, currentMoney, foodQuality, maxFood))) &&
           (currentMoney, foodQuality, maxFood) == old(Buy(out.p, currentMoney, foodQuality, maxFood)) &&
           (out.p == BuyFish ==>
              AppendedOne(reg.entries, old(reg.entries)) && fresh(reg.entries[|reg.entries| - 1]) &&
              CreateFish.IsNew(reg.entries[|reg.entries| - 1], rx * CanvasWidth, ry * CanvasHeight, None, None, swim, hungry)) &&
           (out.p != BuyFish ==> reg.entries == old(reg.entries))) &&
        (b == MoneyBranch ==>
           out == Collected(old(m.value.quality)) && currentMoney == old(currentMoney) + old(m.value.quality) &&
           reg.entries == AfterRemoval(old(reg.entries), m.value) &&
           foodQuality == old(foodQuality) && maxFood == old(maxFood)) &&
        (b == EnemyBranch ==>
           out == Struck && e.value.hp == old(e.value.hp) - weaponQuality &&
           reg.entries == old(reg.entries) &&
           (currentMoney, foodQuality, maxFood) == old((currentMoney, foodQuality, maxFood)))
      ensures var m := old(reg.EntryIntersects(Money, x, y));
        var e := old(reg.EntryIntersects(Enemy, x, y));
        var drop := old(CountOf(reg.entries, Food) < maxFood && currentMoney >= FoodCost);
        BranchOf(y, m, e) == FoodBranch ==>
          foodQuality == old(foodQuality) && maxFood == old(maxFood) &&
          (drop ==>
             out == Dropped && currentMoney == old(currentMoney) - FoodCost &&
             AppendedOne(reg.entries, old(reg.entries)) && fresh(reg.entries[|reg.entries| - 1]) &&
             CreateFood.IsNew(reg.entries[|reg.entries| - 1], x, y, Some(foodQuality as real), None, None, food)) &&
          (!drop ==> out == Declined && currentMoney == old(currentMoney) && reg.entries == old(reg.entries))
      ensures var m := old(reg.EntryIntersects(Money, x, y));
        var e := old(reg.EntryIntersects(Enemy, x, y));
        forall i :: 0 <= i < |old(reg.entries)| && !(BranchOf(y, m, e) == EnemyBranch && e == Some(old(reg.entries[i]))) ==>
          old(reg.entries[i]).hp == old(reg.entries[i].hp)
      ensures old(Valid()) && old(CoinsNonNegative(reg.entries)) ==> Valid()
      ensures old(reg.Valid()) ==> reg.Valid()
    {
      if InMenu(y) {
        var p := Menu(reg, x, swim, hungry, rx, ry);
        return Bought(p);
      }
      var money := reg.EntryIntersects(Money, x, y);
      if money.Some? {
        var moneyQuality := reg.HandleRemoval(money.value);
        currentMoney := currentMoney + moneyQuality;
        return Collected(moneyQuality);
      }
      var enemy := reg.EntryIntersects(Enemy, x, y);
      if enemy.Some? {
        enemy.value.hp := enemy.value.hp - weaponQuality;
        return Struck;
      }
      if reg.CountOfType(Food) < maxFood && currentMoney >= FoodCost {
        currentMoney := currentMoney - FoodCost;
        var pellet := CreateFood.New(x, y, Some(foodQuality as real), None, None, food);
        reg.Push(pellet);
        return Dropped;
      }
      return Declined;
    }
  }

  /** addEnemy(): a new enemy at (1, 10) joins only when the registry holds
      none; afterwards there is at least one. */
  method AddEnemy(reg: Registry, sheet: seq<Image.Sprite>)
    requires |sheet| > 0
    modifies reg
    ensures old(CountOf(reg.entries, Enemy)) == 0 ==>
      AppendedOne(reg.entries, old(reg.entries)) && fresh(reg.entries[|reg.entries| - 1]) &&
      CreateEnemy.IsNew(reg.entries[|reg.entries| - 1], 1.0, 10.0, None, None, sheet)
    ensures old(CountOf(reg.entries, Enemy)) != 0 ==> reg.entries == old(reg.entries)
    ensures CountOf(reg.entries, Enemy) >= 1
    ensures old(reg.Valid()) ==> reg.Valid()
  {
    if reg.CountOfType(Enemy) == 0 {
      var enemy := CreateEnemy.New(1.0, 10.0, None, None, sheet);
      CountOfPush(reg.entries, enemy, Enemy);
      reg.Push(enemy);
    }
  }
}
