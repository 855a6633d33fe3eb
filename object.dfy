/** objects/object.js: the base entity built by createObject, with the parts
    of its behaviour that do not touch the registry: its derived state, the
    clip it shows, the frame clock of `draw`, stepping toward the target and
    the wander rule. The species factories set fields on it and replace
    `update`, `state`, `eat` and `getImage`; without traits, the species
    differences that live on the object are dispatched on `kind`. */
module Objects {
  import opened Wrappers
  import opened Globals
  import Image

  /** The menu band at the top and the floor margin at the bottom. */
  const BarHeight: real := 75.0
  const FloorHeight: real := 40.0
  /** Milliseconds per frame at 60 Hz (1000 / 60). */
  const Fps60: real := 1000.0 / 60.0

  /** The `type` tag: 'fish', 'enemy', 'food', 'money', 'friend',
      'stationary', 'playOnce'. */
  datatype Kind = Fish | Enemy | Food | Money | Friend | Stationary | PlayOnce

  /** One entry of the `image` record: the frames of a sprite sheet with its
      row and column counts ({data, rows, columns}). */
  datatype Clip = Clip(data: seq<Image.Sprite>, rows: nat, columns: nat)

  /** The `image` record: `default`, and `hungry` for the fish. */
  datatype ClipSet = ClipSet(default: Clip, hungry: Option<Clip>)

  /** The object returned by `state()`; a key a species does not define
      reads as `undefined`, which is false here. */
  datatype State = State(mirrored: bool, hungry: bool, starving: bool, dead: bool)

  /** What a call of `draw` did: returned early on a missing delta, threw
      because the frame index names no sprite, drew a frame (mirrored or
      not), or (play-once only) removed the entity. */
  datatype DrawOutcome = Skipped | Threw | Drawn(frame: int, mirrored: bool) | Removed

  function Abs(v: real): real { if v < 0.0 then -v else v }

  /** Math.sign. */
  function Sign(v: real): real { if v > 0.0 then 1.0 else if v < 0.0 then -1.0 else 0.0 }

  /** The distance one call of moveTowardsTarget covers: (delta / fps60) * speed. */
  function StepLength(delta: real, speed: real): real
  {
    (delta / Fps60) * speed
  }

  /** One axis of moveTowardsTarget (object.js:76-77): snap to the target
      when it is within one step, otherwise move one step toward it. */
  function Approach(pos: real, target: real, step: real): (r: real)
    ensures Abs(target - pos) <= step ==> r == target
    ensures Abs(target - pos) > step && target != pos ==> Abs(r - pos) == Abs(step)
    ensures 0.0 <= step ==> Abs(target - r) <= Abs(target - pos)
    ensures 0.0 <= step && pos <= target ==> pos <= r <= target
    ensures 0.0 <= step && target <= pos ==> target <= r <= pos
    ensures 0.0 <= step && Abs(target - pos) > step ==> Abs(target - r) == Abs(target - pos) - step
  {
    if Abs(target - pos) <= step then target else pos + Sign(target - pos) * step
  }

  /** The frame clock of draw (object.js:54,64-65): advance, and go back to
      the first frame of the row `base` once the row's end is reached. */
  function AdvanceFrame(frame: real, advance: real, base: real, columns: nat): (r: real)
    ensures 0 < columns ==> r < base + columns as real
    ensures base <= frame && 0.0 <= advance ==> base <= r
    ensures r == base || r == frame + advance
    ensures frame + advance >= base + columns as real ==> r == base
    ensures frame + advance < base + columns as real ==> r == frame + advance
  {
    var next := frame + advance;
    if next >= base + columns as real then base else next
  }

  /** state().mirrored: x <= Math.round(targetX). It is recomputed on every
      call; nothing remembers an earlier facing. */
  function FacesTarget(x: real, targetX: real): (m: bool)
    ensures m ==> x <= targetX + 0.5
    ensures x + 0.5 <= targetX ==> m
  {
    x <= Round(targetX) as real
  }

  /** The state() of each species (createFish.js:41-49, createEnemy.js:35-42,
      and the plain `mirrored` record of object.js:42-47, createFriend.js:33-38,
      createStationary.js:16-21). */
  function StateOf(kind: Kind, x: real, targetX: real, hp: real): (s: State)
    ensures s.mirrored == FacesTarget(x, targetX)
    ensures kind == Fish ==> (s.hungry <==> hp <= 75.0) && (s.starving <==> hp <= 50.0) && (s.dead <==> hp <= 0.0)
    ensures kind == Enemy ==> (s.hungry <==> hp <= 75.0) && !s.starving && (s.dead <==> hp <= 0.0)
    ensures kind != Fish && kind != Enemy ==> !s.hungry && !s.starving && !s.dead
    ensures s.dead ==> s.hungry
    ensures kind == Fish && s.dead ==> s.starving
    ensures s.starving ==> s.hungry
  {
    var mirrored := FacesTarget(x, targetX);
    match kind
    case Fish => State(mirrored, hp <= 75.0, hp <= 50.0, hp <= 0.0)
    case Enemy => State(mirrored, hp <= 75.0, false, hp <= 0.0)
    case _ => State(mirrored, false, false, false)
  }

  /** eat of the fish and of the enemy: hp += quality, capped at 100. */
  function Fed(hp: real, quality: real): (r: real)
    ensures r <= 100.0 && r <= hp + quality
    ensures r == 100.0 || r == hp + quality
  {
    var sum := hp + quality;
    if sum > 100.0 then 100.0 else sum
  }

  /** hp after n updates that ate nothing, each taking `decay`: the fish
      loses 0.1 per update, the enemy 0.01. */
  function Starved(hp: real, decay: real, n: nat): real
  {
    if n == 0 then hp else Starved(hp, decay, n - 1) - decay
  }

  lemma {:induction false} StarvedIs(hp: real, decay: real, n: nat)
    ensures Starved(hp, decay, n) == hp - n as real * decay
  {
    if n > 0 {
      StarvedIs(hp, decay, n - 1);
    }
  }

  /** The effect of eat(quality) on (hp, moneyAdded). */
  predicate Ate(kind: Kind, hp0: real, added0: real, quality: real, hp1: real, added1: real)
  {
    if kind == Friend then added1 == added0 + quality && hp1 == hp0
    else hp1 == Fed(hp0, quality) && added1 == added0
  }

  /** The species that define `eat`. */
  predicate HasEat(kind: Kind)
  {
    kind == Fish || kind == Enemy || kind == Friend
  }

  /** moveToRandomLocation picks a new target when there is none yet (the
      sentinel -1, -1) or when both axes are within `speed` of it. */
  predicate NeedsNewTarget(x: real, y: real, targetX: real, targetY: real, speed: real)
  {
    (targetX == -1.0 && targetY == -1.0) || (Abs(x - targetX) <= speed && Abs(y - targetY) <= speed)
  }

  /** The size the fish, enemy and money factories pass on: when either
      dimension is undefined, both come from the first sprite. */
  function SizeOrFirstSprite(width: Option<real>, height: Option<real>, sheet: seq<Image.Sprite>): (s: (Option<real>, Option<real>))
    requires width.None? || height.None? ==> |sheet| > 0
    ensures s.0.Some? && s.1.Some?
    ensures width.Some? && height.Some? ==> s == (width, height)
    ensures width.None? || height.None? ==> s.0.value == sheet[0].width as real && s.1.value == sheet[0].height as real
  {
    if width.None? || height.None? then (Some(sheet[0].width as real), Some(sheet[0].height as real))
    else (width, height)
  }

  /** The target after moveToRandomLocation. */
  function RandomTarget(x: real, y: real, targetX: real, targetY: real, speed: real,
                        width: real, height: real, r1: real, r2: real): (t: (real, real))
    requires 0.0 <= r1 < 1.0 && 0.0 <= r2 < 1.0
    ensures !NeedsNewTarget(x, y, targetX, targetY, speed) ==> t == (targetX, targetY)
    ensures NeedsNewTarget(x, y, targetX, targetY, speed) && width < CanvasWidth ==>
      0.0 <= t.0 < CanvasWidth - width
    ensures NeedsNewTarget(x, y, targetX, targetY, speed) && height < CanvasHeight - BarHeight - FloorHeight ==>
      BarHeight <= t.1 < CanvasHeight - FloorHeight - height
  {
    if NeedsNewTarget(x, y, targetX, targetY, speed) then (WanderX(r1, width), WanderY(r2, height))
    else (targetX, targetY)
  }

  /** Math.random() * (canvas.width - width). */
  function WanderX(r: real, width: real): (t: real)
    requires 0.0 <= r < 1.0
    ensures width < CanvasWidth ==> 0.0 <= t < CanvasWidth - width
  {
    var span := CanvasWidth - width;
    if 0.0 < span then ScaledBelow(r, span); r * span
    else r * span
  }

  /** Math.random() * (canvas.height - BAR_HEIGHT - height - FLOOR_HEIGHT) + BAR_HEIGHT. */
  function WanderY(r: real, height: real): (t: real)
    requires 0.0 <= r < 1.0
    ensures height < CanvasHeight - BarHeight - FloorHeight ==>
      BarHeight <= t < CanvasHeight - FloorHeight - height
  {
    var span := CanvasHeight - BarHeight - height - FloorHeight;
    if 0.0 < span then ScaledBelow(r, span); r * span + BarHeight
    else r * span + BarHeight
  }

  /** The object createObject returns, with the fields the species
      factories add. */
  class Entity {
    const kind: Kind
    var x: real
    var y: real
    /** `undefined` (None) for the entities created without a size. */
    var width: Option<real>
    var height: Option<real>
    var image: ClipSet
    var targetX: real
    var targetY: real
    var speed: real
    var currentFrame: real
    var drawFPS: real
    var animationIndex: real
    /** 0-100 per the source's comment; food sets 100 times its argument. */
    var quality: real
    /** Fish and enemy only; the other species never read it. */
    var hp: real
    /** Fish only: grows by 0.5 per update, a coin at 100. */
    var moneyGenerationLevel: real
    /** Set by the fish and money factories, read nowhere. */
    var drawCounter: real
    /** Play-once only; None until its first draw. */
    var previousFrame: Option<real>
    /** Friend only: the total handed to addMoney. */
    var moneyAdded: real

    /** createObject(type, img, x, y, width, height), object.js:14-33. */
    constructor (kind: Kind, image: ClipSet, x: real, y: real, width: Option<real>, height: Option<real>)
      ensures this.kind == kind && this.image == image
      ensures this.x == x && this.y == y && this.width == width && this.height == height
      ensures targetX == -1.0 && targetY == -1.0 && speed == 0.0
      ensures currentFrame == 0.0 && drawFPS == 8.0 && animationIndex == 0.0 && quality == 100.0
      ensures hp == 0.0 && moneyGenerationLevel == 0.0 && drawCounter == 0.0
      ensures previousFrame == None && moneyAdded == 0.0
    {
      this.kind := kind;
      this.image := image;
      this.x, this.y := x, y;
      this.width, this.height := width, height;
      targetX, targetY := -1.0, -1.0;
      speed := 0.0;
      currentFrame := 0.0;
      drawFPS := 8.0;
      animationIndex := 0.0;
      quality := 100.0;
      hp, moneyGenerationLevel, drawCounter := 0.0, 0.0, 0.0;
      previousFrame := None;
      moneyAdded := 0.0;
    }

    function State(): State
      reads this
    {
      StateOf(kind, x, targetX, hp)
    }

    /** A fish carries a hungry clip. */
    predicate HasClips()
      reads this
    {
      kind == Fish ==> image.hungry.Some?
    }

    /** getImage: the fish shows its hungry clip while starving; every other
        entity, and a fish that is not starving, shows the default clip. */
    function GetImage(): (c: Clip)
      requires HasClips()
      reads this
      ensures kind == Fish && State().starving ==> c == image.hungry.value
      ensures !(kind == Fish && State().starving) ==> c == image.default
    {
      if kind == Fish && State().starving then image.hungry.value else image.default
    }

    /** eat(quality): the fish and the enemy gain hp up to 100; the friend
        passes the quality to addMoney. */
    method Eat(quality: real)
      requires HasEat(kind)
      modifies this`hp, this`moneyAdded
      ensures Ate(kind, old(hp), old(moneyAdded), quality, hp, moneyAdded)
    {
      if kind == Friend {
        moneyAdded := moneyAdded + quality;
      } else {
        hp := hp + quality;
        if hp > 100.0 {
          hp := 100.0;
        }
      }
    }

    /** moveTowardsTarget(delta): nothing happens for an undefined or NaN
        delta; otherwise each axis approaches its target on its own. */
    method MoveTowardsTarget(delta: Option<real>)
      modifies this`x, this`y
      ensures delta.None? ==> x == old(x) && y == old(y)
      ensures delta.Some? ==>
        x == Approach(old(x), targetX, StepLength(delta.value, speed)) &&
        y == Approach(old(y), targetY, StepLength(delta.value, speed))
    {
      if delta.None? {
        return;
      }
      var deltaSpeed := StepLength(delta.value, speed);
      x := if Abs(targetX - x) <= deltaSpeed then targetX else x + Sign(targetX - x) * deltaSpeed;
      y := if Abs(targetY - y) <= deltaSpeed then targetY else y + Sign(targetY - y) * deltaSpeed;
    }

    /** moveToRandomLocation: a new random target inside the playfield when
        there is no target yet or the current one is within `speed`. */
    method MoveToRandomLocation(r1: real, r2: real)
      requires 0.0 <= r1 < 1.0 && 0.0 <= r2 < 1.0
      requires width.Some? && height.Some?
      modifies this`targetX, this`targetY
      ensures (targetX, targetY) ==
        RandomTarget(x, y, old(targetX), old(targetY), speed, width.value, height.value, r1, r2)
    {
      var isWithinSpeedDistance := Abs(x - targetX) <= speed && Abs(y - targetY) <= speed;
      var isTargetSetToNegativeOne := targetX == -1.0 && targetY == -1.0;
      if isTargetSetToNegativeOne || isWithinSpeedDistance {
        targetX := WanderX(r1, width.value);
        targetY := WanderY(r2, height.value);
      }
    }

    /** draw(delta): skipped for an undefined or NaN delta; otherwise the
        frame floor(currentFrame) of the current clip is drawn, flipped when
        mirrored, and the clock advances by delta / 1000 * drawFPS. An index
        that names no sprite makes drawImage throw before the clock moves. */
    method Draw(delta: Option<real>) returns (out: DrawOutcome)
      requires HasClips()
      modifies this`currentFrame
      ensures delta.None? ==> out == Skipped && currentFrame == old(currentFrame)
      ensures delta.Some? && !(0 <= old(currentFrame).Floor < |GetImage().data|) ==>
        out == Threw && currentFrame == old(currentFrame)
      ensures delta.Some? && 0 <= old(currentFrame).Floor < |GetImage().data| ==>
        out == Drawn(old(currentFrame).Floor, State().mirrored) &&
        currentFrame == AdvanceFrame(old(currentFrame), delta.value / 1000.0 * drawFPS,
                                     animationIndex * GetImage().columns as real, GetImage().columns)
      ensures delta.Some? && 0 < GetImage().columns ==>
        currentFrame < (animationIndex + 1.0) * GetImage().columns as real || out == Threw
    {
      if delta.None? {
        return Skipped;
      }
      var image := GetImage();
      var baseFrame := animationIndex * image.columns as real;
      var frame := currentFrame.Floor;
      if !(0 <= frame < |image.data|) {
        return Threw;
      }
      out := Drawn(frame, State().mirrored);
      currentFrame := currentFrame + (delta.value / 1000.0) * drawFPS;
      if currentFrame >= baseFrame + image.columns as real {
        currentFrame := baseFrame;
      }
    }
  }
}
