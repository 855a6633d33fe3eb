# Aquarium entity simulation, modelled in Dafny

This project models the simulation core of a small browser aquarium game,
which consists of:

- a shared, ordered registry of entities (`entryArray`), read by two queries:
  point hit-test and nearest-of-type;
- a base entity with position, target, movement, a frame clock and self-removal;
- seven species built on the base entity: fish, enemy, friend, food, money,
  play-once, stationary;
- the player's shop and click economy in `index.js`;
- the asset helpers of `core/image.js`: mask filename derivation, the alpha
  copy loop, sprite-sheet slicing and the two caches.

## How the model is laid out

Each source file is one Dafny module. The exception is the import cycle
between `objects/object.js` and `core/entry.js`, which is broken into three
modules:

- `Objects` holds the entity class and its registry-free methods.
- `Entry` holds the registry, both queries and `handleRemoval`.
- `Actions` holds the behaviours that need both: seek-and-eat, the base
  falling `update`, and the priority chain the fish and the enemy share.

A few choices shape the rest of the model:

- **One entity class.** There is a single `Entity` class with a constant
  `kind`. `state`, `getImage` and `eat` dispatch on the kind. Each species'
  `update` is a method of its own module (`CreateFish.Update` and so on).
- **Inputs become parameters.** `Math.random()` is a parameter `r` with
  `0 <= r < 1`. `delta` is an `Option<real>`, where `None` stands for
  `undefined` or `NaN`.
- **Loaded assets are values.** A decoded image is a `Bitmap` (RGBA bytes).
  The URLs that answer HTTP 200 are a set.
- **Numbers are exact.** Coordinates are `real`. `Math.round(v)` is
  `Floor(v + 0.5)`. Distances are compared squared, and
  `sqrt(d) < r` is stated exactly as `0 <= r && d < r * r`.
- **Undefined sizes are explicit.** `width` and `height` are `Option<real>`,
  because the friend, stationary and play-once factories create entities
  without them.

Points where this revision of the code does not hang together are read as
follows:

- **Clips are records.** `draw` reads a clip record `{data, rows, columns}`.
  The fish, enemy and food factories store a bare sprite array, which has
  neither field. Every clip is modelled as the record, as `createMoney.js`
  and `index.js` build it.
- **Two undefined methods.** `setAnimationIndex` is a plain assignment to
  `animationIndex`. `addMoney` adds to a field `moneyAdded`.
- **Play-once.** `createPlayOnce` is an entity kind with its own `draw`.

Where the code and its documentation differ, the model follows the code:

- **Death is removal.** A fish or an enemy at `hp <= 0` leaves the registry
  on its next update; there is no dying animation.
- **Facing is not sticky.** `mirrored` is recomputed from `x` and `targetX`
  on every call; nothing locks the facing while turning or eating.
- **Frames start at 0.** `currentFrame` starts at 0 whatever the animation
  row. For a row above 0 the counter first climbs from 0 into the row; only
  the upper bound `currentFrame < (animationIndex + 1) * columns` holds after
  every draw.
- **Play-once does not clamp.** A play-once entity does not hold its last
  frame. It removes itself on the draw after its counter wraps.

Behaviour of the code that the model keeps as it is:

- **Fish and enemies never move.** They call `moveTowardsTarget()` without a
  `delta`, so its guard returns at once.
- **A dying fish still ticks.** The update that removes a dead fish still
  decays its hp and advances its coin counter.
- **Removing an absent entity drops the last one.** `handleRemoval` on an
  entity not in the registry splices index -1.
- **Out-of-range frames throw.** `draw` with a frame index that names no
  sprite hands `undefined` to `drawImage`, which throws before the clock
  advances (`DrawOutcome.Threw`).
- **Menu sprites are never drawn.** The menu's button sprites are drawn with
  no `delta` (`index.js:167`), so `draw` skips them.

The queries `findNearestEntry`, `entryIntersects` and the food count are
Dafny functions, so by construction they change nothing. `index.js:19-23`
repeats `randomNumber` of `core/globals.js` character for character;
`Globals.RandomNumber` models both.

## Model

| member | source | states |
|---|---|---|
| Globals.Round | objects/object.js:44 | `Math.round`: the integer r with r <= v + 0.5 < r + 1 |
| Globals.RandomIndex | core/globals.js:31 | floor(r * max) + 1 lies in [1, max] for 0 <= r < 1 (exactly 1 when max = 0) |
| Globals.DecimalString | core/globals.js:33 | the template literal of n: decimal digits only, no leading zero for n > 0, at least two from 10 on, a single digit below 10 (read back by `DecimalRoundTrip`) |
| Globals.DecimalRoundTrip | core/globals.js:33 | reading the decimal string of n back gives n |
| Globals.RandomNumber | core/globals.js:30-34 | "" exactly when the drawn number is 1; otherwise exactly `DecimalString` of the drawn number, which lies in [2, max], has no leading zero and reads back as that number; never "1" (the identical copy at index.js:19-23 included) |
| Globals.ScaledBelow | objects/object.js:84-85 | a random fraction of a positive span lies in [0, span) |
| Image.LastIndexOf | core/image.js:31 | `lastIndexOf`: -1 or a position holding the character |
| Image.NoneAfterLast | core/image.js:31 | no occurrence of the character follows the position `lastIndexOf` returns |
| Image.LastIndexOfIs | core/image.js:36-37 | an occurrence with none after it is the one `lastIndexOf` returns |
| Image.Clamp | core/image.js:31 | `substring` clamps an index into [0, length] |
| Image.SubstringInRange | core/image.js:31 | for in-range ordered indices `substring` is the plain slice |
| Image.Substring | core/image.js:31-37 | `substring`: both indices clamped into [0, length], then swapped when start > end; no ensures of its own, `Clamp` and `SubstringInRange` state its behaviour |
| Image.BaseName | core/image.js:31 | the text between the last '/' and the last '.'; no ensures of its own, `MaskCandidatesOfPath` states it is `name` for `dir/name.ext` |
| Image.MaskBesideExtension | core/image.js:36 | candidate A, `_` inserted before the extension; no ensures of its own, `MaskCandidatesOfPath` states it is `dir/name_.ext` |
| Image.MaskBeforeName | core/image.js:37 | candidate B, `_` inserted before the file name; no ensures of its own, `MaskCandidatesOfPath` states it is `dir/_name.ext` |
| Image.IsMaskName | core/image.js:32 | a non-empty base name starting or ending with `_`; used by `MaskFilename`, whose contract states its effect |
| Image.MaskFilename | core/image.js:30-45 | a base name starting or ending with `_` is its own mask; otherwise candidate A wins over B, and "" exactly when neither exists |
| Image.MaskCandidatesOfPath | core/image.js:31-37 | for `dir/name.ext`, the base name is `name`, A is `dir/name_.ext`, B is `dir/_name.ext` |
| Image.PathSeparators | core/image.js:31-37 | in `dir/name.ext` the last '/' follows `dir` and the last '.' follows `name` |
| Image.PathCharacters | core/image.js:31-37 | the characters at and after the two separators of `dir/name.ext` |
| Image.PathSlices | core/image.js:36-37 | the slices of `dir/name.ext` around its separators |
| Image.ReflectionIsItsOwnMask | index.js:119 | `${DATA_PATH}/images/_MBREFLECTION.gif` is its own mask for any data path, whatever files exist |
| Image.AlphaMasked | core/image.js:61-63 | the masked buffer has the length of the original |
| Image.AlphaMaskedAt | core/image.js:61-63 | byte k of the result is mask[k-3] when k % 4 = 3, the original byte otherwise |
| Image.CopyAlpha | core/image.js:61-63 | the in-place loop leaves exactly `AlphaMasked` of the old buffer; bytes off the alpha channel are unchanged |
| Image.CellInGrid | core/image.js:82-83 | the row-major index row * w + col of a cell visited by the nested loops lies inside the w by h grid |
| Image.PixelIndexInRange | core/image.js:58-59 | the ImageData layout: byte c of pixel (px, py), at (py * w + px) * 4 + c, lies inside the 4 * w * h bytes read back |
| Image.Overlay | core/image.js:58-59 | drawing the mask over the canvas keeps the canvas size |
| Image.OverlaySameSize | core/image.js:58-59 | a mask of the image's own size is read back unchanged |
| Image.SpriteAt | core/image.js:79-88 | sprite (row, col) is cropped at (col*w, row*h) with w = width/cols, h = height/rows; its canvas size is w, h truncated |
| Image.RowMajor | core/image.js:82-89 | the push order of the row-outer, column-inner loops: position r * n + c of the sheet belongs to row r, column c |
| Image.Sheet | core/image.js:76-94 | a sheet has rowCount * colCount sprites |
| Image.SheetAt | core/image.js:82-91 | sprite r*colCount + c of the sheet is `SpriteAt(r, c)` |
| Image.SliceSheet | core/image.js:76-94 | the nested loops push exactly `Sheet`, in row-major order |
| Image.Loader.constructor | core/image.js:8 | both caches start empty |
| Image.Loader.LoadImage | core/image.js:7-19 | a cached filename returns its stored entry; otherwise the decoded file is stored and returned; the cache stays faithful |
| Image.Loader.MaskedImage | core/image.js:26-68 | the masked image keeps the size and all non-alpha bytes; without a mask it is the image itself |
| Image.Loader.ApplyAlphaMask | core/image.js:26-68 | returns `MaskedImage`; caches the image and, if any, the mask file |
| Image.Loader.LoadSpriteSheet | core/image.js:102-109 | cached by filename alone, with both caches untouched on a hit; otherwise slices the masked image, stores the sheet, and the image cache gains exactly the file and its mask |
| Objects.Approach | objects/object.js:73-78 | one axis snaps to the target within one step; otherwise it moves exactly one step toward it, never past it; the distance shrinks by the step |
| Objects.AdvanceFrame | objects/object.js:54-65 | the counter advances by exactly `advance` while it stays below `base + columns`, and resets to exactly the row base once it reaches it; it never reaches `base + columns` |
| Objects.FacesTarget | objects/object.js:44 | `x <= round(targetX)`, bracketed by targetX +- 0.5 |
| Objects.StateOf | objects/createFish.js:41-49 | fish: hungry iff hp <= 75, starving iff hp <= 50, dead iff hp <= 0, so dead implies starving implies hungry; enemy (createEnemy.js:35-42): hungry iff hp <= 75, dead iff hp <= 0, never starving; other kinds only report `mirrored` |
| Objects.Entity.State | objects/object.js:42-47 | the entity's `state` getter: `StateOf` of its kind, x, targetX and hp; no ensures of its own, `StateOf` states the thresholds |
| Objects.Fed | objects/createFish.js:38-39 | hp after eating is min(hp + quality, 100) |
| Objects.Starved | objects/createFish.js:61 | hp after n updates that eat nothing, one decay subtracted per update; no ensures of its own, `StarvedIs` gives its closed form |
| Objects.StarvedIs | objects/createFish.js:61 | n updates that eat nothing take exactly n times the decay from hp: 0.1 for the fish, 0.01 for the enemy (createEnemy.js:53) |
| Objects.SizeOrFirstSprite | objects/createFish.js:27-30 | if either dimension is undefined both come from the first sprite; given sizes are kept |
| Objects.RandomTarget | objects/object.js:79-87 | no retarget unless the sentinel or both axes within `speed`; a new target lies in [0, 640-width) x [75, 440-height) |
| Objects.WanderX | objects/object.js:84 | `Math.random() * (640 - width)` lies in [0, 640-width) |
| Objects.WanderY | objects/object.js:85 | `Math.random() * (365 - height) + 75` lies in [75, 440-height) |
| Objects.Entity.constructor | objects/object.js:14-33 | target (-1, -1), speed 0, frame 0, drawFPS 8, row 0, quality 100 |
| Objects.Entity.GetImage | objects/createFish.js:72-76 | the hungry clip iff a starving fish, the default clip for every other entity |
| Objects.Entity.Eat | objects/createFish.js:36-40 | fish and enemy: hp := min(hp + quality, 100); friend: quality handed to addMoney, hp untouched |
| Objects.Entity.MoveTowardsTarget | objects/object.js:73-78 | no change for an undefined or NaN delta; otherwise each axis approaches its target on its own by (delta/fps60)*speed |
| Objects.Entity.MoveToRandomLocation | objects/object.js:79-87 | the target becomes `RandomTarget` of the old one |
| Objects.Entity.Draw | objects/object.js:51-66 | skipped for an undefined delta; throws for a frame with no sprite; else draws frame floor(currentFrame) with the `mirrored` flip and advances by `AdvanceFrame` |
| Entry.SquaredOrder | core/entry.js:40-41 | comparing distances is comparing squared distances |
| Entry.WithinRadiusOfDistance | objects/object.js:99 | `distance < radius` is exactly `WithinRadius` of the squared distance |
| Entry.NearestIn | core/entry.js:35-48 | the loop of `findNearestEntry` over a registry prefix; no ensures of its own, `NearestNotFound` and `NearestFound` state what it returns |
| Entry.NearestNotFound | core/entry.js:35-48 | the result is `{entry: null}` iff no entry has the type |
| Entry.NearestFound | core/entry.js:38-47 | the found entry has the type and the returned distance; every entry of the type is at least as far; every earlier one is strictly farther |
| Entry.FirstHitSpec | core/entry.js:13-26 | a miss iff no entry of the type strictly contains the point; a hit is the first such entry in registry order |
| Entry.FirstHit | core/entry.js:13-26 | the loop of `entryIntersects`; no ensures of its own, `FirstHitSpec` and `BorderNeverHits` state what it returns |
| Entry.BorderNeverHits | core/entry.js:17-18 | a hit lies strictly inside the hit entity's box, so a point on any of its four edges never hits it |
| Entry.IndexOf | objects/object.js:69 | `indexOf`: the first position of v or -1 exactly when absent |
| Entry.SpliceOne | objects/object.js:69 | `splice(start, 1)` with JavaScript's negative-start rule; no ensures of its own, `DropOne` and `RemovalOfAbsent` state its effect |
| Entry.AfterRemoval | objects/object.js:69 | `splice(indexOf(v), 1)`; no ensures of its own, `RemovalOfMember`, `RemovalOfAbsent` and `RemovalKeepsDistinct` state its effect |
| Entry.RemovalOfMember | objects/object.js:69 | for a member: the first occurrence is cut out, others keep their order, one copy fewer |
| Entry.DropOne | objects/object.js:69 | `splice(i, 1)` for an index in range removes exactly that element |
| Entry.RemovalOfAbsent | objects/object.js:69 | for an absent entity the last entry is removed |
| Entry.RemovalKeepsDistinct | objects/object.js:69 | removal keeps a duplicate-free registry duplicate-free and leaves the entity out of it |
| Entry.CountOf | index.js:85 | the filtered length is 0 iff no entry has the type, and at most the registry's length |
| Entry.CountOfPush | index.js:104 | a push adds one to the count of the pushed entity's type only |
| Entry.Registry.constructor | core/entry.js:4 | the registry starts empty |
| Entry.Registry.FindNearestEntry | core/entry.js:35-48 | `NearestIn` of `entries`: not found iff no entry has the type; a found entry is a member of the type at the returned squared distance, and no entry of the type is nearer (from `NearestNotFound`, `NearestFound`) |
| Entry.Registry.EntryIntersects | core/entry.js:13-26 | `FirstHit` of `entries`: a miss iff no entry of the type strictly contains the point; a hit is a member of the type that contains it (from `FirstHitSpec`) |
| Entry.Registry.CountOfType | index.js:85 | `CountOf` of `entries`: 0 iff no entry has the type, and at most the registry's length |
| Entry.Registry.Push | index.js:45 | `push` appends; a new entity keeps the registry duplicate-free |
| Entry.Registry.HandleRemoval | objects/object.js:68-71 | splices at `indexOf(this)` and returns `quality`; afterwards the entity is gone from a duplicate-free registry |
| Actions.MoveTowardsNearestEntry | objects/object.js:88-106 | true iff a nearest entry exists within the radius; then it is removed once and eaten with its quality; the target is its position whenever it exists, unchanged otherwise |
| Actions.SeekOrWander | objects/createFish.js:55-56 | seek first; wander from the aimed target only when nothing was eaten |
| Actions.FallUpdate | objects/object.js:34-40 | y grows by delta/fps60; removed iff the new y >= 440 |
| Actions.PlanOf | objects/createFish.js:51-59 | dead wins over hungry, hungry over wandering |
| Actions.Forage | objects/createFish.js:51-59 | dead: removes itself, target untouched; hungry: seek the prey within 50, else wander; otherwise wander |
| CreateFish.New | objects/createFish.js:18-35 | hp 100, speed 2, coin counter 0, drawCounter 0, both clips as 5 x 10 records |
| CreateFish.MoneyStep | objects/createFish.js:63-70 | a coin exactly when the counter plus 0.5 reaches 100; the counter stays below 100 |
| CreateFish.LevelAfter | objects/createFish.js:63-70 | the coin counter after n updates from 0; no ensures of its own, `LevelAfterIs` and `SpawnsEvery200` give its closed form |
| CreateFish.LevelAfterIs | objects/createFish.js:63-70 | after n updates the counter is (n mod 200) * 0.5 |
| CreateFish.SpawnsEvery200 | objects/createFish.js:63-70 | starting from 0, update n drops a coin iff n is a multiple of 200 |
| CreateFish.Lifetime | objects/createFish.js:41-49 | a new fish that never eats is hungry from update 250, starving from 500, dead from 1000 |
| CreateFish.Update | objects/createFish.js:50-71 | the priority chain on food; hp - 0.1 and counter + 0.5 on every call, removal tick included; one coin at the fish's position when due; x and y unchanged |
| CreateEnemy.New | objects/createEnemy.js:16-29 | speed 3, hp 100, a 2 x 10 clip |
| CreateEnemy.Lifetime | objects/createEnemy.js:35-42 | a new enemy that never eats is hungry from update 2500 and dead from 10000, never starving |
| CreateEnemy.Update | objects/createEnemy.js:43-54 | the priority chain on fish within 50; hp - 0.01; x and y unchanged |
| CreateFriend.SizeAsWritten | objects/createFriend.js:26 | the friend is created with no width or height |
| CreateFriend.Size | objects/createFriend.js:22-26 | the corrected size is the first sprite's, as the other factories derive it |
| CreateFriend.AsWrittenHasNoSize | objects/createFriend.js:26 | the friend's size as written is undefined in both dimensions, unlike the first sprite's |
| CreateFriend.WanderTargetInPlayfield | objects/object.js:84-85 | with the sprite's size a new friend's first wander target lies in the playfield |
| CreateFriend.NewAsWritten | objects/createFriend.js:18-28 | row 0, speed 2, no size |
| CreateFriend.New | objects/createFriend.js:18-28 | row 0, speed 2, the first sprite's size |
| CreateFriend.Update | objects/createFriend.js:39-44 | harvest the nearest coin within 50 into addMoney, wander only if none was taken, then move by delta |
| CreateFood.SizeOrEachFromSprite | objects/createFood.js:23-24 | `??=`: each missing dimension falls back to the first sprite's on its own |
| CreateFood.SizeDefaultsDiffer | objects/createFood.js:23-24 | the food rule and the fish, enemy and money rule differ only when exactly one dimension is given |
| CreateFood.New | objects/createFood.js:15-31 | quality 100 * argument (default 1); animation row argument - 1; a 5 x 10 clip |
| CreateMoney.New | objects/createMoney.js:15-34 | the clip record {data, 5, 10}; quality 100; drawCounter 0 |
| CreatePlayOnce.New | objects/createPlayOnce.js:10-14 | drawFPS 60, row 0, no previous frame yet |
| CreatePlayOnce.Draw | objects/createPlayOnce.js:16-26 | the first draw takes the current frame as previous; removes itself iff previous > current; else remembers the frame and draws as the base entity |
| CreatePlayOnce.NextDrawRemoves | objects/createPlayOnce.js:20-24 | the draw after a wrap removes the entity iff the counter reset to a base below the previous frame |
| CreatePlayOnce.Update | objects/createPlayOnce.js:28 | update changes nothing |
| CreateStationary.New | objects/createStationary.js:13-15 | no size; animation row quality/100 - 1 = 0 |
| CreateStationary.MirroredAtSentinel | objects/createStationary.js:16-21 | with the sentinel target -1 the entity is mirrored iff x <= -1; never hungry or dead |
| CreateStationary.Update | objects/createStationary.js:22 | update changes nothing |
| Game.OnlyFirstThreeFire | index.js:16-41 | a button fires only when enabled and x is on its 73 pixels, so buttons 3 to 6 never fire |
| Game.MenuKeepsRange | index.js:43-53 | a purchase is affordable and below its cap, so money stays >= 0, food quality in [1, 3], the food limit in [1, 10]; a click beside every button buys nothing |
| Game.OverlapNeverUpgradesFood | index.js:41-50 | on 88 <= x <= 91 both buttons are hit, fish is tried first, and the food upgrade is never bought there |
| Game.MenuChoice | index.js:43-63 | the first button whose x range is hit and whose cost and cap allow it; no ensures of its own, `MenuKeepsRange` and `OverlapNeverUpgradesFood` state its properties |
| Game.BranchAsWritten | index.js:67-90 | the branch the click handler takes as written: menu for 4 <= y <= 63, else the coin branch always; no ensures of its own, `AsWrittenNeverFeeds` states it |
| Game.BranchOf | index.js:67-90 | the corrected branch: menu, else coin, else enemy, else food; no ensures of its own, `BranchCases` states it |
| Game.AsWrittenNeverFeeds | index.js:69 | as written no click strikes the enemy or drops food |
| Game.BranchCases | index.js:67-90 | the corrected chain takes each branch exactly where it belongs |
| Game.Shop.constructor | index.js:12-15 | money 300, weapon 30, food limit 1, food quality 1 |
| Game.Shop.Menu | index.js:37-65 | at most one purchase, the one `MenuChoice` picks, with its cost paid; a fish at a random spot for button 0 |
| Game.Shop.HandleClickAsWritten | index.js:24-74 | menu as `Menu`, the fish pushed or the registry unchanged; below it, a coin under the cursor is collected, and a miss throws with no change |
| Game.Shop.HandleClick | index.js:24-91 | menu as `Menu`, the fish pushed or the registry unchanged; else coin collected; else the enemy under the cursor loses weaponQuality hp and no other entry's hp changes; else a pellet is dropped when fewer than maxFood exist and 25 can be paid |
| Game.AddEnemy | index.js:102-106 | an enemy at (1, 10) is pushed iff none exists; afterwards at least one does |

## Left out

- Sound (`core/sound.js`, every `playSound` and `playMusic`): it only
  requests a sound from an external library.
- `core/beizerMovement.js`: no modelled file imports it. It is debug pixel
  drawing and floating-point polynomial evaluation.
- Canvas rendering: `drawImage`, `save`, `scale`, `restore`, the HUD and
  text, and canvas creation. Only the chosen frame index and flip flag are
  modelled.
- `getImageData` and `putImageData`: images are byte sequences, and the mask
  read-back is an opaque overlay at (0, 0).
- `fetch` (`urlExists`): existence is the set `existing`.
- `Image.onload` and `onerror`: decoding is the total function `decode`, so
  a rejected load is not modelled.
- The driver loop, timers and events: `requestAnimationFrame`, `setTimeout`,
  the event listeners, the empty key handler, the initial stocking of ten
  fish, and the `forEach` over a registry that shrinks while it is visited.
  The driver passes a timestamp, not a delta; the model takes any delta.
- Console logging (`index.js:56-62,80`).
- Floating-point rounding: all arithmetic is exact. `NaN` and `Infinity`
  appear only as the `None` of an optional delta and as `Nearest.NotFound`.
- Actions.FallUpdate: takes a numeric delta. An undefined delta (which would
  make `y` NaN and keep the entity) is not representable here.
- Objects.Entity.MoveToRandomLocation: requires a width and a height. The
  NaN target that an entity without a size would get is treated as a finding
  for the friend. The stationary and play-once entities never wander.
- CreateFish.Update: the coin is pushed at once. In the source it is pushed
  after an `await`, so other entries may land before it.
- Game.Shop.Menu and Game.Shop.HandleClick: the new fish or pellet is
  pushed at once, for the same `await` reason.
- Image.Loader.LoadImage and Image.Loader.LoadSpriteSheet: the caches never
  see two loads of one file in flight. `loadImage` caches a promise; here it
  caches the decoded image.
- The default `rowCount`/`colCount` of 1 in `loadSpriteSheet`: every caller
  passes both.

## Findings

| source | as written | input that shows it | evidently intended | confidence | as-written member | corrected member |
|---|---|---|---|---|---|---|
| index.js:69 | `money !== -1` tests the result of `entryIntersects`, which reports a miss as `{}`, never as -1 | a click at y = 100 with no coin under it: `{}.handleRemoval()` throws, so no enemy is struck and no food is dropped, ever | treat `{}` as a miss, so the enemy branch and then the food branch are reached | not executed | Game.Shop.HandleClickAsWritten | Game.Shop.HandleClick |
| objects/createFriend.js:26 | `createObject('friend', img, x, y)` passes no width or height | any new friend: its first wander target is `Math.random() * (640 - undefined)`, which is NaN | take the first sprite's size, as the fish, enemy and money factories do | not executed | CreateFriend.NewAsWritten | CreateFriend.New |

`Game.AsWrittenNeverFeeds` proves the first finding for every click.
`Game.BranchCases` proves that the corrected chain reaches every branch.
`CreateFriend.AsWrittenHasNoSize` shows the friend's size as
written. `CreateFriend.WanderTargetInPlayfield` proves that with the
corrected size the first wander target lies in the playfield.
