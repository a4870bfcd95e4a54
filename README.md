# Asteroids simulation core in Dafny

This project models the simulation core of `asteriods.py`, a CodeSkulptor Asteroids game. The
game's drawing, sound and window set-up are not modelled. What remains is a small, single-threaded
state machine driven by four callbacks, each modelled as one method call:

- **The draw handler, once per frame** (`Session.Game.Tick`). The ship moves. Every rock and every
  missile is updated once and the expired ones are pruned. Missiles are collided against rocks,
  and each missile removed scores one point. Rocks are collided against the ship, and each rock
  removed costs one life. Out of lives, the game returns to the splash screen and the rocks are
  cleared.
- **The rock spawner timer** (`Session.Game.RockSpawner`). While a game runs, it adds one rock when
  fewer than 20 are on the field and the candidate is at least 100 away from the ship.
- **The mouse click handler** (`Session.Game.Click`). A click inside the splash image starts a game
  and resets the score.
- **The key handlers** (`Session.Game.Keydown`, `Session.Game.Keyup`). They turn the ship, switch
  the engine on and off, and fire missiles.

## Modules

- **`Geometry`** (`geometry.dfy`):
  - the 800 x 600 field and the toroidal wrap;
  - the collision test. It is stated on squared distances. Lemmas show it agrees with
    `dist(p, q) < r1 + r2` for the true real-valued distance.
- **`Assets`** (`assets.dfy`): image descriptors. A missing or zero lifespan becomes `Infinite`.
- **`Sprites`** (`sprites.dfy`): the class `Sprite` (rocks and missiles), whose `Update` changes
  the sprite in place. The pure function `Advance` specifies that update.
- **`Groups`** (`groups.dfy`):
  - the class `Group`, a mutable `set<Sprite>` shared by reference;
  - the three group passes (`process_sprite_group`, `group_collide`, `group_group_collide`). Each
    walks a snapshot of the group while it removes members from the live set.
  - The missile pass is specified by `Pass`, a function of the order in which the rocks are
    visited. The lemmas about `Pass` state which rocks and missiles go and what is scored.
- **`Ships`** (`ships.dfy`): the class `Ship` with its update, key, thrust and shoot methods.
- **`Session`** (`session.dfy`):
  - the class `Game`, which holds the global counters `score`, `high_score`, `lives` and
    `started`, and the ship and the two groups;
  - the pure functions that specify its accounting: `TickBoard`, `GameOverAsWritten` and
    `Clicked`.

## Representation choices

- Positions, velocities and radii are integers.
- Angles and turning rates are integers in units of 0.05 radian, so a key press changes the
  turning rate by exactly 1.
- Python's `float('inf')` lifespan is the constructor `Infinite`.
- Python's `%` with a positive modulus is Dafny's `%`. Both give the representative in
  `[0, size)`.
- A turning key adds ±0.05 to the current turning rate rather than setting it
  (asteriods.py:139-143). So two presses without a release turn twice as fast.
  `Ships.Ship.KeydownLeft` and `Ships.Ship.KeydownRight` model the addition.
- Game over resets the lives and records the high score inside the loop that clears the rocks
  (asteriods.py:249-255). So both happen only when at least one rock is left; see "## Findings".

## Model

| member | source | states |
|---|---|---|
| Geometry.Wrap | asteriods.py:193-194 | Python's `c % size` for a positive size lies in [0, size) and leaves an in-range coordinate unchanged |
| Geometry.WrapPos | asteriods.py:193-194 | the wrapped position lies on the field and differs from the unwrapped one by whole multiples of WIDTH and HEIGHT |
| Geometry.DistSq | asteriods.py:97-98 | the squared distance between two centres is never negative |
| Geometry.Collides | asteriods.py:205-211 | two circles overlap iff the squared distance between the centres is below the squared sum of the radii, and never when that sum is not positive; CollidesIffCloserThanRadii proves this is `dist < r1 + r2` |
| Geometry.FarEnough | asteriods.py:275 | the candidate is at least the bound away, written on squares; FarEnoughIffDistance proves this is `dist >= bound` |
| Geometry.CollidesIffCloserThanRadii | asteriods.py:205-211 | for the true distance d between the centres, the squared test holds iff d < r1 + r2; so a distance equal to the sum of the radii is no collision |
| Geometry.FarEnoughIffDistance | asteriods.py:275 | for the true distance d, the squared spawn test holds iff d >= the bound |
| Geometry.CollidesSymmetric | asteriods.py:205-211 | collision does not depend on which of the two objects asks |
| Assets.NewImageInfo | asteriods.py:28-37 | the lifespan is Infinite iff it was missing or 0; otherwise the given value is kept; the other fields are stored as given |
| Assets.FalsyLifespanNeverExpires | asteriods.py:33-36 | a sprite whose descriptor had a missing or zero lifespan never expires, at any age |
| Assets.Expired | asteriods.py:200-203 | a sprite has expired iff its age has reached a finite lifespan; an infinite lifespan is never reached |
| Assets.SplashInfo | asteriods.py:67 | the splash descriptor: centre (200, 150), size 400 x 300, radius 0, infinite lifespan |
| Assets.ShipInfo | asteriods.py:71 | the ship descriptor: centre (45, 45), size 90 x 90, radius 35, infinite lifespan |
| Assets.MissileInfo | asteriods.py:75 | the missile descriptor: centre (5, 5), size 10 x 10, radius 3, lifespan 50 |
| Assets.AsteroidInfo | asteriods.py:79 | the rock descriptor: centre (45, 45), size 90 x 90, radius 40, infinite lifespan |
| Assets.DescriptorsAsDeclared | asteriods.py:67-79 | the splash is 400 x 300; the ship has radius 35 and the rock radius 40, both never expiring; the missile has radius 3 and lifespan 50 |
| Sprites.Advance | asteriods.py:192-198 | one update leaves the position on the field, congruent to position + velocity; the angle grows by the turning rate; the age grows by exactly 1; the velocities are unchanged |
| Sprites.AgeAfterUpdates | asteriods.py:198 | after k updates the age has grown by exactly k, and after at least one the sprite is on the field |
| Sprites.ExpiryOnUpdate | asteriods.py:198-203 | a sprite built at age 0 reports expiry on its k-th update iff its lifespan is finite and k has reached it |
| Sprites.MissileExpiresOnFiftiethUpdate | asteriods.py:198-203 | a missile (lifespan 50) does not report expiry on updates 1 to 49 and does on the 50th |
| Sprites.Sprite.constructor | asteriods.py:173-184 | a new sprite has age 0, the given motion, and the descriptor's radius and lifespan |
| Sprites.Sprite.Update | asteriods.py:192-203 | the sprite's new state is Advance of the old one; the result is true iff the new age has reached the lifespan |
| Sprites.Sprite.CollidesWith | asteriods.py:205-211 | `collide`: the sprite overlaps the other object iff Geometry.Collides holds for the two centres and radii |
| Groups.Group.Add | asteriods.py:169 | the group afterwards is the old group plus the new member |
| Groups.Group.Remove | asteriods.py:281 | removes exactly one member, which must be present as Python's set.remove demands |
| Groups.HitBy | asteriods.py:287-288 | the members that overlap the other object, and only those |
| Groups.EnumeratesIff | asteriods.py:295 | walking a snapshot visits every rock exactly once: the order has no repeats and lists exactly the group |
| Groups.NextBodies | asteriods.py:193-194 | records, for every rock and missile, its position after its next update and its radius |
| Groups.Survivors | asteriods.py:279-281 | a member survives its next update iff its age after that update has not reached its lifespan |
| Groups.HitIn | asteriods.py:287-288 | the members whose recorded bodies overlap the other body, and only those |
| Groups.HitByMatchesSnapshot | asteriods.py:297 | on sprites whose positions are recorded, the live collision test and the recorded one pick the same members |
| Groups.Pass | asteriods.py:293-303 | the missile pass removes only missiles that were present and only rocks that were visited |
| Groups.PassStep | asteriods.py:295-300 | one more rock in the order is one more turn: it takes the missiles still present that it overlaps, and goes itself iff it took any |
| Groups.PassCountsRemovedMissiles | asteriods.py:293-303 | the pass returns the number of missiles it removed, so a missile overlapping several rocks scores once |
| Groups.CollideCountIsSizeDrop | asteriods.py:285-291 | the number group_collide returns is the old size of the group minus its new size |
| Groups.RockRemovedIffHitOnItsTurn | asteriods.py:295-299 | a rock is removed iff at least one missile still present on its turn overlaps it; the missiles present on its turn are those the earlier rocks left |
| Groups.SurvivingRocksMissSurvivingMissiles | asteriods.py:295-299 | a rock that stays overlaps none of the missiles that stay |
| Groups.RemovedMissileHitRemovedRock | asteriods.py:297-299 | every missile removed overlaps some rock that was removed |
| Groups.OneMissileTwoRocks | asteriods.py:295-300 | one missile overlapping two rocks is taken by the rock visited first; only that rock goes, and one point is scored |
| Groups.TwoMissilesOneRock | asteriods.py:295-300 | every missile a rock overlaps is removed on its turn, not only the first, and each one scores |
| Groups.ProcessSpriteGroup | asteriods.py:278-283 | every member of the snapshot is updated exactly once; the group afterwards is exactly the members whose update did not report expiry; nothing is added |
| Groups.GroupCollide | asteriods.py:285-291 | removes exactly the members that overlap the other object and returns how many; the members that do not overlap stay |
| Groups.GroupGroupCollide | asteriods.py:293-303 | for the order in which the snapshot was walked, the rocks removed, the missiles left and the count returned are those of Pass |
| Ships.Ship.constructor | asteriods.py:103-113 | the ship starts with the given position, velocity and angle, no turning, no thrust, and the descriptor's frame and radius |
| Ships.Ship.Update | asteriods.py:121-125 | the ship moves by its velocity onto the wrapped field and turns by its turning rate; the new velocity is the one supplied |
| Ships.Ship.KeydownLeft | asteriods.py:139-140 | the turning rate decreases by one unit of 0.05 radian |
| Ships.Ship.KeydownRight | asteriods.py:142-143 | the turning rate increases by one unit of 0.05 radian |
| Ships.Ship.KeyupLeft | asteriods.py:145-146 | the turning rate becomes 0 |
| Ships.Ship.KeyupRight | asteriods.py:148-149 | the turning rate becomes 0 |
| Ships.Ship.Thruston | asteriods.py:151-153 | thrust is on and the frame centre moves 90 right; from a matching frame with the engine off, the frame shows the flame |
| Ships.Ship.Thrustoff | asteriods.py:156-158 | thrust is off and the frame centre moves 90 left; from a matching frame with the engine on, the plain frame is back |
| Ships.Ship.Shoot | asteriods.py:161-169 | adds exactly one new missile, 45 forward vectors ahead of the ship and 4 forward vectors faster, at the ship's angle, with radius 3 and lifespan 50 |
| Session.InsideSplash | asteriods.py:323-326 | a click is inside the splash image iff 200 < x < 600 and 150 < y < 450, bounds excluded |
| Session.Clicked | asteriods.py:321-329 | a click starts a game with score 0 iff no game runs and it lands inside the splash image; otherwise nothing changes; lives and high score are never touched |
| Session.GameOverAsWritten | asteriods.py:247-255 | with lives left nothing changes; otherwise the game stops; the lives become 3 and the high score max(high score, score) iff a rock was left to clear; the score is kept |
| Session.GameOverIntended | asteriods.py:247-255 | the corrected rule: out of lives, the game stops, the lives become 3 and the high score becomes max(high score, score), whether or not rocks are left |
| Session.GameOverAgreesWhenRocksLeft | asteriods.py:249-255 | the rule as written and the corrected rule agree whenever a rock is left to clear |
| Session.LastRockTakesLastLife | asteriods.py:244-255 | a ship losing its last life to the last rock on the field ends the game with 0 lives and the high score not recorded |
| Session.RestartWithoutLivesEndsAtOnce | asteriods.py:247-255 | a game restarted from such a state stops again at the end of its first tick |
| Session.RestartAfterIntendedGameOverPlays | asteriods.py:247-255 | under the corrected rule a restarted game survives a tick without crashes |
| Session.TickBoard | asteriods.py:242-255 | the score grows by the points, the high score never drops, a stopped game stays stopped, and with lives left the lives drop by the crashes |
| Session.ScoreOnlyGrowsOverTicks | asteriods.py:243-252 | over any run of ticks without a click, neither the score nor the high score goes down; game over does not reset the score |
| Session.SpawnAccepted | asteriods.py:266-275 | the spawner keeps its rock iff a game runs, fewer than 20 rocks are on the field and the candidate is at least 100 from the ship |
| Session.SpawnAcceptedIffFarFromShip | asteriods.py:264-276 | for the true distance d, a rock is spawned iff a game runs, fewer than 20 rocks are on the field and d >= 100 |
| Session.SpawnKeepsCap | asteriods.py:273-276 | a group of at most 20 rocks still holds at most 20 after the spawner |
| Session.ConsistentAfterRemoval | asteriods.py:247-250 | rocks and missiles stay disjoint, at most 20 rocks, and none on the splash screen, across any step that only removes sprites and clears the rocks when the game stops |
| Session.Game.constructor | asteriods.py:19-25 | the program starts on the splash screen with score 0, high score 0, 3 lives, no rocks or missiles (lines 19-25), and with the ship built at line 336: at rest in the middle of the field, showing its plain frame |
| Session.Game.CheckGameOver | asteriods.py:247-255 | the counters after the step are GameOverAsWritten of those before; out of lives the rocks are cleared; no sprite moves |
| Session.Game.Move | asteriods.py:234-240 | the ship moves and turns once; every rock and missile is updated once; the groups become the survivors of that update |
| Session.Game.AgeSprites | asteriods.py:239-240 | every rock and missile is updated once and the groups become the survivors; the groups stay consistent |
| Session.Game.ScoreHits | asteriods.py:242-243 | the rocks and missiles left are those of Pass for the order the rocks were visited in, and the score grows by the pass's count |
| Session.Game.CrashShip | asteriods.py:244-245 | exactly the rocks overlapping the ship are removed, and the lives drop by their number |
| Session.Game.CrashAndCheck | asteriods.py:244-255 | after the missile pass, the ship pass and the game-over step leave the counters at TickBoard and clear the rocks iff the lives ran out |
| Session.Game.Collide | asteriods.py:242-255 | the missile pass, then the ship pass, then game over: the rocks, missiles and counters are those that Pass, HitIn and TickBoard give |
| Session.Game.Tick | asteriods.py:234-255 | one frame: expiry is settled first, then the missile pass and the ship pass run on the updated positions, and the counters become TickBoard of the old ones; the game stays consistent |
| Session.Game.RockSpawner | asteriods.py:264-276 | adds one new infinite-lived rock with the drawn motion iff SpawnAccepted; otherwise the group is unchanged; at most 20 rocks stay on the field |
| Session.Game.Click | asteriods.py:321-330 | the counters after the click are Clicked of those before |
| Session.Game.Keydown | asteriods.py:304-312 | left and right change the turning rate by one unit; up turns the engine on; space fires exactly one missile, 45 forward vectors ahead of the ship, 4 forward vectors faster, at the ship's angle; any other key changes nothing |
| Session.Game.Keyup | asteriods.py:313-319 | releasing left or right stops the turn; releasing up turns the engine off; any other key changes nothing |

## Left out

- **Drawing.** The `draw` methods, `canvas.draw_image`/`draw_text`, the HUD and the splash overlay
  are presentation only (asteriods.py:117-119, 189-190, 214-232, 257-261).
- **Background scrolling.** The `time` counter and the background offset only place the background.
- **Sound.** `rewind`, `play`, `pause` and `set_volume` have no state the core reads.
- **Loading.** Image and sound loading from URLs has no state the core reads.
- **Host set-up.** Frame and timer creation and handler registration are glue. Each callback is
  one method call, and the calls run one after another.
- **Ship physics.** Friction and thrust acceleration are floating point. `Ships.Ship.Update` takes
  the resulting velocity as the parameter `nextVel`.
- **Headings.** `angle_to_vector` and the ship's stored `forward_vector` are trigonometry.
  `Ships.Ship.Shoot` and `Session.Game.Keydown` take the forward vector as the parameter `forward`.
- **Fractional values.** The game keeps positions, velocities and angles as floats. Rocks drift by
  fractions of a pixel per frame. The model uses integers, so it does not capture rounding or
  sub-pixel motion.
- **Randomness.** The spawner's random position, velocity and turning rate are the parameters of
  `Session.Game.RockSpawner`.
- **Spawner side effect.** The spawner builds the candidate rock even when it rejects it. The
  rejected rock is unreachable, and the model does not return it.
- **Ships.Ship.Thruston.** Python's `image_center` is the same list as the ship descriptor's
  centre, so the shift also changes that descriptor. Nothing else reads the descriptor's centre,
  and the model gives the ship its own field.
- **Sprite fields.** `image`, `image_center`, `image_size` and `animated` are not modelled
  (asteriods.py:178-183); only drawing reads them.
- **Ship fields.** `tip_pos`, `image_size`, the acceleration and friction constants and the image
  handles are not modelled; only drawing and the left-out physics read them.
- **Explosion and background descriptors.** Only drawing uses them (asteriods.py:59-64, 83-84).
- **Sprites.Sprite.constructor.** The creation sound is not modelled.

## Findings

| source | as written | input that shows it | evidently intended | confidence | as-written member | corrected member |
|---|---|---|---|---|---|---|
| asteriods.py:249-255 | the high-score update and `lives = 3` sit inside the loop that clears the rocks, so they run once per rock cleared and not at all when no rock is left | 1 life, score 5, high score 0, and the last rock on the field hits the ship: the game stops with 0 lives and high score 0; clicking to restart then ends the new game on its first frame | out of lives, record max(high score, score) and reset the lives to 3 once, whether or not rocks are left | not executed | Session.LastRockTakesLastLife | Session.GameOverIntended |

The second half of the as-written behaviour is `Session.RestartWithoutLivesEndsAtOnce`. For the
corrected rule, `Session.RestartAfterIntendedGameOverPlays` proves that a restarted game survives
a tick, and `Session.GameOverAgreesWhenRocksLeft` proves that the two rules differ only when no
rock is left. `Session.Game.Tick` keeps the behaviour as written, because it models the program as
it is.
