# Space Invaders simulation core in Dafny

This project models the simulation logic of the `SpaceInvaders` class in `game.js`: one
immutable `State` record (score, lives, running flag, player, player bullets, invader bullets,
invaders, march direction, drop distance and march speed) and the pure per-phase steps that one
call of `update` runs in order:

1. `UpdatePlayer`: the guarded left/right move and the fire action, limited to 3 bullets in flight.
2. `UpdateBullets`: player bullets rise and leave at the top.
3. `UpdateInvaders`: the formation moves sideways. It reverses, drops and speeds up once when any
   invader reaches an edge, and invaders fire according to injected coin flips.
4. `UpdateInvaderBullets`: invader bullets fall and leave at the bottom.
5. `CheckCollisions`: the reverse-order bullet/invader sweep, at most one hit on the player per
   tick, and the ground check.
6. `CheckGameConditions`: a fresh grid, 0.5 faster, once the formation is cleared.

These are composed into `SpaceInvaders.Update`, which does nothing once the game is over.

Modules follow the structure of the class:

- `Geometry`: rectangles and `isColliding`.
- `Seqs`: `splice` and reverse scans.
- `Entities`: the records.
- `Formation`: `createInvaders`.
- `PlayerStep`: `updatePlayer` and `shoot`.
- `Projectiles`: `updateBullets` and `updateInvaderBullets`.
- `March`: `updateInvaders`.
- `Collisions`: `checkCollisions` and `gameOver`.
- `SpaceInvaders`: `init`, `update` and `checkGameConditions`, plus the invariants that every
  tick keeps.

Modelling choices:

- Coordinates and speeds are `real`, so the `+= 0.1` and `+= 0.5` increments and `gameWidth / 2`
  are exact.
- Score, lives, points and the direction are `int`.
- The canvas size is a `Board` parameter.
- The held keys are a `Keys` parameter.
- `Math.random() < invaderShootChance` is replaced by `coins: seq<bool>`, read one per invader in
  formation order. A missing coin means "no shot".
- Colours survive only as the invader's band tag `Colour`.

The ship is not clamped to the field: the code only guards each step, so the ship may stop up to one step beyond an edge. `PlayerStep.PlayerStaysNearField` states the bound the code actually keeps.

## Model

| member | source | states |
|---|---|---|
| Geometry.CollisionSymmetric | game.js:195-200 | the collision test gives the same answer with its arguments swapped |
| Geometry.EdgeContactIsNotCollision | game.js:195-200 | rectangles that share only a vertical or horizontal edge do not collide, in either order, because all four tests are strict |
| Geometry.CollidingIffCommonInteriorPoint | game.js:195-200 | for rectangles of positive size, the four strict tests hold exactly when some point lies strictly inside both rectangles (both directions) |
| Formation.RowFrom | game.js:56-65 | the inner loop yields 10 - col invaders, the i-th being the cell of column col + i |
| Formation.RowsFromCell | game.js:55-66 | index i of the rows built from `row` is the cell at row row + i / 10 and column i % 10 |
| Formation.CreateInvaders | game.js:46-66 | appends exactly 50 invaders after the existing ones, all 40 x 30. The k-th is at x = 50 + (k % 10)·50 and y = 50 + (k / 10)·50. It is worth 30 in rows 0-1, 20 in rows 2-3 and 10 in row 4 |
| Formation.ColourFollowsBand | game.js:62 | the colour tag follows the same row bands as the points: red, yellow, cyan |
| Formation.GridInvadersDisjoint | game.js:46-66 | no two invaders of a fresh grid collide |
| PlayerStep.MovePlayer | game.js:94-100 | only x changes, and by -speed, 0 or +speed. A leftward move needs the left key and x > 0; with only the left key held and x > 0 the ship does move left by its speed. A rightward move needs the right key and x < width - player width; with only the right key held and x below that bound the ship does move right by its speed. With both keys held the left step runs first and the right guard reads its result: for 0 < x < width - player width + speed the ship ends where it started; for x <= 0 (below the right bound) it moves right by its speed; for x > 0 with x - speed >= width - player width it moves left by its speed. With no direction key the player is unchanged |
| PlayerStep.PlayerStaysNearField | game.js:95-100 | a ship strictly less than one step beyond either edge stays strictly less than one step beyond it |
| PlayerStep.NewBullet | game.js:108-115 | a new bullet is 4 x 10, centred on the ship, starts at the ship's top edge and rises 7 per tick |
| PlayerStep.Shoot | game.js:106-117 | with fewer than 3 bullets, exactly one new bullet is appended; otherwise the list is unchanged. Hence at most 3 stay in flight |
| PlayerStep.UpdatePlayer | game.js:94-104 | only the player and its bullets change. Existing bullets are kept as a prefix. A bullet is added (exactly one, fired from the moved ship) if and only if fire is held and fewer than 3 are in flight. A count of at most 3 stays at most 3 |
| Projectiles.UpdateBullets | game.js:119-124 | never more bullets than before. Every survivor has y > 0. A bullet is in the result if and only if it is some input bullet moved up by exactly its speed with y > 0. If all stay above 0, none is lost |
| Projectiles.UpdateBulletsFilters | game.js:119-124 | the result is exactly the risen bullets that are still above y = 0, each once and in input order (a map followed by a filter) |
| Projectiles.UpdateInvaderBullets | game.js:157-162 | never more bullets than before. Every survivor has y < field height. A bullet is in the result if and only if it is some input bullet moved down by exactly its speed with y < field height |
| Projectiles.UpdateInvaderBulletsFilters | game.js:157-162 | the result is exactly the fallen bullets that are still above the bottom of the field, each once and in input order (a map followed by a filter) |
| March.Advance | game.js:129-134 | every invader moves by dx and nothing else changes. The drop flag is set if and only if some moved invader has x <= 0 or x >= field width - its width |
| March.Volley | game.js:136-145 | the number of shots equals the number of invaders whose coin says fire, and every such invader's shot, centred under it at its moved position, is among them. With no coin set there are no shots |
| March.VolleyInOrder | game.js:129-144 | the shots are in invader order: the shot of firing invader k is at the index that counts the firing invaders before k. With Volley's length this determines the volley completely |
| March.VolleyFrom | game.js:136-145 | every shot of the volley is the shot of some invader whose coin says fire |
| March.ShotsBeforeDrop | game.js:129-152 | every invader bullet added in a tick is the shot of a firing invader at its position after the sideways move and before the drop |
| March.ShotFrom | game.js:137-144 | an invader's shot is 4 x 10, centred under it, starts at its bottom edge and falls 3 per tick |
| March.Drop | game.js:150-152 | every invader moves down by the drop distance and nothing else changes |
| March.UpdateInvaders | game.js:126-155 | the invader count is unchanged. Every x moves by speed·direction; size, colour and points are kept. If some moved invader is at an edge: direction is negated, speed rises by 0.1 and every y rises by the drop distance, each exactly once. Otherwise y, direction and speed are unchanged. The invader bullets become the old ones followed by the volley of the moved, not yet dropped, formation: exactly one shot per invader whose coin says fire. No other field changes |
| Collisions.PlayerBulletPass | game.js:164-174 | every hit pairs one bullet with one invader it overlaps, so bullets removed = invaders removed. Survivors plus hits are exactly the bullets and invaders given. Score earned = sum of the hit invaders' points. No surviving bullet overlaps a surviving invader. The scan starts from the last bullet: if it overlaps some invader, it is spent on the last invader it overlaps |
| Collisions.PassSplits | game.js:165-174 | the pass over all bullets is the pass over the bullets from index n on, followed by the pass over the bullets before n against the invaders those left: survivors, hits and points combine accordingly |
| Collisions.EveryBulletScanned | game.js:165-174 | every bullet meets the invaders left alive by the bullets after it. If it overlaps one of them it is spent on the last one it overlaps; otherwise it survives |
| Collisions.PassKeepsOrder | game.js:164-174 | the surviving bullets and invaders keep their input order: each is its input with the spent ones left out, as `splice` leaves it |
| Collisions.NoOverlapNoChange | game.js:164-174 | when no bullet overlaps any invader, the pass removes nothing and scores nothing |
| Collisions.InvaderBulletPass | game.js:176-185 | at most one invader bullet is removed, and one is removed if and only if some invader bullet overlaps the player. The removed one overlaps the player and is the last that does: the rest is the list with exactly that index spliced out. Lives drop by exactly the number removed. After a hit the game keeps running if and only if it was running and lives stay > 0. Without a hit nothing changes |
| Collisions.GameOver | game.js:209-210 | game over clears the running flag and changes nothing else |
| Collisions.CheckCollisions | game.js:164-193 | only score, lives, the running flag and the three lists change. They only shrink, and player bullets and invaders shrink by the same count. Score gained = points of the invaders before minus points of those left. Lives drop by at most one, and reaching <= 0 that way stops the game. Any remaining invader with bottom >= player y stops the game. Otherwise, without a hit, the running flag is unchanged. The player bullets, invaders and score are exactly those of the player-bullet pass; the invader bullets and lives are exactly those of the invader-bullet pass; the game runs afterwards if and only if that pass left it running and no invader has landed |
| SpaceInvaders.Init | game.js:18-42 | the game starts running with score 0, 3 lives, no bullets and exactly the fresh grid of `createInvaders` (50 invaders). The ship is 50 x 30 with speed 5, centred horizontally, with its bottom 20 above the bottom of the field. The formation marches right (direction 1) at speed 1 and drops 20 at an edge |
| SpaceInvaders.CheckGameConditions | game.js:202-207 | with invaders left, nothing changes. With none left, the formation is a fresh 50-invader grid, speed rises by 0.5 and nothing else changes |
| SpaceInvaders.Move | game.js:86-89 | the movement half of a tick leaves score, lives, the running flag and the drop distance alone. It adds at most one player bullet and keeps their count at most 3. Direction only flips and speed never falls |
| SpaceInvaders.Resolve | game.js:90-91 | the resolution half of a tick never restarts the game and never adds player bullets. It costs at most one life, and losing the last life stops the game. Direction and drop distance are kept and speed never falls |
| SpaceInvaders.Update | game.js:83-92 | a stopped game is left unchanged. A tick never restarts the game. It adds at most one player bullet and keeps their count at most 3. It costs at most one life, and losing the last life that way stops the game. Direction only flips, speed never falls, and the drop distance is kept |
| SpaceInvaders.InitValid | game.js:18-41 | the start state satisfies the game invariant `Valid` |
| SpaceInvaders.UpdateKeepsValid | game.js:83-92 | every tick keeps `Valid`: score >= 0, 0 <= lives <= 3, at least one life while running, at most 3 player bullets, direction ±1, speed >= 1, a drop distance of 20, and only 40 x 30 invaders worth 10, 20 or 30 |
| SpaceInvaders.MoveKeepsValid | game.js:86-89 | the movement half of a tick keeps `Valid` |
| SpaceInvaders.MarchKeepsValid | game.js:126-155 | the formation step keeps `Valid`; every invader stays a 40 x 30 invader worth 10, 20 or 30 |
| SpaceInvaders.ProgressKeepsValid | game.js:202-207 | the progression check keeps `Valid`; a regenerated grid holds only 40 x 30 invaders worth 10, 20 or 30 |
| SpaceInvaders.CollisionsKeepValid | game.js:164-193 | collision resolution on a running valid state keeps it valid and never lowers the score |
| SpaceInvaders.ScoreMonotone | game.js:83-92 | the score of a valid game never decreases across a tick |

## Left out

- Canvas and DOM access (`game.js:3-12`), the key and button listeners (69-81), the text and class
  updates of `gameOver` and `restart` (211-212, 216) and all of `render` (220-244): these are
  presentation and input capture only. The held keys enter as the `Keys` parameter; the canvas size
  enters as the `Board` parameter.
- `gameLoop`, `requestAnimationFrame` and the window load hook (43, 246-250, 253-255): these are
  frame scheduling. `SpaceInvaders.Update` models one call of `update()`, not one animation frame.
  Scheduling matters after a restart: `init` starts a new `gameLoop` chain (43) and the chain
  already running never stops (249), so after n restarts `update()` runs n + 1 times per frame.
  The model does not count calls per frame.
- `restart` (215-218): its effect on the state is that of `init`, `SpaceInvaders.Init`. The extra
  loop it starts is described in the line above.
- `Math.random()` and `invaderShootChance` (40, 136): replaced by the injected `coins`. No
  probabilities are modelled.
- IEEE floating point: speeds and positions are exact reals. Rounding of the `0.1` and `0.5`
  increments is not modelled.
- Colour strings: kept only as the invader band tag. Player and bullet colours never affect play
  and are dropped.
