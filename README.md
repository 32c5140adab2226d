# Side-scroller simulation core, in Dafny

This project models one simulation tick of a pygame side-scrolling
shooter, and proves properties of that model. Rendering and pygame itself
are left out. The tick covers:

- the player's input, physics, level bounds, shot cooldown and
  damage/invincibility timer;
- the flying enemies that chase the player;
- the bullets, which fly and expire;
- the collision system: player against platforms, bullets against
  enemies, enemies against the player;
- the camera, which follows the player and is clamped to the level;
- the gameplay state, which spawns enemies, cleans up far-off bullets and
  keeps score;
- the publish/subscribe event table;
- the game's state stack.

## Layout

One module per source file, plus three small support modules and the
level data of the gameplay state in a module of its own.

| file | module | models |
|---|---|---|
| config.dfy | `Config` | the constants of `config.py`, and the sprite sizes fixed by the sprite loaders |
| rects.dfy | `Rects` | the part of `pygame.Rect` the game relies on: edges, centres, attribute assignment, `colliderect`, truncation of fractional coordinates |
| options.dfy | `Options` | `Option`, for Python's `None` |
| sprites.dfy | `Sprites` | `pygame.sprite.Group` as an ordered list without duplicates; `kill()` removes a sprite from it |
| event_manager.dfy | `Events` | `core/event_manager.py` |
| game.dfy | `StateStack` | `core/game.py` |
| camera.dfy | `CameraView` | `core/camera.py` |
| platform.dfy | `Platforms` | `entities/platform.py` |
| bullet.dfy | `Bullets` | `entities/bullet.py` |
| player.dfy | `Players` | `entities/player.py` |
| enemy.dfy | `Enemies` | `entities/enemy.py` |
| collision.dfy | `CollisionSystem` | `systems/collision.py` |
| level.dfy | `Levels` | the level `_create_level` of `states/playing_state.py` builds |
| playing_state.dfy | `PlayingStates` | the rest of `states/playing_state.py` |

### Classes and values

- **Classes.** Objects whose fields the game updates in place are classes
  whose methods carry `modifies` clauses: `Player`, `FlyingEnemy`,
  `Bullet`, `Camera`, `EventManager`, `Game`, `Group` and `PlayingState`.
- **Values.** A platform never changes after construction, so it is a datatype.
  A rectangle is a datatype too, with integer corner and size. Each
  `rect.x += v * dt` becomes the integer that `int()` truncation gives.
- **Shared groups.** The player's `bullet_group` is the very `Group` object
  the gameplay state holds, as in the source.

### How the model differs in form from the source

- **Emissions.** An entity method that emits returns the emissions it makes,
  in order. `EventManager.Emit` returns the callbacks an emission invokes.
  `PlayingState.Deliver` hands each emission of a tick to `Emit` and runs
  the state's own handlers among the callbacks invoked.
- **Callbacks and states.** Callbacks and game states are opaque identities.
- **State hooks.** The hooks the stack calls (`enter`, `exit`, `pause`,
  `resume`) are returned in order.

#### Iterating a group

- A `for` over a group walks a snapshot of it while `kill()` removes
  sprites from the live group.
- The model keeps both: the snapshot is a local sequence, and the group is
  a field that its methods reassign.
- `self.bullets.update(dt)` is modelled as the recursion
  `PlayingStates.UpdateRest`, which walks the snapshot one bullet at a time.

#### The platform passes and the tick

- **Platform passes.** The vertical and horizontal platform passes are `for`
  loops over the platform list. Each is proved equal to a recursive function:
  `VerticalPass` or `HorizontalPass`. The properties the source promises are
  lemmas about those functions.
- **The tick.** `PlayingState.Update` runs the steps of `update(dt)` in
  the source's order:
  1. input, the player, the enemies, the bullets (`Advance`);
  2. the collisions (`Collisions`) and the handlers they reach (`Collide`);
  3. the camera, spawning and the cleanup (`Tidy`).

  `Settle` groups the last two. Each phase states everything it does;
  `Settle` and `Update` restate part of it, and "Left out" names the
  rest.
- **Level invariant.** `PlayingState.Valid()` keeps the fourteen-platform
  level (the ghost `level` the constructor fixes) and the group invariants
  across a tick.

### Behaviour worth noting

- **Landing test.** A falling player lands on an overlapping platform when
  `original_y` plus the player's height is at most the platform top plus a
  tenth of the fall speed (systems/collision.py, line 43). `original_y` is
  read after the move. Every platform is examined in turn; there is no
  early exit.
- **Player death.**
  - Every damaging hit that leaves health at or below zero emits
    `PLAYER_DIED`, once invincibility has run out: there is no dead state
    (`DeathRepeats`).
  - `PLAYER_DAMAGED` carries the health before the floor at zero.
- **Enemy death.** Enemies report `ENEMY_KILLED` on every damaging call that
  leaves them at or below zero. Two bullets in one tick can report the same
  enemy twice (`SameEnemyReportedTwice`).
- **Bullet lifetime.** It goes negative before the bullet is killed; it is
  not clamped.
- **`dt`.** It is not floored at zero.

## Model

| member | source | states |
|---|---|---|
| Rects.Rect.Move | core/camera.py:20-26 | `rect.move(dx, dy)` keeps the size and translates the corner by exactly (dx, dy) |
| Rects.Rect.WithLeft | systems/collision.py:60 | assigning `rect.left` puts the left edge at v and the right edge at v + width; y and size are kept |
| Rects.Rect.WithRight | systems/collision.py:58 | assigning `rect.right` puts the right edge at v and the left edge at v - width; y and size are kept |
| Rects.Rect.WithTop | systems/collision.py:49 | assigning `rect.top` puts the top at v and the bottom at v + height; x and size are kept |
| Rects.Rect.WithBottom | systems/collision.py:44 | assigning `rect.bottom` puts the bottom at v and the top at v - height; x and size are kept |
| Rects.CenteredAt | entities/bullet.py:32 | `get_rect(center=(x, y))` yields a rectangle of the image's size whose centre is (x, y) |
| Rects.Collides | systems/collision.py:37 | `colliderect` (definition): both rectangles have positive width and height, and they overlap strictly on both axes; touching edges do not collide |
| Rects.CollidesSymmetric | systems/collision.py:37 | `colliderect` does not depend on the order of its two rectangles |
| Rects.SnappedApart | systems/collision.py:57-60 | a rectangle snapped against any edge of b (right to b's left, left to b's right, bottom to top, top to bottom) no longer collides with b |
| Rects.Trunc | entities/player.py:153-154 | truncation toward zero: the integer lies within 1 of the real value, on the side nearer to 0 |
| Rects.TruncOfInt | entities/enemy.py:78-79 | adding nothing to an integer coordinate leaves it where it was |
| Rects.TruncMonotone | entities/enemy.py:78-79 | truncation preserves order, so a non-negative (non-positive) step never moves a coordinate back |
| Events.ListenersOf | core/event_manager.py:39-43 | (definition) the list `emit` walks: e's entry, or nothing for an event without one |
| Events.RemoveFirst | core/event_manager.py:37 | `list.remove(c)`: an absent callback leaves the list unchanged; a present one makes it exactly one shorter |
| Events.RemoveFirstDropsFirstOccurrence | core/event_manager.py:37 | only the first occurrence is dropped; everything before and after it is kept, in order |
| Events.RemoveFirstMultiset | core/event_manager.py:37 | removal takes away one registration of c and of nothing else |
| Events.RemoveFirstAfterAppend | core/event_manager.py:28-37 | removing a callback just appended to a list without it gives back that list |
| Events.Subscribed | core/event_manager.py:28-32 | `subscribe` appends c at the end of e's list, even when c is already there; every other event's list is unchanged; e gains an entry |
| Events.Unsubscribed | core/event_manager.py:34-37 | `unsubscribe(e, c)` leaves e's list as `RemoveFirst` of it, so only the first registration of c goes; that list is one shorter when c is registered for e; the table is unchanged when the event or the callback is absent; other events and the key set are unchanged |
| Events.SubscribeThenUnsubscribe | core/event_manager.py:28-37 | subscribing then unsubscribing a callback not registered for e restores every event's listeners; the table itself is restored when e already had an entry, and otherwise keeps an empty list for e |
| Events.EventManager.constructor | core/event_manager.py:25-26 | a new manager has an empty table |
| Events.EventManager.Subscribe | core/event_manager.py:28-32 | the new table is `Subscribed` of the old one |
| Events.EventManager.Unsubscribe | core/event_manager.py:34-37 | the new table is `Unsubscribed` of the old one |
| Events.EventManager.Emit | core/event_manager.py:39-43 | `emit(e)` invokes e's listeners once each, in registration order, and nothing for an event without an entry |
| Events.EventManager.Clear | core/event_manager.py:45-47 | after `clear` the table is empty and no event has a listener |
| StateStack.Push | core/game.py:28-33 | the stack gains s on top; the old top, if any, is paused before s is entered |
| StateStack.Pop | core/game.py:35-43 | on an empty stack: None, no change, no hooks. Otherwise: the old top is returned, the stack is one shorter, the old top is exited and then the new top, if any, is resumed |
| StateStack.ExitsTopDown | core/game.py:47-48 | the while loop exits every state on the stack, one exit per state |
| StateStack.ExitsTopDownAt | core/game.py:47-48 | the i-th exit of emptying the stack is that of the i-th state from the top |
| StateStack.Change | core/game.py:45-49 | `change_state(s)` exits every state from the top down, then enters s; the stack ends as exactly [s] and nothing is paused or resumed |
| StateStack.PushThenPop | core/game.py:28-43 | a push followed by a pop returns the pushed state and restores the prior stack; the hooks are pause(old top), enter(s), exit(s), resume(old top) |
| StateStack.Game.constructor | core/game.py:26 | a new game has an empty state stack |
| StateStack.Game.CurrentState | core/game.py:51-53 | the top of the stack, or None exactly when the stack is empty |
| StateStack.Game.PushState | core/game.py:28-33 | the new stack and the hooks called are those of `Push` |
| StateStack.Game.PopState | core/game.py:35-43 | the new stack, the hooks called and the returned state are those of `Pop` |
| StateStack.Game.ChangeState | core/game.py:45-49 | the while loop and the push produce exactly `Change`'s stack and hooks |
| StateStack.Game.Update | core/game.py:66-69 | dt goes to the current state only, and to no state when the stack is empty |
| CameraView.ClampedOffset | core/camera.py:35-40 | one axis: the offset is never negative; it is at most level - screen when the level is at least a screen wide; it is the centred value when no clamp applies, and the clamp bound otherwise |
| CameraView.ViewFor | core/camera.py:32-43 | the viewport is screen-sized, has x, y >= 0, and stays inside the level on every axis the level fills |
| CameraView.ClampedOffsetMonotone | core/camera.py:35-43 | the camera x never decreases as the target's centre x grows |
| CameraView.ViewDependsOnlyOnCentre | core/camera.py:32-43 | targets with the same centre give the same viewport, so repeating an update on the same target changes nothing |
| CameraView.NoVerticalScroll | core/camera.py:36-43 | in the game's 600-pixel level the camera y is always 0 and x stays within [0, 1200] |
| CameraView.Camera.constructor | core/camera.py:15-18 | the viewport starts at (0, 0), screen-sized, with the given level size |
| CameraView.Camera.ApplyRect | core/camera.py:20-26 | `apply` and `apply_rect` subtract the camera position and keep the size |
| CameraView.Camera.ApplyPos | core/camera.py:28-30 | `apply_pos` subtracts the camera position from the point |
| CameraView.Camera.Left | core/camera.py:45-47 | `left` is the camera x |
| CameraView.Camera.Right | core/camera.py:49-51 | `right` is x + SCREEN_WIDTH |
| CameraView.Camera.Top | core/camera.py:53-55 | `top` is the camera y |
| CameraView.Camera.Bottom | core/camera.py:57-59 | `bottom` is y + SCREEN_HEIGHT |
| CameraView.Camera.Update | core/camera.py:32-43 | the viewport becomes `ViewFor` of the target, through the code's own max/min clamp, and stays screen-sized |
| Platforms.NumTiles | entities/platform.py:29 | `max(1, width // tile_width)` is at least 1; it is the number of whole tiles that fit in the width, or 1 when none fits |
| Platforms.Layout | entities/platform.py:35-47 | the tiling loop places n tiles left to right, tile i at i * tile_width: [mid] for one tile; [left, right] for two; left, middles, right for three or more |
| Platforms.LayoutTilesExactly | entities/platform.py:35-47 | the tiles leave no gap and no overlap: the first starts at 0, each starts where the previous ends, and the last ends at the image width |
| Platforms.Build | entities/platform.py:16-49 | the rectangle's top-left is (x, y) and its height is the tile height, whatever height was asked for; its width is whole tiles, at least one and at most max(width, tile_width), and less than a tile short of the width asked for |
| Platforms.NewPlatform | entities/platform.py:16-49 | with the game's 70-pixel tiles the rectangle is (x, y, NumTiles(width) * 70, 70) |
| Sprites.Group.Add | entities/player.py:104 | `group.add(x)` appends x unless it is already present, and keeps the group free of duplicates |
| Sprites.Group.Remove | entities/bullet.py:59 | `kill()` removes x from the group, keeping the order of the rest and the absence of duplicates |
| Sprites.Without | entities/bullet.py:59 | (definition) the group after `kill()` of x: the other sprites in order; it is never longer than the group |
| Sprites.Excluding | states/playing_state.py:174-180 | (definition) the group after a pass over its snapshot that kills a set of sprites: the others in order; it is never longer than the group |
| Sprites.ExcludingIff | states/playing_state.py:174-180 | a sprite is left after the pass exactly when it was in the group and is not among the killed |
| Bullets.Bullet.constructor | entities/bullet.py:17-37 | a new bullet is centred on (x, y) with the given direction, BULLET_SPEED, BULLET_DAMAGE and BULLET_LIFETIME |
| Bullets.Bullet.Update | entities/bullet.py:51-59 | x moves by speed * direction * dt (truncated) and y and the size never change; the lifetime drops by exactly dt; `kill()` is reported exactly when the lifetime left is no longer positive |
| Bullets.Survives | entities/bullet.py:57-59 | (definition) a bullet is still alive after a run of updates when each update leaves its lifetime positive |
| Bullets.SurvivesOnce | entities/bullet.py:57-59 | one update by dt leaves a bullet alive exactly when more than dt of its lifetime was left |
| Bullets.SurvivesIffShort | entities/bullet.py:51-59 | with non-negative steps a bullet is alive after a run of updates exactly when the steps add up to less than its lifetime |
| Bullets.FreshBulletLifetime | entities/bullet.py:51-59 | a new bullet is removed once the summed dt reaches BULLET_LIFETIME, and is alive while it is below |
| Players.AfterInput | entities/player.py:75-91 | `handle_input`: vx is one of -PLAYER_SPEED, 0, PLAYER_SPEED; right wins over left and faces right; with neither key pressed vx is 0 and facing is kept; a jump needs the ground, sets JUMP_VELOCITY and leaves the ground; otherwise vy and on_ground are untouched |
| Players.Fall | entities/player.py:148-150 | after gravity the vertical speed never exceeds TERMINAL_VELOCITY; it is the accelerated speed, or capped |
| Players.FallFromRest | entities/player.py:148-150 | from rest, one 1/60 s step gives a vertical speed of 25 |
| Players.Moved | entities/player.py:153-154 | each coordinate moves by its velocity times dt, truncated; the size is kept |
| Players.ClampToLevel | entities/player.py:157-160 | a rectangle no wider than the level ends within [0, LEVEL_WIDTH]; one already inside is left alone; y and the size are kept |
| Players.Cooled | entities/player.py:163-164 | the shot cooldown runs down by dt only while it is positive |
| Players.Recover | entities/player.py:170-173 | the invincibility timer runs down by dt only while invincible, and invincibility ends exactly when the decremented timer is no longer positive; health is untouched |
| Players.Hurt | entities/player.py:109-122 | while invincible: no change and no emission. Otherwise: health becomes max(0, health - amount); invincibility starts with a full timer; PLAYER_DAMAGED carries the unfloored health; PLAYER_DIED follows exactly when health - amount <= 0 |
| Players.DeathRepeats | entities/player.py:109-122 | there is no dead state: a player at 0 health whose invincibility has run out reports PLAYER_DIED again when hit |
| Players.InvincibilityWindow | entities/player.py:109-173 | a hit for 15 at full health leaves 85 and a 1.0 s window; a hit 0.5 s later is ignored; one at 1.1 s lands |
| Players.HurtAll | systems/collision.py:87-90 | (definition) the contact loop's `take_damage` calls in order, with no timer update in between: the vitals afterwards and every emission |
| Players.HurtAllInvincible | entities/player.py:111-112 | while invincible, any number of hits changes nothing and emits nothing |
| Players.FirstContactOnly | systems/collision.py:89-90 | of several contacts in one tick only the first does anything, since it leaves the player invincible |
| Players.Player.constructor | entities/player.py:21-60 | a new player is at rest at (x, y), facing right, at full health, not invincible, with no cooldown, no bullet group, and not yet in any group (`alive()` false) |
| Players.Player.HandleInput | entities/player.py:75-91 | the motion state afterwards is `AfterInput` of the motion state before it |
| Players.Player.Shoot | entities/player.py:93-107 | a no-op while the cooldown is positive or without a bullet group. Otherwise: exactly one fresh bullet is appended, moving the way the player faces and placed at the front edge at mid height; the cooldown becomes SHOOT_COOLDOWN; one BULLET_FIRED is emitted |
| Players.Player.TakeDamage | entities/player.py:109-122 | the vitals afterwards, and the emissions, are `Hurt` of the vitals before |
| Players.Player.ApplyVelocity | entities/player.py:152-160 | the rectangle becomes `ClampToLevel(Moved(...))` |
| Players.Player.Update | entities/player.py:145-173 | gravity is `Fall`, motion and bounds are `ClampToLevel(Moved(...))` with the new vy, the cooldown is `Cooled`, the vitals are `Recover` |
| Enemies.Chase | entities/enemy.py:68-82 | (definition) one chase step: facing right exactly when the player's centre is to the right; the size is kept; no motion on an axis where the centres agree; for dt >= 0, motion only toward the player on each axis |
| Enemies.FlyingEnemy.constructor | entities/enemy.py:18-48 | a new enemy is centred on (x, y), tracks the given player, has ENEMY_HEALTH, ENEMY_DAMAGE and ENEMY_SPEED, and faces left |
| Enemies.FlyingEnemy.Update | entities/enemy.py:62-82 | while the player's `alive()` is false (it is in no group) nothing changes. Otherwise: the enemy faces right exactly when the player's centre x is to its right; it does not move on an axis where the centres agree; for dt >= 0 it never moves away from the player on either axis |
| Enemies.FlyingEnemy.TakeDamage | entities/enemy.py:100-108 | health drops by exactly the amount, with no floor and no gate; ENEMY_KILLED with the centre, and the kill, happen exactly when the new health is <= 0, on every such call |
| Enemies.TwoBulletsKill | entities/enemy.py:100-108 | from 50 health, the first 25-damage hit leaves the enemy alive; the second leaves 0 and reports one kill |
| CollisionSystem.LandingTest | systems/collision.py:41-43 | (definition) falling, and `original_y` plus the height at most the platform top plus a tenth of vy |
| CollisionSystem.VerticalStep | systems/collision.py:37-50 | one platform of the vertical loop: a platform that does not overlap changes nothing; x, size and vx are always kept; any change stops the vertical motion and puts the feet on the top or the head at the bottom of the platform |
| CollisionSystem.VerticalPass | systems/collision.py:36-50 | (definition) `VerticalStep` over the platforms in list order, with `original_y` fixed |
| CollisionSystem.VerticalResolve | systems/collision.py:29-50 | (definition) the vertical pass after on_ground is reset, with `original_y` read from the moved rectangle |
| CollisionSystem.Snap | systems/collision.py:41-50 | landing puts the bottom on the platform top, stops the fall and grounds the player; a head bump puts the top on the platform bottom and stops the rise; x, size and vx are kept |
| CollisionSystem.VerticalPassAtRest | systems/collision.py:36-50 | once vy is 0, no later platform of the vertical loop changes the player |
| CollisionSystem.VerticalPassNoneActs | systems/collision.py:36-50 | when no platform triggers a landing or a head bump, the vertical loop leaves the player as it was |
| CollisionSystem.VerticalPassFirstActs | systems/collision.py:36-50 | the first platform that triggers a landing or a head bump decides the outcome of the vertical loop |
| CollisionSystem.GroundedIffLanding | systems/collision.py:33-46 | with on_ground reset first, the vertical loop ends grounded exactly when some overlapping platform passes the landing test |
| CollisionSystem.Landing | systems/collision.py:41-46 | falling onto the first acting platform leaves the bottom on its top, vy = 0 and on_ground set |
| CollisionSystem.HeadBump | systems/collision.py:47-50 | rising into the first overlapping platform leaves the top at its bottom and vy = 0, and does not set on_ground |
| CollisionSystem.VerticalPassKeepsX | systems/collision.py:36-50 | the vertical loop never changes x, the size or vx |
| CollisionSystem.HorizontalStep | systems/collision.py:53-60 | an overlapping platform met while moving right leaves right = platform left (symmetrically, moving left); the player then no longer overlaps it; y, size, velocity and on_ground are kept |
| CollisionSystem.HorizontalPass | systems/collision.py:53-60 | (definition) `HorizontalStep` over the platforms in list order |
| CollisionSystem.HorizontalPassOnlyX | systems/collision.py:53-60 | the horizontal loop changes only x: vx = 0 changes nothing; moving right only pushes left, and moving left only pushes right |
| CollisionSystem.Resolve | systems/collision.py:25-60 | (definition) the vertical pass, then the horizontal pass on its result |
| CollisionSystem.ResolveGroundedIffLanding | systems/collision.py:25-60 | after both loops the player is grounded exactly when a landing happened; the horizontal loop keeps the vertical outcome |
| CollisionSystem.ResolvePlatforms | systems/collision.py:25-60 | the player afterwards is `Resolve` (vertical pass, then horizontal pass) of the player before |
| CollisionSystem.VerticalLoop | systems/collision.py:29-50 | the first loop, with original_y captured and on_ground reset, computes `VerticalResolve` |
| CollisionSystem.HorizontalLoop | systems/collision.py:52-60 | the second loop computes `HorizontalPass` |
| CollisionSystem.Colliding | systems/collision.py:87 | `spritecollide` lists only group members that overlap the rectangle |
| CollisionSystem.CollidingDistinct | systems/collision.py:87 | no enemy is listed twice |
| CollisionSystem.CollidingFinds | systems/collision.py:87 | every overlapping enemy is listed |
| CollisionSystem.Crashes | systems/collision.py:68-73 | `groupcollide` has no more entries than there are bullets (`CrashesOnePerBullet` shows the entries' bullets differ) |
| CollisionSystem.CrashesEntries | systems/collision.py:68-73 | each `groupcollide` entry pairs a bullet of the group with the non-empty list of enemies it overlaps |
| CollisionSystem.CrashesOnePerBullet | systems/collision.py:68-73 | for a group without duplicates no bullet has two `groupcollide` entries |
| CollisionSystem.StruckIffHit | systems/collision.py:68-73 | `dokilla=True` removes exactly the bullets that overlap at least one enemy |
| CollisionSystem.CrashesAimed | systems/collision.py:68-78 | every hit of the damage loop over `groupcollide`'s entries falls on an enemy of the group |
| CollisionSystem.CrashHits | systems/collision.py:77-78 | each enemy of an entry gets exactly one `take_damage(bullet.damage)`, in order |
| CollisionSystem.Hits | systems/collision.py:76-78 | every hit of the damage loop deals BULLET_DAMAGE |
| CollisionSystem.ApplyHit | entities/enemy.py:100-108 | one hit lowers the target's health by the amount; at <= 0 it adds one ENEMY_KILLED at the target's centre and the kill; otherwise no report |
| CollisionSystem.ApplyHits | systems/collision.py:76-78 | the damage loop keeps the same tracked enemies and never revives a killed one |
| CollisionSystem.HitsAimed | systems/collision.py:76-78 | every hit of the damage loop targets an enemy of the group |
| CollisionSystem.ApplyHitsHealth | systems/collision.py:76-78 | after the damage loop each enemy has lost exactly the damage of the hits aimed at it |
| CollisionSystem.ApplyHitsKilled | systems/collision.py:76-78 | an enemy is killed in the tick exactly when some hit on it leaves its running health at or below 0 |
| CollisionSystem.ApplyHitsReports | systems/collision.py:76-78 | the loop only appends reports, at most one per hit, each an ENEMY_KILLED at a hit enemy's centre |
| CollisionSystem.SameEnemyReportedTwice | systems/collision.py:76-78 | two bullets on a 25-health enemy in one tick report its death twice; on a 50-health enemy only once |
| CollisionSystem.ApplyHitsConcat | systems/collision.py:76-78 | applying the hits entry by entry gives the same result as applying them all at once |
| CollisionSystem.Overlapping | systems/collision.py:68-73 | (definition) the number of bullets in the group whose rectangles overlap the enemy's |
| CollisionSystem.DamageToConcat | systems/collision.py:76-78 | the damage dealt to an enemy by consecutive runs of hits adds up |
| CollisionSystem.DamageToCrash | systems/collision.py:77-78 | an entry listing each enemy once damages e by the bullet's damage if it lists e, and not at all otherwise |
| CollisionSystem.EntryDamage | systems/collision.py:76-78 | one more `groupcollide` entry adds the bullet's damage to e's total when it lists e, and nothing otherwise |
| CollisionSystem.DamageToNonNegative | systems/collision.py:76-78 | bullets never heal: a run of full-damage hits deals no negative damage |
| CollisionSystem.LastHitOn | systems/collision.py:76-78 | a run of hits that damages e has a last hit on e, after which e takes no more damage |
| CollisionSystem.PrefixDamage | systems/collision.py:76-78 | the hits up to any point of the loop deal at most the damage of the whole loop |
| CollisionSystem.KilledIffDamaged | systems/collision.py:76-78 | starting from no kills, the loop kills e exactly when it damages e and leaves it at or below 0, since its health only falls |
| CollisionSystem.LastBulletDamage | systems/collision.py:68-78 | the last bullet of the group adds BULLET_DAMAGE to e's total exactly when it overlaps e |
| CollisionSystem.DamagePerOverlap | systems/collision.py:68-78 | for an enemy of a group without duplicates, the damage loop deals BULLET_DAMAGE once per bullet that overlaps it: one `take_damage(bullet.damage)` per (bullet, overlapping enemy) pair |
| CollisionSystem.OverlapCounts | systems/collision.py:68-73 | for every enemy of the group, the number of bullets overlapping it |
| CollisionSystem.TallyShot | systems/collision.py:62-78 | the bullet pass in closed form: each enemy loses BULLET_DAMAGE per overlapping bullet, and exactly those some bullet hit and whose health ends at or below 0 are killed |
| CollisionSystem.KilledIffSpent | systems/collision.py:62-78 | an enemy of the group is killed by the bullet pass exactly when at least one bullet overlaps it and its health minus BULLET_DAMAGE per overlapping bullet is at or below 0 |
| CollisionSystem.EnemyHealthAfterBullets | systems/collision.py:62-78 | after the bullet pass each enemy's health is its health before less BULLET_DAMAGE times the number of bullets overlapping it |
| CollisionSystem.GroupCollide | systems/collision.py:68-73 | returns the `groupcollide` entries and removes exactly their bullets; the enemy group is not touched |
| CollisionSystem.KillStruck | systems/collision.py:71 | killing the entries' bullets one by one leaves the group without exactly those bullets |
| CollisionSystem.DamageOne | systems/collision.py:78 | one `take_damage` call agrees with `ApplyHit` on the health, the group and the emissions |
| CollisionSystem.DamageFromCrash | systems/collision.py:77-78 | the inner damage loop agrees with `ApplyHits` over the entry's hits |
| CollisionSystem.DamageEnemies | systems/collision.py:76-78 | the whole damage loop agrees with `ApplyHits` over `Hits` of the entries: healths, the enemies left in the group, and the reports in order |
| CollisionSystem.BulletsHitEnemies | systems/collision.py:62-78 | bullets that hit are removed, enemy healths and group follow the tally, the reports are the tally's |
| CollisionSystem.ContactDamages | systems/collision.py:89-90 | each touching enemy deals ENEMY_DAMAGE |
| CollisionSystem.Contact | systems/collision.py:80-90 | nothing while the player is not alive, is invincible or touches nothing; otherwise exactly one `Hurt` by ENEMY_DAMAGE |
| CollisionSystem.EnemiesTouchPlayer | systems/collision.py:80-90 | the contact loop calls `take_damage(enemy.damage)` once per overlapping enemy, in group order, and agrees with `Contact` |
| CollisionSystem.Combat | systems/collision.py:22-23 | bullets against enemies, then the enemies that survived against the player |
| CollisionSystem.Update | systems/collision.py:16-23 | platforms first, then bullets against enemies, then enemies against the player (at the resolved position) |
| Levels.Level | states/playing_state.py:60-87 | (definition) the ground, as wide as the level, then the 13 floating platforms of the level data in order |
| Levels.Built | states/playing_state.py:60-87 | the ground and the first n floating platforms make n + 1 platforms |
| Levels.BuiltGround | states/playing_state.py:63-64 | the ground is added first |
| Levels.BuiltAt | states/playing_state.py:84-87 | the k-th floating platform sits at position k + 1 |
| Levels.BuiltIsLevel | states/playing_state.py:60-87 | adding all floating platforms gives the level |
| Levels.LevelGeometry | states/playing_state.py:60-87 | 14 platforms; the ground's rectangle is (0, 560, 1960, 70); each floating platform is 140 or 70 wide and 70 high at its (x, y) |
| Levels.BuiltPositions | states/playing_state.py:60-87 | every platform the level has so far starts at a different x, which names its position |
| Levels.LevelDistinct | states/playing_state.py:60-87 | no platform is added twice, so every add really appends |
| Levels.LevelGrows | states/playing_state.py:84-87 | each floating platform is new to the group when it is added |
| PlayingStates.SpawnTick | states/playing_state.py:157-163 | the timer gains dt; reaching the interval spawns and resets to 0 (the overshoot is dropped); otherwise no spawn |
| PlayingStates.SpawnTimerBounded | states/playing_state.py:157-163 | with non-negative dt the timer stays in [0, interval) |
| PlayingStates.SpawnRun | states/playing_state.py:157-163 | n ticks of `_update_spawning` with the same dt: the timer afterwards and the number of spawns, which is at most one per tick |
| PlayingStates.QuietBeforeInterval | states/playing_state.py:157-163 | from a reset timer nothing spawns while the accumulated time is below the interval |
| PlayingStates.EveryNthTick | states/playing_state.py:157-163 | the first tick that reaches the interval spawns exactly one enemy and resets the timer |
| PlayingStates.SpawnCadence | states/playing_state.py:157-163 | at 60 frames per second no enemy has spawned after 149 frames, and exactly one after 150 |
| PlayingStates.FarOff | states/playing_state.py:177-180 | (definition) the cleanup's test: the bullet's right edge more than 100 pixels left of the view, or its left edge more than 100 pixels right of it |
| PlayingStates.OncePerEvent | states/playing_state.py:187-189 | a handler registered once, for one event only, runs once per emission of that event, so the score counts the ENEMY_KILLED emissions |
| PlayingStates.SubscriptionsHandle | states/playing_state.py:57-58 | after the two subscriptions each handler is registered exactly once, for its own event |
| PlayingStates.ExitRestoresListeners | states/playing_state.py:93-97 | `exit` after the constructor's subscriptions gives every event back the listeners it had before |
| PlayingStates.FarMarksAt | states/playing_state.py:174-180 | the cleanup marks a bullet exactly when right < camera left - 100 or left > camera right + 100 |
| PlayingStates.NoneFarOff | states/playing_state.py:174-180 | no bullet the cleanup keeps lies far outside the view |
| PlayingStates.UpdateOne | states/playing_state.py:129 | one bullet's update moves it, ages it by dt, and kills it exactly when its lifetime runs out |
| PlayingStates.UpdateRest | states/playing_state.py:129 | from position i of the snapshot on, every bullet moves and ages by dt, and the group loses exactly those whose lifetime ran out |
| PlayingStates.SurvivorsAlive | states/playing_state.py:129 | every bullet one update leaves in the group has lifetime left |
| PlayingStates.UpdateBullets | states/playing_state.py:129 | `bullets.update(dt)`: every bullet moves and ages by dt; exactly those that do not survive the step are removed, order kept; no bullet is added; every survivor has lifetime > 0 |
| Levels.CreateLevel | states/playing_state.py:60-87 | `_create_level` fills the empty platform group with exactly the level: the ground first, then the 13 floating platforms in order |
| PlayingStates.PlayingState.constructor | states/playing_state.py:25-58 | the player sits at (100, 450) with full health, firing into the state's bullet group; the level is built; there are no enemies or bullets; the camera is at the origin; timer and score are 0; both handlers are subscribed |
| PlayingStates.PlayingState.OnEnemyKilled | states/playing_state.py:187-189 | each call adds exactly one point |
| PlayingStates.PlayingState.Exit | states/playing_state.py:93-97 | exactly the two handlers are unsubscribed |
| PlayingStates.PlayingState.Deliver | states/playing_state.py:182-189 | the score grows by the number of `_on_enemy_killed` invocations the emissions reach; the result reports whether `_on_player_died` ran |
| PlayingStates.PlayingState.SpawnEnemy | states/playing_state.py:165-172 | exactly one fresh enemy is appended, chasing the player at full health, centred SPAWN_MARGIN right of the view at a height in [100, 450] |
| PlayingStates.PlayingState.UpdateSpawning | states/playing_state.py:157-163 | timer and spawn follow `SpawnTick`: at most one spawn per call, and none leaves the group unchanged |
| PlayingStates.PlayingState.CleanupBullets | states/playing_state.py:174-180 | exactly the bullets far outside the view are removed, the rest stay in order, and none left is far off |
| PlayingStates.PlayingState.UpdateEnemies | states/playing_state.py:126 | every enemy takes one chase step; none moves or turns while the player's `alive()` is false, which the gameplay state never brings about |
| PlayingStates.PlayingState.MovePlayer | states/playing_state.py:120-123 | the player's motion is `AfterInput` of the keys, and then `Fall` for the vertical speed; its rectangle is `ClampToLevel(Moved(...))`; the cooldown is `Cooled` and the vitals are `Recover` |
| PlayingStates.PlayingState.Advance | states/playing_state.py:118-129 | input, the player, the enemies and the bullets, in order. The player ends as `MovePlayer` leaves it, and `moved` is its body. Every enemy takes one `Chase` step toward the player's new position (none moves or turns while `alive()` is false). Every bullet moves by speed * direction * dt and ages by exactly dt; `spent` marks those with no lifetime left; exactly those are removed, order kept, and every one left has lifetime to spare |
| PlayingStates.PlayingState.Collisions | states/playing_state.py:140-146 | `collision_system.update` on the state's groups: the player becomes `Resolve` against the level; exactly the struck bullets of the `groupcollide` entries leave their group; the enemies are `Shot` as the bullet tally says, the killed ones leaving their group in order; the enemies left touching the player give the `Contact` damage; the emissions are the tally's reports, then the contact's |
| PlayingStates.PlayingState.Collide | states/playing_state.py:140-146 | the facts of `Collisions`, and the handlers the emissions reach: the score grows by one per ENEMY_KILLED delivered to `_on_enemy_killed`, and playerDied reports that `_on_player_died` ran; the enemy group and the bullet group only lose members |
| PlayingStates.PlayingState.Tidy | states/playing_state.py:148-155 | the camera shows the player; the timer and the spawn follow `SpawnTick`, a spawned enemy being fresh, at full health, chasing the player, SPAWN_MARGIN right of the view and appended at the end of the group, and otherwise the group unchanged; exactly the bullets far outside the new view are removed, order kept, and none left is far off |
| PlayingStates.PlayingState.Settle | states/playing_state.py:140-155 | collisions, then camera, spawning and cleanup. The player becomes `Resolve` against the level and takes the `Contact` damage of the enemies touching it afterwards; the emissions are the bullet tally's reports then the contact's; the survivors are the enemies the tally did not kill, in order, and the enemy group is the survivors plus the spawned enemy, if any; the timer follows `SpawnTick`; bullets are only removed, their lifetimes untouched, and none left is far off; the camera shows the player; the score and the death flag follow the emissions |
| PlayingStates.PlayingState.Update | states/playing_state.py:116-155 | one tick in the source's order. Afterwards the state is consistent. `moved` is the player's body after input and physics (`AfterInput`, `Fall`, `Moved`, `ClampToLevel`), and the player ends as `Resolve` of it against the level, facing as `AfterInput` says, with vitals `Contact` of `Recover` of the old ones for the enemies touching it. The enemy group is survivors of the old group plus the spawned enemy, if any, as the timer says (`SpawnTick`). Every bullet left was there before, has lifetime and lies near the view. The camera shows the player, and the score and the death flag account for the tick's emissions |

## Left out

- Rendering and presentation are not modelled: every `render`, the HUD,
  sprite loading, `Player._update_animation`, the enemy's animation, and the
  alpha flashing in `Player.update`. None of it affects the simulation.
- The menu, pause and game-over states are not modelled; they are UI over
  the state stack. `PlayingState.handle_event` is not modelled either: ESC
  pushes the pause state, and F calls `shoot`, which is modelled as
  `Player.Shoot`.
- `enter`, `pause` and `resume` of the gameplay state are no-ops. The
  stack reports them as hooks and does not model their bodies.
- The game loop is not modelled: `Game.__init__`, `handle_events`, `run`,
  `render`, `main.py`, the clock and the keyboard. `dt` and the held keys
  are parameters.
- `all_sprites` and the loops that fill it are not modelled; the group only
  serves rendering. Because the player is in `all_sprites`, its `alive()`
  is a field that the gameplay constructor sets.
- Re-entrancy during `emit` is not modelled: a callback that unsubscribes
  while the listener list is being walked. `Emit` returns the snapshot of
  callbacks invoked.
- Event payloads are not delivered to the handlers, because neither
  handler reads them.
- PlayingStates.PlayingState.Deliver: `_on_player_died` calls
  `change_state(GameOverState(...))`; the model reports that it ran instead.
  The emissions of a tick are delivered after the collisions rather than
  during them. The two orders agree: the only handler effect left is the
  score, and a PLAYER_DIED is always the last emission of a tick.
- Enemies.FlyingEnemy.Update: the normalisation by the Euclidean distance
  (a square root on floats) is a nondeterministic choice of a direction
  whose components have the signs of the offsets and lie in [-1, 1]. The
  contract keeps the facing, the absence of motion on an axis where the
  centres agree, and motion toward the player on each axis. It does not
  keep the exact step length.
- PlayingStates.PlayingState.SpawnEnemy: `random.randint(100,
  SCREEN_HEIGHT - 150)` is a nondeterministic choice within its bounds.
- Bullets.Bullet.constructor: the bullet is 24x24 as the loaded image is
  scaled. The 12x6 fallback surface, used when the image fails to load, is
  not modelled.
- Platforms.NewPlatform: tiles are 70x70, which both branches of the
  sprite loader give. The tile images themselves are not modelled.
- `Platform.update` does nothing, and platforms are immutable values here.
- Dafny `real` is exact: floating-point rounding of `dt`, of speeds and of
  timers is not modelled. Integer truncation when a fractional value lands
  in a rectangle coordinate is modelled (`Trunc`).
- CollisionSystem.ApplyHits: a hit on an enemy the tally does not track
  would change nothing. `HitsAimed` shows this never happens for the hits
  of `groupcollide`.
- PlayingStates.PlayingState.Update: some facts are stated only by the
  phase that makes them, not over the whole tick. They are the shot
  cooldown (`Advance`, `MovePlayer`), the enemies' chase steps (`Advance`),
  their damage and kills (`Shot` and `Tracks`, in `Collisions` and
  `Collide`), the emissions of the tick (`Collisions`), and which bullets
  are taken out. The bullets taken out are those whose lifetime ran out
  (`Advance`), those that struck an enemy (`Collisions`) and those far off
  (`Tidy`). `Update` keeps that the bullets left were there before, with
  lifetime left and near the view.
- PlayingStates.PlayingState.Settle: the enemies' damage and kills (`Shot`,
  `Tracks`) and the exact bullets struck and cleaned up are stated by
  `Collide` and `Tidy` only. `Settle` keeps the tally, the survivors, the
  spawn, and that bullets are only removed, with their lifetimes untouched
  and none far off.
