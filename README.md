# Elemental TD — a verified model of the simulation core

Elemental TD is a browser tower-defence game. Enemies walk a fixed waypoint
path in waves. The player spends gold on towers placed on grid cells beside
the path. Towers shoot homing projectiles that damage enemies and, for the
water tower, slow them. A dead enemy pays its reward. An enemy that escapes
at the end of the path costs a life.

This project models the simulation logic of the game in Dafny:

- the constant table `gameConfig`;
- the three entity classes `Enemy`, `Tower` and `Projectile`;
- the game state and per-frame logic of `GameScene`.

The modules are:

| module | file | models |
|---|---|---|
| `Geometry` | geometry.dfy | points, the Euclidean norm as a parameter, `distanceToLineSegment`, the homing step |
| `Config` | config.dfy | `js/config.js` and the path mapped to cell centres |
| `Enemies` | enemy.dfy | `js/entities/Enemy.js` |
| `Projectiles` | projectile.dfy | `js/entities/Projectile.js` |
| `Towers` | tower.dfy | `js/entities/Tower.js` |
| `Game` | game_scene.dfy | `js/scenes/GameScene.js` |

The source's objects update their fields in place, and so do the classes
here: `Enemy`, `Projectile`, `Tower` and `GameScene` are Dafny classes with
mutable fields.

Each entity class has a `State()` function that returns a snapshot of its
fields as a datatype value. Each mutating method ensures that the new
snapshot is a function of the old one:

- `Enemy.Update` ensures the new snapshot is `EnemyStep(old(State()), …)`;
- `Enemy.TakeDamage` ensures it is `TakeDamageSpec(…)`;
- `Projectile.Update` ensures it is `ProjectileStep(…)`;
- `Tower.Update` ensures it is `TowerStep(…)`.

The game's promises are proved as lemmas about those functions: damage,
slows, waypoints, target choice, fire spacing, and single hits.

The frame loop of `GameScene.update` has three phases, and each is a method
that walks the list in place:

- the tower pass;
- the backward enemy loop with `splice`;
- the backward projectile loop with `splice`.

Each method is proved against a function on snapshots:

- `StepAll`, `Survivors`, `Bounty` and `Escapes` for enemies;
- `ResolveFrom` and `KeptFrom` for projectiles.

Lemmas about those functions state the following:

- every enemy has exactly one outcome;
- the survivors are exactly the enemies that are neither dead nor escaped, in order;
- an enemy that dies takes no further damage in the same pass;
- the lists stay free of repeats.

Distances are real numbers. The source calls `Math.sqrt`, `Math.hypot` and
`Phaser.Math.Distance.Between`. In the model these are a function parameter
`hypot`, described by `IsHypot`: the value is never negative and its square
is `dx² + dy²`.

The range test and the placement corridor each compare a distance with a
bound. Lemmas restate those comparisons on squared distances.

## Model

| member | source | states |
|---|---|---|
| Config.CorridorHalfWidth | js/scenes/GameScene.js:256 | the placement corridor half-width `tileSize * 0.5` is 32 |
| Config.CellCentre | js/entities/Tower.js:9-10 | a cell centre lies exactly 32 past the cell's corner `g * 64` and exactly 32 before the next cell's corner `(g + 1) * 64`, so it is half a tile from either edge |
| Config.TowerTypes | js/config.js:8-50 | every tower type has positive damage, range, fire rate, cost (at least 90) and projectile speed; exactly the water tower has a slow, and it lies strictly between 0 and 1 |
| Config.Waves | js/config.js:53-59 | there are five waves, each with positive count, health, speed and reward |
| Config.PathWaypoints | js/config.js:62-71 | there are eight waypoints; consecutive waypoints differ and share a row or a column |
| Config.PathCoords | js/scenes/GameScene.js:18-21 | `pathCoords` has one point per waypoint, at the centre of that waypoint's cell |
| Config.PathCoordsValid | js/config.js:62-71 | the configured path is non-empty, consecutive points are distinct, and every segment is horizontal or vertical |
| Config.ValidPathWalkable | js/entities/Enemy.js:86-91 | on a path with distinct consecutive points, every segment length the enemy divides by is positive |
| Config.CheapestTowerAffordable | js/config.js:45-73 | the air tower is the cheapest tower, and its cost is within the starting gold |
| Geometry.SegmentParam | js/scenes/GameScene.js:268-275 | the projection parameter is clamped into [0, 1], and is 0 for a zero-length segment |
| Geometry.ClampUnit | js/scenes/GameScene.js:275 | `max(0, min(1, t))` lies in [0, 1], is `t` inside it, 0 below it and 1 above it |
| Geometry.DistanceToLineSegment | js/scenes/GameScene.js:267-278 | the result is the distance from p to the point `a + t·(b − a)` of the segment, where `t` is the clamped parameter in [0, 1] |
| Geometry.StepTowardMoves | js/entities/Projectile.js:58-61 | the step `pos += (goal − pos) / distance · move`, with `distance` the true norm, has squared length `move²`, is the displacement to the goal scaled by `move / distance`, and that factor is non-negative for a non-negative move |
| Geometry.DistanceToLineSegmentSquare | js/scenes/GameScene.js:267-278 | the segment distance is non-negative and its square is the squared distance to that point of the segment |
| Geometry.SegmentParamProjection | js/scenes/GameScene.js:267-278 | on a segment of positive length, where the clamped parameter is strictly inside (0, 1), p minus the measured point is perpendicular to the segment; where it is clamped to 0, p lies at or behind the start; where it is clamped to 1, p lies at or beyond the end |
| Geometry.DegenerateSegment | js/scenes/GameScene.js:272 | for a zero-length segment the measured point is the segment's start |
| Enemies.Spawned | js/entities/Enemy.js:2-21 | a new enemy has full health (`health == maxHealth`), base speed, slow factor 1 with no slow pending (`slowEndTime == 0`), the wave's reward, path index 0, progress 0, and sits at the first waypoint, neither dead nor escaped |
| Enemies.Enemy.constructor | js/entities/Enemy.js:2-21 | the constructed object's snapshot is `Spawned(...)` at `pathCoords[0]` |
| Enemies.Enemy.Update | js/entities/Enemy.js:50-92 | one `update` moves the object's fields to `EnemyStep` of the old snapshot |
| Enemies.Enemy.TakeDamage | js/entities/Enemy.js:125-148 | one `takeDamage` moves the object's fields to `TakeDamageSpec` of the old snapshot |
| Enemies.Enemy.Die | js/entities/Enemy.js:150-151 | `die` sets `isDead` and changes nothing else |
| Enemies.HitsSubtract | js/entities/Enemy.js:125-151 | after n hits of d, health is exactly `initial − n·d` with no clamp; an enemy at or below zero after a hit is dead; a dead enemy stays dead; hits without slow keep speed and position |
| Enemies.DamageKeepsDead | js/entities/Enemy.js:145-151 | no hit revives a dead enemy |
| Enemies.DamageKills | js/entities/Enemy.js:126-147 | after a hit the enemy is dead if and only if it was dead already or `health − damage <= 0` |
| Enemies.SlowOverwrites | js/entities/Enemy.js:129-133 | slows do not stack: after two hits the slow factor, speed (`baseSpeed · s2`) and end time equal those of the second hit alone |
| Enemies.NoSlowKeepsSpeed | js/entities/Enemy.js:129-133 | a hit with no positive slow leaves slow factor, speed and slow end time unchanged |
| Enemies.UpdateFrozen | js/entities/Enemy.js:51 | `update` leaves a dead or escaped enemy exactly as it was |
| Enemies.SlowExpires | js/entities/Enemy.js:54-57 | once `time > slowEndTime`, a walking enemy is back to slow factor 1 and base speed |
| Enemies.WaypointAdvance | js/entities/Enemy.js:71-80 | within 2 units of the next waypoint, the index rises by exactly one, progress becomes that index, and the enemy escapes exactly when it reaches the last waypoint |
| Enemies.SegmentProgress | js/entities/Enemy.js:81-92 | farther away, the index is kept, the enemy has not escaped, and progress is the index plus `1 − distance / segment length` |
| Enemies.EnemyMoves | js/entities/Enemy.js:67-85 | a walking enemy more than 2 units from its next waypoint moves exactly `speed · delta / 1000` (squared displacement equals that distance squared), using base speed once the slow has expired; it moves along the line to the waypoint, towards it for a non-negative move |
| Enemies.RunStaysOnPath | js/entities/Enemy.js:50-92 | over any sequence of frames, the index never decreases and never passes the last waypoint, a walking enemy always has a next waypoint, and death and escape are permanent |
| Enemies.RunFrozen | js/entities/Enemy.js:51 | any number of frames leaves a dead or escaped enemy unchanged |
| Projectiles.HitParamsOf | js/entities/Projectile.js:74-76 | a hit passes the configured damage and the frame's time; the slow is 2000 ms exactly when the slow factor is positive, and 0 ms otherwise, including when the config has no `slowEffect` |
| Projectiles.HitCarriesSlow | js/entities/Projectile.js:74-76 | when the config has a `slowEffect`, the hit carries exactly that value, and the slow lasts 2000 ms exactly when it is positive |
| Projectiles.OnlyWaterSlows | js/config.js:8-50 | among the configured towers only the water tower's hits slow, by 0.5 for 2000 ms, and every hit deals the tower's positive damage |
| Projectiles.Launched | js/entities/Projectile.js:2-11 | a new projectile is not marked for removal, moves at the config's projectile speed, and starts at the given position with the given target and config |
| Projectiles.Projectile.constructor | js/entities/Projectile.js:2-11 | the constructed object's snapshot is `Launched(...)` |
| Projectiles.Projectile.Update | js/entities/Projectile.js:35-61 | one `update` moves the projectile to `ProjectileStep` of its old snapshot and its target's old snapshot, and applies the resulting hit, if any, to the target enemy object |
| Projectiles.Projectile.HitTarget | js/entities/Projectile.js:72-83 | `hitTarget` marks the projectile for removal and applies `takeDamage` with the tower's damage and slow to the target |
| Projectiles.RemovedIsInert | js/entities/Projectile.js:36 | a projectile already marked for removal changes nothing and hits nobody |
| Projectiles.LostTargetDiscarded | js/entities/Projectile.js:41-45 | with a null or dead target, the projectile is marked for removal and deals no damage |
| Projectiles.HitRemoves | js/entities/Projectile.js:50-55 | a hit happens only to a live target within 5 units, carries the tower's parameters, and marks the projectile for removal in the same frame |
| Projectiles.HitWhenClose | js/entities/Projectile.js:50-56 | conversely, a live projectile within 5 units of a live target hits it in that frame with the tower's parameters and is marked for removal |
| Projectiles.MissWhenFar | js/entities/Projectile.js:35-61 | a live projectile at 5 units or more from a live target hits nobody, stays in play, and changes only its position and current time |
| Projectiles.HomesOnTarget | js/entities/Projectile.js:48-61 | in that case it moves exactly `speed · delta / 1000` (squared displacement equals that distance squared), along the line to the target's position, towards it for a non-negative move |
| Projectiles.HitsAtMostOnce | js/entities/Projectile.js:35-83 | over any sequence of frames a projectile hits at most once; once marked it never hits and never changes; after a hit it is marked |
| Towers.InRangeSquared | js/entities/Tower.js:87-93 | the inclusive range test `dist <= range` holds exactly when the squared distance is at most `range²` |
| Towers.TargetIndex | js/entities/Tower.js:73-85 | the scan's choice, if any, is an index already scanned |
| Towers.TargetIndexIsFirstMax | js/entities/Tower.js:73-85 | the scan picks an in-range enemy with progress above −1, at least that of every scanned in-range enemy and strictly greater than that of every earlier one (ties go to the earliest); it picks nothing only when no in-range enemy has progress above −1 |
| Towers.RetargetSound | js/entities/Tower.js:46-48 | the target is kept if and only if it is non-null, alive and in range; otherwise the tower takes the in-range enemy furthest along, or none |
| Towers.Shot | js/entities/Tower.js:66-69 | a tower turn launches at most one projectile, and any it launches is `Launched` at the tower's position with its non-null target and config |
| Towers.ShotStamped | js/entities/Tower.js:66-69 | a turn that launches a shot sets `lastFireTime` to the frame's time; a turn that launches none keeps the previous `lastFireTime` |
| Towers.ShotsSpaced | js/entities/Tower.js:66-69 | a shot sets `lastFireTime` to its frame's time; the turn immediately after a shot fires only if it is strictly more than `fireRate` later; a turn exactly `fireRate` later does not fire |
| Towers.SilentRunKeepsStamp | js/entities/Tower.js:66-69 | over any sequence of turns none of which fires, `lastFireTime` is unchanged |
| Towers.NextShotSpaced | js/entities/Tower.js:66-69 | after a shot, however many silent turns follow, the next turn that fires is strictly more than `fireRate` after the shot |
| Towers.Tower.constructor | js/entities/Tower.js:2-13 | a new tower stands at its cell centre, uses its type's config, has never fired and has no target |
| Towers.Tower.FindTarget | js/entities/Tower.js:73-85 | the scanning loop returns the enemy that `TargetIndex` designates over the whole list, or null |
| Towers.Tower.Update | js/entities/Tower.js:44-71 | the tower's new fields are `TowerStep` of the old ones; when the gate opens, exactly one new projectile is appended with the tower's position, target and config; otherwise the list is unchanged |
| Towers.Tower.Fire | js/entities/Tower.js:95-126 | with a target, exactly one new projectile is appended at the tower's position, carrying its target and config; with none, nothing is appended |
| Game.StartWavePastLast | js/scenes/GameScene.js:312-315 | past the last wave, `startWave` only shows victory: counter, schedule, gold and lives are unchanged |
| Game.StartWaveSchedules | js/scenes/GameScene.js:317-327 | otherwise the counter rises by exactly one, and exactly `count` spawns of that wave are appended at 0, 1000, … ms, with gold, lives and the victory flag unchanged |
| Game.AllWavesSpawnFifty | js/scenes/GameScene.js:311-327 | from wave 0, five starts schedule 50 spawns in all, and a sixth only shows victory |
| Game.WaveCheckRepeats | js/scenes/GameScene.js:418-421 | each frame with no enemies between the first and the last wave schedules one more `startWave` 3000 ms later, so two such frames schedule two |
| Game.PlacementNeverOverdraws | js/scenes/GameScene.js:283-284 | placement charges exactly the cost if and only if gold covers it, charges nothing otherwise, and never makes non-negative gold negative |
| Game.OffPathSquared | js/scenes/GameScene.js:250-257 | the corridor test `dist < 32` fails on every segment exactly when every measured point is at squared distance at least 1024 |
| Game.OutcomesPartition | js/scenes/GameScene.js:393-405 | every enemy has exactly one outcome: survivors, deaths and escapes add up to the list length, and with non-negative rewards the payout is non-negative |
| Game.SurvivorsSublist | js/scenes/GameScene.js:389-406 | the survivors come from the list and include every enemy that is neither dead nor escaped |
| Game.SurvivorsDistinct | js/scenes/GameScene.js:389-406 | the survivors of a repeat-free list have no repeats and contain no dead or escaped enemy |
| Game.ResolveShots | js/scenes/GameScene.js:408-416 | the projectile loop leaves unreached and already-removed projectiles unchanged, marks every projectile with a null target, and never changes a projectile's target |
| Game.ResolveSparesDead | js/scenes/GameScene.js:408-416 | an enemy that is dead from some point of the loop on is not changed by any later iteration: dead at the start, it takes no damage at all; killed by a hit, it takes no further one |
| Game.ResolveSparesUntargeted | js/scenes/GameScene.js:408-416 | an enemy that no remaining projectile chases is left untouched |
| Game.KeptSublist | js/scenes/GameScene.js:408-416 | the kept projectiles come from the list and include every one not marked for removal |
| Game.KeptDistinct | js/scenes/GameScene.js:408-416 | the kept projectiles of a repeat-free list have no repeats and contain no marked projectile |
| Game.ResolveOne | js/scenes/GameScene.js:410-411 | one projectile `update` takes the projectiles and their targets to the states of one loop iteration |
| Game.SweepProjectiles | js/scenes/GameScene.js:409-416 | the backward loop with `splice` ends with every projectile and target in the state `ResolveFrom` gives, and the list is exactly the unmarked projectiles in order |
| Game.TowerShots | js/scenes/GameScene.js:385-386 | the shots of the first n towers, in tower order: at most one per tower, each a live projectile with a non-null target |
| Game.StepTower | js/scenes/GameScene.js:386 | one tower's update changes only that tower, leaves every enemy as it was, and appends to the list exactly that tower's `Shot` as new projectiles, so the list stays repeat-free |
| Game.SweepTowers | js/scenes/GameScene.js:386 | each tower in turn takes its `TowerStep` against the enemies as they were, and the list gains exactly `TowerShots` over all towers: one `Launched` projectile per firing tower, in tower order, each new and distinct |
| Game.SweepEnemies | js/scenes/GameScene.js:389-406 | the backward loop with `splice` steps every enemy; it leaves exactly the survivors in order, adds every dead enemy's reward to gold, subtracts one life per escape, and raises game over exactly when an escape leaves lives at or below 0 |
| Game.GameScene.constructor | js/scenes/GameScene.js:6-35 | `create` sets starting gold and lives, wave 0, empty lists, the configured path, and the first wave due in 2000 ms |
| Game.GameScene.CanPlaceTower | js/scenes/GameScene.js:245-265 | true if and only if the cell centre is at least half a tile from the measured (clamped projection) point of every path segment and no tower stands on the cell |
| Game.GameScene.PlaceTower | js/scenes/GameScene.js:280-309 | with enough gold, it pays exactly the cost and appends exactly one new tower at the cell, with its type's config, at the cell centre, never fired and with no target; every tower in the scene keeps its type's config and cell-centre position (scene invariant); otherwise gold and towers are unchanged; everything else is always unchanged |
| Game.GameScene.StartWave | js/scenes/GameScene.js:311-331 | the scene's counters and schedule become `StartWaveSpec` of the old ones, and the entity lists are unchanged |
| Game.GameScene.SpawnEnemy | js/scenes/GameScene.js:323-326 | a spawn callback appends exactly one new enemy with the wave's stats at the path start |
| Game.GameScene.UpdateTowers | js/scenes/GameScene.js:385-386 | the tower phase takes every tower to its `TowerStep` and appends exactly one new projectile per firing tower, in tower order |
| Game.GameScene.UpdateEnemies | js/scenes/GameScene.js:388-406 | the enemy phase steps every enemy; the list becomes the survivors; gold gains the bounty; lives lose the escapes; the game-over flag is raised exactly when an escape leaves no lives |
| Game.GameScene.UpdateProjectiles | js/scenes/GameScene.js:408-416 | the projectile phase resolves every projectile and its target, and the list becomes exactly the unmarked projectiles in order |
| Game.GameScene.CheckWaveComplete | js/scenes/GameScene.js:418-421 | the end-of-frame check schedules another `startWave` exactly when no enemies remain between the first and the last wave |

## Left out

- All presentation: `createVisuals`, `updateVisuals`, tweens, impact effects, the UI texts, tower buttons and the placement preview. None of it affects game state.
- The input handler `setupInput`. The model of `placeTower` does not itself check the cell, because the source only checks it in the click handler before calling `placeTower`.
- The menu and boot scenes, the Phaser game construction, and the leaderboard server. These are not part of this model.
- Square roots. `Math.sqrt`, `Math.hypot` and `Phaser.Math.Distance.Between` are one function parameter, constrained by `IsHypot` where a proof needs it. IEEE floating-point rounding is not modelled: coordinates are exact reals.
- Phaser's `time.delayedCall` scheduler. Scheduled calls are `Scheduled` records in a list. Firing them after their delay is not modelled. The body of a spawn callback is `SpawnEnemy`, and the body of a start callback is `StartWave`.
- `gameOver` and `showVictory`. They only draw overlays and do not stop the game, so each is a flag.
- The top-level `GameScene.update` as a single method. Its three phases (towers, enemies, projectiles) and the wave check are separate methods, meant to be called in that order. A single method would need a frame covering every enemy that a tower or projectile refers to.
- Game.GameScene.UpdateEnemies: the enemy phase also requires `IsHypot`. The path's segment lengths must be positive, because `update` divides by them.
- Towers.Tower.Fire: returns the extended list instead of pushing onto `scene.projectiles`. The scene stores that list back.
- Geometry.DistanceToLineSegment: the measured point is proved to lie on the segment, and `SegmentParamProjection` proves the projection conditions that characterise the nearest point. The inequality that no other point of the segment is closer is not proved.
- Movement (`x += dx / distance * moveDistance`) is modelled exactly, and its length and direction are proved. Overshooting a waypoint is not ruled out; the source does not prevent it either.
- `pathProgress` is recomputed each frame from the current distance. Nothing is proved about it increasing, and the source does not make it monotone.
