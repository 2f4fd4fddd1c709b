# Spaceman rules, modelled in Dafny

Spaceman is an iOS shoot-'em-up built on SpriteKit. Its rules live in a
few classes:

- `GameLogic` keeps the score, the lives, the enemy spawn interval, the
  enemy speed multiplier and the two spawn timers. It resolves physics
  contacts and reports everything to a delegate.
- `SpaceShipLaserOverheat` gates the ship's laser: each shot adds heat up
  to a limit, and a two-phase timer cools the laser down.
- `SpaceShip` fires only when the laser allows it, and sets the flame
  speed from the vertical acceleration.
- `GameScene` runs the `gameState` machine (none, waiting, in game, game
  over). It reacts to the loss signal, pauses and resumes the spawners,
  and turns touches into shots and clamped moves of the player.

The project models these four classes and proves what they promise.

| file | module | models |
|---|---|---|
| `wrappers.dfy` | `Wrappers` | Swift optionals |
| `ints.dfy` | `Ints` | `min` and `max` on integers |
| `text.dfy` | `Text` | decimal rendering of an `Int` (`"\(n)"`) and its inverse |
| `session.dfy` | `Session` | `GameLogic` as values: each operation is a function from state to state; the lemmas hold the properties |
| `game_logic.dfy` | `Logic` | class `GameLogic`: fields updated in place, each method proved to follow the matching `Session` function |
| `heat.dfy` | `Heat` | `SpaceShipLaserOverheat` as values, with time counted in cool-off steps of 0.5 s |
| `laser_overheat.dfy` | `Overheat` | class `LaserOverheat`, each method proved to follow `Heat` |
| `space_ship.dfy` | `Ship` | class `SpaceShip`: the overheat gate of `fireBullet` and the flame speed of `accelerate` |
| `game_scene.dfy` | `Scene` | class `GameScene`: the state machine, the loss reaction, pausing, the touch handlers; `livesText`, `shouldExplodeNode` |

How the model represents the source:

- **Delegate.** A boolean says whether a delegate is attached. An outbound log, `calls`, records every delegate call in order. It also records the `removeFromParent` of a bullet node.
- **Units.** Seconds and the speed multiplier are whole tenths: 3.3 s is 33, a multiplier of 1.0 is 10. The bonus delay, drawn from [50, 120] s, is a parameter in [500, 1200].
- **Timers.** A timer is explicit state, and its firing is a method call (`SpawnEnemy`, `SpawnBonus`, `Elapse`).
- **Physics categories and the debug flag.** The category masks and the `GodMode` flag are defined outside this model, so they are parameters. The category masks are assumed distinct, and the contact lemmas also assume the order `player < enemy` and `bullet < enemy`, `nyanCat`.

The model keeps these quirks of the code:

- **The fourth escape ends the game.** The `willSet` of `lives` tests the value being replaced (`Session.FourthEscapeEndsGame`).
- **Game over does not stop the logic.** Escapes and contacts still change lives and score until the next start, and lives go below 0. The lives text shows these as 0 (`Scene.LivesText`).
- **A kill is credited whenever a delegate is attached.** The code compares the optional answer of `shouldExplodeNode` with `nil`, so an enemy the scene refuses to explode (above the top edge) still scores (`Scene.OffscreenKillScores`).
- **Resetting the score to 0 fires the 3000 branch.** The `didSet` takes the 3000 branch for a score of 0, raising the multiplier. `gameDidStart` then overwrites it (`Session.StartResets`).
- **A game lost by collision with 0 lives left is lost again at the next start.** The reset of `lives` replaces a 0, so the new game ends at once (`Session.StartWithZeroLivesLoses`).
- **The `touchesMoved` guard lets the `.none` state through.**

## Model

| member | source | states |
|---|---|---|
| Session.ScoreText | Spaceman/GameLogic.swift:61-63 | "SCORE : " followed by the score's decimal text: a sign exactly for a negative score, and otherwise digits that read back as the score |
| Session.ScoreTextInjective | Spaceman/GameLogic.swift:61-63 | two scores with the same "SCORE : n" text are equal |
| Session.ScoreObserver | Spaceman/GameLogic.swift:45-59 | the score `didSet`: the same value changes nothing; a new value is announced first, and the log gains exactly `scoreDidChange`, followed by `shouldIncreaseSpeed` only in the 1000 branch; a multiple of 3000 raises the multiplier by 0.1; a multiple of 1000 that is not one of 3000 lowers the interval by 0.5, floored at 0.5, and reschedules the enemy spawner at the new interval; in every other case interval and enemy spawner stay; lives, high score and bonus spawner do not move; no loss is signalled |
| Session.LivesObserver | Spaceman/GameLogic.swift:67-74 | the lives `willSet`: the log gains exactly `livesDidChange(old, new)`, even when equal, then `playerDidLose(false)` exactly when the replaced value is 0 and god mode is off; with no delegate the log is unchanged; the high score moves only in that case, and then to the score; the new value is not clamped |
| Session.GameOverHighScore | Spaceman/GameLogic.swift:36-41 | the high score is rewritten if and only if the score beats it, never lowered; then `playerDidLose(destroyed)` is the only call |
| Session.TouchEndsGame | Spaceman/GameLogic.swift:207-211 | with god mode off, an enemy touching the player is a game over with the player destroyed: one loss, signalled as `playerDidLose(true)`, with its high-score update; in god mode nothing changes |
| Session.FourthEscapeEndsGame | Spaceman/GameLogic.swift:67-74 | from three lives, three escapes announce (3,2), (2,1), (1,0) and nothing else; the fourth announces (0,-1), then signals the loss, and lives become -1 |
| Session.StartWithZeroLivesLoses | Spaceman/GameLogic.swift:174-177 | starting with 0 lives and god mode off signals exactly one loss |
| Session.StartCalls | Spaceman/GameLogic.swift:174-177 | a start tells the delegate, in order: `scoreDidChange(0)` when the score was not 0, `livesDidChange(old, 3)` always, and `playerDidLose(false)` when the replaced lives were 0 outside god mode; nothing else |
| Session.ScoreTextOfZero | Spaceman/GameLogic.swift:61-63 | a reset score reads "SCORE : 0" |
| Session.StartResets | Spaceman/GameLogic.swift:174-187 | a start restores score 0, 3 lives, interval 3.3 s and multiplier 1.0, schedules both spawners, and keeps the high score except when the lives reset ends a game with a negative high score; the speed-up the score reset fires is overwritten |
| Session.StopAndRestart | Spaceman/GameLogic.swift:189-199 | stopping clears both spawners and nothing else; restarting schedules them again, the enemy spawner at the current interval, and changes nothing else |
| Session.KillScoreThresholds | Spaceman/GameLogic.swift:49-52 | 579 n is a multiple of 1000 if and only if n is a multiple of 1000, and then also a multiple of 3000 |
| Session.KillStep | Spaceman/GameLogic.swift:201 | from score 579 m, a kill reaches 579 (m + 1), raises the multiplier exactly when m + 1 is a multiple of 1000, and leaves the interval, spawners, lives and high score alone |
| Session.KillsFromScore | Spaceman/GameLogic.swift:201 | k kills from 579 m reach 579 (m + k); the multiplier rises once per multiple of 1000 kills crossed; the interval never changes |
| Session.KillsAfterStart | Spaceman/GameLogic.swift:174-201 | after a start and k kills: score 579 k, 3 lives, interval 3.3 s, multiplier 1.0 + 0.1 (k / 1000) |
| Session.ContactSymmetric | Spaceman/GameLogic.swift:124-136 | with distinct categories, the outcome of a contact does not depend on which body comes first |
| Session.PlayerEnemyContact | Spaceman/GameLogic.swift:138-146 | player and enemy, in either order: the enemy is offered for explosion, then the touch is handled |
| Session.BulletEnemyContact | Spaceman/GameLogic.swift:148-157 | bullet and enemy, in either order, go to the bullet-hits-enemy branch |
| Session.BulletHitsEnemyEffect | Spaceman/GameLogic.swift:149-157 | a kill of 579 is credited if and only if the enemy node exists and a delegate is attached, whatever its answer; lives stay; the bullet is removed, last |
| Session.BulletBonusContact | Spaceman/GameLogic.swift:159-168 | bullet and bonus, in either order, go to the bullet-hits-bonus branch |
| Session.BulletHitsBonusEffect | Spaceman/GameLogic.swift:160-168 | one extra life if and only if the bonus node exists; the score stays; the bullet is removed, last |
| Session.OtherContactIgnored | Spaceman/GameLogic.swift:124-170 | any other pair of categories changes nothing |
| Session.ContactStep | Spaceman/GameLogic.swift:124-170 | a contact keeps the state consistent, adds at most one kill, leaves the interval, never lowers the multiplier, signals at most one loss and keeps the delegate |
| Session.StepInvariant | Spaceman/GameLogic.swift:45-211 | every event keeps the state consistent; the score changes only by one kill or the reset to 0; the interval changes only by the reset; the multiplier falls only by the reset; at most one loss per event |
| Session.RunInvariant | Spaceman/GameLogic.swift:45-211 | over any sequence of events the state stays consistent (the score is a multiple of 579, the interval within [0.5, 3.3] s, the spawners consistent), and an interval of 3.3 s stays at 3.3 s |
| Session.InitialConsistent | Spaceman/GameLogic.swift:25-28 | a new `GameLogic` is consistent |
| Logic.GameLogic.constructor | Spaceman/GameLogic.swift:25-32 | a new logic holds the defaults, no timers, no delegate and the stored high score |
| Logic.GameLogic.SetDelegate | Spaceman/GameLogic.swift:32 | only the delegate changes |
| Logic.GameLogic.Notify | Spaceman/GameLogic.swift:32 | a call is recorded exactly when a delegate is attached |
| Logic.GameLogic.GameOver | Spaceman/GameLogic.swift:36-41 | the new state is `Session.GameOver` of the old |
| Logic.GameLogic.ScoreText | Spaceman/GameLogic.swift:61-63 | the text of the current score is `Session.ScoreText` of it, which identifies the score (`Session.ScoreTextInjective`) |
| Logic.GameLogic.SetScore | Spaceman/GameLogic.swift:45-59 | the new state is `Session.AssignScore` of the old |
| Logic.GameLogic.SetLives | Spaceman/GameLogic.swift:67-74 | the new state is `Session.AssignLives` of the old |
| Logic.GameLogic.SpawnEnemy | Spaceman/GameLogic.swift:82-84 | a scheduled enemy spawner asks for an enemy at the current multiplier |
| Logic.GameLogic.StartSpawningEnemies | Spaceman/GameLogic.swift:86-92 | the enemy spawner is scheduled at the current interval |
| Logic.GameLogic.StopSpawningEnemies | Spaceman/GameLogic.swift:94-97 | the enemy spawner is cleared |
| Logic.GameLogic.SpawnBonus | Spaceman/GameLogic.swift:103-106 | a scheduled bonus spawner asks for a bonus and schedules itself again after the new delay |
| Logic.GameLogic.StartSpawningBonus | Spaceman/GameLogic.swift:108-115 | the bonus spawner is scheduled after the given delay |
| Logic.GameLogic.StopSpawningBonus | Spaceman/GameLogic.swift:117-120 | the bonus spawner is cleared |
| Logic.GameLogic.RemoveFromParent | Spaceman/GameLogic.swift:156 | an existing node's removal is recorded |
| Logic.GameLogic.DidBegin | Spaceman/GameLogic.swift:124-170 | the new state is `Session.DidBegin` of the old: the ordered pair, then three independent tests |
| Logic.GameLogic.GameDidStart | Spaceman/GameLogic.swift:174-187 | the new state is `Session.GameDidStart` of the old |
| Logic.GameLogic.GameDidStop | Spaceman/GameLogic.swift:189-192 | both spawners are cleared |
| Logic.GameLogic.GameDidRestart | Spaceman/GameLogic.swift:194-199 | both spawners are scheduled again |
| Logic.GameLogic.EnemyKilled | Spaceman/GameLogic.swift:201 | the score is assigned the old score plus 579 |
| Logic.GameLogic.EnemyEscaped | Spaceman/GameLogic.swift:203 | lives are assigned the old value minus 1 |
| Logic.GameLogic.BonusKilled | Spaceman/GameLogic.swift:205 | lives are assigned the old value plus 1 |
| Logic.GameLogic.EnemyTouchesPlayer | Spaceman/GameLogic.swift:207-211 | the game is over, destroyed, unless god mode is on |
| Heat.OperationsKeepValid | Spaceman/spaceship/SpaceShipLaserOverheat.swift:86-118 | shots, time, cool-off and infinite shooting keep heat within [0, limit]; so does an upgrade that does not lower the limit |
| Heat.ShotEffect | Spaceman/spaceship/SpaceShipLaserOverheat.swift:86-108 | with infinite shooting a shot changes nothing; otherwise heat rises by one up to the limit, and the two-step first phase is armed afresh |
| Heat.ElapseCools | Spaceman/spaceship/SpaceShipLaserOverheat.swift:48-78 | time never heats the laser, cools it by at most one per step, keeps it at or above 0, and leaves the limit alone |
| Heat.ShotsSaturate | Spaceman/spaceship/SpaceShipLaserOverheat.swift:92-93 | n shots in a row raise the heat by n, up to the limit |
| Heat.LimitShotsBlock | Spaceman/spaceship/SpaceShipLaserOverheat.swift:82-84 | from a cold laser, `heatLimit` shots in a row block the next one |
| Heat.RepeatingPhase | Spaceman/spaceship/SpaceShipLaserOverheat.swift:62-76 | the repeating phase removes one unit per step until 0, then stops its timer, and reports nothing |
| Heat.CooldownAfterShot | Spaceman/spaceship/SpaceShipLaserOverheat.swift:48-78 | after a shot nothing happens for one step; at the second step the remaining time is reported once; after 2 + k steps k + 1 units are gone, down to 0 |
| Heat.CoolOffResets | Spaceman/spaceship/SpaceShipLaserOverheat.swift:110-114 | cooling off leaves a cold laser and no timer, which time no longer changes; switching infinite shooting on cools off; switching it off changes nothing else |
| Heat.InfiniteStaysCold | Spaceman/spaceship/SpaceShipLaserOverheat.swift:29-35 | with infinite shooting on, every shot is allowed and the laser stays cold |
| Heat.UpgradeOnlyLimit | Spaceman/spaceship/SpaceShipLaserOverheat.swift:116-118 | an upgrade moves the limit by the increase and nothing else |
| Overheat.LaserOverheat.constructor | Spaceman/spaceship/SpaceShipLaserOverheat.swift:16-43 | a new laser is cold, limit 20, no timer, no observer |
| Overheat.LaserOverheat.SetStartsToCoolOff | Spaceman/spaceship/SpaceShipLaserOverheat.swift:43 | only the observer is set |
| Overheat.LaserOverheat.CanShoot | Spaceman/spaceship/SpaceShipLaserOverheat.swift:82-84 | a laser at its limit without infinite shooting cannot shoot |
| Overheat.LaserOverheat.DidShot | Spaceman/spaceship/SpaceShipLaserOverheat.swift:86-108 | the new state is `Heat.DidShot` of the old, and heat stays in range |
| Overheat.LaserOverheat.CoolOffCallback | Spaceman/spaceship/SpaceShipLaserOverheat.swift:48-78 | the new state is `Heat.CoolOffCallback` of the old |
| Overheat.LaserOverheat.Elapse | Spaceman/spaceship/SpaceShipLaserOverheat.swift:102-106 | the new state is `Heat.Elapse` of the old; heat never rises and stays in range |
| Overheat.LaserOverheat.CoolOff | Spaceman/spaceship/SpaceShipLaserOverheat.swift:110-114 | heat 0 and no timer |
| Overheat.LaserOverheat.SetInfiniteShoot | Spaceman/spaceship/SpaceShipLaserOverheat.swift:29-35 | the new state is `Heat.SetInfiniteShoot` of the old, and heat stays in range |
| Overheat.LaserOverheat.Upgrade | Spaceman/spaceship/SpaceShipLaserOverheat.swift:116-118 | the new state is `Heat.Upgrade` of the old |
| Ship.FlameSpeed | Spaceman/spaceship/SpaceShip.swift:82-90 | 300 exactly above 4, 20 exactly below -4, 100 exactly within [-4, 4] |
| Ship.SpaceShip.constructor | Spaceman/spaceship/SpaceShip.swift:18-42 | a new ship carries a new, cold laser |
| Ship.SpaceShip.FireBullet | Spaceman/spaceship/SpaceShip.swift:48-80 | fires exactly when the laser can shoot, and then records the shot; always fires with infinite shooting; heat stays in range |
| Ship.SpaceShip.Accelerate | Spaceman/spaceship/SpaceShip.swift:82-90 | the flame speed becomes `FlameSpeed` of the acceleration; the position stays |
| Scene.Clamp | Spaceman/GameScene.swift:626-634 | the result never exceeds the upper bound, reaches the lower one when the bounds are ordered, and is the value itself when it is within them |
| Scene.DragOne | Spaceman/GameScene.swift:621-641 | one drag lands inside the band whenever the band is not empty |
| Scene.DragAll | Spaceman/GameScene.swift:613-645 | after at least one drag the player is inside the band |
| Scene.DragsInsideAreExact | Spaceman/GameScene.swift:626-634 | drags that never leave the band are followed exactly |
| Scene.LivesText | Spaceman/GameScene.swift:150-152 | "LIVES : " followed by digits that read as the lives, or as 0 when negative |
| Scene.LivesTextAgree | Spaceman/GameScene.swift:150-152 | two lives counts read alike exactly when they agree once negatives are shown as 0 |
| Scene.ScoreLabelAfter | Spaceman/GameScene.swift:349-354 | the score label is `ScoreText(0)` when the calls reset the score to 0, and keeps its text otherwise |
| Scene.LivesLabelAfter | Spaceman/GameScene.swift:387-392 | the lives label keeps its text when no call left the count unchanged, and shows the count of the last call when that call left it unchanged |
| Scene.StartLabels | Spaceman/GameLogic.swift:174-177 | the calls of a start leave the score label at `ScoreText(0)` exactly when the score was not 0, and rewrite the lives label exactly when the lives were 3 |
| Scene.ShouldExplode | Spaceman/GameScene.swift:510-518 | anything but an enemy explodes; an enemy explodes exactly when it is below the top edge (what the logic does with the answer: `Scene.OffscreenKillScores`) |
| Scene.OffscreenKillScores | Spaceman/GameScene.swift:510-518 | an enemy at or above the top edge is not exploded, yet the logic credits the kill |
| Scene.GameScene.constructor | Spaceman/GameScene.swift:197-225 | a new scene: state none, a new logic with the scene as its delegate, a new ship with a cold laser |
| Scene.GameScene.DidMove | Spaceman/GameScene.swift:231-291 | the labels show the score and lives texts; the state is waiting; the indicator observes the laser; the flame, indicator, transitions and pause stay |
| Scene.GameScene.EnterWaiting | Spaceman/GameScene.swift:156-169 | the player waits below the screen, centred, and no transition is in progress |
| Scene.GameScene.PlayerDidLose | Spaceman/GameScene.swift:425-454 | a transition starts, the indicator empties, the laser cools off |
| Scene.GameScene.ReactToLoss | Spaceman/GameScene.swift:425-433 | the loss reaction runs exactly when the logic has signalled a loss |
| Scene.GameScene.EnterInGame | Spaceman/GameScene.swift:171-188 | the logic starts a game; the score label shows `ScoreText(0)` when the score was reset from another value, and the lives label is rewritten when the lives were already 3, otherwise both keep their text; a loss signalled by the start is handled; the player enters from below the screen; pause and flame stay |
| Scene.GameScene.StartLogic | Spaceman/GameScene.swift:171-174 | the logic's start, with the two immediate label writes it causes: `ScoreText(0)` after a reset from another score, the lives text of 3 when the lives were 3 |
| Scene.GameScene.ReactToLabels | Spaceman/GameScene.swift:349-391 | after the logic's calls from a given index on, the labels are `ScoreLabelAfter` and `LivesLabelAfter` of those calls; nothing else in the scene changes |
| Scene.GameScene.WriteLabels | Spaceman/GameScene.swift:349-391 | one delegate call extends both label functions by that call |
| Scene.GameScene.EnterGameOver | Spaceman/GameScene.swift:190-193 | the spawners stop and the scene waits again; labels, indicator, transitions, pause and flame stay |
| Scene.GameScene.GameOverTransitionDone | Spaceman/GameScene.swift:435-438 | the transition ends, the state becomes game over, the spawners stop and the player waits below; labels, indicator, pause and flame stay |
| Scene.GameScene.TouchesBegan | Spaceman/GameScene.swift:583-601 | ignored during a transition and in the none state, the player and the labels included; from waiting or game over, starts a game with the label writes of `EnterInGame`, and the loss reaction (empty indicator, one pending transition, cooled laser) runs exactly when the start signals a loss, otherwise indicator, transitions and laser stay; in game, fires when the laser allows and updates the indicator only then, the player's position, flame and labels staying; pause never changes |
| Scene.GameScene.TouchesMoved | Spaceman/GameScene.swift:603-647 | ignored during a transition, while waiting and at game over; otherwise the first two touches move the player, each clamped to the band (`allowVerticalMove` is the constant true), and the first sets the flame from the clamped vertical move |
| Scene.GameScene.SetPaused | Spaceman/GameScene.swift:293-303 | in game, pausing stops the spawners and resuming restarts them; otherwise the logic is untouched; labels, indicator and transitions stay |
| Scene.GameScene.EnemyDidEscape | Spaceman/GameScene.swift:478-480 | the logic handles the escape, and the scene reacts exactly when a loss is signalled; state, pause and labels stay |
| Scene.GameScene.Contact | Spaceman/GameScene.swift:233 | the logic handles the contact, and the scene reacts exactly when a loss is signalled; state, pause and labels stay |

## Left out

- Rendering, sprites, textures, sounds and the scrolling star field are not modelled. Neither are `update`, `setStarsSpeed`, `shouldIncreaseSpeed`'s speed-up and the planets. None of them affects the rules.
- The animated label updates of `scoreDidChange` and `livesDidChange` are not modelled: a changed score other than 0 and a changed lives count reach their labels only after an animation. The immediate writes are modelled (`ReactToLabels`) for a start, the one event that causes them. Escapes, kills and bonuses change the score by 579 or the lives by one, so their label updates are always the animated kind, and `EnemyDidEscape` and `Contact` leave the labels as they were.
- Enemy and bonus creation in `shouldSpawnEnemy` and `shouldSpawnBonus` is not modelled: background queues, random paths, `EnemyNode` and `NyanCat` geometry. The calls are recorded in the log.
- Real time is not modelled. Every timer is explicit state and its firing is a method call, and the overheat timer ticks in steps of 0.5 s.
- Random draws are parameters: the bonus delay is a whole number of tenths in [50, 120] s.
- The high score in the user defaults is a field set at creation.
- `GodMode` and the physics category masks are defined in files that are not part of this model, so they are parameters. The player's category change under god mode in `didMove` is not modelled.
- Swift's `Int` overflow trap is not modelled. Score, lives and heat are unbounded integers.
- Floating-point arithmetic is exact: `CGFloat` intervals and multipliers are whole tenths, and `overheatRatio` is recorded as the pair (heat, limit).
- The indicator's cool-off animation is a log of the remaining times handed to it. They are counted in steps.
- The delegate's `playerDidLose` runs inside the logic call in the source. Here it runs right after the call returns. The handler touches only scene and laser state, which the rest of the logic call never reads.
- The player's appear, hide and explosion animations are not modelled, nor the 0.1 s dispatch delay. The completion that ends a game-over transition is the explicit step `GameOverTransitionDone`.
- Concurrency is not modelled. Background dispatches and engine callbacks arrive as one method call at a time.
- The touches of `touchesMoved` form a `Set` in the source. Here they are a sequence in iteration order.
- `fireEmitter` is assumed present, so `accelerate` always sets a flame speed.
- Ship.SpaceShip.FireBullet: the bullet's node, its sound, its flight and its removal at the top are not modelled. Only the overheat gate and the heat are.
- Session.ScoreObserver: the `scoreDidChange` call records the new score only. The text that goes with it is `scoreText()` read after the assignment, which is `ScoreText` of that score (`Logic.GameLogic.ScoreText`).
