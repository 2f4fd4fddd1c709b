/** The class `GameLogic` of Spaceman/GameLogic.swift: stored properties
    updated in place, with the `didSet` of `score` and the `willSet` of
    `lives` written out as the setters `SetScore` and `SetLives`. Each
    method is proved to move `Snapshot()` exactly as the matching function
    of `Session` does. */
module Logic {
  import opened Wrappers
  import opened Session
  import opened Ints

  class GameLogic {
    /** The GodMode debug flag. */
    const godMode: bool
    /** The physics category masks. */
    const categories: Categories

    /** Whether the weak `delegate` reference is set. */
    var delegate: bool
    var score: int
    var lives: int
    /** `spawnEnemiesInterval`, in tenths of a second. */
    var interval: int
    /** `enemiesSpeedMultiplier`, in tenths. */
    var multiplier: int
    var enemiesSpawner: Timer
    var bonusSpawner: Timer
    /** The high score kept in the user defaults. */
    var highScore: int
    /** Every outbound call so far, in order. */
    var calls: seq<Call>

    function Snapshot(): State
      reads this
    {
      State(godMode, delegate, score, lives, interval, multiplier,
            enemiesSpawner, bonusSpawner, highScore, calls)
    }

    constructor (godMode: bool, categories: Categories, storedHighScore: int)
      ensures Snapshot() == Initial(godMode, storedHighScore)
      ensures this.categories == categories
    {
      this.godMode := godMode;
      this.categories := categories;
      delegate := false;
      score := DefaultScore;
      lives := DefaultLives;
      interval := DefaultInterval;
      multiplier := DefaultMultiplier;
      enemiesSpawner := Stopped;
      bonusSpawner := Stopped;
      highScore := storedHighScore;
      calls := [];
    }

    /** `gameLogic.delegate = self` (or `nil`). */
    method SetDelegate(present: bool)
      modifies this
      ensures Snapshot() == old(Snapshot()).(delegate := present)
    {
      delegate := present;
    }

    /** `delegate?.c` */
    method Notify(c: Call)
      modifies this
      ensures Snapshot() == Emit(old(Snapshot()), c)
    {
      if delegate {
        calls := calls + [c];
      }
    }

    method GameOver(destroyed: bool)
      modifies this
      ensures Snapshot() == Session.GameOver(old(Snapshot()), destroyed)
    {
      if score > highScore {
        highScore := score;
      }
      Notify(PlayerDidLose(destroyed));
    }

    function ScoreText(): (text: string)
      reads this
      ensures text == Session.ScoreText(score)
    {
      Session.ScoreText(score)
    }

    /** `score = v` with its `didSet` observer. */
    method SetScore(v: int)
      modifies this
      ensures Snapshot() == AssignScore(old(Snapshot()), v)
    {
      var oldValue := score;
      score := v;
      if oldValue != score {
        // the text passed along is `ScoreText()`, a function of the new score
        Notify(ScoreDidChange(score));
        if score % SpeedUpScore == 0 {
          multiplier := multiplier + MultiplierStep;
        } else if score % FasterSpawnScore == 0 {
          interval := Max(IntervalFloor, interval - IntervalStep);
          StopSpawningEnemies();
          StartSpawningEnemies();
          Notify(ShouldIncreaseSpeed);
        }
      }
    }

    /** `lives = v` with its `willSet` observer. */
    method SetLives(v: int)
      modifies this
      ensures Snapshot() == AssignLives(old(Snapshot()), v)
    {
      Notify(LivesDidChange(lives, v));
      if lives == 0 && !godMode {
        GameOver(false);
      }
      lives := v;
    }

    /** The enemy spawner fires. */
    method SpawnEnemy()
      modifies this
      ensures Snapshot() == Session.SpawnEnemy(old(Snapshot()))
    {
      if enemiesSpawner.Scheduled? {
        Notify(ShouldSpawnEnemy(multiplier));
      }
    }

    method StartSpawningEnemies()
      modifies this
      ensures Snapshot() == StartEnemies(old(Snapshot()))
    {
      enemiesSpawner := Scheduled(interval);
    }

    method StopSpawningEnemies()
      modifies this
      ensures Snapshot() == StopEnemies(old(Snapshot()))
    {
      enemiesSpawner := Stopped;
    }

    /** The bonus spawner fires; `delay` is the next random wait. */
    method SpawnBonus(delay: int)
      requires MinBonusDelay <= delay <= MaxBonusDelay
      modifies this
      ensures Snapshot() == Session.SpawnBonus(old(Snapshot()), delay)
    {
      if bonusSpawner.Scheduled? {
        Notify(ShouldSpawnBonus);
        StartSpawningBonus(delay);
      }
    }

    /** `delay` stands for the draw of `random(min: 50.0, max: 120.0)`. */
    method StartSpawningBonus(delay: int)
      requires MinBonusDelay <= delay <= MaxBonusDelay
      modifies this
      ensures Snapshot() == StartBonus(old(Snapshot()), delay)
    {
      bonusSpawner := Scheduled(delay);
    }

    method StopSpawningBonus()
      modifies this
      ensures Snapshot() == StopBonus(old(Snapshot()))
    {
      bonusSpawner := Stopped;
    }

    method RemoveFromParent(node: Option<NodeId>)
      modifies this
      ensures Snapshot() == RemoveNode(old(Snapshot()), node)
    {
      if node.Some? {
        calls := calls + [Call.RemoveFromParent(node.value)];
      }
    }

    /** The physics contact callback. */
    method DidBegin(a: Body, b: Body)
      modifies this
      ensures Snapshot() == Session.DidBegin(old(Snapshot()), categories, a, b)
    {
      var body1, body2;
      if a.category < b.category {
        body1, body2 := a, b;
      } else {
        body1, body2 := b, a;
      }
      ghost var s0 := Snapshot();

      if body1.category == categories.player && body2.category == categories.enemy {
        if body2.node.Some? {
          Notify(ShouldExplodeNode(body2.node.value));
        }
        EnemyTouchesPlayer();
      }
      assert Snapshot() == (if body1.category == categories.player && body2.category == categories.enemy
                            then PlayerHitsEnemy(s0, body2) else s0);
      ghost var s1 := Snapshot();

      if body1.category == categories.bullet && body2.category == categories.enemy {
        // `delegate?.shouldExplodeNode(node) != nil` holds whenever a
        // delegate answers, whatever its answer
        if body2.node.Some? && delegate {
          Notify(ShouldExplodeNode(body2.node.value));
          EnemyKilled();
        }
        RemoveFromParent(body1.node);
      }
      assert Snapshot() == (if body1.category == categories.bullet && body2.category == categories.enemy
                            then BulletHitsEnemy(s1, body1, body2) else s1);

      if body1.category == categories.bullet && body2.category == categories.nyanCat {
        if body2.node.Some? {
          Notify(ShouldExplodeNode(body2.node.value));
          BonusKilled();
        }
        RemoveFromParent(body1.node);
      }
    }

    method GameDidStart(delay: int)
      requires MinBonusDelay <= delay <= MaxBonusDelay
      modifies this
      ensures Snapshot() == Session.GameDidStart(old(Snapshot()), delay)
    {
      SetScore(DefaultScore);
      SetLives(DefaultLives);
      interval := DefaultInterval;
      multiplier := DefaultMultiplier;

      StopSpawningEnemies();
      StartSpawningEnemies();

      StopSpawningBonus();
      StartSpawningBonus(delay);
    }

    method GameDidStop()
      modifies this
      ensures Snapshot() == Session.GameDidStop(old(Snapshot()))
    {
      StopSpawningEnemies();
      StopSpawningBonus();
    }

    method GameDidRestart(delay: int)
      requires MinBonusDelay <= delay <= MaxBonusDelay
      modifies this
      ensures Snapshot() == Session.GameDidRestart(old(Snapshot()), delay)
    {
      StopSpawningEnemies();
      StartSpawningEnemies();
      StopSpawningBonus();
      StartSpawningBonus(delay);
    }

    method EnemyKilled()
      modifies this
      ensures Snapshot() == Session.EnemyKilled(old(Snapshot()))
    {
      SetScore(score + KillPoints);
    }

    method EnemyEscaped()
      modifies this
      ensures Snapshot() == Session.EnemyEscaped(old(Snapshot()))
    {
      SetLives(lives - 1);
    }

    method BonusKilled()
      modifies this
      ensures Snapshot() == Session.BonusKilled(old(Snapshot()))
    {
      SetLives(lives + 1);
    }

    method EnemyTouchesPlayer()
      modifies this
      ensures Snapshot() == Session.EnemyTouchesPlayer(old(Snapshot()))
    {
      if !godMode {
        GameOver(true);
      }
    }
  }
}
