/** The rule engine of a play session (Spaceman/GameLogic.swift) as values.

    A `State` holds every stored property of `GameLogic` plus the outbound
    log `calls`: each call made on the delegate, in order, and each
    `removeFromParent` issued on a bullet node. Each operation of the class
    is a function from the state before to the state after; the class
    `Logic.GameLogic` is proved to follow these functions step by step.

    Units: seconds and the enemy speed multiplier are integer tenths
    (3.3 s is 33, a multiplier of 1.0 is 10). */
module Session {
  import opened Wrappers
  import Text
  import opened Ints

  const DefaultLives := 3
  const DefaultScore := 0
  const DefaultInterval := 33
  const DefaultMultiplier := 10
  const KillPoints := 579
  const IntervalStep := 5
  const IntervalFloor := 5
  const MultiplierStep := 1
  const SpeedUpScore := 3000
  const FasterSpawnScore := 1000
  /** The bonus delay is drawn from [50, 120] seconds. */
  const MinBonusDelay := 500
  const MaxBonusDelay := 1200

  type NodeId = int

  /** An outbound call: the delegate's seven methods, then node removal.
      `scoreDidChange` also passes `scoreText()`, read after the assignment;
      that text is `ScoreText(score)` of the score recorded here. */
  datatype Call =
    | ScoreDidChange(score: int)
    | LivesDidChange(oldLives: int, newLives: int)
    | PlayerDidLose(destroyed: bool)
    | ShouldSpawnEnemy(enemySpeedMultiplier: int)
    | ShouldSpawnBonus
    | ShouldExplodeNode(node: NodeId)
    | ShouldIncreaseSpeed
    | RemoveFromParent(node: NodeId)

  /** A run-loop timer: either not scheduled, or scheduled with its interval
      (the repeat period of the enemy spawner, the one-shot delay of the
      bonus spawner). */
  datatype Timer = Stopped | Scheduled(interval: int)

  /** One side of a physics contact: its category bit mask and its node,
      which may already be gone. */
  datatype Body = Body(category: int, node: Option<NodeId>)

  /** The values of the physics category masks. */
  datatype Categories = Categories(player: int, bullet: int, enemy: int, nyanCat: int)
  {
    predicate Distinct() {
      && player != bullet && player != enemy && player != nyanCat
      && bullet != enemy && bullet != nyanCat && enemy != nyanCat
    }

    /** The order the contact resolution relies on. */
    predicate Ordered() {
      Distinct() && player < enemy && bullet < enemy && bullet < nyanCat
    }
  }

  datatype State = State(
    godMode: bool,
    delegate: bool,
    score: int,
    lives: int,
    interval: int,
    multiplier: int,
    enemySpawner: Timer,
    bonusSpawner: Timer,
    highScore: int,
    calls: seq<Call>)

  /** A freshly created `GameLogic`, with no delegate yet. */
  function Initial(godMode: bool, highScore: int): State {
    State(godMode, false, DefaultScore, DefaultLives, DefaultInterval, DefaultMultiplier,
          Stopped, Stopped, highScore, [])
  }

  /** `delegate?.c`: the call happens only when a delegate is attached. */
  function Emit(s: State, c: Call): State {
    if s.delegate then s.(calls := s.calls + [c]) else s
  }

  /** The number of game-over signals in a log. */
  function Losses(cs: seq<Call>): nat {
    if cs == [] then 0
    else Losses(cs[..|cs| - 1]) + (if cs[|cs| - 1].PlayerDidLose? then 1 else 0)
  }

  /** Appending one call adds one loss exactly when it is a loss. */
  lemma LossesAppend(cs: seq<Call>, c: Call)
    ensures Losses(cs + [c]) == Losses(cs) + (if c.PlayerDidLose? then 1 else 0)
  {
    assert (cs + [c])[..|cs|] == cs;
  }

  /** `scoreText()`: the score after "SCORE : ", a sign before a negative one. */
  function ScoreText(score: int): (text: string)
    ensures |text| > 8 && text[..8] == "SCORE : "
    ensures (text[8] == '-') <==> score < 0
    ensures score >= 0 ==> Text.AllDigits(text[8..]) && Text.ParseDigits(text[8..]) == score
  {
    assert ("SCORE : " + Text.IntText(score))[8..] == Text.IntText(score);
    "SCORE : " + Text.IntText(score)
  }

  /** The text a reset score shows. */
  lemma ScoreTextOfZero()
    ensures ScoreText(0) == "SCORE : 0"
  {
  }

  /** The score text identifies the score. */
  lemma ScoreTextInjective(a: int, b: int)
    requires ScoreText(a) == ScoreText(b)
    ensures a == b
  {
    assert Text.IntText(a) == ScoreText(a)[8..] == ScoreText(b)[8..] == Text.IntText(b);
    Text.IntTextInjective(a, b);
  }

  // ----- spawners

  function StopEnemies(s: State): State {
    s.(enemySpawner := Stopped)
  }

  function StartEnemies(s: State): State {
    s.(enemySpawner := Scheduled(s.interval))
  }

  function StopBonus(s: State): State {
    s.(bonusSpawner := Stopped)
  }

  function StartBonus(s: State, delay: int): State {
    s.(bonusSpawner := Scheduled(delay))
  }

  /** The enemy spawner fires: it asks for an enemy at the current speed. */
  function SpawnEnemy(s: State): State {
    if s.enemySpawner.Scheduled? then Emit(s, ShouldSpawnEnemy(s.multiplier)) else s
  }

  /** The one-shot bonus spawner fires: it asks for a bonus and schedules
      itself again after `delay`. */
  function SpawnBonus(s: State, delay: int): State {
    if s.bonusSpawner.Scheduled? then StartBonus(Emit(s, ShouldSpawnBonus), delay) else s
  }

  // ----- the observed properties

  /** Assigning `score`, with its `didSet` observer. */
  function AssignScore(s: State, v: int): State {
    var t := s.(score := v);
    if s.score == v then t
    else
      var t := Emit(t, ScoreDidChange(v));
      if v % SpeedUpScore == 0 then
        t.(multiplier := t.multiplier + MultiplierStep)
      else if v % FasterSpawnScore == 0 then
        var t := t.(interval := Max(IntervalFloor, t.interval - IntervalStep));
        Emit(StartEnemies(StopEnemies(t)), ShouldIncreaseSpeed)
      else t
  }

  /** Game over: a better score replaces the stored high score, then the
      delegate learns that the player lost. */
  function GameOver(s: State, destroyed: bool): State {
    var t := if s.score > s.highScore then s.(highScore := s.score) else s;
    Emit(t, PlayerDidLose(destroyed))
  }

  /** Assigning `lives`, with its `willSet` observer, which looks at the
      value being replaced. */
  function AssignLives(s: State, v: int): State {
    var t := Emit(s, LivesDidChange(s.lives, v));
    var t := if s.lives == 0 && !s.godMode then GameOver(t, false) else t;
    t.(lives := v)
  }

  // ----- the public operations

  function EnemyKilled(s: State): State {
    AssignScore(s, s.score + KillPoints)
  }

  function EnemyEscaped(s: State): State {
    AssignLives(s, s.lives - 1)
  }

  function BonusKilled(s: State): State {
    AssignLives(s, s.lives + 1)
  }

  function EnemyTouchesPlayer(s: State): State {
    if !s.godMode then GameOver(s, true) else s
  }

  function GameDidStart(s: State, delay: int): State {
    var t := AssignScore(s, DefaultScore);
    var t := AssignLives(t, DefaultLives);
    var t := t.(interval := DefaultInterval, multiplier := DefaultMultiplier);
    var t := StartEnemies(StopEnemies(t));
    StartBonus(StopBonus(t), delay)
  }

  function GameDidStop(s: State): State {
    StopBonus(StopEnemies(s))
  }

  function GameDidRestart(s: State, delay: int): State {
    StartBonus(StopBonus(StartEnemies(StopEnemies(s))), delay)
  }

  // ----- contact resolution

  /** The two bodies by category: strictly smaller first, bodyB first on a tie. */
  function Order(a: Body, b: Body): (Body, Body) {
    if a.category < b.category then (a, b) else (b, a)
  }

  /** `node?.removeFromParent()`. */
  function RemoveNode(s: State, node: Option<NodeId>): State {
    if node.Some? then s.(calls := s.calls + [RemoveFromParent(node.value)]) else s
  }

  /** Player and enemy: the enemy is offered for explosion (the answer is
      ignored), then the touch is handled. */
  function PlayerHitsEnemy(s: State, enemy: Body): State {
    EnemyTouchesPlayer(if enemy.node.Some? then Emit(s, ShouldExplodeNode(enemy.node.value)) else s)
  }

  /** Bullet and enemy: the kill is credited when `shouldExplodeNode`
      returns anything at all, that is, whenever a delegate is attached;
      then the bullet goes. */
  function BulletHitsEnemy(s: State, bullet: Body, enemy: Body): State {
    var t :=
      if enemy.node.Some? && s.delegate then EnemyKilled(Emit(s, ShouldExplodeNode(enemy.node.value)))
      else s;
    RemoveNode(t, bullet.node)
  }

  /** Bullet and bonus: the bonus is offered for explosion and an extra life
      is granted; then the bullet goes. */
  function BulletHitsBonus(s: State, bullet: Body, bonus: Body): State {
    var t := if bonus.node.Some? then BonusKilled(Emit(s, ShouldExplodeNode(bonus.node.value))) else s;
    RemoveNode(t, bullet.node)
  }

  /** `didBegin`: three independent tests on the ordered pair. */
  function DidBegin(s: State, cats: Categories, a: Body, b: Body): State {
    var (b1, b2) := Order(a, b);
    var t1 := if b1.category == cats.player && b2.category == cats.enemy then PlayerHitsEnemy(s, b2) else s;
    var t2 := if b1.category == cats.bullet && b2.category == cats.enemy then BulletHitsEnemy(t1, b1, b2) else t1;
    if b1.category == cats.bullet && b2.category == cats.nyanCat then BulletHitsBonus(t2, b1, b2) else t2
  }

  // ----- every event the engine can receive

  datatype Input =
    | Contact(a: Body, b: Body)
    | Kill
    | Escape
    | BonusHit
    | TouchPlayer
    | Start(delay: int)
    | Stop
    | Restart(delay: int)
    | EnemyTimer
    | BonusTimer(delay: int)

  /** Every bonus delay is a draw from its range. */
  predicate WellFormed(e: Input) {
    (e.Start? || e.Restart? || e.BonusTimer?) ==> MinBonusDelay <= e.delay <= MaxBonusDelay
  }

  function Apply(s: State, cats: Categories, e: Input): State {
    match e
    case Contact(a, b) => DidBegin(s, cats, a, b)
    case Kill => EnemyKilled(s)
    case Escape => EnemyEscaped(s)
    case BonusHit => BonusKilled(s)
    case TouchPlayer => EnemyTouchesPlayer(s)
    case Start(d) => GameDidStart(s, d)
    case Stop => GameDidStop(s)
    case Restart(d) => GameDidRestart(s, d)
    case EnemyTimer => SpawnEnemy(s)
    case BonusTimer(d) => SpawnBonus(s, d)
  }

  function Run(s: State, cats: Categories, es: seq<Input>): State
    decreases |es|
  {
    if es == [] then s else Run(Apply(s, cats, es[0]), cats, es[1..])
  }

  function Kills(s: State, k: nat): State {
    if k == 0 then s else EnemyKilled(Kills(s, k - 1))
  }

  /** What every reachable state satisfies. */
  predicate Consistent(s: State) {
    && s.score >= 0 && s.score % KillPoints == 0
    && IntervalFloor <= s.interval <= DefaultInterval
    && s.multiplier >= DefaultMultiplier
    && (s.enemySpawner.Scheduled? ==> s.enemySpawner.interval == s.interval)
    && (s.bonusSpawner.Scheduled? ==> MinBonusDelay <= s.bonusSpawner.interval <= MaxBonusDelay)
  }

  // ======================================================================
  // Lemmas

  /** The score observer: the notification comes only for a new value and
      before any threshold effect; the two threshold effects exclude each
      other; the interval never goes below its floor. */
  lemma ScoreObserver(s: State, v: int)
    ensures var r := AssignScore(s, v);
      && r.score == v
      && r.lives == s.lives && r.highScore == s.highScore && r.bonusSpawner == s.bonusSpawner
      && r.godMode == s.godMode && r.delegate == s.delegate
      && (v == s.score ==> r == s)
      && |r.calls| >= |s.calls| && r.calls[..|s.calls|] == s.calls
      && (v != s.score && s.delegate ==>
            |r.calls| > |s.calls| && r.calls[|s.calls|] == ScoreDidChange(v))
      && r.multiplier == s.multiplier + (if v != s.score && v % SpeedUpScore == 0 then MultiplierStep else 0)
      && (r.multiplier != s.multiplier ==> r.interval == s.interval && r.enemySpawner == s.enemySpawner)
      && (r.interval != s.interval ==> r.interval == Max(IntervalFloor, s.interval - IntervalStep))
      && (r.interval != s.interval ==> r.enemySpawner == Scheduled(r.interval))
      && (v != s.score && v % SpeedUpScore != 0 && v % FasterSpawnScore == 0 ==>
            r.interval == Max(IntervalFloor, s.interval - IntervalStep) && r.enemySpawner == Scheduled(r.interval))
      && (v == s.score || v % FasterSpawnScore != 0 || v % SpeedUpScore == 0 ==>
            r.interval == s.interval && r.enemySpawner == s.enemySpawner)
      && (s.interval >= IntervalFloor ==> r.interval >= IntervalFloor)
      && r.calls == s.calls +
           (if v != s.score && s.delegate
            then [ScoreDidChange(v)] + (if v % SpeedUpScore != 0 && v % FasterSpawnScore == 0 then [ShouldIncreaseSpeed] else [])
            else [])
      && Losses(r.calls) == Losses(s.calls)
  {
    if v != s.score && s.delegate {
      var c := ScoreDidChange(v);
      LossesAppend(s.calls, c);
      LossesAppend(s.calls + [c], ShouldIncreaseSpeed);
    }
  }

  /** Every assignment to `lives` is announced with the old and new values
      before it happens, even when they are equal; the game is over exactly
      when the value being replaced is 0 and god mode is off; nothing clamps
      the new value. */
  lemma LivesObserver(s: State, v: int)
    ensures var r := AssignLives(s, v);
      && r.lives == v
      && r.score == s.score && r.interval == s.interval && r.multiplier == s.multiplier
      && r.enemySpawner == s.enemySpawner && r.bonusSpawner == s.bonusSpawner
      && r.godMode == s.godMode && r.delegate == s.delegate
      && |r.calls| >= |s.calls| && r.calls[..|s.calls|] == s.calls
      && (s.delegate ==> |r.calls| > |s.calls| && r.calls[|s.calls|] == LivesDidChange(s.lives, v))
      && Losses(r.calls) == Losses(s.calls) + (if s.lives == 0 && !s.godMode && s.delegate then 1 else 0)
      && (s.lives == 0 && !s.godMode && s.delegate ==> r.calls[|r.calls| - 1] == PlayerDidLose(false))
      && (s.delegate ==>
            r.calls == s.calls + [LivesDidChange(s.lives, v)] + (if s.lives == 0 && !s.godMode then [PlayerDidLose(false)] else []))
      && (!s.delegate ==> r.calls == s.calls)
      && (r.highScore != s.highScore <==> s.lives == 0 && !s.godMode && s.score > s.highScore)
      && (r.highScore != s.highScore ==> r.highScore == s.score)
  {
    var r := AssignLives(s, v);
    var c := LivesDidChange(s.lives, v);
    if s.delegate {
      var t := s.calls + [c];
      LossesAppend(s.calls, c);
      if s.lives == 0 && !s.godMode {
        LossesAppend(t, PlayerDidLose(false));
        assert r.calls == t + [PlayerDidLose(false)];
        assert r.calls[..|s.calls|] == s.calls;
      } else {
        assert r.calls == t;
      }
    } else {
      assert r.calls == s.calls;
    }
  }

  /** The high score is rewritten if and only if the score beats it; the
      loss is then signalled. */
  lemma GameOverHighScore(s: State, destroyed: bool)
    ensures var r := GameOver(s, destroyed);
      && (r.highScore != s.highScore <==> s.score > s.highScore)
      && r.highScore >= s.highScore
      && (s.score > s.highScore ==> r.highScore == s.score)
      && r.score == s.score && r.lives == s.lives
      && (s.delegate ==> r.calls == s.calls + [PlayerDidLose(destroyed)])
      && (!s.delegate ==> r.calls == s.calls)
  {
  }

  /** A touch by an enemy ends the game, the player destroyed, exactly when
      god mode is off. */
  lemma TouchEndsGame(s: State)
    ensures Losses(EnemyTouchesPlayer(s).calls) == Losses(s.calls) + (if !s.godMode && s.delegate then 1 else 0)
    ensures !s.godMode ==> EnemyTouchesPlayer(s) == GameOver(s, true)
    ensures !s.godMode && s.delegate ==> EnemyTouchesPlayer(s).calls == s.calls + [PlayerDidLose(true)]
    ensures s.godMode ==> EnemyTouchesPlayer(s) == s
  {
  }

  /** From three lives the first three escapes only announce the new count;
      the fourth, which replaces 0, ends the game, and lives go negative. */
  lemma FourthEscapeEndsGame(s: State)
    requires s.lives == DefaultLives && !s.godMode && s.delegate
    ensures var t := EnemyEscaped(EnemyEscaped(EnemyEscaped(s)));
      && t.lives == 0
      && t.calls == s.calls + [LivesDidChange(3, 2), LivesDidChange(2, 1), LivesDidChange(1, 0)]
      && EnemyEscaped(t).lives == -1
      && EnemyEscaped(t).calls == t.calls + [LivesDidChange(0, -1), PlayerDidLose(false)]
  {
  }

  /** Starting a game after one lost by collision with zero lives left ends
      the new game at once: the reset of `lives` replaces a 0. */
  lemma StartWithZeroLivesLoses(s: State, delay: int)
    requires s.lives == 0 && !s.godMode && s.delegate
    ensures Losses(GameDidStart(s, delay).calls) == Losses(s.calls) + 1
  {
    LivesObserver(AssignScore(s, DefaultScore), DefaultLives);
    ScoreObserver(s, DefaultScore);
  }

  /** What a start tells the delegate, in order: the score reset when the
      score was not 0, the lives reset (even from 3 to 3), and the loss
      when the lives it replaces are 0 outside god mode. */
  lemma StartCalls(s: State, delay: int)
    requires s.delegate
    ensures GameDidStart(s, delay).calls ==
      s.calls
      + (if s.score != DefaultScore then [ScoreDidChange(DefaultScore)] else [])
      + [LivesDidChange(s.lives, DefaultLives)]
      + (if s.lives == 0 && !s.godMode then [PlayerDidLose(false)] else [])
  {
    ScoreObserver(s, DefaultScore);
    LivesObserver(AssignScore(s, DefaultScore), DefaultLives);
  }

  /** A session starts from the defaults with both spawners running; the
      speed-up fired by the score reset does not survive. */
  lemma StartResets(s: State, delay: int)
    ensures var r := GameDidStart(s, delay);
      && r.score == DefaultScore && r.lives == DefaultLives
      && r.interval == DefaultInterval && r.multiplier == DefaultMultiplier
      && r.enemySpawner == Scheduled(DefaultInterval) && r.bonusSpawner == Scheduled(delay)
      && r.highScore == (if s.lives == 0 && !s.godMode && s.highScore < 0 then 0 else s.highScore)
      && (s.score != DefaultScore && s.delegate ==>
            r.calls[|s.calls|] == ScoreDidChange(0)
            && AssignScore(s, DefaultScore).multiplier == s.multiplier + MultiplierStep)
  {
    ScoreObserver(s, DefaultScore);
    LivesObserver(AssignScore(s, DefaultScore), DefaultLives);
  }

  /** Stopping leaves no spawner running and touches nothing else;
      restarting replaces both spawners and touches nothing else. */
  lemma StopAndRestart(s: State, delay: int)
    ensures GameDidStop(s) == s.(enemySpawner := Stopped, bonusSpawner := Stopped)
    ensures GameDidRestart(s, delay) == s.(enemySpawner := Scheduled(s.interval), bonusSpawner := Scheduled(delay))
  {
  }

  /** Scores reached by kills are multiples of 579, and since 579 and 1000
      are coprime, such a score is a multiple of 1000 only when it is one of
      3000: the interval branch of the score observer is never taken through
      kills. */
  lemma {:induction false} KillScoreThresholds(n: int)
    ensures (KillPoints * n % FasterSpawnScore == 0) <==> (n % 1000 == 0)
    ensures (KillPoints * n % SpeedUpScore == 0) <==> (n % 1000 == 0)
  {
    if KillPoints * n % FasterSpawnScore == 0 {
      ThousandDividesKills(n);
    }
    if n % 1000 == 0 {
      ThreeThousandDividesKills(n);
    }
    if KillPoints * n % SpeedUpScore == 0 {
      ThreeThousandDividesThousand(KillPoints * n);
      ThousandDividesKills(n);
    }
  }

  lemma ThreeThousandDividesThousand(p: int)
    requires p % SpeedUpScore == 0
    ensures p % FasterSpawnScore == 0
  {
    var q := p / SpeedUpScore;
    assert p == FasterSpawnScore * (3 * q);
  }

  /** 19 * 579 == 11 * 1000 + 1, so 1000 divides 579 n only when it divides n. */
  lemma ThousandDividesKills(n: int)
    requires KillPoints * n % FasterSpawnScore == 0
    ensures n % 1000 == 0
  {
    var q := KillPoints * n / FasterSpawnScore;
    assert KillPoints * n == 1000 * q;
    assert n == 19 * (KillPoints * n) - 11000 * n;
    assert n == 1000 * (19 * q - 11 * n);
  }

  lemma ThreeThousandDividesKills(n: int)
    requires n % 1000 == 0
    ensures KillPoints * n % SpeedUpScore == 0 && KillPoints * n % FasterSpawnScore == 0
  {
    var j := n / 1000;
    assert n == 1000 * j;
    assert KillPoints * n == 3000 * (193 * j);
  }

  /** One kill from a score of 579 m: the score grows by 579, the multiplier
      rises exactly when m + 1 is a multiple of 1000, and nothing else of
      the rules moves. */
  lemma KillStep(s: State, m: int)
    requires s.score == KillPoints * m
    ensures var r := EnemyKilled(s);
      && r.score == KillPoints * (m + 1)
      && r.multiplier == s.multiplier + (if (m + 1) % 1000 == 0 then MultiplierStep else 0)
      && r.interval == s.interval && r.enemySpawner == s.enemySpawner
      && r.bonusSpawner == s.bonusSpawner && r.lives == s.lives && r.highScore == s.highScore
      && r.godMode == s.godMode && r.delegate == s.delegate
      && Losses(r.calls) == Losses(s.calls)
  {
    KillScoreThresholds(m + 1);
    ScoreObserver(s, s.score + KillPoints);
  }

  /** k kills from a score of 579 m reach 579 (m + k); the multiplier rises
      once per multiple of 1000 kills crossed and the spawn interval never
      changes. */
  lemma {:induction false} KillsFromScore(s: State, m: nat, k: nat)
    requires s.score == KillPoints * m
    ensures var r := Kills(s, k);
      && r.score == KillPoints * (m + k)
      && r.multiplier == s.multiplier + (m + k) / 1000 - m / 1000
      && r.interval == s.interval && r.enemySpawner == s.enemySpawner
      && r.bonusSpawner == s.bonusSpawner && r.lives == s.lives && r.highScore == s.highScore
  {
    if k > 0 {
      var prev := Kills(s, k - 1);
      var j: nat := m + k - 1;
      KillsFromScore(s, m, k - 1);
      KillStep(prev, j);
      ThousandsStep(j);
      assert Kills(s, k) == EnemyKilled(prev);
    }
  }

  /** Counting one more crosses a multiple of 1000 exactly when it lands on one. */
  lemma ThousandsStep(a: nat)
    ensures (a + 1) / 1000 == a / 1000 + (if (a + 1) % 1000 == 0 then 1 else 0)
  {
  }

  /** After a start and k kills the score is 579 k. */
  lemma KillsAfterStart(s: State, delay: int, k: nat)
    ensures var r := Kills(GameDidStart(s, delay), k);
      && r.score == KillPoints * k
      && r.lives == DefaultLives
      && r.interval == DefaultInterval
      && r.multiplier == DefaultMultiplier + k / 1000
  {
    StartResets(s, delay);
    KillsFromScore(GameDidStart(s, delay), 0, k);
  }

  // ----- contact resolution

  predicate IsPair(a: Body, b: Body, x: int, y: int) {
    (a.category == x && b.category == y) || (a.category == y && b.category == x)
  }

  /** With distinct categories the outcome does not depend on which body
      the engine reports first. */
  lemma ContactSymmetric(s: State, cats: Categories, a: Body, b: Body)
    requires cats.Distinct()
    ensures DidBegin(s, cats, a, b) == DidBegin(s, cats, b, a)
  {
  }

  /** Player and enemy, in either order. */
  lemma PlayerEnemyContact(s: State, cats: Categories, a: Body, b: Body)
    requires cats.Ordered() && IsPair(a, b, cats.player, cats.enemy)
    ensures var enemy := if a.category == cats.enemy then a else b;
      DidBegin(s, cats, a, b) == PlayerHitsEnemy(s, enemy)
  {
  }

  /** Bullet and enemy, in either order. */
  lemma BulletEnemyContact(s: State, cats: Categories, a: Body, b: Body)
    requires cats.Ordered() && IsPair(a, b, cats.bullet, cats.enemy)
    ensures var bullet := if a.category == cats.bullet then a else b;
      var enemy := if a.category == cats.enemy then a else b;
      DidBegin(s, cats, a, b) == BulletHitsEnemy(s, bullet, enemy)
  {
  }

  /** A bullet hits an enemy: the kill is credited if and only if the enemy
      node is still there and a delegate is attached (whatever the delegate
      answers); the bullet is removed in every case, last. */
  lemma BulletHitsEnemyEffect(s: State, bullet: Body, enemy: Body)
    ensures var r := BulletHitsEnemy(s, bullet, enemy);
      && r.score == s.score + (if enemy.node.Some? && s.delegate then KillPoints else 0)
      && r.lives == s.lives
      && (bullet.node.Some? ==> r.calls[|r.calls| - 1] == RemoveFromParent(bullet.node.value))
  {
    if enemy.node.Some? && s.delegate {
      var t := Emit(s, ShouldExplodeNode(enemy.node.value));
      ScoreObserver(t, t.score + KillPoints);
    }
  }

  /** Bullet and bonus, in either order. */
  lemma BulletBonusContact(s: State, cats: Categories, a: Body, b: Body)
    requires cats.Ordered() && IsPair(a, b, cats.bullet, cats.nyanCat)
    ensures var bullet := if a.category == cats.bullet then a else b;
      var bonus := if a.category == cats.nyanCat then a else b;
      DidBegin(s, cats, a, b) == BulletHitsBonus(s, bullet, bonus)
  {
  }

  /** A bullet hits the bonus: an extra life if the bonus node is still
      there; the bullet is removed in every case, last. */
  lemma BulletHitsBonusEffect(s: State, bullet: Body, bonus: Body)
    ensures var r := BulletHitsBonus(s, bullet, bonus);
      && r.lives == s.lives + (if bonus.node.Some? then 1 else 0)
      && r.score == s.score
      && (bullet.node.Some? ==> r.calls[|r.calls| - 1] == RemoveFromParent(bullet.node.value))
  {
    if bonus.node.Some? {
      var t := Emit(s, ShouldExplodeNode(bonus.node.value));
      LivesObserver(t, t.lives + 1);
    }
  }

  /** Any other pair of categories is ignored. */
  lemma OtherContactIgnored(s: State, cats: Categories, a: Body, b: Body)
    requires !IsPair(a, b, cats.player, cats.enemy)
    requires !IsPair(a, b, cats.bullet, cats.enemy)
    requires !IsPair(a, b, cats.bullet, cats.nyanCat)
    ensures DidBegin(s, cats, a, b) == s
  {
  }

  // ----- every event

  /** A call other than the loss signal changes the log only, and not its
      count of losses. */
  lemma QuietEmit(s: State, c: Call)
    requires !c.PlayerDidLose?
    ensures Emit(s, c) == s.(calls := Emit(s, c).calls)
    ensures Losses(Emit(s, c).calls) == Losses(s.calls)
  {
    if s.delegate {
      LossesAppend(s.calls, c);
    }
  }

  lemma QuietRemove(s: State, node: Option<NodeId>)
    ensures RemoveNode(s, node) == s.(calls := RemoveNode(s, node).calls)
    ensures Losses(RemoveNode(s, node).calls) == Losses(s.calls)
  {
    if node.Some? {
      LossesAppend(s.calls, RemoveFromParent(node.value));
    }
  }

  /** A score that is a multiple of 579 is 579 times its quotient. */
  lemma KillQuotient(x: int)
    requires x % KillPoints == 0
    ensures x == KillPoints * (x / KillPoints)
  {
  }

  lemma KillMultiple(m: int)
    ensures (KillPoints * m) % KillPoints == 0
  {
  }

  /** What a play event may do: keep consistency, add at most one kill to
      the score, leave the interval alone, never lower the multiplier, and
      signal game over at most once. */
  predicate PlayStep(s: State, r: State) {
    && Consistent(r)
    && (r.score == s.score || r.score == s.score + KillPoints)
    && r.interval == s.interval
    && r.multiplier >= s.multiplier
    && Losses(s.calls) <= Losses(r.calls) <= Losses(s.calls) + 1
    && r.delegate == s.delegate
  }

  lemma KillEventStep(s: State)
    requires Consistent(s)
    ensures PlayStep(s, EnemyKilled(s))
  {
    var m := s.score / KillPoints;
    KillQuotient(s.score);
    KillStep(s, m);
    KillMultiple(m + 1);
  }

  lemma LivesStep(s: State, v: int)
    requires Consistent(s)
    ensures PlayStep(s, AssignLives(s, v))
  {
    LivesObserver(s, v);
  }

  lemma TouchStep(s: State)
    requires Consistent(s)
    ensures PlayStep(s, EnemyTouchesPlayer(s))
  {
    TouchEndsGame(s);
  }

  lemma StartStep(s: State, delay: int)
    requires MinBonusDelay <= delay <= MaxBonusDelay
    ensures var r := GameDidStart(s, delay);
      && Consistent(r) && r.score == DefaultScore && r.interval == DefaultInterval
      && Losses(s.calls) <= Losses(r.calls) <= Losses(s.calls) + 1
      && r.delegate == s.delegate
  {
    StartResets(s, delay);
    ScoreObserver(s, DefaultScore);
    LivesObserver(AssignScore(s, DefaultScore), DefaultLives);
  }

  lemma SpawnerStep(s: State, delay: int)
    requires Consistent(s) && MinBonusDelay <= delay <= MaxBonusDelay
    ensures PlayStep(s, GameDidStop(s))
    ensures PlayStep(s, GameDidRestart(s, delay))
    ensures PlayStep(s, SpawnEnemy(s))
    ensures PlayStep(s, SpawnBonus(s, delay))
  {
    QuietEmit(s, ShouldSpawnEnemy(s.multiplier));
    QuietEmit(s, ShouldSpawnBonus);
  }

  lemma PlayerHitStep(s: State, enemy: Body)
    requires Consistent(s)
    ensures PlayStep(s, PlayerHitsEnemy(s, enemy))
  {
    if enemy.node.Some? {
      QuietEmit(s, ShouldExplodeNode(enemy.node.value));
      TouchStep(Emit(s, ShouldExplodeNode(enemy.node.value)));
    } else {
      TouchStep(s);
    }
  }

  lemma BulletEnemyStep(s: State, bullet: Body, enemy: Body)
    requires Consistent(s)
    ensures PlayStep(s, BulletHitsEnemy(s, bullet, enemy))
  {
    if enemy.node.Some? && s.delegate {
      var t := Emit(s, ShouldExplodeNode(enemy.node.value));
      QuietEmit(s, ShouldExplodeNode(enemy.node.value));
      KillEventStep(t);
      QuietRemove(EnemyKilled(t), bullet.node);
    } else {
      QuietRemove(s, bullet.node);
    }
  }

  lemma BulletBonusStep(s: State, bullet: Body, bonus: Body)
    requires Consistent(s)
    ensures PlayStep(s, BulletHitsBonus(s, bullet, bonus))
  {
    if bonus.node.Some? {
      var t := Emit(s, ShouldExplodeNode(bonus.node.value));
      QuietEmit(s, ShouldExplodeNode(bonus.node.value));
      LivesStep(t, t.lives + 1);
      QuietRemove(BonusKilled(t), bullet.node);
    } else {
      QuietRemove(s, bullet.node);
    }
  }

  lemma ContactStep(s: State, cats: Categories, a: Body, b: Body)
    requires Consistent(s) && cats.Distinct()
    ensures PlayStep(s, DidBegin(s, cats, a, b))
  {
    var (b1, b2) := Order(a, b);
    if b1.category == cats.player && b2.category == cats.enemy {
      PlayerHitStep(s, b2);
    } else if b1.category == cats.bullet && b2.category == cats.enemy {
      BulletEnemyStep(s, b1, b2);
    } else if b1.category == cats.bullet && b2.category == cats.nyanCat {
      BulletBonusStep(s, b1, b2);
    }
  }

  /** A play event: a contact, a kill, an escape, a bonus, a touch or a
      spawner firing. */
  predicate IsPlay(e: Input) {
    !(e.Start? || e.Stop? || e.Restart?)
  }

  lemma PlayEventStep(s: State, cats: Categories, e: Input)
    requires Consistent(s) && WellFormed(e) && cats.Distinct() && IsPlay(e)
    ensures PlayStep(s, Apply(s, cats, e))
  {
    match e
    case Contact(a, b) =>
      ContactStep(s, cats, a, b);
    case Kill =>
      KillEventStep(s);
    case Escape =>
      LivesStep(s, s.lives - 1);
    case BonusHit =>
      LivesStep(s, s.lives + 1);
    case TouchPlayer =>
      TouchStep(s);
    case EnemyTimer =>
      SpawnerStep(s, MinBonusDelay);
    case BonusTimer(d) =>
      SpawnerStep(s, d);
  }

  /** What one event does to the rules: the score changes only by a kill
      or the reset to 0; the interval changes only by the reset; the
      multiplier never falls except by the reset; the game-over signal is
      given at most once; consistency is kept. */
  lemma StepInvariant(s: State, cats: Categories, e: Input)
    requires Consistent(s) && WellFormed(e) && cats.Distinct()
    ensures var r := Apply(s, cats, e);
      && Consistent(r)
      && (r.score == s.score || r.score == s.score + KillPoints || (e.Start? && r.score == 0))
      && r.interval == (if e.Start? then DefaultInterval else s.interval)
      && (!e.Start? ==> r.multiplier >= s.multiplier)
      && Losses(s.calls) <= Losses(r.calls) <= Losses(s.calls) + 1
      && r.delegate == s.delegate
  {
    if e.Start? {
      StartStep(s, e.delay);
    } else if e.Stop? {
      SpawnerStep(s, MinBonusDelay);
    } else if e.Restart? {
      SpawnerStep(s, e.delay);
    } else {
      PlayEventStep(s, cats, e);
    }
  }

  /** Over any sequence of events: consistency is kept, so every score is a
      multiple of 579, and the spawn interval stays at 3.3 seconds. */
  lemma {:induction false} RunInvariant(s: State, cats: Categories, es: seq<Input>)
    requires Consistent(s) && cats.Distinct()
    requires forall i :: 0 <= i < |es| ==> WellFormed(es[i])
    ensures Consistent(Run(s, cats, es))
    ensures s.interval == DefaultInterval ==> Run(s, cats, es).interval == DefaultInterval
    decreases |es|
  {
    if es != [] {
      StepInvariant(s, cats, es[0]);
      RunInvariant(Apply(s, cats, es[0]), cats, es[1..]);
    }
  }

  /** A new `GameLogic` is consistent. */
  lemma InitialConsistent(godMode: bool, highScore: int)
    ensures Consistent(Initial(godMode, highScore))
  {
  }
}
