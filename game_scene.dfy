/** The rules of Spaceman/GameScene.swift: the `gameState` machine and its
    `didSet` dispatch, the reaction to the game logic's `playerDidLose`, the
    `isPaused` observer, the touch handlers with the clamps that keep the
    player in its band, the lives text and the `shouldExplodeNode` answer.
    Rendering, sounds and animations are not modelled; an animation whose
    completion block matters is an explicit pending step
    (`GameOverTransitionDone`). */
module Scene {
  import opened Session
  import opened Ints
  import Heat
  import Text
  import Logic
  import Ship

  datatype GameState = None | Waiting | InGame | GameOver

  /** What the overheat indicator is told to show: the laser's heat over its
      limit (`overheatRatio`), or nothing (`percentage: 0.0`). */
  datatype Gauge = Ratio(heat: int, heatLimit: int) | Empty

  /** One touch of `touchesMoved`: its location minus its previous one. */
  datatype Drag = Drag(dx: real, dy: real)

  datatype Point = Point(x: real, y: real)

  /** The rectangle a drag may take the player's position to. */
  datatype Box = Box(minX: real, maxX: real, minY: real, maxY: real) {
    predicate NonEmpty() {
      minX <= maxX && minY <= maxY
    }

    predicate Contains(p: Point) {
      minX <= p.x <= maxX && minY <= p.y <= maxY
    }
  }

  /** A node offered to `shouldExplodeNode`: whether it is an `EnemyNode`,
      and its height in the scene. */
  datatype SceneNode = SceneNode(isEnemy: bool, y: real)

  /** The player's band, as fractions of the scene height. */
  const PlayerMinY := 0.15
  const PlayerBaseY := 0.2
  const PlayerMaxY := 0.25

  function RMax(a: real, b: real): real {
    if a >= b then a else b
  }

  function RMin(a: real, b: real): real {
    if a <= b then a else b
  }

  /** Raise to `lo`, then lower to `hi`. */
  function Clamp(v: real, lo: real, hi: real): (r: real)
    ensures r <= hi
    ensures lo <= hi ==> lo <= r
    ensures lo <= v <= hi ==> r == v
    ensures v < lo && lo <= hi ==> r == lo
    ensures v > hi ==> r == hi
  {
    RMin(hi, RMax(lo, v))
  }

  /** One drag: the position moves by the drag, each coordinate clamped. */
  function DragOne(p: Point, d: Drag, box: Box): (q: Point)
    ensures box.NonEmpty() ==> box.Contains(q)
  {
    Point(Clamp(p.x + d.dx, box.minX, box.maxX), Clamp(p.y + d.dy, box.minY, box.maxY))
  }

  /** The drags of one event, applied in order. */
  function DragAll(p: Point, ds: seq<Drag>, box: Box): (q: Point)
    ensures box.NonEmpty() && (ds != [] || box.Contains(p)) ==> box.Contains(q)
    decreases |ds|
  {
    if ds == [] then p else DragOne(DragAll(p, ds[..|ds| - 1], box), ds[|ds| - 1], box)
  }

  /** Where the drags would take the position with no clamping. */
  function Shift(p: Point, ds: seq<Drag>): Point
    decreases |ds|
  {
    if ds == [] then p
    else
      var q := Shift(p, ds[..|ds| - 1]);
      Point(q.x + ds[|ds| - 1].dx, q.y + ds[|ds| - 1].dy)
  }

  /** Drags that never leave the box are followed exactly: the clamps only
      ever cut a move at the edge. */
  lemma {:induction false} DragsInsideAreExact(p: Point, ds: seq<Drag>, box: Box)
    requires forall k :: 1 <= k <= |ds| ==> box.Contains(Shift(p, ds[..k]))
    ensures DragAll(p, ds, box) == Shift(p, ds)
    decreases |ds|
  {
    if ds != [] {
      var init := ds[..|ds| - 1];
      forall k | 1 <= k <= |init|
        ensures box.Contains(Shift(p, init[..k]))
      {
        assert init[..k] == ds[..k];
      }
      DragsInsideAreExact(p, init, box);
      assert ds[..|ds|] == ds;
    }
  }

  /** `livesText`: the lives after "LIVES : ", never below 0. */
  function LivesText(lives: int): (text: string)
    ensures |text| > 8 && text[..8] == "LIVES : "
    ensures Text.AllDigits(text[8..])
    ensures Text.ParseDigits(text[8..]) == if lives < 0 then 0 else lives
  {
    var shown := Max(lives, 0);
    assert ("LIVES : " + Text.IntText(shown))[8..] == Text.IntText(shown);
    "LIVES : " + Text.IntText(shown)
  }

  /** Two lives counts read alike exactly when they agree once negatives are
      shown as 0. */
  lemma LivesTextAgree(a: int, b: int)
    ensures LivesText(a) == LivesText(b) <==> Max(a, 0) == Max(b, 0)
  {
    if LivesText(a) == LivesText(b) {
      assert LivesText(a)[8..] == LivesText(b)[8..];
    }
  }

  /** A `livesDidChange` whose old and new counts agree: the one the scene
      writes to its label at once, with no animation. */
  predicate SameLives(c: Call) {
    c.LivesDidChange? && c.oldLives == c.newLives
  }

  /** The score label once the immediate writes of `scoreDidChange` for the
      calls `cs` are done: a new score of 0 is written at once, with its
      text `ScoreText(DefaultScore)`; every other score only after its animation. */
  function ScoreLabelAfter(shown: string, cs: seq<Call>): (text: string)
    ensures ScoreDidChange(DefaultScore) in cs ==> text == ScoreText(DefaultScore)
    ensures ScoreDidChange(DefaultScore) !in cs ==> text == shown
    decreases |cs|
  {
    if cs == [] then shown
    else
      assert cs == cs[..|cs| - 1] + [cs[|cs| - 1]];
      if cs[|cs| - 1] == ScoreDidChange(DefaultScore) then ScoreText(DefaultScore)
      else ScoreLabelAfter(shown, cs[..|cs| - 1])
  }

  /** The lives label once the immediate writes of `livesDidChange` for the
      calls `cs` are done: only a count that did not change is written at
      once; the last such write wins. */
  function LivesLabelAfter(shown: string, cs: seq<Call>): (text: string)
    ensures (forall i | 0 <= i < |cs| :: !SameLives(cs[i])) ==> text == shown
    ensures cs != [] && SameLives(cs[|cs| - 1]) ==> text == LivesText(cs[|cs| - 1].newLives)
    decreases |cs|
  {
    if cs == [] then shown
    else if SameLives(cs[|cs| - 1]) then LivesText(cs[|cs| - 1].newLives)
    else LivesLabelAfter(shown, cs[..|cs| - 1])
  }

  /** One more call: only a score reset writes the score label. */
  lemma ScoreLabelStep(shown: string, cs: seq<Call>, c: Call)
    ensures ScoreLabelAfter(shown, cs + [c]) ==
      if c == ScoreDidChange(DefaultScore) then ScoreText(DefaultScore) else ScoreLabelAfter(shown, cs)
  {
    assert (cs + [c])[..|cs|] == cs;
  }

  /** One more call: only an unchanged lives count writes the lives label. */
  lemma LivesLabelStep(shown: string, cs: seq<Call>, c: Call)
    ensures LivesLabelAfter(shown, cs + [c]) ==
      if SameLives(c) then LivesText(c.newLives) else LivesLabelAfter(shown, cs)
  {
    assert (cs + [c])[..|cs|] == cs;
  }

  /** The labels after a start: the score label shows 0 when the score was
      reset from another value, and the lives label is rewritten exactly
      when the lives were already 3; otherwise both keep their text. */
  lemma StartLabels(s: State, delay: int, scoreLabel: string, livesLabel: string)
    requires s.delegate
    ensures |s.calls| <= |GameDidStart(s, delay).calls|
    ensures var cs := GameDidStart(s, delay).calls[|s.calls|..];
      && ScoreLabelAfter(scoreLabel, cs) == (if s.score != DefaultScore then ScoreText(DefaultScore) else scoreLabel)
      && LivesLabelAfter(livesLabel, cs) == (if s.lives == DefaultLives then LivesText(DefaultLives) else livesLabel)
  {
    StartCalls(s, delay);
    var lost := s.lives == 0 && !s.godMode;
    var head := if s.score != DefaultScore then [ScoreDidChange(DefaultScore)] else [];
    var tail := if lost then [PlayerDidLose(false)] else [];
    var cs := head + [LivesDidChange(s.lives, DefaultLives)] + tail;
    assert GameDidStart(s, delay).calls[|s.calls|..] == cs;
    StartCallLabels(scoreLabel, livesLabel, head, s.lives, tail);
  }

  /** The label writes of the calls a start makes, given apart from the
      state they come from. */
  lemma StartCallLabels(scoreLabel: string, livesLabel: string, head: seq<Call>, lives: int, tail: seq<Call>)
    requires head == [] || head == [ScoreDidChange(DefaultScore)]
    requires tail == [] || (tail == [PlayerDidLose(false)] && lives != DefaultLives)
    ensures var cs := head + [LivesDidChange(lives, DefaultLives)] + tail;
      && ScoreLabelAfter(scoreLabel, cs) == (if head != [] then ScoreText(DefaultScore) else scoreLabel)
      && LivesLabelAfter(livesLabel, cs) == (if lives == DefaultLives then LivesText(DefaultLives) else livesLabel)
  {
    var pre := head + [LivesDidChange(lives, DefaultLives)];
    var cs := pre + tail;
    assert ScoreDidChange(DefaultScore) in cs <==> head != [];
    assert pre[..|pre| - 1] == head;
    assert forall i | 0 <= i < |head| :: !SameLives(head[i]);
    if tail != [] {
      assert cs[..|cs| - 1] == pre;
      assert forall i | 0 <= i < |pre| :: !SameLives(pre[i]);
    } else {
      assert cs == pre;
    }
  }

  /** `shouldExplodeNode`: an enemy at or above the top edge is left alone,
      anything else explodes. */
  function ShouldExplode(node: SceneNode, sceneHeight: real): (explode: bool)
    ensures !node.isEnemy ==> explode
    ensures node.isEnemy ==> (explode <==> node.y < sceneHeight)
  {
    !(node.isEnemy && node.y >= sceneHeight)
  }

  /** The game logic credits a bullet's kill however the scene answers: an
      enemy hit above the top edge is not exploded, yet scores. */
  lemma OffscreenKillScores(s: State, cats: Categories, bullet: Body, enemy: Body, node: SceneNode, sceneHeight: real)
    requires cats.Ordered() && bullet.category == cats.bullet && enemy.category == cats.enemy
    requires enemy.node.Some? && s.delegate
    requires node.isEnemy && node.y >= sceneHeight
    ensures !ShouldExplode(node, sceneHeight)
    ensures DidBegin(s, cats, bullet, enemy).score == s.score + KillPoints
    ensures DidBegin(s, cats, enemy, bullet).score == s.score + KillPoints
  {
    BulletEnemyContact(s, cats, bullet, enemy);
    BulletEnemyContact(s, cats, enemy, bullet);
    BulletHitsEnemyEffect(s, bullet, enemy);
  }

  class GameScene {
    /** The scene size. */
    const width: real
    const height: real
    const logic: Logic.GameLogic
    const player: Ship.SpaceShip

    var gameState: GameState
    var gameOverTransitoning: bool
    /** `isPaused` */
    var paused: bool
    /** Game-over transitions (the explosion, or the player moving out)
        whose completion block has not run yet. */
    var pendingTransitions: nat
    /** Every setting of the overheat indicator, in order. */
    var gauge: seq<Gauge>
    var scoreLabel: string
    var livesLabel: string

    /** What every reachable scene satisfies. */
    ghost predicate Valid()
      reads this, logic, player.overheat
    {
      && (gameOverTransitoning ==> pendingTransitions > 0)
      && logic.delegate
      && logic.categories.Distinct()
      && Consistent(logic.Snapshot())
      && Heat.Valid(player.overheat.Snapshot())
    }

    /** The band the player is kept in by `touchesMoved`. */
    function PlayBox(): Box {
      Box(player.width / 2.0, width - player.width / 2.0, height * PlayerMinY, height * PlayerMaxY)
    }

    /** The effect of `playerDidLose` on the scene, from the given state of
        the indicator, the transitions and the laser. */
    ghost predicate AfterLoss(gauge0: seq<Gauge>, pending0: nat, heat0: Heat.Overheat)
      reads this, player.overheat
    {
      && gameOverTransitoning
      && gauge == gauge0 + [Empty]
      && pendingTransitions == pending0 + 1
      && player.overheat.Snapshot() == Heat.CoolOff(heat0)
    }

    /** `init(size:)`: the physics categories and the debug flag of the
        project, and the stored high score, are parameters. */
    constructor (width: real, height: real, godMode: bool, categories: Categories,
                 storedHighScore: int, shipWidth: real, shipHeight: real, flameSpeed: int)
      requires categories.Distinct()
      ensures Valid()
      ensures fresh(logic) && fresh(player) && fresh(player.overheat)
      ensures logic.Snapshot() == Initial(godMode, storedHighScore).(delegate := true)
      ensures logic.categories == categories
      ensures player.overheat.Snapshot() == Heat.Initial()
      ensures gameState == None && !gameOverTransitoning && !paused
      ensures pendingTransitions == 0 && gauge == []
      ensures this.width == width && this.height == height
    {
      this.width := width;
      this.height := height;
      var l := new Logic.GameLogic(godMode, categories, storedHighScore);
      logic := l;
      player := new Ship.SpaceShip(shipWidth, shipHeight, flameSpeed);
      gameState := None;
      gameOverTransitoning := false;
      paused := false;
      pendingTransitions := 0;
      gauge := [];
      scoreLabel := "";
      livesLabel := "";
      new;
      logic.SetDelegate(true);
    }

    /** `didMove(to:)`: the labels' first texts, the waiting state, and the
        indicator as the laser's cool-off observer. */
    method DidMove()
      requires Valid()
      modifies this, player, player.overheat
      ensures Valid()
      ensures scoreLabel == ScoreText(logic.score) && livesLabel == LivesText(logic.lives)
      ensures gameState == Waiting && !gameOverTransitoning
      ensures player.x == width / 2.0 && player.y == -player.height
      ensures player.overheat.Snapshot() == old(player.overheat.Snapshot()).(observer := true)
      ensures gauge == old(gauge) && pendingTransitions == old(pendingTransitions) && paused == old(paused)
      ensures player.particleSpeed == old(player.particleSpeed)
    {
      scoreLabel := logic.ScoreText();
      livesLabel := LivesText(logic.lives);
      gameState := Waiting;
      EnterWaiting();
      player.overheat.SetStartsToCoolOff();
    }

    /** `setWaitingGameState`: the player waits below the screen. */
    method EnterWaiting()
      modifies this, player
      ensures player.x == width / 2.0 && player.y == -player.height
      ensures !gameOverTransitoning
      ensures gameState == old(gameState) && gauge == old(gauge)
      ensures pendingTransitions == old(pendingTransitions) && paused == old(paused)
      ensures scoreLabel == old(scoreLabel) && livesLabel == old(livesLabel)
      ensures player.particleSpeed == old(player.particleSpeed)
    {
      player.x, player.y := width / 2.0, -player.height;
      gameOverTransitoning := false;
    }

    /** `playerDidLose`: a transition starts, the indicator empties and the
        laser cools off; the transition's end is `GameOverTransitionDone`. */
    method PlayerDidLose()
      modifies this, player.overheat
      ensures AfterLoss(old(gauge), old(pendingTransitions), old(player.overheat.Snapshot()))
      ensures gameState == old(gameState) && paused == old(paused)
      ensures scoreLabel == old(scoreLabel) && livesLabel == old(livesLabel)
    {
      gameOverTransitoning := true;
      gauge := gauge + [Empty];
      player.overheat.CoolOff();
      pendingTransitions := pendingTransitions + 1;
    }

    /** The delegate's `playerDidLose` runs when the logic's last call
        signalled a loss; `before` is the count of losses before that call. */
    method ReactToLoss(before: nat)
      modifies this, player.overheat
      ensures if Losses(logic.calls) > before
        then AfterLoss(old(gauge), old(pendingTransitions), old(player.overheat.Snapshot()))
        else && gameOverTransitoning == old(gameOverTransitoning) && gauge == old(gauge)
             && pendingTransitions == old(pendingTransitions)
             && player.overheat.Snapshot() == old(player.overheat.Snapshot())
      ensures gameState == old(gameState) && paused == old(paused)
      ensures scoreLabel == old(scoreLabel) && livesLabel == old(livesLabel)
    {
      if Losses(logic.calls) > before {
        PlayerDidLose();
      }
    }

    /** The immediate label writes of `scoreDidChange` and `livesDidChange`
        for the calls the logic made from index `from` on, in order. */
    method ReactToLabels(from: nat)
      requires from <= |logic.calls|
      modifies this
      ensures scoreLabel == ScoreLabelAfter(old(scoreLabel), logic.calls[from..])
      ensures livesLabel == LivesLabelAfter(old(livesLabel), logic.calls[from..])
      ensures gameState == old(gameState) && paused == old(paused)
      ensures gameOverTransitoning == old(gameOverTransitoning) && gauge == old(gauge)
      ensures pendingTransitions == old(pendingTransitions)
    {
      var calls := logic.calls;
      var i := from;
      while i < |calls|
        invariant from <= i <= |calls|
        invariant scoreLabel == ScoreLabelAfter(old(scoreLabel), calls[from..i])
        invariant livesLabel == LivesLabelAfter(old(livesLabel), calls[from..i])
        invariant gameState == old(gameState) && paused == old(paused)
        invariant gameOverTransitoning == old(gameOverTransitoning) && gauge == old(gauge)
        invariant pendingTransitions == old(pendingTransitions)
        decreases |calls| - i
      {
        assert calls[from..i + 1] == calls[from..i] + [calls[i]];
        WriteLabels(old(scoreLabel), old(livesLabel), calls[from..i], calls[i]);
        i := i + 1;
      }
      assert calls[from..] == calls[from..i];
    }

    /** The immediate label write of one delegate call `c`, following the
        calls `cs` made since the labels read `score0` and `lives0`. */
    method WriteLabels(ghost score0: string, ghost lives0: string, ghost cs: seq<Call>, c: Call)
      requires scoreLabel == ScoreLabelAfter(score0, cs)
      requires livesLabel == LivesLabelAfter(lives0, cs)
      modifies this
      ensures scoreLabel == ScoreLabelAfter(score0, cs + [c])
      ensures livesLabel == LivesLabelAfter(lives0, cs + [c])
      ensures gameState == old(gameState) && paused == old(paused)
      ensures gameOverTransitoning == old(gameOverTransitoning) && gauge == old(gauge)
      ensures pendingTransitions == old(pendingTransitions)
    {
      ScoreLabelStep(score0, cs, c);
      LivesLabelStep(lives0, cs, c);
      if c.ScoreDidChange? && c.score == DefaultScore {
        scoreLabel := ScoreText(c.score);
      } else if SameLives(c) {
        livesLabel := LivesText(c.newLives);
      }
    }

    /** `setInGameState`: a new game starts (and is lost at once if no life
        was left and a loss is signalled); the player enters from below. */
    method EnterInGame(delay: int)
      requires Valid() && MinBonusDelay <= delay <= MaxBonusDelay
      modifies this, logic, player, player.overheat
      ensures Valid()
      ensures logic.Snapshot() == Session.GameDidStart(old(logic.Snapshot()), delay)
      ensures player.x == width / 2.0 && player.y == -player.height
      ensures if Losses(logic.calls) > old(Losses(logic.calls))
        then AfterLoss(old(gauge), old(pendingTransitions), old(player.overheat.Snapshot()))
        else && gameOverTransitoning == old(gameOverTransitoning) && gauge == old(gauge)
             && pendingTransitions == old(pendingTransitions)
             && player.overheat.Snapshot() == old(player.overheat.Snapshot())
      ensures gameState == old(gameState) && paused == old(paused)
      ensures scoreLabel == if old(logic.score) != DefaultScore then ScoreText(DefaultScore) else old(scoreLabel)
      ensures livesLabel == if old(logic.lives) == DefaultLives then LivesText(DefaultLives) else old(livesLabel)
      ensures player.particleSpeed == old(player.particleSpeed)
    {
      var before := Losses(logic.calls);
      StartLogic(delay);
      ReactToLoss(before);
      player.x, player.y := width / 2.0, -player.height;
    }

    /** `gameLogic.gameDidStart()` with the label writes its delegate calls
        make at once; the loss it may signal is left to the caller. */
    method StartLogic(delay: int)
      requires Valid() && MinBonusDelay <= delay <= MaxBonusDelay
      modifies this, logic
      ensures Valid()
      ensures logic.Snapshot() == Session.GameDidStart(old(logic.Snapshot()), delay)
      ensures scoreLabel == if old(logic.score) != DefaultScore then ScoreText(DefaultScore) else old(scoreLabel)
      ensures livesLabel == if old(logic.lives) == DefaultLives then LivesText(DefaultLives) else old(livesLabel)
      ensures gameState == old(gameState) && paused == old(paused)
      ensures gameOverTransitoning == old(gameOverTransitoning) && gauge == old(gauge)
      ensures pendingTransitions == old(pendingTransitions)
    {
      ghost var s0 := logic.Snapshot();
      var from := |logic.calls|;
      logic.GameDidStart(delay);
      StartStep(s0, delay);
      StartLabels(s0, delay, scoreLabel, livesLabel);
      ReactToLabels(from);
    }

    /** `setGameOverState`: the spawners stop and the scene waits again. */
    method EnterGameOver()
      requires Valid()
      modifies this, logic, player
      ensures Valid()
      ensures logic.Snapshot() == Session.GameDidStop(old(logic.Snapshot()))
      ensures player.x == width / 2.0 && player.y == -player.height
      ensures !gameOverTransitoning
      ensures gameState == old(gameState) && gauge == old(gauge)
      ensures pendingTransitions == old(pendingTransitions) && paused == old(paused)
      ensures scoreLabel == old(scoreLabel) && livesLabel == old(livesLabel)
      ensures player.particleSpeed == old(player.particleSpeed)
    {
      ghost var s0 := logic.Snapshot();
      logic.GameDidStop();
      SpawnerStep(s0, MinBonusDelay);
      EnterWaiting();
    }

    /** The completion block of a game-over transition. */
    method GameOverTransitionDone()
      requires Valid() && pendingTransitions > 0
      modifies this, logic, player
      ensures Valid()
      ensures gameState == GameOver && !gameOverTransitoning
      ensures pendingTransitions == old(pendingTransitions) - 1
      ensures logic.Snapshot() == Session.GameDidStop(old(logic.Snapshot()))
      ensures player.x == width / 2.0 && player.y == -player.height
      ensures gauge == old(gauge) && paused == old(paused)
      ensures scoreLabel == old(scoreLabel) && livesLabel == old(livesLabel)
      ensures player.particleSpeed == old(player.particleSpeed)
    {
      pendingTransitions := pendingTransitions - 1;
      gameOverTransitoning := false;
      gameState := GameOver;
      EnterGameOver();
    }

    /** `touchesBegan`: ignored during a transition; starts a game from the
        waiting and game-over states; fires in game, updating the indicator
        only when a bullet left. `delay` stands for the bonus spawner's
        random wait. */
    method TouchesBegan(delay: int)
      requires Valid() && MinBonusDelay <= delay <= MaxBonusDelay
      modifies this, logic, player, player.overheat
      ensures Valid()
      ensures paused == old(paused) && player.particleSpeed == old(player.particleSpeed)
      ensures old(gameOverTransitoning) || (old(gameState) != Waiting && old(gameState) != GameOver) ==>
        scoreLabel == old(scoreLabel) && livesLabel == old(livesLabel)
      ensures old(gameOverTransitoning) || old(gameState) == None ==>
        && gameState == old(gameState) && gameOverTransitoning == old(gameOverTransitoning)
        && logic.Snapshot() == old(logic.Snapshot())
        && player.overheat.Snapshot() == old(player.overheat.Snapshot())
        && gauge == old(gauge) && pendingTransitions == old(pendingTransitions)
        && player.x == old(player.x) && player.y == old(player.y)
      ensures !old(gameOverTransitoning) && (old(gameState) == Waiting || old(gameState) == GameOver) ==>
        && gameState == InGame
        && logic.Snapshot() == Session.GameDidStart(old(logic.Snapshot()), delay)
        && player.x == width / 2.0 && player.y == -player.height
        && scoreLabel == (if old(logic.score) != DefaultScore then ScoreText(DefaultScore) else old(scoreLabel))
        && livesLabel == (if old(logic.lives) == DefaultLives then LivesText(DefaultLives) else old(livesLabel))
        && if Losses(logic.calls) > old(Losses(logic.calls))
           then AfterLoss(old(gauge), old(pendingTransitions), old(player.overheat.Snapshot()))
           else && !gameOverTransitoning && gauge == old(gauge)
                && pendingTransitions == old(pendingTransitions)
                && player.overheat.Snapshot() == old(player.overheat.Snapshot())
      ensures !old(gameOverTransitoning) && old(gameState) == InGame ==>
        && gameState == InGame && !gameOverTransitoning
        && logic.Snapshot() == old(logic.Snapshot())
        && pendingTransitions == old(pendingTransitions)
        && player.x == old(player.x) && player.y == old(player.y)
        && var fired := Heat.CanShoot(old(player.overheat.Snapshot()));
           && player.overheat.Snapshot() ==
                (if fired then Heat.DidShot(old(player.overheat.Snapshot())) else old(player.overheat.Snapshot()))
           && gauge == old(gauge) + (if fired then [Ratio(player.overheat.heat, player.overheat.heatLimit)] else [])
    {
      if gameOverTransitoning {
        return;
      }
      if gameState == Waiting || gameState == GameOver {
        gameState := InGame;
        EnterInGame(delay);
        return;
      }
      if gameState == InGame {
        var fired := player.FireBullet();
        if fired {
          gauge := gauge + [Ratio(player.overheat.heat, player.overheat.heatLimit)];
        }
      }
    }

    /** `touchesMoved`: up to two touches move the player, each move
        clamped to the band; the first one also sets the flame. The
        `.none` state passes the guard. */
    method TouchesMoved(drags: seq<Drag>)
      modifies player
      ensures old(gameOverTransitoning) || gameState == Waiting || gameState == GameOver ==>
        player.x == old(player.x) && player.y == old(player.y)
        && player.particleSpeed == old(player.particleSpeed)
      ensures !(old(gameOverTransitoning) || gameState == Waiting || gameState == GameOver) ==>
        && Point(player.x, player.y) ==
             DragAll(Point(old(player.x), old(player.y)), drags[..if |drags| < 2 then |drags| else 2], PlayBox())
        && player.particleSpeed ==
             if drags == [] then old(player.particleSpeed)
             else Ship.FlameSpeed(DragOne(Point(old(player.x), old(player.y)), drags[0], PlayBox()).y - old(player.y))
    {
      if gameOverTransitoning {
        return;
      }
      if gameState == Waiting || gameState == GameOver {
        return;
      }
      ghost var p0 := Point(player.x, player.y);
      var i := 0;
      while i < |drags|
        invariant 0 <= i <= |drags| && i <= 2
        invariant Point(player.x, player.y) == DragAll(p0, drags[..i], PlayBox())
        invariant i == 0 ==> player.particleSpeed == old(player.particleSpeed)
        invariant i > 0 ==> player.particleSpeed == Ship.FlameSpeed(DragOne(p0, drags[0], PlayBox()).y - p0.y)
        decreases |drags| - i
      {
        if i >= 2 {
          break;
        }
        var x := player.x + drags[i].dx;
        x := RMax(player.width / 2.0, x);
        x := RMin(width - player.width / 2.0, x);
        var y := player.y;
        y := y + drags[i].dy;
        y := RMax(height * PlayerMinY, y);
        y := RMin(height * PlayerMaxY, y);
        if i == 0 {
          assert drags[..0] == [];
          player.Accelerate(y - player.y);
        }
        assert drags[..i + 1][..i] == drags[..i];
        player.x, player.y := x, y;
        i := i + 1;
      }
    }

    /** `isPaused = p` with its observer: in game, pausing stops the
        spawners and resuming restarts them. */
    method SetPaused(p: bool, delay: int)
      requires Valid() && MinBonusDelay <= delay <= MaxBonusDelay
      modifies this, logic
      ensures Valid()
      ensures paused == p && gameState == old(gameState)
      ensures logic.Snapshot() ==
        if old(gameState) != InGame then old(logic.Snapshot())
        else if p then Session.GameDidStop(old(logic.Snapshot()))
        else Session.GameDidRestart(old(logic.Snapshot()), delay)
      ensures gameOverTransitoning == old(gameOverTransitoning) && gauge == old(gauge)
      ensures pendingTransitions == old(pendingTransitions)
      ensures scoreLabel == old(scoreLabel) && livesLabel == old(livesLabel)
    {
      paused := p;
      if gameState == InGame {
        ghost var s0 := logic.Snapshot();
        if paused {
          logic.GameDidStop();
          SpawnerStep(s0, MinBonusDelay);
        } else {
          logic.GameDidRestart(delay);
          SpawnerStep(s0, delay);
        }
      }
    }

    /** An enemy's move ends below the screen: the logic's `enemyEscaped`,
        with the scene reacting to a loss. */
    method EnemyDidEscape()
      requires Valid()
      modifies this, logic, player.overheat
      ensures Valid()
      ensures logic.Snapshot() == Session.EnemyEscaped(old(logic.Snapshot()))
      ensures if Losses(logic.calls) > old(Losses(logic.calls))
        then AfterLoss(old(gauge), old(pendingTransitions), old(player.overheat.Snapshot()))
        else && gameOverTransitoning == old(gameOverTransitoning) && gauge == old(gauge)
             && pendingTransitions == old(pendingTransitions)
             && player.overheat.Snapshot() == old(player.overheat.Snapshot())
      ensures gameState == old(gameState) && paused == old(paused)
      ensures scoreLabel == old(scoreLabel) && livesLabel == old(livesLabel)
    {
      ghost var s0 := logic.Snapshot();
      var before := Losses(logic.calls);
      logic.EnemyEscaped();
      LivesStep(s0, s0.lives - 1);
      ReactToLoss(before);
    }

    /** A physics contact, passed to the logic (the contact delegate), with
        the scene reacting to a loss. */
    method Contact(a: Body, b: Body)
      requires Valid()
      modifies this, logic, player.overheat
      ensures Valid()
      ensures logic.Snapshot() == Session.DidBegin(old(logic.Snapshot()), logic.categories, a, b)
      ensures if Losses(logic.calls) > old(Losses(logic.calls))
        then AfterLoss(old(gauge), old(pendingTransitions), old(player.overheat.Snapshot()))
        else && gameOverTransitoning == old(gameOverTransitoning) && gauge == old(gauge)
             && pendingTransitions == old(pendingTransitions)
             && player.overheat.Snapshot() == old(player.overheat.Snapshot())
      ensures gameState == old(gameState) && paused == old(paused)
      ensures scoreLabel == old(scoreLabel) && livesLabel == old(livesLabel)
    {
      ghost var s0 := logic.Snapshot();
      var before := Losses(logic.calls);
      logic.DidBegin(a, b);
      ContactStep(s0, logic.categories, a, b);
      ReactToLoss(before);
    }
  }
}
