/** The Snake easter-egg game engine: a GridCount x GridCount board, a snake
    that moves one cell per tick, regular food, time-limited special food,
    a score and a high score. Random numbers come in as parameters. */
module SnakeGame {

  datatype Option<T> = None | Some(value: T)

  // Board configuration: the canvas is CanvasSize pixels wide, cells GridSize.
  const GridSize: int := 20
  const CanvasSize: int := 400
  const GridCount: int := CanvasSize / GridSize

  const MaxAttempts: nat := 50        // candidates drawn before giving up
  const FoodReward: int := 10
  const SpecialReward: int := 50
  const SpecialLifetime: int := 150   // ticks
  const SpecialChance: real := 0.2
  const SpecialPeriod: int := 4       // every 4th regular food guarantees a special one

  datatype Cell = Cell(x: int, y: int)

  /** A direction as a step on the board; Still is "no direction yet". */
  datatype Vec = Vec(x: int, y: int)

  datatype Special = Special(pos: Cell, timer: int)

  datatype GameState = Menu | Playing | GameOver

  /** The key codes the game reacts to; every other key is OtherKey. */
  datatype Key =
    | ArrowUp | ArrowDown | ArrowLeft | ArrowRight
    | KeyW | KeyS | KeyA | KeyD
    | Space | Escape | OtherKey

  const Still := Vec(0, 0)
  const StartCell := Cell(10, 10)
  const InitialFood := Cell(15, 15)

  predicate InGrid(c: Cell) {
    0 <= c.x < GridCount && 0 <= c.y < GridCount
  }

  function Move(c: Cell, d: Vec): Cell {
    Cell(c.x + d.x, c.y + d.y)
  }

  predicate IsUnit(d: Vec) {
    d == Vec(0, -1) || d == Vec(0, 1) || d == Vec(-1, 0) || d == Vec(1, 0)
  }

  function Opposite(d: Vec): Vec {
    Vec(-d.x, -d.y)
  }

  predicate NoDuplicates(s: seq<Cell>) {
    forall i, j :: 0 <= i < j < |s| ==> s[i] != s[j]
  }

  // ---------------------------------------------------------------------
  // Randomness: each Math.random() result is a real in [0, 1).

  /** Two successive Math.random() results, one candidate cell. */
  datatype Draw = Draw(rx: real, ry: real)

  predicate IsRandom(r: real) {
    0.0 <= r < 1.0
  }

  /** Enough random draws for every attempt of one retry loop. */
  predicate RandomStream(draws: seq<Draw>) {
    && |draws| >= MaxAttempts
    && forall i :: 0 <= i < |draws| ==> IsRandom(draws[i].rx) && IsRandom(draws[i].ry)
  }

  /** Math.floor(Math.random() * GridCount) */
  function Scale(r: real): (n: int)
    requires IsRandom(r)
    ensures 0 <= n < GridCount
  {
    assert GridCount == 20;
    var scaled := r * GridCount as real;
    assert 0.0 <= scaled < 20.0;
    scaled.Floor
  }

  function CellOf(d: Draw): (c: Cell)
    requires IsRandom(d.rx) && IsRandom(d.ry)
    ensures InGrid(c)
  {
    Cell(Scale(d.rx), Scale(d.ry))
  }

  /** The number of candidates a retry loop draws when it has already drawn
      n of them: it stops at the first candidate outside avoid, or after
      MaxAttempts candidates. */
  function AttemptsFrom(avoid: seq<Cell>, draws: seq<Draw>, n: nat): (m: nat)
    requires RandomStream(draws) && 1 <= n <= MaxAttempts
    ensures n <= m <= MaxAttempts
    decreases MaxAttempts - n
  {
    if n < MaxAttempts && CellOf(draws[n - 1]) in avoid then AttemptsFrom(avoid, draws, n + 1) else n
  }

  function Attempts(avoid: seq<Cell>, draws: seq<Draw>): nat
    requires RandomStream(draws)
  {
    AttemptsFrom(avoid, draws, 1)
  }

  /** The cell a retry loop settles on: its last candidate. */
  function Retry(avoid: seq<Cell>, draws: seq<Draw>): (c: Cell)
    requires RandomStream(draws)
    ensures InGrid(c)
  {
    var m := AttemptsFrom(avoid, draws, 1);
    CellOf(draws[m - 1])
  }

  lemma {:induction false} AttemptsFromStops(avoid: seq<Cell>, draws: seq<Draw>, n: nat)
    requires RandomStream(draws) && 1 <= n <= MaxAttempts
    ensures forall k :: n - 1 <= k < AttemptsFrom(avoid, draws, n) - 1 ==> CellOf(draws[k]) in avoid
    ensures AttemptsFrom(avoid, draws, n) < MaxAttempts ==>
              CellOf(draws[AttemptsFrom(avoid, draws, n) - 1]) !in avoid
    decreases MaxAttempts - n
  {
    if n < MaxAttempts && CellOf(draws[n - 1]) in avoid {
      AttemptsFromStops(avoid, draws, n + 1);
    }
  }

  /** The retry policy: every candidate before the chosen one collided, the
      chosen one is free unless the budget ran out, and it is the first free
      candidate when there is one. So a result inside avoid means all
      MaxAttempts candidates collided. */
  lemma RetryPolicy(avoid: seq<Cell>, draws: seq<Draw>)
    requires RandomStream(draws)
    ensures 1 <= Attempts(avoid, draws) <= MaxAttempts
    ensures Retry(avoid, draws) == CellOf(draws[Attempts(avoid, draws) - 1])
    ensures forall k :: 0 <= k < Attempts(avoid, draws) - 1 ==> CellOf(draws[k]) in avoid
    ensures Retry(avoid, draws) in avoid ==>
              Attempts(avoid, draws) == MaxAttempts &&
              forall k :: 0 <= k < MaxAttempts ==> CellOf(draws[k]) in avoid
    ensures forall k :: 0 <= k < MaxAttempts && CellOf(draws[k]) !in avoid ==>
              Attempts(avoid, draws) - 1 <= k && Retry(avoid, draws) !in avoid
  {
    AttemptsFromStops(avoid, draws, 1);
  }

  /** generateFood: draws candidates until one is off the snake, at most
      MaxAttempts of them, and keeps the last one drawn. */
  method GenerateFood(snake: seq<Cell>, draws: seq<Draw>) returns (food: Cell)
    requires RandomStream(draws)
    ensures InGrid(food)
    ensures food == Retry(snake, draws)
  {
    var attempts := 1;
    food := CellOf(draws[0]);
    while attempts < MaxAttempts && food in snake
      invariant 1 <= attempts <= MaxAttempts
      invariant food == CellOf(draws[attempts - 1])
      invariant AttemptsFrom(snake, draws, attempts) == Attempts(snake, draws)
      decreases MaxAttempts - attempts
    {
      food := CellOf(draws[attempts]);
      attempts := attempts + 1;
    }
  }

  /** The trigger rule for special food: a positive multiple of SpecialPeriod
      regular foods eaten, or the 20% coin flip. */
  predicate ShouldSpawn(foodCount: int, coin: real) {
    (foodCount > 0 && foodCount % SpecialPeriod == 0) || coin < SpecialChance
  }

  /** What generateSpecialFood returns for these inputs. */
  function SpawnedSpecial(foodCount: int, coin: real, snake: seq<Cell>, food: Cell, draws: seq<Draw>)
    : Option<Special>
    requires RandomStream(draws)
  {
    if ShouldSpawn(foodCount, coin) then Some(Special(Retry([food] + snake, draws), SpecialLifetime)) else None
  }

  lemma SpawnPolicy(foodCount: int, coin: real, snake: seq<Cell>, food: Cell, draws: seq<Draw>)
    requires RandomStream(draws)
    ensures SpawnedSpecial(foodCount, coin, snake, food, draws).Some? <==>
              (foodCount > 0 && foodCount % SpecialPeriod == 0) || coin < SpecialChance
    ensures foodCount > 0 && foodCount % SpecialPeriod == 0 ==> SpawnedSpecial(foodCount, coin, snake, food, draws).Some?
    ensures SpawnedSpecial(foodCount, coin, snake, food, draws).Some? ==>
              var s := SpawnedSpecial(foodCount, coin, snake, food, draws).value;
              && s.timer == SpecialLifetime
              && InGrid(s.pos)
              && ((s.pos == food || s.pos in snake) ==>
                    forall k :: 0 <= k < MaxAttempts ==> CellOf(draws[k]) == food || CellOf(draws[k]) in snake)
  {
    RetryPolicy([food] + snake, draws);
  }

  /** generateSpecialFood: the spawn decision, then a retry loop that avoids
      the regular food and the snake. */
  method GenerateSpecialFood(foodCount: int, coin: real, snake: seq<Cell>, food: Cell, draws: seq<Draw>)
    returns (special: Option<Special>)
    requires RandomStream(draws) && IsRandom(coin)
    ensures special.Some? <==> ShouldSpawn(foodCount, coin)
    ensures special == SpawnedSpecial(foodCount, coin, snake, food, draws)
  {
    if ShouldSpawn(foodCount, coin) {
      var attempts := 1;
      var position := CellOf(draws[0]);
      while attempts < MaxAttempts && (position == food || position in snake)
        invariant 1 <= attempts <= MaxAttempts
        invariant position == CellOf(draws[attempts - 1])
        invariant AttemptsFrom([food] + snake, draws, attempts) == Attempts([food] + snake, draws)
        decreases MaxAttempts - attempts
      {
        position := CellOf(draws[attempts]);
        attempts := attempts + 1;
      }
      special := Some(Special(position, SpecialLifetime));
    } else {
      special := None;
    }
  }

  // ---------------------------------------------------------------------
  // The special-food timer, applied once per tick.

  function TimerStep(current: Option<Special>): (next: Option<Special>)
    ensures next.None? <==> current.None? || current.value.timer == 0
    ensures next.Some? ==> next.value.pos == current.value.pos
    ensures next.Some? && current.value.timer > 0 ==> next.value.timer == current.value.timer - 1
    ensures next.Some? && current.value.timer >= 0 ==> next.value.timer >= 0
  {
    match current
    case None => None
    case Some(s) =>
      if s.timer > 0 then Some(Special(s.pos, s.timer - 1))
      else if s.timer == 0 then None
      else current
  }

  function TimerSteps(current: Option<Special>, n: nat): Option<Special>
    decreases n
  {
    if n == 0 then current else TimerSteps(TimerStep(current), n - 1)
  }

  lemma {:induction false} NothingStaysNothing(n: nat)
    ensures TimerSteps(None, n) == None
  {
    if n > 0 {
      NothingStaysNothing(n - 1);
    }
  }

  /** An uneaten special item with timer t counts down for t ticks and is
      removed by tick t + 1. */
  lemma {:induction false} SpecialExpires(s: Special, n: nat)
    requires s.timer >= 0
    ensures n <= s.timer ==> TimerSteps(Some(s), n) == Some(Special(s.pos, s.timer - n))
    ensures n > s.timer ==> TimerSteps(Some(s), n) == None
    decreases n
  {
    if n > 0 {
      if s.timer > 0 {
        SpecialExpires(Special(s.pos, s.timer - 1), n - 1);
      } else {
        NothingStaysNothing(n - 1);
      }
    }
  }

  // ---------------------------------------------------------------------
  // Keys and directions.

  function KeyDirection(key: Key): (d: Option<Vec>)
    ensures d.Some? <==> key !in {Space, Escape, OtherKey}
    ensures d.Some? ==> IsUnit(d.value)
  {
    match key
    case ArrowUp => Some(Vec(0, -1))
    case ArrowDown => Some(Vec(0, 1))
    case ArrowLeft => Some(Vec(-1, 0))
    case ArrowRight => Some(Vec(1, 0))
    case KeyW => Some(Vec(0, -1))
    case KeyS => Some(Vec(0, 1))
    case KeyA => Some(Vec(-1, 0))
    case KeyD => Some(Vec(1, 0))
    case _ => None
  }

  /** The reversal guard: the requested direction may not share an axis with
      the committed one. */
  predicate Accepts(committed: Vec, requested: Vec) {
    (committed.x == 0 || requested.x == 0) && (committed.y == 0 || requested.y == 0)
  }

  /** With unit directions the guard accepts exactly the perpendicular turns,
      and any direction before the snake has started to move. */
  lemma AcceptsPerpendicularOnly(committed: Vec, requested: Vec)
    requires IsUnit(requested) && (committed == Still || IsUnit(committed))
    ensures Accepts(committed, requested) <==>
              committed == Still || (requested != committed && requested != Opposite(committed))
  {
  }

  /** The direction a tick adopts: the queued one once there is one. */
  function Effective(next: Vec, committed: Vec): (d: Vec)
    ensures next != Still ==> d == next
    ensures next == Still ==> d == committed
  {
    if next.x != 0 || next.y != 0 then next else committed
  }

  /** The queued direction never reverses the committed one. */
  predicate Compatible(committed: Vec, next: Vec) {
    next == Still || committed == Still || next == committed ||
    (next != Opposite(committed) && Accepts(committed, next))
  }

  predicate Collides(snake: seq<Cell>, head: Cell) {
    !InGrid(head) || head in snake
  }

  /** A snake on the board without repeated cells. */
  predicate WellFormed(snake: seq<Cell>) {
    |snake| >= 1 && (forall i :: 0 <= i < |snake| ==> InGrid(snake[i])) && NoDuplicates(snake)
  }

  /** Prepending a head that does not collide, with or without dropping the
      tail, keeps a snake well formed. */
  lemma MoveKeepsWellFormed(snake: seq<Cell>, head: Cell)
    requires WellFormed(snake) && !Collides(snake, head)
    ensures WellFormed([head] + snake)
    ensures WellFormed([head] + snake[..|snake| - 1])
  {
    var body := snake[..|snake| - 1];
    assert forall c :: c in body ==> c in snake;
  }

  // ---------------------------------------------------------------------
  // The tick as a function on the board.

  /** The part of the game state a tick reads and writes (besides the
      direction). */
  datatype Board = Board(
    state: GameState,
    snake: seq<Cell>,
    food: Cell,
    special: Option<Special>,
    score: int,
    foodEaten: int)

  /** What holds of every board the game reaches: a well-formed snake, food
      and special food on the board, a non-negative timer, and a score made
      of FoodReward per regular food plus a whole number of SpecialReward. */
  predicate BoardOk(b: Board) {
    && WellFormed(b.snake)
    && InGrid(b.food)
    && (b.special.Some? ==> InGrid(b.special.value.pos) && b.special.value.timer >= 0)
    && b.foodEaten >= 0
    && b.score >= FoodReward * b.foodEaten
    && (b.score - FoodReward * b.foodEaten) % SpecialReward == 0
  }

  /** The snake step of a tick (the snake updater) in direction d. */
  function SnakeStep(b: Board, d: Vec, foodDraws: seq<Draw>, coin: real, specialDraws: seq<Draw>): Board
    requires |b.snake| >= 1 && RandomStream(foodDraws) && RandomStream(specialDraws)
  {
    if d == Still then b
    else
      var head := Move(b.snake[0], d);
      if Collides(b.snake, head) then b.(state := GameOver)
      else if head == b.food then
        b.(snake := [head] + b.snake,
           score := b.score + FoodReward,
           foodEaten := b.foodEaten + 1,
           food := Retry(b.snake, foodDraws),
           special := if b.special.Some? then b.special
                      else SpawnedSpecial(b.foodEaten + 1, coin, b.snake, b.food, specialDraws))
      else if b.special.Some? && head == b.special.value.pos then
        b.(snake := [head] + b.snake, score := b.score + SpecialReward, special := None)
      else
        b.(snake := [head] + b.snake[..|b.snake| - 1])
  }

  /** A whole tick: the snake step, then the special-food timer step. */
  function TickResult(b: Board, d: Vec, foodDraws: seq<Draw>, coin: real, specialDraws: seq<Draw>): Board
    requires |b.snake| >= 1 && RandomStream(foodDraws) && RandomStream(specialDraws)
  {
    var a := SnakeStep(b, d, foodDraws, coin, specialDraws);
    a.(special := TimerStep(a.special))
  }

  /** A tick keeps every property of a reachable board. */
  lemma TickKeepsBoardOk(b: Board, d: Vec, foodDraws: seq<Draw>, coin: real, specialDraws: seq<Draw>)
    requires BoardOk(b) && RandomStream(foodDraws) && RandomStream(specialDraws)
    ensures BoardOk(TickResult(b, d, foodDraws, coin, specialDraws))
  {
    if d != Still {
      var head := Move(b.snake[0], d);
      if !Collides(b.snake, head) {
        MoveKeepsWellFormed(b.snake, head);
        var n := b.score - FoodReward * b.foodEaten;
        if head == b.food {
          assert (b.score + FoodReward) - FoodReward * (b.foodEaten + 1) == n;
        } else if b.special.Some? && head == b.special.value.pos {
          assert (b.score + SpecialReward) - FoodReward * b.foodEaten == n + SpecialReward;
        }
      }
    }
  }

  /** What a tick does to the snake and the game state: it waits while there
      is no direction; a head off the board or on any segment (the tail
      included) ends the game and leaves the snake; otherwise the new head
      is prepended and the tail is dropped unless something was eaten. */
  lemma TickMovement(b: Board, d: Vec, foodDraws: seq<Draw>, coin: real, specialDraws: seq<Draw>)
    requires BoardOk(b) && b.state == Playing && RandomStream(foodDraws) && RandomStream(specialDraws)
    ensures var r := TickResult(b, d, foodDraws, coin, specialDraws);
      && (d == Still ==> r.state == Playing && r.snake == b.snake)
      && (d != Still && Collides(b.snake, Move(b.snake[0], d)) ==> r.state == GameOver && r.snake == b.snake)
      && (d != Still && !Collides(b.snake, Move(b.snake[0], d)) ==>
            && r.state == Playing
            && r.snake[0] == Move(b.snake[0], d)
            && var ate := Move(b.snake[0], d) == b.food ||
                          (b.special.Some? && Move(b.snake[0], d) == b.special.value.pos);
               (ate ==> r.snake == [Move(b.snake[0], d)] + b.snake) &&
               (!ate ==> r.snake == [Move(b.snake[0], d)] + b.snake[..|b.snake| - 1]))
      && (|r.snake| == |b.snake| + 1 <==> r.state == Playing && r.score > b.score)
  {
  }

  /** Score accounting: regular food is checked first and is worth
      FoodReward, special food SpecialReward, anything else nothing; a
      special item is spawned only after regular food and only when none is
      on the board. */
  lemma TickScoring(b: Board, d: Vec, foodDraws: seq<Draw>, coin: real, specialDraws: seq<Draw>)
    requires BoardOk(b) && b.state == Playing && RandomStream(foodDraws) && RandomStream(specialDraws)
    ensures var r := TickResult(b, d, foodDraws, coin, specialDraws);
      var moved := d != Still && !Collides(b.snake, Move(b.snake[0], d));
      var head := Move(b.snake[0], d);
      && r.score >= b.score
      && (moved && head == b.food ==>
            && r.score == b.score + FoodReward && r.foodEaten == b.foodEaten + 1
            && r.food == Retry(b.snake, foodDraws)
            && r.special == TimerStep(if b.special.Some? then b.special
                                      else SpawnedSpecial(b.foodEaten + 1, coin, b.snake, b.food, specialDraws)))
      && (moved && head != b.food && b.special.Some? && head == b.special.value.pos ==>
            r.score == b.score + SpecialReward && r.foodEaten == b.foodEaten && r.food == b.food && r.special == None)
      && (!(moved && (head == b.food || (b.special.Some? && head == b.special.value.pos))) ==>
            r.score == b.score && r.foodEaten == b.foodEaten && r.food == b.food && r.special == TimerStep(b.special))
  {
  }

  // ---------------------------------------------------------------------

  class Game {
    var gameState: GameState
    var score: int
    var highScore: int
    var snake: seq<Cell>
    var food: Cell
    var specialFood: Option<Special>
    var direction: Vec
    var nextDirection: Vec
    var foodEaten: int
    ghost var highScoreWrites: nat   // writes of the high score to storage

    ghost function Current(): Board
      reads this
    {
      Board(gameState, snake, food, specialFood, score, foodEaten)
    }

    ghost predicate Valid()
      reads this
    {
      && BoardOk(Current())
      && (direction == Still || IsUnit(direction))
      && (nextDirection == Still || IsUnit(nextDirection))
      && Compatible(direction, nextDirection)
      && highScore >= 0
    }

    /** The state right after a (re)start, given the snake before it. */
    ghost predicate Fresh(previousSnake: seq<Cell>, draws: seq<Draw>)
      requires RandomStream(draws)
      reads this
    {
      && snake == [StartCell]
      && food == Retry(previousSnake, draws)
      && specialFood == None
      && direction == Still && nextDirection == Still
      && score == 0 && foodEaten == 0
    }

    /** The state before any game: the initial values of the component. */
    constructor (storedHighScore: nat)
      ensures Valid()
      ensures gameState == Menu && snake == [StartCell] && food == InitialFood && specialFood == None
      ensures direction == Still && nextDirection == Still
      ensures score == 0 && foodEaten == 0 && highScore == storedHighScore && highScoreWrites == 0
    {
      gameState := Menu;
      score := 0;
      highScore := storedHighScore;
      snake := [StartCell];
      food := InitialFood;
      specialFood := None;
      direction := Still;
      nextDirection := Still;
      foodEaten := 0;
      highScoreWrites := 0;
    }

    /** initGame: food is drawn against the previous game's snake. */
    method InitGame(draws: seq<Draw>)
      requires Valid() && RandomStream(draws)
      modifies this
      ensures Valid()
      ensures Fresh(old(snake), draws) && gameState == Menu
      ensures highScore == old(highScore) && highScoreWrites == old(highScoreWrites)
    {
      var newFood := GenerateFood(snake, draws);
      snake := [StartCell];
      food := newFood;
      specialFood := None;
      direction := Still;
      nextDirection := Still;
      score := 0;
      foodEaten := 0;
      gameState := Menu;
    }

    /** startGame */
    method Start(draws: seq<Draw>)
      requires Valid() && RandomStream(draws)
      modifies this
      ensures Valid()
      ensures Fresh(old(snake), draws) && gameState == Playing
      ensures highScore == old(highScore) && highScoreWrites == old(highScoreWrites)
    {
      InitGame(draws);
      gameState := Playing;
    }

    /** handleKeyPress. Escape asks the host to close the game (the result);
        Space starts a game from the menu or after a game over; a direction
        key is queued while playing if it passes the reversal guard. */
    method KeyPress(key: Key, draws: seq<Draw>) returns (close: bool)
      requires Valid() && RandomStream(draws)
      modifies this
      ensures Valid()
      ensures close <==> key == Escape
      ensures key == Space && old(gameState) != Playing ==>
                Fresh(old(snake), draws) && gameState == Playing &&
                highScore == old(highScore) && highScoreWrites == old(highScoreWrites)
      ensures key == Escape || (key == Space && old(gameState) == Playing) ==> unchanged(this)
      ensures key != Space ==>
                && Current() == old(Current()) && direction == old(direction)
                && highScore == old(highScore) && highScoreWrites == old(highScoreWrites)
      ensures key != Space ==>
                nextDirection ==
                  if key != Escape && old(gameState) == Playing && KeyDirection(key).Some?
                     && Accepts(old(direction), KeyDirection(key).value)
                  then KeyDirection(key).value
                  else old(nextDirection)
    {
      if key == Escape {
        return true;
      }
      close := false;
      if key == Space {
        if gameState == Menu || gameState == GameOver {
          Start(draws);
        }
        return;
      }
      if gameState != Playing {
        return;
      }
      var requested := KeyDirection(key);
      if requested.Some? {
        var d := requested.value;
        if direction.x == 0 || d.x == 0 {
          if direction.y == 0 || d.y == 0 {
            nextDirection := d;
          }
        }
      }
    }

    /** gameLoop: one tick, the snake step followed by the special-food timer
        step. foodDraws feed generateFood, coin and specialDraws feed
        generateSpecialFood; both see the snake and food as they were before
        the tick. The queued direction is adopted and stays queued. */
    method Tick(foodDraws: seq<Draw>, coin: real, specialDraws: seq<Draw>)
      requires Valid() && gameState == Playing
      requires RandomStream(foodDraws) && IsRandom(coin) && RandomStream(specialDraws)
      modifies this
      ensures Valid()
      ensures direction == Effective(old(nextDirection), old(direction))
      ensures old(direction) != Still ==> direction != Opposite(old(direction))
      ensures nextDirection == old(nextDirection)
      ensures Current() == TickResult(old(Current()), direction, foodDraws, coin, specialDraws)
      ensures highScore == old(highScore) && highScoreWrites == old(highScoreWrites)
    {
      var current := Effective(nextDirection, direction);
      TickKeepsBoardOk(Current(), current, foodDraws, coin, specialDraws);
      direction := current;
      UpdateSnake(current, foodDraws, coin, specialDraws);
      UpdateSpecialTimer();
    }

    /** The snake updater of a tick, moving in direction d. */
    method UpdateSnake(d: Vec, foodDraws: seq<Draw>, coin: real, specialDraws: seq<Draw>)
      requires |snake| >= 1 && RandomStream(foodDraws) && IsRandom(coin) && RandomStream(specialDraws)
      modifies this`gameState, this`snake, this`food, this`specialFood, this`score, this`foodEaten
      ensures Current() == SnakeStep(old(Current()), d, foodDraws, coin, specialDraws)
    {
      if d != Still {
        var head := Move(snake[0], d);
        if !InGrid(head) || head in snake {
          gameState := GameOver;
        } else if head == food {
          var newFood := GenerateFood(snake, foodDraws);
          if specialFood.None? {
            specialFood := GenerateSpecialFood(foodEaten + 1, coin, snake, food, specialDraws);
          }
          snake := [head] + snake;
          score := score + FoodReward;
          foodEaten := foodEaten + 1;
          food := newFood;
        } else if specialFood.Some? && head == specialFood.value.pos {
          snake := [head] + snake;
          score := score + SpecialReward;
          specialFood := None;
        } else {
          snake := [head] + snake[..|snake| - 1];
        }
      }
    }

    /** The special-food timer updater, run on every tick. */
    method UpdateSpecialTimer()
      modifies this`specialFood
      ensures specialFood == TimerStep(old(specialFood))
    {
      if specialFood.Some? && specialFood.value.timer > 0 {
        specialFood := Some(Special(specialFood.value.pos, specialFood.value.timer - 1));
      } else if specialFood.Some? && specialFood.value.timer == 0 {
        specialFood := None;
      }
    }

    /** The game-over effect: a higher score is recorded and written once. */
    method OnGameOver()
      requires Valid()
      modifies this`highScore, this`highScoreWrites
      ensures Valid()
      ensures highScore >= old(highScore)
      ensures gameState == GameOver ==> highScore == if score > old(highScore) then score else old(highScore)
      ensures gameState != GameOver ==> highScore == old(highScore)
      ensures highScoreWrites == old(highScoreWrites) + if gameState == GameOver && score > old(highScore) then 1 else 0
    {
      if gameState == GameOver && score > highScore {
        highScore := score;
        highScoreWrites := highScoreWrites + 1;
      }
    }
  }

  /** The new food is drawn against the snake before the move, so it may land
      on the cell the head has just entered: when the head moves onto the
      food and the first candidate is that cell, the candidate is accepted. */
  lemma FoodMayRespawnUnderHead(b: Board, d: Vec, foodDraws: seq<Draw>, coin: real, specialDraws: seq<Draw>)
    requires |b.snake| >= 1 && RandomStream(foodDraws) && RandomStream(specialDraws)
    requires d != Still && !Collides(b.snake, Move(b.snake[0], d)) && Move(b.snake[0], d) == b.food
    requires CellOf(foodDraws[0]) == Move(b.snake[0], d)
    ensures var r := TickResult(b, d, foodDraws, coin, specialDraws);
      r.food == r.snake[0] && r.snake[0] in r.snake
  {
    assert AttemptsFrom(b.snake, foodDraws, 1) == 1;
  }

  /** The special food is drawn against the food as it was before the tick,
      not against the food drawn in the same tick, so the two may share a
      cell: when regular food is eaten, no special item exists, the spawn
      rule fires, and the first special candidate is the new food's cell and
      misses the old food and the snake. */
  lemma SpecialMayLandOnNewFood(b: Board, d: Vec, foodDraws: seq<Draw>, coin: real, specialDraws: seq<Draw>)
    requires |b.snake| >= 1 && RandomStream(foodDraws) && RandomStream(specialDraws)
    requires d != Still && !Collides(b.snake, Move(b.snake[0], d)) && Move(b.snake[0], d) == b.food
    requires b.special.None? && ShouldSpawn(b.foodEaten + 1, coin)
    requires CellOf(specialDraws[0]) == Retry(b.snake, foodDraws)
    requires CellOf(specialDraws[0]) != b.food && CellOf(specialDraws[0]) !in b.snake
    ensures var r := TickResult(b, d, foodDraws, coin, specialDraws);
      r.special.Some? && r.special.value.pos == r.food && r.special.value.timer == SpecialLifetime - 1
  {
    assert CellOf(specialDraws[0]) !in [b.food] + b.snake;
    assert AttemptsFrom([b.food] + b.snake, specialDraws, 1) == 1;
  }
}
