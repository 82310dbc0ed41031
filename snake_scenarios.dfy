/**
 * The engine's documented scenarios, each as a method that builds the state
 * the scenario describes, runs the engine on it, and promises the outcome the
 * scenario expects.
 */
module SnakeScenarios {
  import opened Wrappers
  import opened Snake

  /** On a 5 x 5 grid, a one-segment snake at (2, 2) heading right moves to (3, 2) and keeps its length. */
  method MovesForward() returns (outcome: Outcome, head: Point, length: int)
    ensures outcome.status == Running && outcome.ate == Some(false)
    ensures head == Point(3, 2) && length == 1
  {
    var game := new SnakeGame(1, 5);
    game.snake := [Point(2, 2)];
    game.food := Some(Point(4, 4));
    var _ := game.QueueDirection("right");
    outcome := game.Step();
    head := game.snake[0];
    length := |game.snake|;
  }

  /** A snake at (1, 1) heading right onto food at (2, 1) eats, scores, grows, and gets new food. */
  method EatsAndGrows() returns (outcome: Outcome, score: int, length: int, food: Option<Point>)
    ensures outcome.ate == Some(true)
    ensures score == 1 && length == 2 && food.Some?
  {
    var game := new SnakeGame(2, 5);
    game.snake := [Point(1, 1)];
    game.food := Some(Point(2, 1));
    var _ := game.QueueDirection("right");
    assert game.nextDirection == Right;
    assert !Blocked(game.gridSize, game.snake, Point(2, 1)) && game.food == Some(Point(2, 1));
    outcome := game.Step();
    assert game.snake == [Point(2, 1), Point(1, 1)];
    FoodIsFree(game.gridSize, game.snake, game.rng.value);
    assert InGrid(game.gridSize, Point(0, 0)) && Point(0, 0) !in game.snake;
    assert game.food.Some?;
    score := game.score;
    length := |game.snake|;
    food := game.food;
  }

  /** A snake whose head turns left into its own body ends the game with reason "self". */
  method HitsItself() returns (outcome: Outcome, status: Status)
    ensures outcome.status == Over && outcome.reason == Some(SelfCollision)
    ensures status == Over
  {
    var game := new SnakeGame(3, 5);
    game.snake := [Point(2, 2), Point(2, 3), Point(1, 3), Point(1, 2), Point(1, 1)];
    game.direction := Left;
    game.nextDirection := Left;
    outcome := game.Step();
    status := game.status;
  }

  /** Every cell of a 3 x 3 grid but (2, 2), in the scenario's order. */
  const NEARLY_FULL: seq<Point> :=
    [Point(0, 0), Point(1, 0), Point(2, 0), Point(0, 1), Point(1, 1), Point(2, 1), Point(0, 2), Point(1, 2)]

  /** (2, 2) is the one cell of the 3 x 3 grid that `NEARLY_FULL` leaves free. */
  lemma OnlyFreeCell(n: int, snake: seq<Point>)
    requires n == 3 && snake == NEARLY_FULL
    ensures InGrid(n, Point(2, 2)) && Point(2, 2) !in snake
    ensures forall p :: InGrid(n, p) && p !in snake ==> p == Point(2, 2)
  {
  }

  /** On a 3 x 3 grid with every cell but (2, 2) taken, the food goes to (2, 2). */
  method FoodInLastFreeCell() returns (food: Option<Point>)
    ensures food == Some(Point(2, 2))
  {
    var game := new SnakeGame(4, 3);
    game.snake := NEARLY_FULL;
    food := game.PlaceFood();
    OnlyFreeCell(game.gridSize, game.snake);
    FoodInLastCell(game.gridSize, game.snake, Point(2, 2), game.rng.value);
  }
}
