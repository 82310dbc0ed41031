/**
 * The deterministic Snake engine: a Park–Miller "minimal standard" Lehmer
 * generator, the direction queue with its opposite-direction guard, food
 * placement over the free cells in row-major order, and the step function.
 *
 * A call `rng()` returns `value / 2147483647`; the model keeps the numerator
 * `value`, and `Math.floor(rng() * n)` becomes `(value * n) / 2147483647`.
 */
module Snake {
  import opened Wrappers

  /** The Lehmer modulus 2^31 - 1, a prime. */
  const MODULUS: int := 2147483647
  const MULTIPLIER: int := 16807
  const GRID_DEFAULT: int := 15

  // ------------------------------------------------------------ generator

  /** JavaScript's `%` with a positive divisor: the remainder takes the sign of the dividend. */
  function TruncMod(a: int, m: int): (r: int)
    requires m > 0
    ensures -m < r < m
    ensures a >= 0 ==> r == a % m
    ensures a < 0 ==> r <= 0 && r == -((-a) % m)
  {
    if a >= 0 then a % m else -((-a) % m)
  }

  /**
   * `createRng`'s normalisation of the seed as written: `seed % M`, moved up
   * by `M - 1` when it is not positive. One residue class is moved onto 0.
   */
  function SeedValueAsWritten(seed: int): (value: int)
    ensures 0 <= value < MODULUS
    ensures value == 0 <==> TruncMod(seed, MODULUS) == -(MODULUS - 1)
  {
    var v := TruncMod(seed, MODULUS);
    if v <= 0 then v + (MODULUS - 1) else v
  }

  /**
   * The normalisation the generator needs: a start value in
   * `1 .. 2147483646`. It agrees with the code as written on every seed
   * except the ones the code sends to 0, which get 1, their residue modulo M.
   */
  function SeedValue(seed: int): (value: int)
    ensures 1 <= value < MODULUS
    ensures SeedValueAsWritten(seed) != 0 ==> value == SeedValueAsWritten(seed)
  {
    var v := SeedValueAsWritten(seed);
    if v == 0 then 1 else v
  }

  /** One step of `next()`: the new value, a residue modulo M; 0 is a fixed point. */
  function NextValue(value: int): (next: int)
    ensures 0 <= next < MODULUS
    ensures value == 0 ==> next == 0
  {
    (value * MULTIPLIER) % MODULUS
  }

  /**
   * The seed -2147483646 (and every seed with that remainder) starts the
   * generator as written at 0, where it stays: every later draw is 0.
   */
  lemma SeedValueAsWrittenStuck()
    ensures SeedValueAsWritten(-2147483646) == 0
    ensures SeedValueAsWritten(-4294967293) == 0
    ensures NextValue(0) == 0
  {
  }

  /**
   * Every value of a generator started in `1 .. M - 1` stays there: M is
   * prime and does not divide 16807, so it does not divide `value * 16807`.
   */
  lemma NextValueInRange(v: int)
    requires 1 <= v < MODULUS
    ensures 1 <= NextValue(v) < MODULUS
  {
    // 16807 * 1407677000 == 11017 * M + 1: 16807 has an inverse modulo M
    var q := (v * MULTIPLIER) / MODULUS;
    var r := (v * MULTIPLIER) % MODULUS;
    assert v * MULTIPLIER == q * MODULUS + r;
    assert v * MULTIPLIER * 1407677000 == v * 11017 * MODULUS + v;
    // so v is a multiple of M plus r * 1407677000, and r == 0 would make v a multiple of M
    assert v == (q * 1407677000 - v * 11017) * MODULUS + r * 1407677000;
  }

  /** `createRng(seed)`: the closure's `value`, with `Next` as `next()`. */
  class LehmerRng {
    var value: int

    /**
     * The value is a residue modulo M. It is 0 only for a generator started
     * at 0, which the seed normalisation as written can do; started from the
     * corrected `SeedValue` it stays in `1 .. M - 1`.
     */
    ghost predicate Valid()
      reads this
    {
      0 <= value < MODULUS
    }

    /** Started from the corrected seed normalisation, `SeedValue`. */
    constructor (seed: int)
      ensures Valid() && value == SeedValue(seed)
      ensures 1 <= value && (SeedValueAsWritten(seed) != 0 ==> value == SeedValueAsWritten(seed))
    {
      value := SeedValue(seed);
    }

    /** Started from the seed normalisation as written, which can give 0. */
    constructor AsWritten(seed: int)
      ensures Valid() && value == SeedValueAsWritten(seed)
    {
      value := SeedValueAsWritten(seed);
    }

    /** `next()`: advance the value and return it; the float drawn is `u / M`. */
    method Next() returns (u: int)
      requires Valid()
      modifies this
      ensures Valid() && value == NextValue(old(value)) && u == value
      ensures old(value) >= 1 ==> value >= 1
      ensures old(value) == 0 ==> value == 0
    {
      if value >= 1 {
        NextValueInRange(value);
      }
      value := (value * MULTIPLIER) % MODULUS;
      u := value;
    }
  }

  /** `Math.floor(u / M * n)` for a draw `u`. */
  function Scaled(u: int, n: int): int {
    (u * n) / MODULUS
  }

  lemma {:induction false} ProductBelow(u: int, n: nat)
    requires 0 <= u < MODULUS
    ensures 0 <= u * n <= (MODULUS - 1) * n
  {
    if n > 0 {
      ProductBelow(u, n - 1);
      assert u * n == u * (n - 1) + u;
    }
  }

  /** A draw below M picks a position inside a non-empty list. */
  lemma ScaledInRange(u: int, n: nat)
    requires 0 <= u < MODULUS && n > 0
    ensures 0 <= Scaled(u, n) < n
  {
    ProductBelow(u, n);
  }

  // ------------------------------------------------------------ directions

  datatype Point = Point(x: int, y: int)

  datatype Direction = Up | Down | Left | Right

  /** `DIRECTIONS[name]`: the four names that have a delta. */
  function DirectionNamed(name: string): (d: Option<Direction>)
    ensures d.Some? <==> name in ["up", "down", "left", "right"]
  {
    if name == "up" then Some(Up)
    else if name == "down" then Some(Down)
    else if name == "left" then Some(Left)
    else if name == "right" then Some(Right)
    else None
  }

  /** The unit move of a direction; `y` grows downwards. */
  function Delta(d: Direction): Point {
    match d
    case Up => Point(0, -1)
    case Down => Point(0, 1)
    case Left => Point(-1, 0)
    case Right => Point(1, 0)
  }

  function Move(p: Point, d: Direction): Point {
    Point(p.x + Delta(d).x, p.y + Delta(d).y)
  }

  /** `isOpposite(current, next)`. */
  predicate IsOpposite(current: Direction, next: Direction) {
    || (current == Up && next == Down)
    || (current == Down && next == Up)
    || (current == Left && next == Right)
    || (current == Right && next == Left)
  }

  /** Two directions are opposite exactly when their moves cancel out, and the relation is symmetric. */
  lemma OppositeCancels(current: Direction, next: Direction)
    ensures IsOpposite(current, next) <==> Delta(current).x + Delta(next).x == 0 && Delta(current).y + Delta(next).y == 0 && current != next
    ensures IsOpposite(current, next) <==> IsOpposite(next, current)
  {
  }

  // ------------------------------------------------------------ free cells

  predicate InGrid(n: int, p: Point) {
    0 <= p.x < n && 0 <= p.y < n
  }

  /** Free cells of row `y` with column below `x`, left to right. */
  function RowOpen(snake: seq<Point>, y: int, x: nat): seq<Point> {
    if x == 0 then []
    else RowOpen(snake, y, x - 1) + (if Point(x - 1, y) in snake then [] else [Point(x - 1, y)])
  }

  /** Free cells of the rows above `y` of an `n`-wide grid, row by row. */
  function GridOpen(n: nat, snake: seq<Point>, y: nat): seq<Point> {
    if y == 0 then [] else GridOpen(n, snake, y - 1) + RowOpen(snake, y - 1, n)
  }

  /** `openCells` of `placeFood`: the free cells, with `y` in the outer loop and `x` in the inner one. */
  function OpenCells(n: int, snake: seq<Point>): seq<Point> {
    if n <= 0 then [] else GridOpen(n, snake, n)
  }

  /** Row-major order: by row, then by column. */
  predicate Before(p: Point, q: Point) {
    p.y < q.y || (p.y == q.y && p.x < q.x)
  }

  predicate RowMajor(cells: seq<Point>) {
    forall i, j :: 0 <= i < j < |cells| ==> Before(cells[i], cells[j])
  }

  lemma {:induction false} RowOpenFacts(snake: seq<Point>, y: int, x: nat)
    ensures forall p :: p in RowOpen(snake, y, x) <==> p.y == y && 0 <= p.x < x && p !in snake
    ensures RowMajor(RowOpen(snake, y, x))
  {
    if x > 0 {
      RowOpenFacts(snake, y, x - 1);
    }
  }

  lemma {:induction false} GridOpenFacts(n: nat, snake: seq<Point>, y: nat)
    ensures forall p :: p in GridOpen(n, snake, y) <==> 0 <= p.y < y && 0 <= p.x < n && p !in snake
    ensures RowMajor(GridOpen(n, snake, y))
  {
    if y > 0 {
      GridOpenFacts(n, snake, y - 1);
      RowOpenFacts(snake, y - 1, n);
      var before := GridOpen(n, snake, y - 1);
      var row := RowOpen(snake, y - 1, n);
      forall i, j | 0 <= i < j < |before + row|
        ensures Before((before + row)[i], (before + row)[j])
      {
        if i < |before| && j >= |before| {
          assert (before + row)[i] in before;
          assert (before + row)[j] in row;
        }
      }
    }
  }

  /**
   * The open cells are exactly the cells of the grid not on the snake, each
   * once, in row-major order.
   */
  lemma OpenCellsFacts(n: int, snake: seq<Point>)
    ensures forall p :: p in OpenCells(n, snake) <==> InGrid(n, p) && p !in snake
    ensures RowMajor(OpenCells(n, snake))
  {
    if n > 0 {
      GridOpenFacts(n, snake, n);
    }
  }

  /**
   * The food `placeFood` returns once the draw `u` is made: none when no cell
   * is free, otherwise the open cell the draw scales to.
   */
  function FoodAt(n: int, snake: seq<Point>, u: int): Option<Point> {
    var open := OpenCells(n, snake);
    if open == [] then None
    else if 0 <= Scaled(u, |open|) < |open| then Some(open[Scaled(u, |open|)])
    else None
  }

  /**
   * Food is absent exactly when every cell of the grid is on the snake;
   * otherwise it lies in the grid and off the snake.
   */
  lemma FoodIsFree(n: int, snake: seq<Point>, u: int)
    requires 0 <= u < MODULUS
    ensures FoodAt(n, snake, u).None? <==> forall p :: InGrid(n, p) ==> p in snake
    ensures FoodAt(n, snake, u).Some? ==> InGrid(n, FoodAt(n, snake, u).value) && FoodAt(n, snake, u).value !in snake
  {
    OpenCellsFacts(n, snake);
    var open := OpenCells(n, snake);
    if open != [] {
      ScaledInRange(u, |open|);
      assert open[Scaled(u, |open|)] in open;
      var c := open[0];
      assert c in open;
    } else {
      forall p | InGrid(n, p)
        ensures p in snake
      {
      }
    }
  }

  /** With one free cell, the food goes there whatever the draw. */
  lemma FoodInLastCell(n: int, snake: seq<Point>, c: Point, u: int)
    requires 0 <= u < MODULUS
    requires InGrid(n, c) && c !in snake
    requires forall p :: InGrid(n, p) && p !in snake ==> p == c
    ensures FoodAt(n, snake, u) == Some(c)
  {
    OpenCellsFacts(n, snake);
    var open := OpenCells(n, snake);
    assert c in open;
    ScaledInRange(u, |open|);
    assert open[Scaled(u, |open|)] in open;
  }

  // ------------------------------------------------------------ the game

  datatype Status = Idle | Running | Over

  datatype Reason = Wall | SelfCollision | Filled

  /** The object `step` returns: `{status}`, `{status, reason}` or `{status, ate}`. */
  datatype Outcome = Outcome(status: Status, reason: Option<Reason>, ate: Option<bool>)

  /** `nextHead` runs into the wall or into a segment. */
  predicate Blocked(n: int, snake: seq<Point>, head: Point) {
    !InGrid(n, head) || head in snake
  }

  /**
   * The snake lies in the grid without overlapping itself, and the food, if
   * any, lies in the grid off the snake.
   */
  ghost predicate Placed(n: int, snake: seq<Point>, food: Option<Point>) {
    && (forall k :: 0 <= k < |snake| ==> InGrid(n, snake[k]))
    && (forall j, k :: 0 <= j < k < |snake| ==> snake[j] != snake[k])
    && (food.Some? ==> InGrid(n, food.value) && food.value !in snake)
  }

  /** Moving on to a free cell other than the food's keeps everything placed. */
  lemma SlidePlaced(n: int, snake: seq<Point>, food: Option<Point>, head: Point)
    requires |snake| >= 1 && !Blocked(n, snake, head) && food != Some(head)
    ensures Placed(n, snake, food) ==> Placed(n, [head] + snake[..|snake| - 1], food)
  {
    var moved := [head] + snake[..|snake| - 1];
    assert forall p :: p in moved ==> p == head || p in snake;
  }

  /** Growing onto the food and placing new food keeps everything placed. */
  lemma GrowPlaced(n: int, snake: seq<Point>, food: Option<Point>, head: Point, u: int)
    requires !Blocked(n, snake, head) && 0 <= u < MODULUS
    ensures Placed(n, snake, food) ==> Placed(n, [head] + snake, FoodAt(n, [head] + snake, u))
  {
    FoodIsFree(n, [head] + snake, u);
  }

  /** The state `createState` builds and `step` and `queueDirection` update. */
  class SnakeGame {
    var seed: int
    var rng: LehmerRng
    var gridSize: int
    var snake: seq<Point>
    var direction: Direction
    var nextDirection: Direction
    var food: Option<Point>
    var score: int
    var status: Status

    /** What every caller of `step` has: a working generator and a head. */
    ghost predicate Valid()
      reads this, rng
    {
      rng.Valid() && |snake| >= 1
    }

    /**
     * The snake lies in the grid without overlapping itself, and the food,
     * if any, lies in the grid off the snake.
     */
    ghost predicate Consistent()
      reads this
    {
      Placed(gridSize, snake, food)
    }

    /**
     * `createState(seed, gridSize)`: one segment in the middle cell, heading
     * right, score 0, idle, and food placed by the fresh generator.
     */
    constructor (seed: int, gridSize: int)
      ensures Valid() && fresh(rng)
      ensures this.seed == seed && this.gridSize == gridSize
      ensures snake == [Point(gridSize / 2, gridSize / 2)]
      ensures direction == Right && nextDirection == Right
      ensures score == 0 && status == Idle
      ensures food == FoodAt(gridSize, snake, rng.value)
      ensures rng.value == if OpenCells(gridSize, snake) == [] then SeedValue(seed) else NextValue(SeedValue(seed))
      ensures gridSize >= 1 ==> Consistent()
    {
      this.seed := seed;
      rng := new LehmerRng(seed);
      this.gridSize := gridSize;
      var start := gridSize / 2;
      snake := [Point(start, start)];
      direction := Right;
      nextDirection := Right;
      food := None;
      score := 0;
      status := Idle;
      new;
      food := PlaceFood();
      FoodIsFree(gridSize, snake, rng.value);
    }

    /**
     * `queueDirection(state, requested)`: an unknown name or the opposite of
     * the current direction leaves the queued direction alone; any other
     * request is queued. Returns the queued direction.
     */
    method QueueDirection(requested: string) returns (queued: Direction)
      modifies this`nextDirection
      ensures queued == nextDirection
      ensures DirectionNamed(requested).None? || IsOpposite(direction, DirectionNamed(requested).value) ==>
        nextDirection == old(nextDirection)
      ensures DirectionNamed(requested).Some? && !IsOpposite(direction, DirectionNamed(requested).value) ==>
        nextDirection == DirectionNamed(requested).value
      ensures !old(IsOpposite(direction, nextDirection)) ==> !IsOpposite(direction, nextDirection)
    {
      var d := DirectionNamed(requested);
      if d.None? {
        return nextDirection;
      }
      if IsOpposite(direction, d.value) {
        return nextDirection;
      }
      nextDirection := d.value;
      return nextDirection;
    }

    /**
     * `placeFood(state)`: list the free cells row by row, then, if there is
     * one, draw from the generator and take the cell the draw scales to.
     */
    method PlaceFood() returns (cell: Option<Point>)
      requires rng.Valid()
      modifies rng
      ensures rng.Valid()
      ensures rng.value == if OpenCells(gridSize, snake) == [] then old(rng.value) else NextValue(old(rng.value))
      ensures cell == FoodAt(gridSize, snake, rng.value)
    {
      var openCells: seq<Point> := [];
      var n := gridSize;
      if n > 0 {
        for y := 0 to n
          invariant openCells == GridOpen(n, snake, y)
        {
          for x := 0 to n
            invariant openCells == GridOpen(n, snake, y) + RowOpen(snake, y, x)
          {
            var occupied := Point(x, y) in snake;
            if !occupied {
              openCells := openCells + [Point(x, y)];
            }
          }
        }
      }
      if |openCells| == 0 {
        return None;
      }
      var u := rng.Next();
      var index := (u * |openCells|) / MODULUS;
      ScaledInRange(u, |openCells|);
      cell := Some(openCells[index]);
    }

    /**
     * `step(state)`. On a finished game: nothing changes. Otherwise the
     * queued direction becomes the direction and the head moves one cell:
     * into the wall or a segment (the tail included) the game ends, "wall"
     * taking precedence; onto the food the snake grows, scores, and new food
     * is placed; elsewhere the snake moves on at the same length. With no
     * food left to place the game ends as "filled", else it is running.
     */
    method Step() returns (outcome: Outcome)
      requires Valid()
      modifies this, rng
      ensures Valid() && rng == old(rng)
      ensures seed == old(seed) && gridSize == old(gridSize) && nextDirection == old(nextDirection)
      ensures old(status) == Over ==>
        && outcome == Outcome(Over, None, None)
        && status == Over && direction == old(direction) && snake == old(snake)
        && food == old(food) && score == old(score) && rng.value == old(rng.value)
      ensures old(status) != Over ==> direction == old(nextDirection)
      ensures old(status) != Over && Blocked(gridSize, old(snake), Move(old(snake)[0], old(nextDirection))) ==>
        && outcome == Outcome(Over, Some(if InGrid(gridSize, Move(old(snake)[0], old(nextDirection))) then SelfCollision else Wall), None)
        && status == Over && snake == old(snake) && food == old(food) && score == old(score)
        && rng.value == old(rng.value)
      ensures old(status) != Over && !Blocked(gridSize, old(snake), Move(old(snake)[0], old(nextDirection)))
              && old(food) == Some(Move(old(snake)[0], old(nextDirection))) ==>
        && snake == [Move(old(snake)[0], old(nextDirection))] + old(snake)
        && score == old(score) + 1
        && rng.value == (if OpenCells(gridSize, snake) == [] then old(rng.value) else NextValue(old(rng.value)))
        && food == FoodAt(gridSize, snake, rng.value)
        && (food.None? ==> status == Over && outcome == Outcome(Over, Some(Filled), None))
        && (food.Some? ==> status == Running && outcome == Outcome(Running, None, Some(true)))
      ensures old(status) != Over && !Blocked(gridSize, old(snake), Move(old(snake)[0], old(nextDirection)))
              && old(food) != Some(Move(old(snake)[0], old(nextDirection))) ==>
        && snake == [Move(old(snake)[0], old(nextDirection))] + old(snake)[..|old(snake)| - 1]
        && score == old(score) && food == old(food) && rng.value == old(rng.value)
        && (food.None? ==> status == Over && outcome == Outcome(Over, Some(Filled), None))
        && (food.Some? ==> status == Running && outcome == Outcome(Running, None, Some(false)))
      ensures old(Consistent()) ==> Consistent()
    {
      if status == Over {
        return Outcome(Over, None, None);
      }
      direction := nextDirection;
      var delta := Delta(direction);
      var head := snake[0];
      var nextHead := Point(head.x + delta.x, head.y + delta.y);
      var hitWall := nextHead.x < 0 || nextHead.y < 0 || nextHead.x >= gridSize || nextHead.y >= gridSize;
      var hitSelf := nextHead in snake;
      if hitWall || hitSelf {
        status := Over;
        return Outcome(Over, Some(if hitWall then Wall else SelfCollision), None);
      }
      outcome := Advance(nextHead);
    }

    /**
     * The second half of `step`, once `nextHead` is known to be free: grow
     * onto the food or move on, then report "filled" or running.
     */
    method Advance(nextHead: Point) returns (outcome: Outcome)
      requires Valid() && !Blocked(gridSize, snake, nextHead)
      modifies this, rng
      ensures Valid() && rng == old(rng)
      ensures seed == old(seed) && gridSize == old(gridSize)
      ensures direction == old(direction) && nextDirection == old(nextDirection)
      ensures old(food) == Some(nextHead) ==>
        && snake == [nextHead] + old(snake)
        && score == old(score) + 1
        && rng.value == (if OpenCells(gridSize, snake) == [] then old(rng.value) else NextValue(old(rng.value)))
        && food == FoodAt(gridSize, snake, rng.value)
        && (food.None? ==> status == Over && outcome == Outcome(Over, Some(Filled), None))
        && (food.Some? ==> status == Running && outcome == Outcome(Running, None, Some(true)))
      ensures old(food) != Some(nextHead) ==>
        && snake == [nextHead] + old(snake)[..|old(snake)| - 1]
        && score == old(score) && food == old(food) && rng.value == old(rng.value)
        && (food.None? ==> status == Over && outcome == Outcome(Over, Some(Filled), None))
        && (food.Some? ==> status == Running && outcome == Outcome(Running, None, Some(false)))
      ensures old(Consistent()) && InGrid(gridSize, nextHead) ==> Consistent()
    {
      var ateFood := food == Some(nextHead);
      ghost var before := snake;
      snake := [nextHead] + snake;
      if ateFood {
        score := score + 1;
        food := PlaceFood();
        GrowPlaced(gridSize, before, old(food), nextHead, rng.value);
      } else {
        snake := snake[..|snake| - 1];
        SlidePlaced(gridSize, before, food, nextHead);
      }
      if food.None? {
        status := Over;
        return Outcome(Over, Some(Filled), None);
      }
      status := Running;
      return Outcome(Running, None, Some(ateFood));
    }
  }
}
