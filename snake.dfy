/**
 * Snake on a 20x20 grid.  The snake is a list of cells with the head
 * first; every tick it moves one cell in its direction, grows by one when
 * its head lands on the food and dies on a wall or on its own body.  The
 * random food positions are an input: a stream of drawn cells, of which
 * spawn_food takes the first one off the snake.
 */
module Snake {
  import opened Options

  const Cols := 20
  const Rows := 20

  type Cell = (int, int)

  predicate InGrid(p: Cell) { 0 <= p.0 < Cols && 0 <= p.1 < Rows }

  /** One of the four directions the snake can head in. */
  predicate Unit(d: Cell) { d == (1, 0) || d == (-1, 0) || d == (0, 1) || d == (0, -1) }

  function Add(p: Cell, d: Cell): Cell { (p.0 + d.0, p.1 + d.1) }

  function Reverse(d: Cell): Cell { (d.0 * -1, d.1 * -1) }

  /** The snake of a new game: three cells in row 5, head at column 5, pointing right. */
  const StartSnake: seq<Cell> := [(5, 5), (4, 5), (3, 5)]

  /** No cell appears twice. */
  predicate Distinct(s: seq<Cell>)
  {
    forall i, j :: 0 <= i < j < |s| ==> s[i] != s[j]
  }

  // ---------------------------------------------------------------------
  // Food

  /** randint(0, COLS-1), randint(0, ROWS-1) only draws cells of the grid. */
  predicate Draws(ds: seq<Cell>)
  {
    forall i :: 0 <= i < |ds| ==> InGrid(ds[i])
  }

  /** Some draw of the stream is off the body: spawn_food stops there. */
  predicate HasFree(body: seq<Cell>, ds: seq<Cell>)
  {
    exists i :: 0 <= i < |ds| && ds[i] !in body
  }

  /** The first draw of the stream that is not on the body. */
  function FirstFree(body: seq<Cell>, ds: seq<Cell>): Option<Cell>
  {
    if ds == [] then None
    else if ds[0] !in body then Some(ds[0])
    else FirstFree(body, ds[1..])
  }

  /**
   * The first free draw exists exactly when some draw is free; it is one of
   * the draws, in the grid, off the body, and every draw before it was on
   * the body.
   */
  lemma {:induction false} FirstFreeSpec(body: seq<Cell>, ds: seq<Cell>)
    requires Draws(ds)
    ensures FirstFree(body, ds).Some? <==> HasFree(body, ds)
    ensures FirstFree(body, ds).Some? ==>
      exists i :: 0 <= i < |ds| && ds[i] == FirstFree(body, ds).value && (forall k :: 0 <= k < i ==> ds[k] in body)
    ensures FirstFree(body, ds).Some? ==> InGrid(FirstFree(body, ds).value) && FirstFree(body, ds).value !in body
  {
    if ds != [] && ds[0] in body {
      var rest := ds[1..];
      FirstFreeSpec(body, rest);
      if HasFree(body, ds) {
        var i :| 0 <= i < |ds| && ds[i] !in body;
        assert rest[i - 1] == ds[i];
      }
      if FirstFree(body, rest).Some? {
        var i :| 0 <= i < |rest| && rest[i] == FirstFree(body, rest).value && (forall k :: 0 <= k < i ==> rest[k] in body);
        assert ds[i + 1] == rest[i];
        assert forall k :: 1 <= k < i + 1 ==> ds[k] == rest[k - 1];
      }
    } else if ds != [] {
      assert ds[0] == FirstFree(body, ds).value;
    }
  }

  /** spawn_food: draw cells until one is off the snake, and return it. */
  method SpawnFood(body: seq<Cell>, ds: seq<Cell>) returns (f: Cell)
    requires Draws(ds) && HasFree(body, ds)
    ensures FirstFree(body, ds) == Some(f)
    ensures InGrid(f) && f !in body
  {
    FirstFreeSpec(body, ds);
    var i := 0;
    while i < |ds|
      invariant 0 <= i <= |ds|
      invariant FirstFree(body, ds) == FirstFree(body, ds[i..])
    {
      if ds[i] !in body {
        return ds[i];
      }
      assert ds[i..][1..] == ds[i + 1..];
      i := i + 1;
    }
    assert false;
  }

  // ---------------------------------------------------------------------
  // Stepping

  /** The direction update takes: the buffered one, unless it is the exact reverse of the current one. */
  function Heading(direction: Cell, next: Cell): (d: Cell)
    ensures Unit(direction) && Unit(next) ==> Unit(d) && d != Reverse(direction)
  {
    if Reverse(next) != direction then next else direction
  }

  /** The snake after its head moves to h: h in front, and the tail dropped unless it grows. */
  function Moved(s: seq<Cell>, h: Cell, grow: bool): seq<Cell>
    requires |s| > 0
  {
    if grow then [h] + s else [h] + s[..|s| - 1]
  }

  /** A move onto a free cell keeps the body free of repeats and one cell per segment. */
  lemma MovedDistinct(s: seq<Cell>, h: Cell, grow: bool)
    requires |s| > 0 && Distinct(s) && h !in s
    ensures Distinct(Moved(s, h, grow))
    ensures |Moved(s, h, grow)| == if grow then |s| + 1 else |s|
    ensures forall p :: p in Moved(s, h, grow) ==> p == h || p in s
  {
    var m := Moved(s, h, grow);
    forall i, j | 0 <= i < j < |m| ensures m[i] != m[j] {
      assert m[j] == s[j - 1];
      if i > 0 {
        assert m[i] == s[i - 1];
      }
    }
    forall p | p in m ensures p == h || p in s {
      var k :| 0 <= k < |m| && m[k] == p;
      if k > 0 {
        assert m[k] == s[k - 1];
      }
    }
  }

  /** Keys the game reacts to. */
  datatype Key = Up | Down | Left | Right | Pause | Space | OtherKey

  class Game {
    var snake: seq<Cell>
    var direction: Cell
    var nextDirection: Cell
    var food: Cell
    var score: int
    var gameOver: bool
    var paused: bool
    var highscore: int

    /**
     * The snake lies in the grid without crossing itself and is three cells
     * longer than the score; the food is in the grid and off the snake.
     */
    ghost predicate Body()
      reads this
    {
      |snake| == 3 + score && score >= 0 && Distinct(snake) &&
      (forall i :: 0 <= i < |snake| ==> InGrid(snake[i])) &&
      InGrid(food) && food !in snake
    }

    /**
     * Body() holds, both directions are unit steps, and while the game runs
     * the head is one step ahead of the second cell.
     */
    ghost predicate Valid()
      reads this
    {
      Body() && Unit(direction) && Unit(nextDirection) &&
      (!gameOver ==> snake[1] == Add(snake[0], Reverse(direction)))
    }

    /** __init__: a fresh round, with the high score read from the score file given as best. */
    constructor (ds: seq<Cell>, best: int)
      requires Draws(ds) && HasFree(StartSnake, ds)
      ensures Valid() && highscore == best
      ensures snake == StartSnake && direction == (1, 0) && nextDirection == (1, 0)
      ensures Some(food) == FirstFree(StartSnake, ds) && score == 0 && !gameOver && !paused
    {
      var f := SpawnFood(StartSnake, ds);
      highscore := best;
      snake := StartSnake;
      direction := (1, 0);
      nextDirection := (1, 0);
      food := f;
      score := 0;
      gameOver := false;
      paused := false;
    }

    /** reset: the start snake heading right, fresh food, score 0, neither over nor paused; the high score stays. */
    method Reset(ds: seq<Cell>)
      requires Draws(ds) && HasFree(StartSnake, ds)
      modifies this
      ensures Valid() && highscore == old(highscore)
      ensures snake == StartSnake && direction == (1, 0) && nextDirection == (1, 0)
      ensures Some(food) == FirstFree(StartSnake, ds) && score == 0 && !gameOver && !paused
    {
      snake := StartSnake;
      direction := (1, 0);
      nextDirection := (1, 0);
      food := SpawnFood(StartSnake, ds);
      score := 0;
      gameOver := false;
      paused := false;
    }

    /** die: the game is over, and the high score rises to the score if it was lower. */
    method Die()
      modifies this`gameOver, this`highscore
      ensures gameOver && highscore == if score > old(highscore) then score else old(highscore)
    {
      gameOver := true;
      if score > highscore {
        highscore := score;
      }
    }

    /**
     * update: nothing while over or paused.  Otherwise take the buffered
     * direction unless it reverses the snake, and step the head: off the
     * grid or onto any cell of the body, the tail included, the game dies
     * where it stands; onto the food, the snake grows, scores and food is
     * drawn again; elsewhere the tail follows.
     */
    method Update(ds: seq<Cell>)
      requires Valid() && Draws(ds) && HasFree([food] + snake, ds)
      modifies this
      ensures Valid()
      ensures old(gameOver || paused) ==>
        snake == old(snake) && direction == old(direction) && food == old(food) && score == old(score) &&
        gameOver == old(gameOver) && highscore == old(highscore)
      ensures nextDirection == old(nextDirection) && paused == old(paused)
      ensures !old(gameOver || paused) ==> direction == Heading(old(direction), old(nextDirection))
      ensures var h := Add(old(snake[0]), Heading(old(direction), old(nextDirection)));
        !old(gameOver || paused) && (!InGrid(h) || h in old(snake)) ==>
        gameOver && snake == old(snake) && food == old(food) && score == old(score) &&
        highscore == if old(score) > old(highscore) then old(score) else old(highscore)
      ensures var h := Add(old(snake[0]), Heading(old(direction), old(nextDirection)));
        !old(gameOver || paused) && InGrid(h) && h !in old(snake) ==>
        !gameOver && highscore == old(highscore) && snake == Moved(old(snake), h, h == old(food)) &&
        score == old(score) + (if h == old(food) then 1 else 0) &&
        Some(food) == (if h == old(food) then FirstFree([h] + old(snake), ds) else Some(old(food)))
    {
      if gameOver || paused {
        return;
      }
      if Reverse(nextDirection) != direction {
        direction := nextDirection;
      }
      var newHead := Add(snake[0], direction);
      if !InGrid(newHead) {
        Die();
        return;
      }
      if newHead in snake {
        Die();
        return;
      }
      Advance(newHead, ds);
      assert snake[0] == newHead && snake[1] == old(snake[0]);
    }

    /** The move of update onto a free cell h: h becomes the head; on the food the snake grows, scores and food is drawn again, elsewhere the tail is dropped. */
    method Advance(h: Cell, ds: seq<Cell>)
      requires Body() && InGrid(h) && h !in snake && Draws(ds) && HasFree([food] + snake, ds)
      modifies this`snake, this`score, this`food
      ensures Body()
      ensures snake == Moved(old(snake), h, h == old(food))
      ensures score == old(score) + (if h == old(food) then 1 else 0)
      ensures Some(food) == (if h == old(food) then FirstFree([h] + old(snake), ds) else Some(old(food)))
    {
      MovedDistinct(snake, h, h == food);
      snake := [h] + snake;
      if h == food {
        score := score + 1;
        food := SpawnFood(snake, ds);
      } else {
        snake := snake[..|snake| - 1];
      }
    }

    /**
     * A key press of the main loop: Space restarts a finished game; while
     * playing, an arrow buffers its direction unless the snake is heading
     * the opposite way, and P toggles the pause.
     */
    method Press(key: Key, ds: seq<Cell>)
      requires Valid() && Draws(ds) && HasFree(StartSnake, ds)
      modifies this
      ensures Valid()
      ensures old(gameOver) && key == Space ==> snake == StartSnake && score == 0 && !gameOver
      ensures old(gameOver) && key != Space ==> unchanged(this)
      ensures !old(gameOver) ==> snake == old(snake) && direction == old(direction) && score == old(score) && !gameOver
      ensures !old(gameOver) ==> paused == (if key == Pause then !old(paused) else old(paused))
      ensures !old(gameOver) ==> nextDirection == match key
        case Up => if old(direction) != (0, 1) then (0, -1) else old(nextDirection)
        case Down => if old(direction) != (0, -1) then (0, 1) else old(nextDirection)
        case Left => if old(direction) != (1, 0) then (-1, 0) else old(nextDirection)
        case Right => if old(direction) != (-1, 0) then (1, 0) else old(nextDirection)
        case _ => old(nextDirection)
    {
      if gameOver {
        if key == Space {
          Reset(ds);
        }
        return;
      }
      match key
      case Up => if direction != (0, 1) { nextDirection := (0, -1); }
      case Down => if direction != (0, -1) { nextDirection := (0, 1); }
      case Left => if direction != (1, 0) { nextDirection := (-1, 0); }
      case Right => if direction != (-1, 0) { nextDirection := (1, 0); }
      case Pause => paused := !paused;
      case _ =>
    }
  }
}
