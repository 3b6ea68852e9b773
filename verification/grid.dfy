/** The 9x9 board: cells, the four facing directions, one-cell steps and
    the distance test used when enemies are placed (game.js:3, 139-145, 124). */
module Grid {

  /** Side length of the square board. */
  const GRID: int := 9

  /** Minimum Chebyshev gap an enemy keeps from the player when it is placed. */
  const SPAWN_GAP: int := 2

  datatype Dir = Up | Down | Left | Right

  /** A board coordinate; `y` grows downwards, as on the canvas. */
  datatype Cell = Cell(x: int, y: int)

  predicate InGrid(c: Cell) {
    0 <= c.x < GRID && 0 <= c.y < GRID
  }

  /** A cell that lies on the board. */
  type GridCell = c: Cell | InGrid(c) witness Cell(0, 0)

  function Abs(n: int): nat {
    if n < 0 then -n else n
  }

  function Max(a: int, b: int): int {
    if a < b then b else a
  }

  /** The cell one step away in direction `d`. */
  function Neighbor(c: Cell, d: Dir): (n: Cell)
    ensures Abs(n.x - c.x) + Abs(n.y - c.y) == 1
  {
    match d
    case Up => Cell(c.x, c.y - 1)
    case Down => Cell(c.x, c.y + 1)
    case Left => Cell(c.x - 1, c.y)
    case Right => Cell(c.x + 1, c.y)
  }

  function Opposite(d: Dir): Dir {
    match d
    case Up => Down
    case Down => Up
    case Left => Right
    case Right => Left
  }

  function Chebyshev(a: Cell, b: Cell): nat {
    Max(Abs(a.x - b.x), Abs(a.y - b.y))
  }

  /** The placement test of the spawner, written the way the source writes it:
      one of the two coordinate differences exceeds the gap. */
  predicate Far(c: Cell, p: Cell) {
    Abs(c.x - p.x) > SPAWN_GAP || Abs(c.y - p.y) > SPAWN_GAP
  }

  lemma FarIsChebyshev(c: Cell, p: Cell)
    ensures Far(c, p) <==> Chebyshev(c, p) > SPAWN_GAP
  {
  }

  /** Whatever on-board cell the player is on, some on-board cell passes the
      placement test, so the spawner's retry loop has something to find. */
  lemma FarCellExists(p: Cell)
    requires InGrid(p)
    ensures exists c: Cell :: InGrid(c) && Far(c, p)
  {
    var c := Cell(if p.x <= GRID / 2 then GRID - 1 else 0, p.y);
    assert InGrid(c) && Far(c, p);
  }
}
