/**
 The board of the pathfinding simulator: a rectangle of cells addressed by
 (x, y), each cell carrying its colour (which doubles as its role: empty,
 wall, start, end, queued, explored) and the per-algorithm scratch fields
 that the search engine writes.
 */
module Grid {

  datatype Option<+T> = None | Some(value: T)

  /** A cell position; `x` is the column, `y` the row. */
  datatype Pos = Pos(x: int, y: int)

  /** One entry of the neighbour offset list (`delta`). */
  datatype Offset = Offset(dx: int, dy: int)

  /** The colours the core reads or writes. WHITE is an empty cell, GRAY a
      wall, GREEN the start, RED the end; LIGHT_GREEN marks a queued cell
      and LIGHT_BLUE an explored one. */
  datatype Color = White | Gray | Green | Red | LightGreen | LightBlue

  /** Dijkstra's distance: infinite for cells not reached yet. */
  datatype Dist = Inf | Fin(n: nat) {
    /** `dist + 1`, where infinity stays infinity. */
    function Succ(): (r: Dist)
      ensures Fin? <==> r.Fin?
      ensures Fin? ==> r.n == n + 1
    {
      match this
      case Inf => Inf
      case Fin(k) => Fin(k + 1)
    }

    /** `self < other` on extended naturals. */
    predicate Below(other: Dist) {
      match (this, other)
      case (Fin(a), Fin(b)) => a < b
      case (Fin(_), Inf) => true
      case (Inf, _) => false
    }
  }

  /** A cell record. `trace` is only ever cleared by the resets; `g`, `h`,
      `f` belong to A* and `dist` to Dijkstra. */
  datatype Cell = Cell(
    color: Color,
    prev: Option<Pos>,
    trace: seq<Pos>,
    g: nat, h: nat, f: nat,
    dist: Dist)

  /** A freshly constructed cell: white and without a predecessor. */
  const FreshCell: Cell := Cell(White, None, [], 0, 0, 0, Inf)

  /** The board's dimensions, as the number of rows and of cells per row,
      and its cells by position. */
  datatype Board = Board(width: nat, height: nat, cells: map<Pos, Cell>)

  /** The bounds check the steps make before looking at a neighbour: both
      coordinates lie inside the board. */
  predicate InBounds(b: Board, p: Pos) {
    0 <= p.x < b.width && 0 <= p.y < b.height
  }

  /** The board holds exactly one cell for every in-bounds position. */
  ghost predicate Valid(b: Board) {
    forall p :: p in b.cells <==> InBounds(b, p)
  }

  /** Same dimensions and same positions: what every operation of the
      core keeps. */
  predicate SameShape(a: Board, b: Board) {
    a.width == b.width && a.height == b.height && a.cells.Keys == b.cells.Keys
  }

  /** A board of the same shape as a well-formed one is well-formed. */
  lemma ValidSameShape(a: Board, b: Board)
    requires Valid(a) && SameShape(a, b)
    ensures Valid(b)
  {
    forall p ensures p in b.cells <==> InBounds(b, p) {
      assert InBounds(a, p) == InBounds(b, p);
    }
  }

  /** Same shape and every cell keeps its colour. */
  ghost predicate SameColors(a: Board, b: Board) {
    SameShape(a, b) && forall p | p in a.cells :: a.cells[p].color == b.cells[p].color
  }

  function Neighbour(p: Pos, d: Offset): Pos {
    Pos(p.x + d.dx, p.y + d.dy)
  }

  function ColorAt(b: Board, p: Pos): Color
    requires p in b.cells
  {
    b.cells[p].color
  }

  /** The predecessor of `p`, `None` when there is no such cell. */
  function PrevOf(b: Board, p: Pos): Option<Pos> {
    if p in b.cells then b.cells[p].prev else None
  }

  /** The cell at `p` gets `q` as its predecessor. */
  function SetPrev(b: Board, p: Pos, q: Pos): (r: Board)
    requires p in b.cells
    ensures SameShape(b, r)
    ensures r.cells[p] == b.cells[p].(prev := Some(q))
    ensures forall o :: o in b.cells && o != p ==> r.cells[o] == b.cells[o]
  {
    b.(cells := b.cells[p := b.cells[p].(prev := Some(q))])
  }

  /** Replace the record at `p`. */
  function Put(b: Board, p: Pos, c: Cell): (r: Board)
    requires p in b.cells
    ensures SameShape(b, r)
    ensures r.cells[p] == c
    ensures forall o :: o in b.cells && o != p ==> r.cells[o] == b.cells[o]
  {
    b.(cells := b.cells[p := c])
  }

  /** Squared Euclidean distance, the A* heuristic. */
  function SqDist(p: Pos, q: Pos): (r: nat)
    ensures r == 0 <==> p == q
  {
    var dx := p.x - q.x;
    var dy := p.y - q.y;
    assert dx * dx >= 0 && dy * dy >= 0;
    assert dx != 0 ==> dx * dx > 0;
    assert dy != 0 ==> dy * dy > 0;
    dx * dx + dy * dy
  }

  /** A `width` x `height` board of fresh cells. */
  function NewBoard(width: nat, height: nat): (r: Board)
    ensures Valid(r)
    ensures r.width == width && r.height == height
    ensures forall p :: p in r.cells ==> r.cells[p] == FreshCell
  {
    var keys := set x, y | 0 <= x < width && 0 <= y < height :: Pos(x, y);
    assert forall p :: InBounds(Board(width, height, map[]), p) ==> p in keys by {
      forall p | InBounds(Board(width, height, map[]), p) ensures p in keys {
        assert Pos(p.x, p.y) in keys;
      }
    }
    Board(width, height, map p | p in keys :: FreshCell)
  }
}
