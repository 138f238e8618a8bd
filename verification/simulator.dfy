/**
 The per-frame glue around the search engine: the run-status state machine
 driven by the space and escape keys, `ready` (mode dispatch), the tick
 `run` (one step, then recolouring by the difference of the frontier before
 and after, then the predecessor walk from the end cell), and the two
 colour writes of `draw` that put the start and end markers back.
 */
module Simulator {
  import opened Grid
  import opened Frontier
  import opened Algorithms

  datatype Status = Wait | Ready | Run | Pause | Complete

  datatype Key = Space | Escape

  /** The simulator's state that the core reads or writes. `frontier` is
      the structure returned by the last init (`self.data`). */
  datatype Sim = Sim(
    status: Status,
    mode: Mode,
    board: Board,
    start: Pos,
    end: Pos,
    delta: seq<Offset>,
    frontier: Frontier,
    path: seq<Pos>)

  /** The recolouring of `Simulator.run`: cells that left the frontier turn
      LIGHT_BLUE, cells that entered it turn LIGHT_GREEN. */
  function Recolour(b: Board, before: set<Pos>, after: set<Pos>): (r: Board)
    ensures SameShape(b, r)
    ensures forall p | p in b.cells && p in before && p !in after :: r.cells[p].color == LightBlue
    ensures forall p | p in b.cells && p in after && p !in before :: r.cells[p].color == LightGreen
    ensures forall p | p in b.cells && (p in before <==> p in after) :: r.cells[p].color == b.cells[p].color
    ensures forall p | p in b.cells :: r.cells[p].(color := b.cells[p].color) == b.cells[p]
  {
    b.(cells := map p | p in b.cells ::
      if p in before && p !in after then b.cells[p].(color := LightBlue)
      else if p in after && p !in before then b.cells[p].(color := LightGreen)
      else b.cells[p])
  }

  /** The path walk of `run`: starting at `c`, list each cell and move to
      its predecessor until a cell has none, for at most `fuel` cells;
      `None` when the chain is longer than that. */
  function Walk(b: Board, c: Pos, fuel: nat): (r: Option<seq<Pos>>)
    ensures r.Some? ==> 0 < |r.value| <= fuel && r.value[0] == c
    ensures r.Some? ==> forall i | 0 <= i < |r.value| - 1 :: PrevOf(b, r.value[i]) == Some(r.value[i + 1])
    ensures r.Some? ==> PrevOf(b, r.value[|r.value| - 1]) == None
    ensures PrevOf(b, c) == None && fuel > 0 ==> r == Some([c])
    decreases fuel
  {
    if fuel == 0 then None
    else match PrevOf(b, c)
      case None => Some([c])
      case Some(q) =>
        match Walk(b, q, fuel - 1)
        case None => None
        case Some(rest) => Some([c] + rest)
  }

  /** The outcome of one frame's `run`: the next state, or `Loops` when the
      predecessor walk would never end (the source would hang). */
  datatype Ticked = Next(sim: Sim) | Loops

  /** The preconditions under which `run` can be called: a running
      simulator whose frontier is a non-empty structure of its mode. */
  ghost predicate Runnable(s: Sim) {
    && s.status == Run
    && Valid(s.board) && Fits(s.mode, s.frontier) && OnBoard(s.board, s.frontier)
    && s.end in s.board.cells
    && Size(s.frontier) > 0
  }

  /** The part of `Simulator.run` before the path walk: one step, the
      recolouring, and the status update (only a `"complete"` return
      changes it). `pick` is the entry `heappop` returns. */
  function Advance(s: Sim, pick: Entry): (r: Sim)
    requires Runnable(s) && ValidPick(s.frontier, pick)
    ensures r == s.(status := r.status, board := r.board, frontier := r.frontier)
    ensures r.status == Run || r.status == Complete
    ensures SameShape(s.board, r.board) && Fits(s.mode, r.frontier)
    ensures forall p | p in s.board.cells ::
      r.board.cells[p].color == s.board.cells[p].color ||
      r.board.cells[p].color == LightBlue || r.board.cells[p].color == LightGreen
  {
    var st := Step(s.mode, s.board, s.frontier, pick, s.delta, s.end);
    var b := Recolour(st.board, Members(s.frontier), Members(st.frontier));
    s.(status := if st.complete then Complete else s.status, board := b, frontier := st.frontier)
  }

  /** `Simulator.run`: `Advance`, then the path, End first. */
  function Tick(s: Sim, pick: Entry): (r: Ticked)
    requires Runnable(s) && ValidPick(s.frontier, pick)
    ensures r.Next? ==> r.sim.(path := s.path) == Advance(s, pick)
    ensures r.Next? ==> 0 < |r.sim.path| && r.sim.path[0] == s.end
    ensures r.Next? ==> forall i | 0 <= i < |r.sim.path| - 1 ::
      PrevOf(r.sim.board, r.sim.path[i]) == Some(r.sim.path[i + 1])
  {
    var a := Advance(s, pick);
    match Walk(a.board, s.end, |a.board.cells|)
    case None => Loops
    case Some(path) => Next(a.(path := path))
  }

  /** The two colour writes at the top of `draw`: the start cell becomes
      GREEN, then the end cell RED. */
  function Repaint(s: Sim): (r: Sim)
    requires s.start in s.board.cells && s.end in s.board.cells
    ensures SameShape(s.board, r.board)
    ensures r.board.cells[s.end].color == Red
    ensures s.start != s.end ==> r.board.cells[s.start].color == Green
    ensures forall p | p in s.board.cells && p != s.start && p != s.end :: r.board.cells[p] == s.board.cells[p]
    ensures forall p | p in s.board.cells :: r.board.cells[p].(color := s.board.cells[p].color) == s.board.cells[p]
    ensures r == s.(board := r.board)
  {
    var b := Put(s.board, s.start, s.board.cells[s.start].(color := Green));
    s.(board := Put(b, s.end, b.cells[s.end].(color := Red)))
  }

  /** `Simulator.ready`: the mode's init, then status `run`. */
  function ReadyRun(s: Sim): (r: Sim)
    ensures r.status == Run
    ensures Fits(s.mode, r.frontier) && Members(r.frontier) == {s.start} && Size(r.frontier) == 1
    ensures SameColors(s.board, r.board)
    ensures r == s.(status := Run, board := r.board, frontier := r.frontier)
  {
    var (b, fr) := Init(s.mode, s.board, s.start);
    s.(status := Run, board := b, frontier := fr)
  }

  /** Every predecessor cleared. */
  function ClearPrev(b: Board): (r: Board)
    ensures SameShape(b, r)
    ensures forall p | p in b.cells :: r.cells[p] == b.cells[p].(prev := None)
  {
    b.(cells := map p | p in b.cells :: b.cells[p].(prev := None))
  }

  /** `ready` as evidently intended: every mode starts from a board without
      predecessors, as `dijkstra_init` already ensures for its own mode. */
  function ReadyClearing(s: Sim): (r: Sim)
    ensures r.status == Run
    ensures Fits(s.mode, r.frontier) && Members(r.frontier) == {s.start} && Size(r.frontier) == 1
    ensures SameColors(s.board, r.board)
    ensures forall p | p in r.board.cells :: r.board.cells[p].prev == None
    ensures r == s.(status := Run, board := r.board, frontier := r.frontier)
  {
    ReadyRun(s.(board := ClearPrev(s.board)))
  }

  /** The cells a run has coloured: queued or explored. */
  predicate Explored(c: Color) {
    c == LightGreen || c == LightBlue
  }

  /** Whiten every explored cell and clear its trace; the complete->wait
      reset also clears its predecessor, escape during a run does not. */
  function Whiten(b: Board, clearPrev: bool): (r: Board)
    ensures SameShape(b, r)
    ensures forall p | p in b.cells && Explored(b.cells[p].color) ::
      r.cells[p].color == White && r.cells[p].trace == [] &&
      r.cells[p].prev == (if clearPrev then None else b.cells[p].prev)
    ensures forall p | p in b.cells && Explored(b.cells[p].color) ::
      r.cells[p].(color := b.cells[p].color, trace := b.cells[p].trace, prev := b.cells[p].prev) == b.cells[p]
    ensures forall p | p in b.cells && !Explored(b.cells[p].color) :: r.cells[p] == b.cells[p]
  {
    b.(cells := map p | p in b.cells ::
      if Explored(b.cells[p].color) then
        b.cells[p].(color := White, trace := [], prev := if clearPrev then None else b.cells[p].prev)
      else b.cells[p])
  }

  /** Escape while waiting: every wall (GRAY) becomes WHITE. */
  function ClearWalls(b: Board): (r: Board)
    ensures SameShape(b, r)
    ensures forall p | p in b.cells && b.cells[p].color == Gray :: r.cells[p] == b.cells[p].(color := White)
    ensures forall p | p in b.cells && b.cells[p].color != Gray :: r.cells[p] == b.cells[p]
  {
    b.(cells := map p | p in b.cells ::
      if b.cells[p].color == Gray then b.cells[p].(color := White) else b.cells[p])
  }

  /** A left click on the board cell `c` while waiting, released before
      the next one: a WHITE cell becomes a wall (GRAY), a wall becomes
      WHITE, and any other cell is left alone. Dragging is not modelled. */
  function ToggleWall(s: Sim, c: Pos): (r: Sim)
    ensures r == s.(board := r.board) && SameShape(s.board, r.board)
    ensures forall p | p in s.board.cells && p != c :: r.board.cells[p] == s.board.cells[p]
    ensures c in s.board.cells ==>
      r.board.cells[c] == s.board.cells[c].(color := r.board.cells[c].color)
    ensures c in s.board.cells && s.status == Wait && s.board.cells[c].color == White ==>
      r.board.cells[c].color == Gray
    ensures c in s.board.cells && s.status == Wait && s.board.cells[c].color == Gray ==>
      r.board.cells[c].color == White
    ensures (c !in s.board.cells || s.status != Wait ||
             (s.board.cells[c].color != White && s.board.cells[c].color != Gray)) ==> r == s
  {
    if s.status == Wait && c in s.board.cells then
      var cell := s.board.cells[c];
      if cell.color == White then s.(board := Put(s.board, c, cell.(color := Gray)))
      else if cell.color == Gray then s.(board := Put(s.board, c, cell.(color := White)))
      else s
    else s
  }

  /** The key branches of `handle_event`. Pausing and resuming only move
      the status (their time accounting is not modelled). Forwards: space
      moves `wait` to `ready`, `run` to `pause`, `pause` to `run` and
      `complete` to `wait`; escape clears the walls in `wait` and abandons a
      run; every other key does nothing. Backwards: only space in `pause`
      enters `run`, no key enters `complete` or leaves `ready`, only space
      in `wait` enters `ready`, and no key touches the mode, the markers,
      the offsets or the frontier. */
  function HandleKey(s: Sim, k: Key): (r: Sim)
    ensures s.status == Wait && k == Space ==> r == s.(status := Ready)
    ensures s.status == Run && k == Space ==> r == s.(status := Pause)
    ensures s.status == Pause && k == Space ==> r == s.(status := Run)
    ensures s.status == Complete && k == Space ==>
      r == s.(status := Wait, board := r.board, path := []) && r.board.cells.Keys == s.board.cells.Keys
    ensures s.status == Wait && k == Escape ==>
      r == s.(board := r.board) && r.board.cells.Keys == s.board.cells.Keys &&
      forall p | p in s.board.cells ::
        r.board.cells[p] == if s.board.cells[p].color == Gray then s.board.cells[p].(color := White) else s.board.cells[p]
    ensures s.status == Run && k == Escape ==>
      r == s.(status := Wait, board := r.board, path := []) && r.board.cells.Keys == s.board.cells.Keys
    ensures (s.status == Pause || s.status == Complete) && k == Escape ==> r == s
    ensures r.status == Run ==> s.status == Pause && k == Space
    ensures r.status == Complete ==> r == s
    ensures s.status == Ready ==> r == s
    ensures r.status == Ready ==> s.status == Ready || (s.status == Wait && k == Space)
    ensures r.status == Wait ==> s.status == Wait || s.status == Complete || s.status == Run
    ensures r.status == Pause ==> s.status == Pause || (s.status == Run && k == Space)
    ensures r.mode == s.mode && r.start == s.start && r.end == s.end
    ensures r.delta == s.delta && r.frontier == s.frontier
  {
    match (k, s.status)
    case (Space, Wait) => s.(status := Ready)
    case (Space, Run) => s.(status := Pause)
    case (Space, Pause) => s.(status := Run)
    case (Space, Complete) => s.(status := Wait, board := Whiten(s.board, true), path := [])
    case (Escape, Wait) => s.(board := ClearWalls(s.board))
    case (Escape, Run) => s.(status := Wait, board := Whiten(s.board, false), path := [])
    case _ => s
  }
}
