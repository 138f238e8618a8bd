/**
 The steppable search engine. Each mode has an init that seeds its frontier
 (and resets the mode's cell fields) and a step that pops one cell, scans
 its in-bounds neighbours in `delta` order, admits WHITE ones under the
 mode's rule and stops at the first RED one. The step never changes a
 colour: marking cells is left to the simulator's tick.
 */
module Algorithms {
  import opened Grid
  import opened Frontier

  datatype Mode = Bfs | Astar | Dijkstra

  /** BFS works on a queue, A* and Dijkstra on a heap. */
  predicate Fits(mode: Mode, fr: Frontier) {
    mode.Bfs? <==> fr.Queue?
  }

  /** Every cell in the frontier is a cell of the board. */
  ghost predicate OnBoard(b: Board, fr: Frontier) {
    forall m | m in Members(fr) :: m in b.cells
  }

  // ---------------------------------------------------------------- init

  /** `BFS_init`: a queue holding only the start; no cell is touched. */
  function BfsInit(b: Board, start: Pos): (r: (Board, Frontier))
    ensures r.0 == b
    ensures r.1.Queue? && r.1.q == [start]
  {
    (b, Queue([start]))
  }

  /** `Astar_init`: zero `g`, `h`, `f` everywhere, heap `[(0, start)]`. */
  function AstarInit(b: Board, start: Pos): (r: (Board, Frontier))
    ensures SameShape(b, r.0)
    ensures forall p | p in b.cells ::
      r.0.cells[p] == b.cells[p].(g := 0, h := 0, f := 0)
    ensures r.1.Heap? && r.1.h == multiset{Entry(0, start)}
  {
    (b.(cells := map p | p in b.cells :: b.cells[p].(g := 0, h := 0, f := 0)),
     Heap(multiset{Entry(0, start)}))
  }

  /** `dijkstra_init`: distance 0 at the start and infinity elsewhere,
      every predecessor cleared, heap `[(0, start)]`. */
  function DijkstraInit(b: Board, start: Pos): (r: (Board, Frontier))
    ensures SameShape(b, r.0)
    ensures forall p | p in b.cells :: r.0.cells[p].prev == None
    ensures forall p | p in b.cells :: r.0.cells[p].dist == if p == start then Fin(0) else Inf
    ensures forall p | p in b.cells ::
      r.0.cells[p].color == b.cells[p].color && r.0.cells[p].g == b.cells[p].g
    ensures r.1.Heap? && r.1.h == multiset{Entry(0, start)}
  {
    (b.(cells := map p | p in b.cells ::
          b.cells[p].(dist := if p == start then Fin(0) else Inf, prev := None)),
     Heap(multiset{Entry(0, start)}))
  }

  /** The `init_func` chosen by `Simulator.ready`. */
  function Init(mode: Mode, b: Board, start: Pos): (r: (Board, Frontier))
    ensures SameColors(b, r.0)
    ensures Fits(mode, r.1) && Members(r.1) == {start} && Size(r.1) == 1
    ensures forall p | p in b.cells ::
      r.0.cells[p].prev == if mode.Dijkstra? then None else b.cells[p].prev
  {
    var r := match mode
      case Bfs => BfsInit(b, start)
      case Astar => AstarInit(b, start)
      case Dijkstra => DijkstraInit(b, start);
    assert r.1.Heap? ==> r.1.h == multiset{Entry(0, start)};
    r
  }

  // ---------------------------------------------------------------- step

  /** The state threaded through one neighbour scan; `hit` records that a
      RED neighbour ended the step with `"complete"`. */
  datatype Scan = Scan(board: Board, frontier: Frontier, hit: bool)

  /** Admission of the WHITE neighbour `n` of the popped cell `p`. */
  function Admit(mode: Mode, b: Board, fr: Frontier, p: Pos, n: Pos, end: Pos): (r: Scan)
    requires Fits(mode, fr) && p in b.cells && n in b.cells
    ensures SameShape(b, r.board) && Fits(mode, r.frontier) && !r.hit
  {
    match mode
    case Bfs =>
      Scan(SetPrev(b, n, p), Queue(fr.q + [n]), false)
    case Astar =>
      if HasPos(fr.h, n) then Scan(b, fr, false)
      else
        var g := b.cells[p].g + 1;
        var h := SqDist(n, end);
        Scan(Put(b, n, b.cells[n].(g := g, h := h, f := g + h, prev := Some(p))),
             Heap(fr.h + multiset{Entry(g + h, n)}), false)
    case Dijkstra =>
      var alt := b.cells[p].dist.Succ();
      if alt.Below(b.cells[n].dist) then
        Scan(Put(b, n, b.cells[n].(dist := alt, prev := Some(p))),
             Heap(fr.h + multiset{Entry(alt.n, n)}), false)
      else Scan(b, fr, false)
  }

  /** One pass of the loop over the offsets, at the neighbour `n`.
      A RED neighbour gets `p` as predecessor (Dijkstra writes it to the
      `end` cell it captured instead) and stops the scan. */
  function Visit(mode: Mode, b: Board, fr: Frontier, p: Pos, n: Pos, end: Pos): (r: Scan)
    requires Valid(b) && Fits(mode, fr) && p in b.cells && end in b.cells
    ensures Valid(r.board) && SameColors(b, r.board) && Fits(mode, r.frontier)
  {
    if !InBounds(b, n) then Scan(b, fr, false)
    else if b.cells[n].color == White then Admit(mode, b, fr, p, n, end)
    else if b.cells[n].color == Red then
      Scan(SetPrev(b, if mode.Dijkstra? then end else n, p), fr, true)
    else Scan(b, fr, false)
  }

  /** The neighbour loop over the offsets `ds`, stopping at the first hit. */
  function ScanFrom(mode: Mode, b: Board, fr: Frontier, p: Pos, ds: seq<Offset>, end: Pos): (r: Scan)
    requires Valid(b) && Fits(mode, fr) && p in b.cells && end in b.cells
    ensures Valid(r.board) && SameColors(b, r.board) && Fits(mode, r.frontier)
    ensures Size(fr) <= Size(r.frontier) <= Size(fr) + |ds|
    decreases |ds|
  {
    if |ds| == 0 then Scan(b, fr, false)
    else
      var s := Visit(mode, b, fr, p, Neighbour(p, ds[0]), end);
      if s.hit then s
      else ScanFrom(mode, s.board, s.frontier, p, ds[1..], end)
  }

  /** The entry `heappop` may return (any entry of least key); BFS's
      `popleft` takes no choice. */
  predicate ValidPick(fr: Frontier, pick: Entry) {
    fr.Queue? || IsMinEntry(fr.h, pick)
  }

  /** `popleft()` / `heappop(...)`: the queue gives up its front cell; the
      heap gives up one occurrence of the picked entry, whose key no entry
      undercuts. */
  function Pop(fr: Frontier, pick: Entry): (r: (Pos, Frontier))
    requires Size(fr) > 0 && ValidPick(fr, pick)
    ensures r.1.Queue? == fr.Queue?
    ensures Size(r.1) == Size(fr) - 1
    ensures r.0 in Members(fr)
    ensures Members(r.1) <= Members(fr)
    ensures fr.Queue? ==> r.1.Queue? && [r.0] + r.1.q == fr.q
    ensures fr.Heap? ==>
              && r.1.Heap? && r.0 == pick.pos && r.1.h + multiset{pick} == fr.h
              && (forall x | x in fr.h :: pick.key <= x.key)
  {
    match fr
    case Queue(q) => (q[0], Queue(q[1..]))
    case Heap(h) => (pick.pos, Heap(h - multiset{pick}))
  }

  datatype StepResult = StepResult(board: Board, frontier: Frontier, complete: bool)

  /** One call of the closure returned by the mode's init: `complete` is
      the `"complete"` return value, `false` stands for `None`. The source
      pops before anything else, so it must not be called on an empty
      frontier (it would raise). */
  function Step(mode: Mode, b: Board, fr: Frontier, pick: Entry, delta: seq<Offset>, end: Pos): (r: StepResult)
    requires Valid(b) && Fits(mode, fr) && OnBoard(b, fr) && end in b.cells
    requires Size(fr) > 0 && ValidPick(fr, pick)
    ensures Valid(r.board) && SameColors(b, r.board) && Fits(mode, r.frontier)
    ensures Size(fr) - 1 <= Size(r.frontier) <= Size(fr) - 1 + |delta|
  {
    var (p, rest) := Pop(fr, pick);
    var s := ScanFrom(mode, b, rest, p, delta, end);
    StepResult(s.board, s.frontier, s.hit || Size(s.frontier) == 0)
  }
}
