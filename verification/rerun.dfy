/**
 A second run on the same board. The BFS and A* inits leave every
 predecessor in place, and the reset after a finished run clears only the
 predecessors of queued and explored cells: the end cell is RED, so the
 predecessor the first run gave it survives. The path of the second run is
 then read through that stale link: while it runs, and, when the end has
 become unreachable, also in the completed state `draw` shows. With
 `ReadyClearing` neither happens.

 The board is one row: start S, an empty cell M, end E; the offsets are
 right then left. They are a parameter pinned by `IsRow` rather than a
 sequence literal, which keeps the verifier from unfolding the scan on it
 without bound.
 */
module Rerun {
  import opened Grid
  import opened Frontier
  import opened Algorithms
  import opened Simulator
  import opened StepFacts

  const S := Pos(0, 0)
  const M := Pos(1, 0)
  const E := Pos(2, 0)

  predicate IsRow(ds: seq<Offset>) {
    |ds| == 2 && ds[0] == Offset(1, 0) && ds[1] == Offset(-1, 0)
  }

  const Green0 := FreshCell.(color := Green)
  const White0 := FreshCell
  const Red0 := FreshCell.(color := Red)
  /** The middle cell once queued, and once explored. */
  const Queued := White0.(color := LightGreen, prev := Some(S))
  const Done := White0.(color := LightBlue, prev := Some(S))
  /** The end cell as the first run leaves it. */
  const RedM := Red0.(prev := Some(M))

  function Cells(cs: Cell, cm: Cell, ce: Cell): Board {
    Board(3, 1, map[S := cs, M := cm, E := ce])
  }

  function At(ds: seq<Offset>, status: Status, b: Board, fr: Frontier, path: seq<Pos>): Sim {
    Sim(status, Bfs, b, S, E, ds, fr, path)
  }

  // ------------------------------------------------------------ row boards

  lemma CellsValid(cs: Cell, cm: Cell, ce: Cell)
    ensures Valid(Cells(cs, cm, ce)) && |Cells(cs, cm, ce).cells| == 3
  {
    var b := Cells(cs, cm, ce);
    forall p ensures p in b.cells <==> InBounds(b, p) {
      if InBounds(b, p) { assert p == S || p == M || p == E; }
    }
    assert b.cells.Keys == {S, M, E};
    assert |b.cells.Keys| == |b.cells|;
  }

  /** Two row boards agree when they agree at S, M and E. */
  lemma CellsExt(b: Board, cs: Cell, cm: Cell, ce: Cell)
    requires b.width == 3 && b.height == 1 && b.cells.Keys == {S, M, E}
    requires b.cells[S] == cs && b.cells[M] == cm && b.cells[E] == ce
    ensures b == Cells(cs, cm, ce)
  {
    var c := Cells(cs, cm, ce);
    forall k | k in b.cells ensures b.cells[k] == c.cells[k] {
      assert k == S || k == M || k == E;
    }
    assert b.cells.Keys == c.cells.Keys;
  }

  function Paint(c: Cell, p: Pos, before: set<Pos>, after: set<Pos>): Cell {
    if p in before && p !in after then c.(color := LightBlue)
    else if p in after && p !in before then c.(color := LightGreen)
    else c
  }

  lemma RecolourCells(cs: Cell, cm: Cell, ce: Cell, before: set<Pos>, after: set<Pos>)
    ensures Recolour(Cells(cs, cm, ce), before, after)
         == Cells(Paint(cs, S, before, after), Paint(cm, M, before, after), Paint(ce, E, before, after))
  {
    CellsExt(Recolour(Cells(cs, cm, ce), before, after),
      Paint(cs, S, before, after), Paint(cm, M, before, after), Paint(ce, E, before, after));
  }

  lemma SetPrevCells(cs: Cell, cm: Cell, ce: Cell, q: Pos)
    ensures SetPrev(Cells(cs, cm, ce), M, q) == Cells(cs, cm.(prev := Some(q)), ce)
    ensures SetPrev(Cells(cs, cm, ce), E, q) == Cells(cs, cm, ce.(prev := Some(q)))
  {
    CellsExt(SetPrev(Cells(cs, cm, ce), M, q), cs, cm.(prev := Some(q)), ce);
    CellsExt(SetPrev(Cells(cs, cm, ce), E, q), cs, cm, ce.(prev := Some(q)));
  }

  /** `draw`'s repaint of a row board. */
  lemma RepaintCells(ds: seq<Offset>, status: Status, cs: Cell, cm: Cell, ce: Cell, fr: Frontier, path: seq<Pos>)
    ensures Repaint(At(ds, status, Cells(cs, cm, ce), fr, path))
         == At(ds, status, Cells(cs.(color := Green), cm, ce.(color := Red)), fr, path)
  {
    var b := Put(Cells(cs, cm, ce), S, cs.(color := Green));
    CellsExt(b, cs.(color := Green), cm, ce);
    CellsExt(Put(b, E, ce.(color := Red)), cs.(color := Green), cm, ce.(color := Red));
  }

  lemma WhitenCells(cs: Cell, cm: Cell, ce: Cell)
    requires !Explored(cs.color) && !Explored(ce.color) && Explored(cm.color)
    ensures Whiten(Cells(cs, cm, ce), true) == Cells(cs, cm.(color := White, trace := [], prev := None), ce)
  {
    CellsExt(Whiten(Cells(cs, cm, ce), true), cs, cm.(color := White, trace := [], prev := None), ce);
  }

  lemma ClearPrevCells(cs: Cell, cm: Cell, ce: Cell)
    ensures ClearPrev(Cells(cs, cm, ce)) == Cells(cs.(prev := None), cm.(prev := None), ce.(prev := None))
  {
    CellsExt(ClearPrev(Cells(cs, cm, ce)), cs.(prev := None), cm.(prev := None), ce.(prev := None));
  }

  // ---------------------------------------------------------------- ticks

  /** The entry `Tick` is given; BFS ignores it. */
  const P := Entry(0, S)

  /** `Tick` given its `Advance` and the walk. */
  lemma TickBy(s: Sim, pick: Entry, a: Sim, path: seq<Pos>)
    requires Runnable(s) && ValidPick(s.frontier, pick)
    requires Advance(s, pick) == a && Walk(a.board, s.end, |a.board.cells|) == Some(path)
    ensures Tick(s, pick) == Next(a.(path := path))
  {
  }

  /** `Advance` given the step's result and the recoloured board. */
  lemma AdvanceBy(s: Sim, pick: Entry, st: StepResult, b': Board)
    requires Runnable(s) && ValidPick(s.frontier, pick)
    requires Step(s.mode, s.board, s.frontier, pick, s.delta, s.end) == st
    requires Recolour(st.board, Members(s.frontier), Members(st.frontier)) == b'
    ensures Advance(s, pick) == s.(status := if st.complete then Complete else s.status, board := b', frontier := st.frontier)
  {
  }

  lemma StartRunnable(ds: seq<Offset>, ce: Cell)
    ensures Runnable(At(ds, Run, Cells(Green0, White0, ce), Queue([S]), []))
  {
    CellsValid(Green0, White0, ce);
  }

  lemma VisitMiddle(ce: Cell)
    requires ce.color == Red
    ensures Visit(Bfs, Cells(Green0, White0, ce), Queue([]), S, M, E)
         == Scan(Cells(Green0, White0.(prev := Some(S)), ce), Queue([M]), false)
  {
    CellsValid(Green0, White0, ce);
    SetPrevCells(Green0, White0, ce, S);
  }

  /** Popping the start: the middle cell is WHITE and gets queued; the
      left offset leaves the board. */
  lemma ScanFromStart(ds: seq<Offset>, ce: Cell)
    requires IsRow(ds) && ce.color == Red
    ensures ScanFrom(Bfs, Cells(Green0, White0, ce), Queue([]), S, ds, E)
         == Scan(Cells(Green0, White0.(prev := Some(S)), ce), Queue([M]), false)
  {
    var b1 := Cells(Green0, White0.(prev := Some(S)), ce);
    CellsValid(Green0, White0, ce);
    CellsValid(Green0, White0.(prev := Some(S)), ce);
    VisitMiddle(ce);
    assert Visit(Bfs, b1, Queue([M]), S, Pos(-1, 0), E) == Scan(b1, Queue([M]), false);
    assert ScanFrom(Bfs, b1, Queue([M]), S, ds[1..], E) == Scan(b1, Queue([M]), false);
  }

  lemma StepFromStart(ds: seq<Offset>, ce: Cell)
    requires IsRow(ds) && ce.color == Red
    ensures Step(Bfs, Cells(Green0, White0, ce), Queue([S]), P, ds, E)
         == StepResult(Cells(Green0, White0.(prev := Some(S)), ce), Queue([M]), false)
  {
    CellsValid(Green0, White0, ce);
    ScanFromStart(ds, ce);
    assert Pop(Queue([S]), P) == (S, Queue([]));
  }

  lemma RecolourFromStart(ce: Cell)
    ensures Recolour(Cells(Green0, White0.(prev := Some(S)), ce), Members(Queue([S])), Members(Queue([M])))
         == Cells(Green0.(color := LightBlue), Queued, ce)
  {
    assert Members(Queue([S])) == {S} && Members(Queue([M])) == {M};
    RecolourCells(Green0, White0.(prev := Some(S)), ce, {S}, {M});
  }

  /** The first tick of a run from a clean row: the start turns LIGHT_BLUE,
      the middle cell LIGHT_GREEN with the start as predecessor; the end is
      not reached. */
  lemma AdvanceFromStart(ds: seq<Offset>, ce: Cell)
    requires IsRow(ds) && ce.color == Red
    ensures Runnable(At(ds, Run, Cells(Green0, White0, ce), Queue([S]), []))
    ensures Advance(At(ds, Run, Cells(Green0, White0, ce), Queue([S]), []), P)
         == At(ds, Run, Cells(Green0.(color := LightBlue), Queued, ce), Queue([M]), [])
  {
    StartRunnable(ds, ce);
    StepFromStart(ds, ce);
    RecolourFromStart(ce);
    AdvanceBy(At(ds, Run, Cells(Green0, White0, ce), Queue([S]), []), P,
      StepResult(Cells(Green0, White0.(prev := Some(S)), ce), Queue([M]), false),
      Cells(Green0.(color := LightBlue), Queued, ce));
  }

  lemma MidRunnable(ds: seq<Offset>)
    ensures Runnable(At(ds, Run, Cells(Green0, Queued, Red0), Queue([M]), [E]))
  {
    CellsValid(Green0, Queued, Red0);
  }

  lemma VisitEnd()
    ensures Visit(Bfs, Cells(Green0, Queued, Red0), Queue([]), M, E, E)
         == Scan(Cells(Green0, Queued, RedM), Queue([]), true)
  {
    CellsValid(Green0, Queued, Red0);
    SetPrevCells(Green0, Queued, Red0, M);
  }

  /** Popping the middle cell: its right neighbour is the end. */
  lemma ScanToEnd(ds: seq<Offset>)
    requires IsRow(ds)
    ensures ScanFrom(Bfs, Cells(Green0, Queued, Red0), Queue([]), M, ds, E)
         == Scan(Cells(Green0, Queued, RedM), Queue([]), true)
  {
    CellsValid(Green0, Queued, Red0);
    VisitEnd();
  }

  lemma StepToEnd(ds: seq<Offset>)
    requires IsRow(ds)
    ensures Step(Bfs, Cells(Green0, Queued, Red0), Queue([M]), P, ds, E)
         == StepResult(Cells(Green0, Queued, RedM), Queue([]), true)
  {
    CellsValid(Green0, Queued, Red0);
    ScanToEnd(ds);
    assert Pop(Queue([M]), P) == (M, Queue([]));
  }

  lemma RecolourToEnd()
    ensures Recolour(Cells(Green0, Queued, RedM), Members(Queue([M])), Members(Queue([])))
         == Cells(Green0, Done, RedM)
  {
    assert Members(Queue([M])) == {M} && Members(Queue([])) == {};
    RecolourCells(Green0, Queued, RedM, {M}, {});
  }

  lemma AdvanceToEnd(ds: seq<Offset>)
    requires IsRow(ds)
    ensures Runnable(At(ds, Run, Cells(Green0, Queued, Red0), Queue([M]), [E]))
    ensures Advance(At(ds, Run, Cells(Green0, Queued, Red0), Queue([M]), [E]), P)
         == At(ds, Complete, Cells(Green0, Done, RedM), Queue([]), [E])
  {
    MidRunnable(ds);
    StepToEnd(ds);
    RecolourToEnd();
    AdvanceBy(At(ds, Run, Cells(Green0, Queued, Red0), Queue([M]), [E]), P,
      StepResult(Cells(Green0, Queued, RedM), Queue([]), true),
      Cells(Green0, Done, RedM));
  }

  // ----------------------------------------------------------------- walks

  lemma WalkToEnd(cs: Cell, cm: Cell, ce: Cell)
    requires ce.prev == None
    ensures Walk(Cells(cs, cm, ce), E, 3) == Some([E])
  {
  }

  lemma WalkThrough(cs: Cell, cm: Cell, ce: Cell)
    requires cs.prev == None && cm.prev == Some(S) && ce.prev == Some(M)
    ensures Walk(Cells(cs, cm, ce), E, 3) == Some([E, M, S])
  {
    var b := Cells(cs, cm, ce);
    assert PrevOf(b, S) == None && PrevOf(b, M) == Some(S) && PrevOf(b, E) == Some(M);
    assert Walk(b, S, 1) == Some([S]);
    assert [M] + [S] == [M, S];
    assert Walk(b, M, 2) == Some([M, S]);
    assert [E] + [M, S] == [E, M, S];
  }

  // -------------------------------------------------------------- the runs

  const Blue0 := Green0.(color := LightBlue)

  /** The first frame of a run from a clean row: the end is not reached
      and the path is just the end. */
  lemma FirstFrame(ds: seq<Offset>)
    requires IsRow(ds)
    ensures Runnable(At(ds, Run, Cells(Green0, White0, Red0), Queue([S]), []))
    ensures Tick(At(ds, Run, Cells(Green0, White0, Red0), Queue([S]), []), P)
         == Next(At(ds, Run, Cells(Blue0, Queued, Red0), Queue([M]), [E]))
  {
    AdvanceFromStart(ds, Red0);
    CellsValid(Blue0, Queued, Red0);
    WalkToEnd(Blue0, Queued, Red0);
    TickBy(At(ds, Run, Cells(Green0, White0, Red0), Queue([S]), []), P,
      At(ds, Run, Cells(Blue0, Queued, Red0), Queue([M]), []), [E]);
  }

  /** The second frame reaches the end: status `complete`, path E, M, S. */
  lemma SecondFrame(ds: seq<Offset>)
    requires IsRow(ds)
    ensures Runnable(At(ds, Run, Cells(Green0, Queued, Red0), Queue([M]), [E]))
    ensures Tick(At(ds, Run, Cells(Green0, Queued, Red0), Queue([M]), [E]), P)
         == Next(At(ds, Complete, Cells(Green0, Done, RedM), Queue([]), [E, M, S]))
  {
    AdvanceToEnd(ds);
    CellsValid(Green0, Done, RedM);
    WalkThrough(Green0, Done, RedM);
    TickBy(At(ds, Run, Cells(Green0, Queued, Red0), Queue([M]), [E]), P,
      At(ds, Complete, Cells(Green0, Done, RedM), Queue([]), [E]), [E, M, S]);
  }

  /** The first run, with the keys alone: space, `ready`, and two frames
      (tick, then repaint) reach the end and show the path E, M, S. */
  lemma FirstRun(ds: seq<Offset>)
    requires IsRow(ds)
    ensures ReadyRun(HandleKey(At(ds, Wait, Cells(Green0, White0, Red0), Queue([]), []), Space))
         == At(ds, Run, Cells(Green0, White0, Red0), Queue([S]), [])
    ensures Runnable(At(ds, Run, Cells(Green0, White0, Red0), Queue([S]), []))
    ensures Tick(At(ds, Run, Cells(Green0, White0, Red0), Queue([S]), []), P)
         == Next(At(ds, Run, Cells(Blue0, Queued, Red0), Queue([M]), [E]))
    ensures Repaint(At(ds, Run, Cells(Blue0, Queued, Red0), Queue([M]), [E]))
         == At(ds, Run, Cells(Green0, Queued, Red0), Queue([M]), [E])
    ensures Runnable(At(ds, Run, Cells(Green0, Queued, Red0), Queue([M]), [E]))
    ensures Tick(At(ds, Run, Cells(Green0, Queued, Red0), Queue([M]), [E]), P)
         == Next(At(ds, Complete, Cells(Green0, Done, RedM), Queue([]), [E, M, S]))
    ensures Repaint(At(ds, Complete, Cells(Green0, Done, RedM), Queue([]), [E, M, S]))
         == At(ds, Complete, Cells(Green0, Done, RedM), Queue([]), [E, M, S])
  {
    FirstFrame(ds);
    RepaintCells(ds, Run, Blue0, Queued, Red0, Queue([M]), [E]);
    SecondFrame(ds);
    RepaintCells(ds, Complete, Green0, Done, RedM, Queue([]), [E, M, S]);
  }

  /** Space after the first run resets the board, but the end cell keeps
      the predecessor M; space again and `ready` start the second run on
      that board. */
  lemma ResetKeepsEndPredecessor(ds: seq<Offset>)
    requires IsRow(ds)
    ensures HandleKey(At(ds, Complete, Cells(Green0, Done, RedM), Queue([]), [E, M, S]), Space)
         == At(ds, Wait, Cells(Green0, White0, RedM), Queue([]), [])
    ensures ReadyRun(HandleKey(At(ds, Wait, Cells(Green0, White0, RedM), Queue([]), []), Space))
         == At(ds, Run, Cells(Green0, White0, RedM), Queue([S]), [])
  {
    WhitenCells(Green0, Done, RedM);
  }

  /** The discrepancy while running: the first tick of the second run
      examines only M and the off-board cell, never the end, and leaves the
      status `run`; yet the path it stores is the previous run's E, M, S. */
  lemma PhantomPath(ds: seq<Offset>)
    requires IsRow(ds)
    ensures var r := At(ds, Run, Cells(Green0, White0, RedM), Queue([S]), []);
      && Runnable(r)
      && FirstRed(r.board, S, ds) == |ds|
      && Tick(r, P) == Next(At(ds, Run, Cells(Blue0, Queued, RedM), Queue([M]), [E, M, S]))
  {
    var r := At(ds, Run, Cells(Green0, White0, RedM), Queue([S]), []);
    AdvanceFromStart(ds, RedM);
    CellsValid(Blue0, Queued, RedM);
    WalkThrough(Blue0, Queued, RedM);
    TickBy(r, P, At(ds, Run, Cells(Blue0, Queued, RedM), Queue([M]), []), [E, M, S]);
    EndNotExamined(ds, RedM);
  }

  /** From the start neither offset leads to a RED cell. */
  lemma EndNotExamined(ds: seq<Offset>, ce: Cell)
    requires IsRow(ds)
    ensures FirstRed(Cells(Green0, White0, ce), S, ds) == |ds|
  {
    var b := Cells(Green0, White0, ce);
    assert FirstRed(b, S, ds[1..][1..]) == 0;
    assert FirstRed(b, S, ds[1..]) == 1;
  }

  /** With `ReadyClearing` the second run starts from exactly the board the
      first run started from, and its first tick shows only the end. */
  lemma FreshPath(ds: seq<Offset>)
    requires IsRow(ds)
    ensures ReadyClearing(HandleKey(At(ds, Wait, Cells(Green0, White0, RedM), Queue([]), []), Space))
         == At(ds, Run, Cells(Green0, White0, Red0), Queue([S]), [])
    ensures Tick(At(ds, Run, Cells(Green0, White0, Red0), Queue([S]), []), P)
         == Next(At(ds, Run, Cells(Blue0, Queued, Red0), Queue([M]), [E]))
  {
    ClearPrevCells(Green0, White0, RedM);
    FirstRun(ds);
  }

  // ------------------------------------------------- a walled-off second run

  /** The middle cell once the user has made it a wall. */
  const Gray0 := White0.(color := Gray)

  /** In `wait`, a click on M turns it into a wall. */
  lemma WallMiddle(ds: seq<Offset>, ce: Cell)
    ensures ToggleWall(At(ds, Wait, Cells(Green0, White0, ce), Queue([]), []), M)
         == At(ds, Wait, Cells(Green0, Gray0, ce), Queue([]), [])
  {
    CellsExt(Put(Cells(Green0, White0, ce), M, Gray0), Green0, Gray0, ce);
  }

  /** Popping the start with M walled: neither offset admits anything. */
  lemma ScanWalled(ds: seq<Offset>, ce: Cell)
    requires IsRow(ds) && ce.color == Red
    ensures ScanFrom(Bfs, Cells(Green0, Gray0, ce), Queue([]), S, ds, E)
         == Scan(Cells(Green0, Gray0, ce), Queue([]), false)
  {
    var b := Cells(Green0, Gray0, ce);
    CellsValid(Green0, Gray0, ce);
    assert Visit(Bfs, b, Queue([]), S, M, E) == Scan(b, Queue([]), false);
    assert Visit(Bfs, b, Queue([]), S, Pos(-1, 0), E) == Scan(b, Queue([]), false);
    assert ScanFrom(Bfs, b, Queue([]), S, ds[1..], E) == Scan(b, Queue([]), false);
  }

  /** The step empties the queue, which reports `complete`. */
  lemma StepWalled(ds: seq<Offset>, ce: Cell)
    requires IsRow(ds) && ce.color == Red
    ensures Step(Bfs, Cells(Green0, Gray0, ce), Queue([S]), P, ds, E)
         == StepResult(Cells(Green0, Gray0, ce), Queue([]), true)
  {
    CellsValid(Green0, Gray0, ce);
    ScanWalled(ds, ce);
    assert Pop(Queue([S]), P) == (S, Queue([]));
  }

  lemma RecolourWalled(ce: Cell)
    ensures Recolour(Cells(Green0, Gray0, ce), Members(Queue([S])), Members(Queue([])))
         == Cells(Blue0, Gray0, ce)
  {
    assert Members(Queue([S])) == {S} && Members(Queue([])) == {};
    RecolourCells(Green0, Gray0, ce, {S}, {});
  }

  lemma AdvanceWalled(ds: seq<Offset>, ce: Cell)
    requires IsRow(ds) && ce.color == Red
    ensures Runnable(At(ds, Run, Cells(Green0, Gray0, ce), Queue([S]), []))
    ensures Advance(At(ds, Run, Cells(Green0, Gray0, ce), Queue([S]), []), P)
         == At(ds, Complete, Cells(Blue0, Gray0, ce), Queue([]), [])
  {
    CellsValid(Green0, Gray0, ce);
    StepWalled(ds, ce);
    RecolourWalled(ce);
    AdvanceBy(At(ds, Run, Cells(Green0, Gray0, ce), Queue([S]), []), P,
      StepResult(Cells(Green0, Gray0, ce), Queue([]), true),
      Cells(Blue0, Gray0, ce));
  }

  lemma WalkToWall()
    ensures Walk(Cells(Blue0, Gray0, RedM), E, 3) == Some([E, M])
  {
    var b := Cells(Blue0, Gray0, RedM);
    assert PrevOf(b, M) == None && PrevOf(b, E) == Some(M);
    assert Walk(b, M, 2) == Some([M]);
    assert [E] + [M] == [E, M];
  }

  /** The discrepancy as a user sees it. After the first run the reset
      leaves M's predecessor to the end cell; the user walls off M and runs
      again. The end is now unreachable and the very first tick completes,
      yet the path it reports is E, M: two cells, so `draw` shows it, and
      its second cell is the wall the run never entered. */
  lemma StalePath(ds: seq<Offset>)
    requires IsRow(ds)
    ensures var waiting := HandleKey(At(ds, Complete, Cells(Green0, Done, RedM), Queue([]), [E, M, S]), Space);
      var walled := ToggleWall(waiting, M);
      var running := ReadyRun(HandleKey(walled, Space));
      && running == At(ds, Run, Cells(Green0, Gray0, RedM), Queue([S]), [])
      && Runnable(running)
      && Tick(running, P) == Next(At(ds, Complete, Cells(Blue0, Gray0, RedM), Queue([]), [E, M]))
      && |Tick(running, P).sim.path| > 1
      && Tick(running, P).sim.board.cells[M].color == Gray
  {
    ResetKeepsEndPredecessor(ds);
    WallMiddle(ds, RedM);
    AdvanceWalled(ds, RedM);
    CellsValid(Blue0, Gray0, RedM);
    WalkToWall();
    TickBy(At(ds, Run, Cells(Green0, Gray0, RedM), Queue([S]), []), P,
      At(ds, Complete, Cells(Blue0, Gray0, RedM), Queue([]), []), [E, M]);
  }

  /** The same run started by `ReadyClearing` completes with the end cell
      alone as its path, which `draw` does not show. */
  lemma NoStalePath(ds: seq<Offset>)
    requires IsRow(ds)
    ensures ReadyClearing(HandleKey(At(ds, Wait, Cells(Green0, Gray0, RedM), Queue([]), []), Space))
         == At(ds, Run, Cells(Green0, Gray0, Red0), Queue([S]), [])
    ensures Runnable(At(ds, Run, Cells(Green0, Gray0, Red0), Queue([S]), []))
    ensures Tick(At(ds, Run, Cells(Green0, Gray0, Red0), Queue([S]), []), P)
         == Next(At(ds, Complete, Cells(Blue0, Gray0, Red0), Queue([]), [E]))
  {
    ClearPrevCells(Green0, Gray0, RedM);
    AdvanceWalled(ds, Red0);
    CellsValid(Blue0, Gray0, Red0);
    WalkToEnd(Blue0, Gray0, Red0);
    TickBy(At(ds, Run, Cells(Green0, Gray0, Red0), Queue([S]), []), P,
      At(ds, Complete, Cells(Blue0, Gray0, Red0), Queue([]), []), [E]);
  }
}
