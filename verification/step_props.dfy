/**
 One whole step of each mode, stated against the board it starts from:
 the popped cell, the examined neighbours, the cells admitted and the
 predecessors written.
 */
module StepProps {
  import opened Grid
  import opened Frontier
  import opened Algorithms
  import opened StepFacts
  import opened AdmissionFacts

  /** A RED hit gives its target (the neighbour, or Dijkstra's `end`) the
      popped cell as predecessor, and nothing after it overwrites that. */
  lemma {:induction false} ScanHitTarget(mode: Mode, b: Board, bb: Board, fr: Frontier, p: Pos, ds: seq<Offset>, end: Pos)
    requires Valid(bb) && SameColors(b, bb) && Fits(mode, fr) && p in bb.cells && end in bb.cells
    requires FirstRed(b, p, ds) < |ds|
    ensures var t := Target(mode, Neighbour(p, ds[FirstRed(b, p, ds)]), end);
      t in bb.cells && ScanFrom(mode, bb, fr, p, ds, end).board.cells[t].prev == Some(p)
    decreases |ds|
  {
    var n := Neighbour(p, ds[0]);
    var s1 := Visit(mode, bb, fr, p, n, end);
    if IsRed(b, n) {
      assert bb.cells[n].color == b.cells[n].color;
    } else {
      assert !s1.hit by {
        if InBounds(bb, n) { assert b.cells[n].color == bb.cells[n].color; }
      }
      SameColorsTrans(b, bb, s1.board);
      ScanHitTarget(mode, b, s1.board, s1.frontier, p, ds[1..], end);
      assert ds[1..][FirstRed(b, p, ds[1..])] == ds[FirstRed(b, p, ds)];
    }
  }

  /** What every step does, in all three modes: it pops one cell `p`, may
      add only the in-bounds WHITE neighbours examined before the first RED
      one (each with predecessor `p`), writes `p` into the RED target when
      there is one, and reports `"complete"` exactly when it met a RED
      neighbour or left the frontier empty. */
  lemma StepSpec(mode: Mode, b: Board, fr: Frontier, pick: Entry, delta: seq<Offset>, end: Pos)
    requires Valid(b) && Fits(mode, fr) && OnBoard(b, fr) && end in b.cells
    requires Size(fr) > 0 && ValidPick(fr, pick)
    ensures var (p, rest) := Pop(fr, pick);
      var r := Step(mode, b, fr, pick, delta, end);
      var k := FirstRed(b, p, delta);
      && (r.complete <==> k < |delta| || Size(r.frontier) == 0)
      && Size(r.frontier) <= Size(fr) - 1 + |Whites(b, p, Examined(b, p, delta))|
      && Members(rest) <= Members(r.frontier)
      && (forall m | m in Members(r.frontier) - Members(rest) ::
            m in Whites(b, p, Examined(b, p, delta)) && r.board.cells[m].prev == Some(p))
      && (forall c | c in b.cells :: r.board.cells[c].prev == b.cells[c].prev || r.board.cells[c].prev == Some(p))
      && (k < |delta| ==> r.board.cells[Target(mode, Neighbour(p, delta[k]), end)].prev == Some(p))
      && (forall c | c in b.cells && r.board.cells[c] != b.cells[c] ::
            (c in Whites(b, p, Examined(b, p, delta)) && c in Members(r.frontier)) ||
            (k < |delta| && c == Target(mode, Neighbour(p, delta[k]), end)))
  {
    var (p, rest) := Pop(fr, pick);
    assert p in b.cells;
    ScanHit(mode, b, b, rest, p, delta, end);
    ScanEffects(mode, b, b, rest, p, delta, end);
    ScanSize(mode, b, b, rest, p, delta, end);
    if FirstRed(b, p, delta) < |delta| {
      ScanHitTarget(mode, b, b, rest, p, delta, end);
    }
  }

  /** A scan pushes at most one entry per examined WHITE neighbour. */
  lemma {:induction false} ScanSize(mode: Mode, b: Board, bb: Board, fr: Frontier, p: Pos, ds: seq<Offset>, end: Pos)
    requires Valid(bb) && SameColors(b, bb) && Fits(mode, fr) && p in bb.cells && end in bb.cells
    ensures Size(ScanFrom(mode, bb, fr, p, ds, end).frontier) <= Size(fr) + |Whites(b, p, Examined(b, p, ds))|
    decreases |ds|
  {
    if |ds| > 0 && !IsRed(b, Neighbour(p, ds[0])) {
      var n := Neighbour(p, ds[0]);
      var s1 := Visit(mode, bb, fr, p, n, end);
      assert !s1.hit && Size(s1.frontier) <= Size(fr) + (if IsWhite(b, n) then 1 else 0) by {
        if InBounds(bb, n) { assert b.cells[n].color == bb.cells[n].color; }
      }
      SameColorsTrans(b, bb, s1.board);
      ScanSize(mode, b, s1.board, s1.frontier, p, ds[1..], end);
      ScanTailShape(b, p, ds);
    }
  }

  /** Walls, the start marker and already coloured cells (anything neither
      WHITE nor RED) are never written by a step and never enter the
      frontier. The end cell is RED, as `draw` leaves it. */
  lemma StepSparesMarked(mode: Mode, b: Board, fr: Frontier, pick: Entry, delta: seq<Offset>, end: Pos)
    requires Valid(b) && Fits(mode, fr) && OnBoard(b, fr) && end in b.cells
    requires Size(fr) > 0 && ValidPick(fr, pick)
    requires b.cells[end].color == Red
    ensures var r := Step(mode, b, fr, pick, delta, end);
      forall c | c in b.cells && b.cells[c].color != White && b.cells[c].color != Red ::
        r.board.cells[c] == b.cells[c] && (c in Members(r.frontier) ==> c in Members(Pop(fr, pick).1))
  {
    StepSpec(mode, b, fr, pick, delta, end);
  }

  /** BFS: the queue after a step is the old queue without its front cell,
      followed by the examined in-bounds WHITE neighbours in `delta` order. */
  lemma BfsStep(b: Board, q: seq<Pos>, delta: seq<Offset>, end: Pos)
    requires Valid(b) && |q| > 0 && OnBoard(b, Queue(q)) && end in b.cells
    ensures var r := Step(Bfs, b, Queue(q), Entry(0, q[0]), delta, end);
      var added := Whites(b, q[0], Examined(b, q[0], delta));
      && r.frontier == Queue(q[1..] + added)
      && (r.complete <==> FirstRed(b, q[0], delta) < |delta| || |q[1..] + added| == 0)
  {
    assert q[0] in b.cells;
    BfsScanQueue(b, b, q[1..], q[0], delta, end);
    ScanHit(Bfs, b, b, Queue(q[1..]), q[0], delta, end);
  }

  /** A*: the heap keeps at most one entry per position, and every WHITE
      neighbour examined is admitted (g, h, f, predecessor and an entry
      keyed by f) exactly when the heap had no entry at its position. */
  lemma AstarStep(b: Board, h: multiset<Entry>, pick: Entry, delta: seq<Offset>, end: Pos)
    requires Valid(b) && OnBoard(b, Heap(h)) && end in b.cells && IsMinEntry(h, pick)
    requires !IsWhite(b, pick.pos) && !IsRed(b, pick.pos)
    requires UniquePositions(h)
    ensures var r := Step(Astar, b, Heap(h), pick, delta, end);
      var p := pick.pos;
      && UniquePositions(r.frontier.h)
      && forall m | m in Whites(b, p, Examined(b, p, delta)) ::
           m in b.cells && AstarOutcome(r.board, r.frontier.h, b, h - multiset{pick}, p, m, end)
  {
    var p := pick.pos;
    assert p in b.cells by { assert HasPos(h, p); }
    AstarScan(b, b, h - multiset{pick}, p, delta, end);
    AstarScanUnique(b, h - multiset{pick}, p, delta, end);
  }

  /** Dijkstra: every WHITE neighbour examined is admitted exactly when
      `parent.dist + 1 < neighbour.dist`, and then gets that distance, the
      popped cell as predecessor and an entry keyed by it. */
  lemma DijkstraStep(b: Board, h: multiset<Entry>, pick: Entry, delta: seq<Offset>, end: Pos)
    requires Valid(b) && OnBoard(b, Heap(h)) && end in b.cells && IsMinEntry(h, pick)
    requires !IsWhite(b, pick.pos) && !IsRed(b, pick.pos) && b.cells[end].color == Red
    ensures var r := Step(Dijkstra, b, Heap(h), pick, delta, end);
      var p := pick.pos;
      forall m | m in Whites(b, p, Examined(b, p, delta)) ::
        m in b.cells && DijkstraOutcome(r.board, r.frontier.h, b, p, m)
  {
    var p := pick.pos;
    assert p in b.cells by { assert HasPos(h, p); }
    DijkstraScan(b, b, h - multiset{pick}, p, delta, end);
  }
}
