/**
 Properties of one frame's `run`: how it recolours, when it changes the
 status, what path it reports, and the invariant that keeps a cell from
 being admitted twice: no frontier cell is WHITE when a tick starts.
 */
module TickFacts {
  import opened Grid
  import opened Frontier
  import opened Algorithms
  import opened StepFacts
  import opened StepProps
  import opened Simulator

  /** Colours a frontier cell may have: the start marker, queued, explored. */
  predicate Marked(c: Color) {
    c == Green || c == LightGreen || c == LightBlue
  }

  /** The run invariant between frames: the start and end markers are
      distinct cells, the end is RED, and every frontier cell is marked
      (so in particular none is WHITE). */
  ghost predicate RunInv(s: Sim) {
    && Valid(s.board) && Fits(s.mode, s.frontier)
    && s.start in s.board.cells && s.end in s.board.cells && s.start != s.end
    && s.board.cells[s.end].color == Red
    && forall m | m in Members(s.frontier) :: m in s.board.cells && Marked(s.board.cells[m].color)
  }

  /** The parts of `Advance`: the step's board recoloured, the step's
      frontier, and the rest of the state as it was. */
  lemma AdvanceUnfold(s: Sim, pick: Entry)
    requires Runnable(s) && ValidPick(s.frontier, pick)
    ensures var s' := Advance(s, pick);
      var st := Step(s.mode, s.board, s.frontier, pick, s.delta, s.end);
      && s'.board == Recolour(st.board, Members(s.frontier), Members(st.frontier))
      && s'.frontier == st.frontier
      && s'.status == (if st.complete then Complete else Run)
      && s' == s.(status := s'.status, board := s'.board, frontier := s'.frontier)
  {
  }

  /** After a tick, every cell that left the frontier is LIGHT_BLUE, every
      cell that entered it is LIGHT_GREEN, and every other cell keeps the
      colour it had before the tick. */
  lemma AdvanceRecolours(s: Sim, pick: Entry)
    requires Runnable(s) && ValidPick(s.frontier, pick)
    ensures var s' := Advance(s, pick);
      var before := Members(s.frontier);
      var after := Members(s'.frontier);
      && SameShape(s.board, s'.board)
      && (forall c | c in s.board.cells && c in before && c !in after :: s'.board.cells[c].color == LightBlue)
      && (forall c | c in s.board.cells && c in after && c !in before :: s'.board.cells[c].color == LightGreen)
      && (forall c | c in s.board.cells && (c in before <==> c in after) ::
            s'.board.cells[c].color == s.board.cells[c].color)
  {
  }

  /** The status becomes `complete` exactly when the step met a RED
      neighbour or left the frontier empty, and otherwise stays `run` with
      a frontier the next tick can pop from. */
  lemma AdvanceStatus(s: Sim, pick: Entry)
    requires Runnable(s) && ValidPick(s.frontier, pick)
    ensures var s' := Advance(s, pick);
      var p := Pop(s.frontier, pick).0;
      && (s'.status == Complete <==> FirstRed(s.board, p, s.delta) < |s.delta| || Size(s'.frontier) == 0)
      && (s'.status != Complete ==> s'.status == Run && Size(s'.frontier) > 0)
      && s'.mode == s.mode && s'.start == s.start && s'.end == s.end && s'.delta == s.delta
  {
    StepSpec(s.mode, s.board, s.frontier, pick, s.delta, s.end);
  }

  /** The path is the predecessor chain from the end cell on the advanced
      board, End first and not reversed, stopping at the first cell without
      a predecessor; it is just the end cell when that has no predecessor.
      Nothing else differs from `Advance`. */
  lemma TickPath(s: Sim, pick: Entry)
    requires Runnable(s) && ValidPick(s.frontier, pick) && Tick(s, pick).Next?
    ensures var s' := Tick(s, pick).sim;
      && s'.(path := s.path) == Advance(s, pick)
      && 0 < |s'.path| <= |s'.board.cells|
      && s'.path[0] == s.end
      && (forall i | 0 <= i < |s'.path| - 1 :: PrevOf(s'.board, s'.path[i]) == Some(s'.path[i + 1]))
      && PrevOf(s'.board, s'.path[|s'.path| - 1]) == None
      && (PrevOf(s'.board, s.end) == None ==> s'.path == [s.end])
  {
  }

  /** `ready` starts a run in which the invariant holds, given the markers
      `draw` painted in the previous frame. */
  lemma ReadyEstablishes(s: Sim)
    requires Valid(s.board) && s.start in s.board.cells && s.end in s.board.cells && s.start != s.end
    requires s.board.cells[s.start].color == Green && s.board.cells[s.end].color == Red
    ensures RunInv(ReadyRun(s)) && Runnable(ReadyRun(s))
  {
    var r := ReadyRun(s);
    assert Valid(r.board) by {
      forall p ensures p in r.board.cells <==> InBounds(r.board, p) {
        assert InBounds(r.board, p) == InBounds(s.board, p);
      }
    }
  }

  /** `Advance` keeps the run invariant. On the way, every cell that
      enters the frontier was WHITE before, and no cell turns WHITE: so a
      cell is admitted at most once per run. */
  lemma AdvanceKeepsInv(s: Sim, pick: Entry)
    requires RunInv(s) && Runnable(s) && ValidPick(s.frontier, pick)
    ensures var s' := Advance(s, pick);
      && (forall c | c in Members(s'.frontier) - Members(s.frontier) ::
            c in s.board.cells && s.board.cells[c].color == White)
      && (forall c | c in s.board.cells && s'.board.cells[c].color == White :: s.board.cells[c].color == White)
      && RunInv(s')
  {
    var s' := Advance(s, pick);
    AdvanceAdmitsWhite(s, pick);
    AdvanceRecolours(s, pick);
    AdvanceUnfold(s, pick);
    assert Valid(s'.board) by {
      forall q ensures q in s'.board.cells <==> InBounds(s'.board, q) {
        assert InBounds(s'.board, q) == InBounds(s.board, q);
      }
    }
  }

  /** `draw`'s repaint keeps the run invariant, and a running simulator
      stays runnable through it. */
  lemma RepaintKeepsInv(s: Sim)
    requires RunInv(s)
    ensures RunInv(Repaint(s))
    ensures s.status == Run && Size(s.frontier) > 0 ==> Runnable(Repaint(s))
  {
    var r := Repaint(s);
    assert Valid(r.board) by {
      forall q ensures q in r.board.cells <==> InBounds(r.board, q) {
        assert InBounds(r.board, q) == InBounds(s.board, q);
      }
    }
    forall m | m in Members(r.frontier) ensures m in r.board.cells && Marked(r.board.cells[m].color) {
      assert m != s.end;
    }
  }

  /** A step from a board whose end cell is RED and whose frontier cells
      are all marked admits only WHITE cells, so never the end cell. */
  lemma StepAdmitsWhite(mode: Mode, b: Board, fr: Frontier, pick: Entry, delta: seq<Offset>, end: Pos)
    requires Valid(b) && Fits(mode, fr) && OnBoard(b, fr) && end in b.cells
    requires Size(fr) > 0 && ValidPick(fr, pick)
    requires b.cells[end].color == Red
    requires forall m | m in Members(fr) :: m in b.cells && Marked(b.cells[m].color)
    ensures var st := Step(mode, b, fr, pick, delta, end);
      && (forall c | c in Members(st.frontier) - Members(fr) :: IsWhite(b, c))
      && end !in Members(st.frontier)
      && (forall m | m in Members(st.frontier) :: m in b.cells)
  {
    var (p, rest) := Pop(fr, pick);
    StepSpec(mode, b, fr, pick, delta, end);
    var st := Step(mode, b, fr, pick, delta, end);
    forall c | c in Members(st.frontier) ensures c in b.cells && (c !in Members(fr) ==> IsWhite(b, c)) {
      if c !in Members(rest) { assert IsWhite(b, c); }
    }
    assert end !in Members(fr);
  }

  /** Every cell entering the frontier in a tick was WHITE before it, the
      end cell stays out of it, and no cell turns WHITE. */
  lemma AdvanceAdmitsWhite(s: Sim, pick: Entry)
    requires RunInv(s) && Runnable(s) && ValidPick(s.frontier, pick)
    ensures var s' := Advance(s, pick);
      && (forall c | c in Members(s'.frontier) - Members(s.frontier) ::
            c in s.board.cells && s.board.cells[c].color == White)
      && (forall c | c in s.board.cells && s'.board.cells[c].color == White :: s.board.cells[c].color == White)
      && s.end !in Members(s'.frontier)
      && (forall m | m in Members(s'.frontier) :: m in s'.board.cells)
  {
    AdvanceUnfold(s, pick);
    AdvanceRecolours(s, pick);
    StepAdmitsWhite(s.mode, s.board, s.frontier, pick, s.delta, s.end);
  }

  /** A whole tick that does not hang keeps the run invariant through the
      next frame's repaint, and a tick that leaves the status `run` leaves
      a state the next tick can be applied to. */
  lemma TickKeepsInv(s: Sim, pick: Entry)
    requires RunInv(s) && Runnable(s) && ValidPick(s.frontier, pick) && Tick(s, pick).Next?
    ensures var s' := Tick(s, pick).sim;
      RunInv(Repaint(s')) && (s'.status == Run ==> Runnable(Repaint(s')))
  {
    var s' := Tick(s, pick).sim;
    TickPath(s, pick);
    AdvanceKeepsInv(s, pick);
    AdvanceStatus(s, pick);
    assert RunInv(s');
    RepaintKeepsInv(s');
  }

  /** Offsets in `delta` are pairwise distinct. */
  predicate DistinctOffsets(ds: seq<Offset>) {
    forall i, j | 0 <= i < j < |ds| :: ds[i] != ds[j]
  }

  /** Distinct offsets reach distinct cells, so `Whites` lists no cell twice. */
  lemma {:induction false} WhitesDistinct(b: Board, p: Pos, ds: seq<Offset>)
    requires DistinctOffsets(ds)
    ensures Distinct(Whites(b, p, ds))
    decreases |ds|
  {
    if |ds| > 0 {
      var n := Neighbour(p, ds[0]);
      var rest := Whites(b, p, ds[1..]);
      WhitesDistinct(b, p, ds[1..]);
      assert n !in rest by {
        assert forall i | 0 <= i < |ds| - 1 :: ds[1..][i] != ds[0];
      }
      if IsWhite(b, n) {
        var r := [n] + rest;
        forall i, j | 0 <= i < j < |r| ensures r[i] != r[j] {
          if i == 0 { assert r[j] in rest; }
          else { assert r[i] == rest[i - 1] && r[j] == rest[j - 1]; }
        }
      }
    }
  }

  /** BFS never queues a cell twice: with distinct offsets, a duplicate-free
      queue of non-WHITE cells stays duplicate-free across a step, because
      the cells appended are WHITE. */
  lemma BfsStepDistinct(b: Board, q: seq<Pos>, pick: Entry, delta: seq<Offset>, end: Pos)
    requires Valid(b) && |q| > 0 && OnBoard(b, Queue(q)) && end in b.cells
    requires Distinct(q) && DistinctOffsets(delta)
    requires forall i | 0 <= i < |q| :: !IsWhite(b, q[i])
    ensures Distinct(Step(Bfs, b, Queue(q), pick, delta, end).frontier.q)
  {
    var p := q[0];
    assert Step(Bfs, b, Queue(q), pick, delta, end) == Step(Bfs, b, Queue(q), Entry(0, p), delta, end);
    BfsStep(b, q, delta, end);
    var ex := Examined(b, p, delta);
    var w := Whites(b, p, ex);
    assert DistinctOffsets(ex) by {
      forall i, j | 0 <= i < j < |ex| ensures ex[i] != ex[j] {
        assert ex[i] == delta[i] && ex[j] == delta[j];
      }
    }
    WhitesDistinct(b, p, ex);
    forall i, j | 0 <= i < |q[1..]| && 0 <= j < |w| ensures q[1..][i] != w[j] {
      assert q[1..][i] == q[i + 1];
      assert w[j] in w;
    }
    DistinctConcat(q[1..], w);
  }

  /** The same across a tick of a BFS run. */
  lemma BfsQueueStaysDistinct(s: Sim, pick: Entry)
    requires RunInv(s) && Runnable(s) && ValidPick(s.frontier, pick)
    requires s.mode == Bfs && Distinct(s.frontier.q) && DistinctOffsets(s.delta)
    ensures Distinct(Advance(s, pick).frontier.q)
  {
    AdvanceUnfold(s, pick);
    var q := s.frontier.q;
    forall i | 0 <= i < |q| ensures !IsWhite(s.board, q[i]) {
      assert q[i] in Members(s.frontier);
    }
    BfsStepDistinct(s.board, q, pick, s.delta, s.end);
  }
}
