/**
 The predecessor links never form a cycle, in every run the simulator
 makes: the ones `ready` starts on a board that still carries the previous
 run's links as well as the corrected ones. So the path walk of `run`
 always ends.

 The argument is a ranking under which every link goes down. A tick
 writes the popped cell, which the run has reached, into the predecessors
 of cells it has not reached; the reached cells only ever link to reached
 cells. Ranking every unreached cell above every reached one leaves room
 for the new links, whatever stale links the unreached cells still carry.
 The rest of a session (keys, clicks, `ready`, `draw`) never adds a link.
 */
module Links {
  import opened Grid
  import opened Frontier
  import opened Algorithms
  import opened StepFacts
  import opened StepProps
  import opened Simulator
  import opened TickFacts
  import opened FreshRun

  // ------------------------------------------------------------- rankings

  /** A ranking of the cells under which every predecessor link goes to a
      strictly lower rank: the links have no cycle. */
  ghost predicate Ranked(b: Board, rank: map<Pos, nat>) {
    && b.cells.Keys <= rank.Keys
    && forall c | c in b.cells && b.cells[c].prev.Some? ::
         b.cells[c].prev.value in b.cells && rank[b.cells[c].prev.value] < rank[c]
  }

  /** The cells ranked below `c`. */
  ghost function Lower(b: Board, rank: map<Pos, nat>, c: Pos): set<Pos>
    requires b.cells.Keys <= rank.Keys && c in b.cells
  {
    set q | q in b.cells && rank[q] < rank[c]
  }

  lemma {:induction false} SubsetCard(a: set<Pos>, b: set<Pos>)
    requires a <= b
    ensures |a| <= |b|
    decreases a
  {
    if a != {} {
      var x :| x in a;
      SubsetCard(a - {x}, b - {x});
    }
  }

  /** A proper subset is strictly smaller. */
  lemma ProperSubsetCard(a: set<Pos>, b: set<Pos>)
    requires a < b
    ensures |a| < |b|
  {
    var x :| x in b && x !in a;
    SubsetCard(a, b - {x});
  }

  /** On a ranked board the predecessor walk from `c` ends within one more
      cell than there are cells ranked below `c`. */
  lemma {:induction false} WalkEnds(b: Board, rank: map<Pos, nat>, c: Pos, fuel: nat)
    requires Ranked(b, rank) && c in b.cells
    requires fuel > |Lower(b, rank, c)|
    ensures Walk(b, c, fuel).Some?
    decreases fuel
  {
    if b.cells[c].prev.Some? {
      var q := b.cells[c].prev.value;
      assert Lower(b, rank, q) < Lower(b, rank, c) by {
        assert q in Lower(b, rank, c) && q !in Lower(b, rank, q);
      }
      ProperSubsetCard(Lower(b, rank, q), Lower(b, rank, c));
      WalkEnds(b, rank, q, fuel - 1);
    }
  }

  /** The walk from a cell of a ranked board never runs out of fuel when
      the fuel is the number of cells. */
  lemma WalkFromEnd(b: Board, rank: map<Pos, nat>, c: Pos)
    requires Ranked(b, rank) && c in b.cells
    ensures Walk(b, c, |b.cells|).Some?
  {
    assert Lower(b, rank, c) < b.cells.Keys by {
      assert c in b.cells.Keys && c !in Lower(b, rank, c);
    }
    assert |b.cells.Keys| == |b.cells|;
    ProperSubsetCard(Lower(b, rank, c), b.cells.Keys);
    WalkEnds(b, rank, c, |b.cells|);
  }

  /** A board without predecessors is ranked by any ranking of its cells. */
  lemma ClearedRanked(b: Board)
    requires forall c | c in b.cells :: b.cells[c].prev == None
    ensures Ranked(b, map c | c in b.cells :: 0)
  {
  }

  /** A number above the rank of every cell in `keys`. */
  ghost function Above(rank: map<Pos, nat>, keys: set<Pos>): (r: nat)
    requires keys <= rank.Keys
    ensures forall c | c in keys :: rank[c] < r
    decreases keys
  {
    if keys == {} then 0
    else
      var x :| x in keys;
      var r := Above(rank, keys - {x});
      if rank[x] < r then r else rank[x] + 1
  }

  // ------------------------------------------------------------ one tick

  /** Every reached cell (start, queued or explored) that has a
      predecessor links to a reached cell. */
  ghost predicate Closed(b: Board) {
    forall c | c in b.cells && Marked(b.cells[c].color) && b.cells[c].prev.Some? ::
      b.cells[c].prev.value in b.cells && Marked(b.cells[b.cells[c].prev.value].color)
  }

  /** A tick writes only the popped cell into predecessors, and only of
      cells the run has not reached; a cell it writes is reached afterwards
      unless the tick completed the run (the RED end). Since reached cells
      stay reached, no predecessor is written twice in a run. */
  lemma AdvanceWritesUnmarked(s: Sim, pick: Entry)
    requires RunInv(s) && Runnable(s) && ValidPick(s.frontier, pick)
    ensures var a := Advance(s, pick);
      var p := Pop(s.frontier, pick).0;
      && a.board.cells.Keys == s.board.cells.Keys
      && p in s.board.cells && Marked(s.board.cells[p].color)
      && (forall c | c in s.board.cells :: a.board.cells[c].prev == s.board.cells[c].prev || a.board.cells[c].prev == Some(p))
      && (forall c | c in s.board.cells && a.board.cells[c].prev != s.board.cells[c].prev :: !Marked(s.board.cells[c].color))
      && (forall c | c in s.board.cells && a.board.cells[c].prev != s.board.cells[c].prev ::
            Marked(a.board.cells[c].color) || a.status == Complete)
  {
    AdvanceKeepsInv(s, pick);
    AdvancePrevs(s, pick);
    AdvanceKeepsKinds(s, pick);
  }

  /** A cell a tick reaches for the first time has the popped cell as its
      predecessor, even when the link it had before already named it. */
  lemma AdvanceReachesFromPopped(s: Sim, pick: Entry)
    requires RunInv(s) && Runnable(s) && ValidPick(s.frontier, pick)
    ensures var a := Advance(s, pick);
      forall c | c in s.board.cells && Marked(a.board.cells[c].color) && !Marked(s.board.cells[c].color) ::
        a.board.cells[c].prev == Some(Pop(s.frontier, pick).0)
  {
    var a := Advance(s, pick);
    var (p, rest) := Pop(s.frontier, pick);
    var st := Step(s.mode, s.board, s.frontier, pick, s.delta, s.end);
    AdvanceUnfold(s, pick);
    StepSpec(s.mode, s.board, s.frontier, pick, s.delta, s.end);
    forall c | c in s.board.cells && Marked(a.board.cells[c].color) && !Marked(s.board.cells[c].color)
      ensures a.board.cells[c].prev == Some(p)
    {
      assert c !in Members(s.frontier);
      assert st.board.cells[c].color == s.board.cells[c].color;
      assert c in Members(st.frontier) - Members(rest);
    }
  }

  /** The ranking step on two abstract boards: writing the reached cell
      `p` into predecessors of unreached cells, where reached cells stay
      reached and a newly reached cell links to `p`, keeps a closed board
      closed and ranked. */
  lemma Relink(b: Board, b': Board, p: Pos, rank: map<Pos, nat>) returns (rank': map<Pos, nat>)
    requires Ranked(b, rank) && Closed(b) && b'.cells.Keys == b.cells.Keys
    requires p in b.cells && Marked(b.cells[p].color)
    requires forall c | c in b.cells && Marked(b.cells[c].color) :: Marked(b'.cells[c].color)
    requires forall c | c in b.cells :: b'.cells[c].prev == b.cells[c].prev || b'.cells[c].prev == Some(p)
    requires forall c | c in b.cells && b'.cells[c].prev != b.cells[c].prev :: !Marked(b.cells[c].color)
    requires forall c | c in b.cells && Marked(b'.cells[c].color) && !Marked(b.cells[c].color) ::
      b'.cells[c].prev == Some(p)
    ensures Ranked(b', rank') && Closed(b')
  {
    var top := Above(rank, b.cells.Keys);
    rank' := map c | c in rank ::
      if c !in b.cells then rank[c]
      else if !Marked(b'.cells[c].color) then rank[c] + top + 1
      else if b'.cells[c].prev != b.cells[c].prev then rank[p] + 1
      else rank[c];
    assert rank'[p] == rank[p];
    forall c | c in b'.cells && b'.cells[c].prev.Some?
      ensures b'.cells[c].prev.value in b'.cells && rank'[b'.cells[c].prev.value] < rank'[c]
    {
      var x := b'.cells[c].prev.value;
      if b'.cells[c].prev == b.cells[c].prev && Marked(b'.cells[c].color) && Marked(b.cells[c].color) {
        assert Marked(b.cells[x].color) && b'.cells[x].prev == b.cells[x].prev;
      }
    }
  }

  /** `Advance` keeps a closed board closed and ranked. */
  lemma AdvanceRelinks(s: Sim, pick: Entry, rank: map<Pos, nat>) returns (rank': map<Pos, nat>)
    requires RunInv(s) && Runnable(s) && ValidPick(s.frontier, pick)
    requires Ranked(s.board, rank) && Closed(s.board)
    ensures Ranked(Advance(s, pick).board, rank') && Closed(Advance(s, pick).board)
  {
    var a := Advance(s, pick);
    var p := Pop(s.frontier, pick).0;
    AdvanceWritesUnmarked(s, pick);
    AdvanceReachesFromPopped(s, pick);
    AdvanceKeepsKinds(s, pick);
    rank' := Relink(s.board, a.board, p, rank);
  }

  /** No tick of any run hangs in the path walk, whether `ready` kept the
      old links or cleared them: a closed, ranked board stays so, and the
      walk from the end cell ends. */
  lemma TickNeverLoops(s: Sim, pick: Entry, rank: map<Pos, nat>) returns (rank': map<Pos, nat>)
    requires RunInv(s) && Runnable(s) && ValidPick(s.frontier, pick)
    requires Ranked(s.board, rank) && Closed(s.board)
    ensures Tick(s, pick).Next?
    ensures Ranked(Tick(s, pick).sim.board, rank') && Closed(Tick(s, pick).sim.board)
  {
    rank' := AdvanceRelinks(s, pick, rank);
    var a := Advance(s, pick);
    assert s.end in a.board.cells by { AdvanceUnfold(s, pick); }
    WalkFromEnd(a.board, rank', s.end);
  }

  // ------------------------------------------------------------ a session

  /** The link invariant of a whole session: the start has no
      predecessor and is the only GREEN cell, the end is never reached,
      reached cells link to reached cells, and the links are ranked. */
  ghost predicate Linked(s: Sim, rank: map<Pos, nat>) {
    && s.start in s.board.cells && s.end in s.board.cells && s.start != s.end
    && s.board.cells[s.start].prev == None
    && !Marked(s.board.cells[s.end].color)
    && (forall c | c in s.board.cells && s.board.cells[c].color == Green :: c == s.start)
    && Closed(s.board) && Ranked(s.board, rank)
  }

  /** The start marker as `draw` leaves it. */
  ghost predicate Drawn(s: Sim) {
    s.start in s.board.cells && s.board.cells[s.start].color == Green
  }

  /** The simulator as constructed, once drawn: a fresh board and two
      distinct markers. */
  lemma NewSessionLinked(s: Sim)
    requires s.board == NewBoard(s.board.width, s.board.height)
    requires s.start in s.board.cells && s.end in s.board.cells && s.start != s.end
    ensures Linked(Repaint(s), map c | c in s.board.cells :: 0) && Drawn(Repaint(s))
  {
    ClearedRanked(Repaint(s).board);
  }

  /** `draw`'s repaint keeps the invariant and paints the start. */
  lemma RepaintLinked(s: Sim, rank: map<Pos, nat>)
    requires Linked(s, rank)
    ensures Linked(Repaint(s), rank) && Drawn(Repaint(s))
  {
    var r := Repaint(s);
    forall c | c in r.board.cells && Marked(r.board.cells[c].color) && r.board.cells[c].prev.Some?
      ensures r.board.cells[c].prev.value in r.board.cells && Marked(r.board.cells[r.board.cells[c].prev.value].color)
    {
      assert c != s.start && c != s.end && r.board.cells[c] == s.board.cells[c];
    }
  }

  /** Either reset keeps the invariant: after whitening, the start is the
      only reached cell left, and a predecessor is kept or cleared. */
  lemma WhitenKeepsLinked(s: Sim, clearPrev: bool, rank: map<Pos, nat>)
    requires Linked(s, rank) && Drawn(s)
    ensures var r := s.(board := Whiten(s.board, clearPrev));
      Linked(r, rank) && Drawn(r)
  {
    var b := Whiten(s.board, clearPrev);
    forall c | c in b.cells && Marked(b.cells[c].color)
      ensures c == s.start
    {
      assert !Explored(s.board.cells[c].color) && b.cells[c] == s.board.cells[c];
    }
    forall c | c in b.cells && b.cells[c].prev.Some?
      ensures b.cells[c].prev == s.board.cells[c].prev
    {
    }
  }

  /** A key keeps the invariant: the resets only whiten reached cells or
      clear walls, and clear predecessors or keep them. */
  lemma KeyKeepsLinked(s: Sim, k: Key, rank: map<Pos, nat>)
    requires Linked(s, rank) && Drawn(s)
    ensures Linked(HandleKey(s, k), rank) && Drawn(HandleKey(s, k))
  {
    match (k, s.status)
    case (Space, Complete) => WhitenKeepsLinked(s, true, rank);
    case (Escape, Run) => WhitenKeepsLinked(s, false, rank);
    case _ =>
  }

  /** A click on the board keeps the invariant: it swaps WHITE and GRAY,
      neither of which is reached. */
  lemma ClickKeepsLinked(s: Sim, c: Pos, rank: map<Pos, nat>)
    requires Linked(s, rank) && Drawn(s)
    ensures Linked(ToggleWall(s, c), rank) && Drawn(ToggleWall(s, c))
  {
  }

  /** `ready`, as written, keeps the invariant: it keeps every colour and
      keeps or clears every predecessor. */
  lemma ReadyKeepsLinked(s: Sim, rank: map<Pos, nat>)
    requires Linked(s, rank) && Drawn(s)
    ensures Linked(ReadyRun(s), rank) && Drawn(ReadyRun(s))
  {
  }

  /** A tick leaves the markers as the invariant needs them: the start,
      being reached, keeps no predecessor; the end stays RED; and no cell
      turns GREEN. */
  lemma AdvanceKeepsMarkers(s: Sim, pick: Entry)
    requires RunInv(s) && Runnable(s) && ValidPick(s.frontier, pick)
    requires Marked(s.board.cells[s.start].color) && s.board.cells[s.start].prev == None
    ensures var a := Advance(s, pick);
      && a.board.cells[s.start].prev == None
      && a.board.cells[s.end].color == Red
      && forall c | c in s.board.cells && a.board.cells[c].color == Green :: s.board.cells[c].color == Green
  {
    AdvanceWritesUnmarked(s, pick);
    AdvanceKeepsInv(s, pick);
    AdvanceRecolours(s, pick);
  }

  /** A tick of a run keeps the invariant up to the start's colour, which
      the next `draw` restores; in particular it never hangs. */
  lemma TickKeepsLinked(s: Sim, pick: Entry, rank: map<Pos, nat>) returns (rank': map<Pos, nat>)
    requires Linked(s, rank) && Drawn(s)
    requires RunInv(s) && Runnable(s) && ValidPick(s.frontier, pick)
    ensures Tick(s, pick).Next? && Linked(Tick(s, pick).sim, rank')
  {
    rank' := TickNeverLoops(s, pick, rank);
    AdvanceKeepsMarkers(s, pick);
    TickPath(s, pick);
  }
}
