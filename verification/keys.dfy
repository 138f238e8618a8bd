/**
 The keyboard half of `handle_event`: what the space and escape keys do to
 the run status, and what the two resets leave on the board.
 */
module Keys {
  import opened Grid
  import opened Frontier
  import opened Algorithms
  import opened Simulator

  /** No cell of the board is queued or explored. */
  ghost predicate Clean(b: Board) {
    forall p | p in b.cells :: !Explored(b.cells[p].color)
  }

  /** Pausing and resuming are inverse: a second space press restores the
      state exactly, and neither press touches the board, the frontier or
      the path. */
  lemma PauseResume(s: Sim)
    requires s.status == Run || s.status == Pause
    ensures var r := HandleKey(s, Space);
      && r.status != s.status
      && (r.status == Run || r.status == Pause)
      && r == s.(status := r.status)
      && HandleKey(r, Space) == s
  {
  }

  /** No key changes the shape of the board or breaks its well-formedness,
      and the only cells a key changes are queued, explored or walls. */
  lemma KeysKeepBoard(s: Sim, k: Key)
    requires Valid(s.board)
    ensures var r := HandleKey(s, k);
      && SameShape(s.board, r.board) && Valid(r.board)
      && (forall p | p in s.board.cells && r.board.cells[p] != s.board.cells[p] ::
            Explored(s.board.cells[p].color) || s.board.cells[p].color == Gray)
  {
    var r := HandleKey(s, k);
    ValidSameShape(s.board, r.board);
  }

  /** Space after a finished run returns to `wait` with an empty path and
      a clean board: every queued or explored cell is WHITE again with no
      trace and no predecessor, and every other cell (walls, markers,
      untouched cells) is exactly as it was. */
  lemma ResetAfterComplete(s: Sim)
    requires s.status == Complete
    ensures var r := HandleKey(s, Space);
      && r.status == Wait && r.path == []
      && Clean(r.board)
      && (forall p | p in s.board.cells && Explored(s.board.cells[p].color) ::
            r.board.cells[p].color == White && r.board.cells[p].trace == [] && r.board.cells[p].prev == None)
      && (forall p | p in s.board.cells && !Explored(s.board.cells[p].color) ::
            r.board.cells[p] == s.board.cells[p])
  {
  }

  /** Escape during a run abandons it: back to `wait` with an empty path
      and a clean board, but unlike the reset after completion every
      predecessor is kept. */
  lemma AbandonRun(s: Sim)
    requires s.status == Run
    ensures var r := HandleKey(s, Escape);
      && r.status == Wait && r.path == []
      && Clean(r.board)
      && (forall p | p in s.board.cells :: r.board.cells[p].prev == s.board.cells[p].prev)
      && (forall p | p in s.board.cells && Explored(s.board.cells[p].color) ::
            r.board.cells[p].color == White && r.board.cells[p].trace == [])
      && (forall p | p in s.board.cells && !Explored(s.board.cells[p].color) ::
            r.board.cells[p] == s.board.cells[p])
  {
  }

  /** Escape while waiting turns every wall WHITE, keeping the rest of its
      record, and changes nothing else; a second press has no further
      effect. */
  lemma ClearWallsOnce(s: Sim)
    requires s.status == Wait
    ensures var r := HandleKey(s, Escape);
      && r.status == Wait
      && (forall p | p in r.board.cells :: r.board.cells[p].color != Gray)
      && (forall p | p in s.board.cells && s.board.cells[p].color == Gray ::
            r.board.cells[p] == s.board.cells[p].(color := White))
      && (forall p | p in s.board.cells && s.board.cells[p].color != Gray :: r.board.cells[p] == s.board.cells[p])
      && HandleKey(r, Escape) == r
  {
    var r := HandleKey(s, Escape);
    assert r.board.cells.Keys == s.board.cells.Keys;
    assert ClearWalls(r.board) == r.board;
  }

  /** Whitening is idempotent, whichever reset performs it. */
  lemma WhitenIdempotent(b: Board, clearPrev: bool, again: bool)
    ensures Whiten(Whiten(b, clearPrev), again) == Whiten(b, clearPrev)
  {
    var w := Whiten(b, clearPrev);
    assert w.cells.Keys == b.cells.Keys;
    assert Whiten(w, again).cells == w.cells;
  }

  /** A second click on the same cell undoes the first. */
  lemma ToggleWallTwice(s: Sim, c: Pos)
    ensures ToggleWall(ToggleWall(s, c), c) == s
  {
    var r := ToggleWall(s, c);
    if s.status == Wait && c in s.board.cells && (s.board.cells[c].color == White || s.board.cells[c].color == Gray) {
      var r2 := ToggleWall(r, c);
      assert r2.board.cells.Keys == s.board.cells.Keys;
      assert r2.board.cells[c] == s.board.cells[c];
      assert r2.board.cells == s.board.cells;
    }
  }
}
