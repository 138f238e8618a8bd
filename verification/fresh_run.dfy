/**
 What `ReadyClearing` buys: in a run started by it every predecessor was
 written by that run. A predecessor always names a cell the run has
 reached (start, queued or explored), only such cells or a RED one carry
 one, and no RED cell carries one while the run is still going; so the path
 never passes through a wall or an untouched cell, and it is the end cell
 alone until the end is met.
 */
module FreshRun {
  import opened Grid
  import opened Frontier
  import opened Algorithms
  import opened StepFacts
  import opened StepProps
  import opened Simulator
  import opened TickFacts

  /** Every predecessor on the board was written during the current run. */
  ghost predicate Sound(s: Sim) {
    && RunInv(s)
    && (forall c | c in s.board.cells && s.board.cells[c].prev.Some? ::
          && (Marked(s.board.cells[c].color) || s.board.cells[c].color == Red)
          && s.board.cells[c].prev.value in s.board.cells
          && Marked(s.board.cells[s.board.cells[c].prev.value].color))
    && (s.status == Run ==>
          forall c | c in s.board.cells && s.board.cells[c].color == Red :: s.board.cells[c].prev == None)
  }

  /** `ReadyClearing` starts a sound run. */
  lemma ReadyClearingSound(s: Sim)
    requires Valid(s.board) && s.start in s.board.cells && s.end in s.board.cells && s.start != s.end
    requires s.board.cells[s.start].color == Green && s.board.cells[s.end].color == Red
    ensures Sound(ReadyClearing(s)) && Runnable(ReadyClearing(s))
  {
    var c := s.(board := ClearPrev(s.board));
    ValidSameShape(s.board, c.board);
    ReadyEstablishes(c);
  }

  /** The colour effect of the recolouring, given that the cells in the
      frontier before it are marked and the cells entering it are WHITE. */
  lemma RecolourKinds(b: Board, before: set<Pos>, after: set<Pos>)
    requires forall c | c in b.cells && c in before :: Marked(b.cells[c].color)
    requires forall c | c in b.cells && c in after && c !in before :: b.cells[c].color == White
    ensures var r := Recolour(b, before, after);
      forall c | c in b.cells ::
        && (Marked(b.cells[c].color) ==> Marked(r.cells[c].color))
        && (r.cells[c].color == Red <==> b.cells[c].color == Red)
        && (c in after && c !in before ==> r.cells[c].color == LightGreen)
  {
  }

  /** `Advance` changes colours only into marked ones: a marked cell stays
      marked, a cell is RED after it exactly when it was RED before, and a
      cell the step queues is marked. */
  lemma AdvanceKeepsKinds(s: Sim, pick: Entry)
    requires RunInv(s) && Runnable(s) && ValidPick(s.frontier, pick)
    ensures var a := Advance(s, pick);
      forall c | c in s.board.cells ::
        && (Marked(s.board.cells[c].color) ==> Marked(a.board.cells[c].color))
        && (a.board.cells[c].color == Red <==> s.board.cells[c].color == Red)
        && (c in Members(a.frontier) && c !in Members(s.frontier) ==> Marked(a.board.cells[c].color))
  {
    var st := Step(s.mode, s.board, s.frontier, pick, s.delta, s.end);
    var before, after := Members(s.frontier), Members(st.frontier);
    assert forall c | c in after - before :: IsWhite(s.board, c) by {
      StepAdmitsWhite(s.mode, s.board, s.frontier, pick, s.delta, s.end);
    }
    assert forall c | c in st.board.cells && c in before :: Marked(st.board.cells[c].color);
    forall c | c in st.board.cells && c in after && c !in before
      ensures st.board.cells[c].color == White
    {
      assert c in after - before && IsWhite(s.board, c);
    }
    RecolourKinds(st.board, before, after);
    AdvanceUnfold(s, pick);
  }

  /** Where the predecessors stand after a step: each one is unchanged or
      is the popped cell, and a changed cell is either queued by the step
      or the RED target of a hit. */
  lemma StepPrevs(mode: Mode, b: Board, fr: Frontier, pick: Entry, delta: seq<Offset>, end: Pos)
    requires Valid(b) && Fits(mode, fr) && OnBoard(b, fr) && end in b.cells
    requires Size(fr) > 0 && ValidPick(fr, pick)
    requires b.cells[end].color == Red
    requires forall m | m in Members(fr) :: m in b.cells && Marked(b.cells[m].color)
    ensures var st := Step(mode, b, fr, pick, delta, end);
      var p := Pop(fr, pick).0;
      && (forall c | c in b.cells :: st.board.cells[c].prev == b.cells[c].prev || st.board.cells[c].prev == Some(p))
      && (forall c | c in b.cells && st.board.cells[c].prev != b.cells[c].prev ::
            (c in Members(st.frontier) && c !in Members(fr)) ||
            (FirstRed(b, p, delta) < |delta| && b.cells[c].color == Red))
  {
    var (p, rest) := Pop(fr, pick);
    StepSpec(mode, b, fr, pick, delta, end);
    var st := Step(mode, b, fr, pick, delta, end);
    forall c | c in b.cells && st.board.cells[c].prev != b.cells[c].prev
      ensures (c in Members(st.frontier) && c !in Members(fr)) || (FirstRed(b, p, delta) < |delta| && b.cells[c].color == Red)
    {
      assert st.board.cells[c] != b.cells[c];
      var k := FirstRed(b, p, delta);
      if c in Whites(b, p, Examined(b, p, delta)) && c in Members(st.frontier) {
        assert IsWhite(b, c);
      } else {
        assert k < |delta| && c == Target(mode, Neighbour(p, delta[k]), end);
        assert IsRed(b, Neighbour(p, delta[k]));
      }
    }
  }

  /** The same across `Advance`, whose recolouring keeps predecessors. */
  lemma AdvancePrevs(s: Sim, pick: Entry)
    requires RunInv(s) && Runnable(s) && ValidPick(s.frontier, pick)
    ensures var a := Advance(s, pick);
      var p := Pop(s.frontier, pick).0;
      && p in Members(s.frontier)
      && (forall c | c in s.board.cells ::
            a.board.cells[c].prev == s.board.cells[c].prev || a.board.cells[c].prev == Some(p))
      && (forall c | c in s.board.cells && a.board.cells[c].prev != s.board.cells[c].prev ::
            (c in Members(a.frontier) && c !in Members(s.frontier)) ||
            (FirstRed(s.board, p, s.delta) < |s.delta| && a.status == Complete && s.board.cells[c].color == Red))
  {
    StepPrevs(s.mode, s.board, s.frontier, pick, s.delta, s.end);
    AdvanceUnfold(s, pick);
    StepSpec(s.mode, s.board, s.frontier, pick, s.delta, s.end);
  }

  /** Soundness carries over to any state `a` reached from `s` by writing
      the marked cell `p` into some predecessors, where colours change only
      into marked ones and RED cells stay exactly the RED cells. */
  lemma SoundAfter(s: Sim, a: Sim, p: Pos)
    requires Sound(s) && RunInv(a) && SameShape(s.board, a.board)
    requires p in s.board.cells && Marked(s.board.cells[p].color)
    requires a.status == Run ==> s.status == Run
    requires forall c | c in s.board.cells ::
      && (Marked(s.board.cells[c].color) ==> Marked(a.board.cells[c].color))
      && (a.board.cells[c].color == Red <==> s.board.cells[c].color == Red)
      && (c in Members(a.frontier) && c !in Members(s.frontier) ==> Marked(a.board.cells[c].color))
    requires forall c | c in s.board.cells ::
      a.board.cells[c].prev == s.board.cells[c].prev || a.board.cells[c].prev == Some(p)
    requires forall c | c in s.board.cells && a.board.cells[c].prev != s.board.cells[c].prev ::
      (c in Members(a.frontier) && c !in Members(s.frontier)) || (a.status != Run && s.board.cells[c].color == Red)
    ensures Sound(a)
  {
    forall c | c in a.board.cells && a.board.cells[c].prev.Some?
      ensures && (Marked(a.board.cells[c].color) || a.board.cells[c].color == Red)
              && a.board.cells[c].prev.value in a.board.cells
              && Marked(a.board.cells[a.board.cells[c].prev.value].color)
    {
      if a.board.cells[c].prev == s.board.cells[c].prev {
        assert Marked(s.board.cells[s.board.cells[c].prev.value].color);
      }
    }
  }

  /** `Advance` keeps a run sound. */
  lemma AdvanceSound(s: Sim, pick: Entry)
    requires Sound(s) && Runnable(s) && ValidPick(s.frontier, pick)
    ensures Sound(Advance(s, pick))
  {
    var a := Advance(s, pick);
    var p := Pop(s.frontier, pick).0;
    AdvanceKeepsInv(s, pick);
    AdvanceKeepsKinds(s, pick);
    AdvancePrevs(s, pick);
    assert a.board.cells.Keys == s.board.cells.Keys && a.status != Complete ==> a.status == Run by {
      AdvanceUnfold(s, pick);
    }
    SoundAfter(s, a, p);
  }

  /** `draw`'s repaint keeps a run sound. */
  lemma RepaintSound(s: Sim)
    requires Sound(s)
    ensures Sound(Repaint(s))
  {
    RepaintKeepsInv(s);
  }

  /** Along a predecessor chain on a board where every predecessor names a
      marked cell, every cell after the first is marked. */
  lemma ChainMarked(b: Board, path: seq<Pos>)
    requires forall c | c in b.cells && b.cells[c].prev.Some? ::
      b.cells[c].prev.value in b.cells && Marked(b.cells[b.cells[c].prev.value].color)
    requires forall i | 0 <= i < |path| - 1 :: PrevOf(b, path[i]) == Some(path[i + 1])
    ensures forall i | 1 <= i < |path| :: path[i] in b.cells && Marked(b.cells[path[i]].color)
  {
    forall i | 1 <= i < |path|
      ensures path[i] in b.cells && Marked(b.cells[path[i]].color)
    {
      assert PrevOf(b, path[i - 1]) == Some(path[i]);
    }
  }

  /** The intended behaviour, for every tick of a run started by
      `ReadyClearing`: each cell the path lists after the end cell is one
      the run has reached (start, queued or explored), never a wall or an
      untouched cell; and a tick that does not meet the end shows the end
      cell alone. */
  lemma PathIsReached(s: Sim, pick: Entry)
    requires Sound(s) && Runnable(s) && ValidPick(s.frontier, pick)
    requires Tick(s, pick).Next?
    ensures var t := Tick(s, pick).sim;
      && Sound(t)
      && (forall i | 1 <= i < |t.path| :: t.path[i] in t.board.cells && Marked(t.board.cells[t.path[i]].color))
      && (FirstRed(s.board, Pop(s.frontier, pick).0, s.delta) == |s.delta| ==> t.path == [s.end])
  {
    var a := Advance(s, pick);
    var t := Tick(s, pick).sim;
    assert Sound(a) by { AdvanceSound(s, pick); }
    assert t == a.(path := t.path)
      && (forall i | 0 <= i < |t.path| - 1 :: PrevOf(t.board, t.path[i]) == Some(t.path[i + 1]))
      && (PrevOf(t.board, s.end) == None ==> t.path == [s.end]) by { TickPath(s, pick); }
    ChainMarked(t.board, t.path);
    if FirstRed(s.board, Pop(s.frontier, pick).0, s.delta) == |s.delta| {
      assert a.board.cells[s.end].prev == s.board.cells[s.end].prev by { AdvancePrevs(s, pick); }
      assert PrevOf(t.board, s.end) == None;
    }
  }

  /** In particular, while such a run is going the path is the end cell. */
  lemma RunningPathIsEnd(s: Sim, pick: Entry)
    requires Sound(s) && Runnable(s) && ValidPick(s.frontier, pick)
    requires Tick(s, pick).Next? && Tick(s, pick).sim.status == Run
    ensures Tick(s, pick).sim.path == [s.end]
  {
    PathIsReached(s, pick);
    AdvanceStatus(s, pick);
    TickPath(s, pick);
  }
}
