/**
 What one search step does, stated against reference definitions that
 look only at the board before the step: which neighbours are in bounds
 and WHITE, and where the first RED neighbour sits in `delta` order.
 */
module StepFacts {
  import opened Grid
  import opened Frontier
  import opened Algorithms

  predicate IsWhite(b: Board, n: Pos) {
    InBounds(b, n) && n in b.cells && b.cells[n].color == White
  }

  predicate IsRed(b: Board, n: Pos) {
    InBounds(b, n) && n in b.cells && b.cells[n].color == Red
  }

  /** Index in `ds` of the first offset leading to an in-bounds RED cell,
      `|ds|` when there is none. */
  function FirstRed(b: Board, p: Pos, ds: seq<Offset>): (k: nat)
    ensures k <= |ds|
    ensures forall i | 0 <= i < k :: !IsRed(b, Neighbour(p, ds[i]))
    ensures k < |ds| ==> IsRed(b, Neighbour(p, ds[k]))
  {
    if |ds| == 0 then 0
    else if IsRed(b, Neighbour(p, ds[0])) then 0
    else 1 + FirstRed(b, p, ds[1..])
  }

  /** The in-bounds WHITE neighbours of `p` reached through `ds`, in order. */
  function Whites(b: Board, p: Pos, ds: seq<Offset>): (r: seq<Pos>)
    ensures |r| <= |ds|
    ensures forall n | n in r :: IsWhite(b, n)
    ensures forall i | 0 <= i < |ds| && IsWhite(b, Neighbour(p, ds[i])) :: Neighbour(p, ds[i]) in r
    ensures forall m | m in r :: exists i | 0 <= i < |ds| :: m == Neighbour(p, ds[i])
  {
    if |ds| == 0 then []
    else
      var n := Neighbour(p, ds[0]);
      var rest := Whites(b, p, ds[1..]);
      assert forall i | 1 <= i < |ds| :: ds[i] == ds[1..][i - 1];
      if IsWhite(b, n) then [n] + rest else rest
  }

  /** The neighbours the step examines before stopping. */
  function Examined(b: Board, p: Pos, ds: seq<Offset>): seq<Offset> {
    ds[..FirstRed(b, p, ds)]
  }

  /** The cell whose predecessor a RED hit writes. */
  function Target(mode: Mode, n: Pos, end: Pos): Pos {
    if mode.Dijkstra? then end else n
  }

  lemma ExaminedTail(b: Board, p: Pos, ds: seq<Offset>)
    requires |ds| > 0 && !IsRed(b, Neighbour(p, ds[0]))
    ensures Examined(b, p, ds) == [ds[0]] + Examined(b, p, ds[1..])
  {
    assert ds[..FirstRed(b, p, ds)] == [ds[0]] + ds[1..][..FirstRed(b, p, ds[1..])];
  }

  /** Past a first neighbour that is not RED, the examined WHITE cells are
      that neighbour (when WHITE) followed by those of the remaining offsets,
      and the first RED index moves up by one. */
  lemma ScanTailShape(b: Board, p: Pos, ds: seq<Offset>)
    requires |ds| > 0 && !IsRed(b, Neighbour(p, ds[0]))
    ensures var n := Neighbour(p, ds[0]);
      var w := Whites(b, p, Examined(b, p, ds[1..]));
      Whites(b, p, Examined(b, p, ds)) == (if IsWhite(b, n) then [n] + w else w)
    ensures FirstRed(b, p, ds) == 1 + FirstRed(b, p, ds[1..])
    ensures FirstRed(b, p, ds) < |ds| ==> ds[FirstRed(b, p, ds)] == ds[1..][FirstRed(b, p, ds[1..])]
  {
    ExaminedTail(b, p, ds);
    var e := Examined(b, p, ds[1..]);
    assert ([ds[0]] + e)[0] == ds[0];
    assert ([ds[0]] + e)[1..] == e;
  }

  /** One BFS neighbour visit, read through the colours of `b`. */
  lemma BfsVisit(b: Board, bb: Board, q: seq<Pos>, p: Pos, n: Pos, end: Pos)
    requires Valid(bb) && SameColors(b, bb) && p in bb.cells && end in bb.cells
    ensures Visit(Bfs, bb, Queue(q), p, n, end).hit == IsRed(b, n)
    ensures Visit(Bfs, bb, Queue(q), p, n, end).frontier
         == Queue(if IsWhite(b, n) then q + [n] else q)
  {
    if InBounds(bb, n) {
      assert n in bb.cells && n in b.cells;
      assert b.cells[n].color == bb.cells[n].color;
    } else {
      assert !InBounds(b, n);
    }
  }

  /** Every scan (any mode) hits iff an examined neighbour is RED. */
  lemma {:induction false} ScanHit(mode: Mode, b: Board, bb: Board, fr: Frontier, p: Pos, ds: seq<Offset>, end: Pos)
    requires Valid(bb) && SameColors(b, bb) && Fits(mode, fr) && p in bb.cells && end in bb.cells
    ensures ScanFrom(mode, bb, fr, p, ds, end).hit == (FirstRed(b, p, ds) < |ds|)
    decreases |ds|
  {
    if |ds| > 0 {
      var n := Neighbour(p, ds[0]);
      var s := Visit(mode, bb, fr, p, n, end);
      assert s.hit == IsRed(b, n) by {
        if InBounds(bb, n) {
          assert b.cells[n].color == bb.cells[n].color;
        }
      }
      if !s.hit {
        SameColorsTrans(b, bb, s.board);
        ScanHit(mode, b, s.board, s.frontier, p, ds[1..], end);
      }
    }
  }

  /** BFS: the scan appends exactly the WHITE neighbours examined before the
      first RED one, in `delta` order. */
  lemma {:induction false} BfsScanQueue(b: Board, bb: Board, q: seq<Pos>, p: Pos, ds: seq<Offset>, end: Pos)
    requires Valid(bb) && SameColors(b, bb) && p in bb.cells && end in bb.cells
    ensures ScanFrom(Bfs, bb, Queue(q), p, ds, end).frontier
         == Queue(q + Whites(b, p, Examined(b, p, ds)))
    decreases |ds|
  {
    if |ds| > 0 {
      var n := Neighbour(p, ds[0]);
      var s := Visit(Bfs, bb, Queue(q), p, n, end);
      BfsVisit(b, bb, q, p, n, end);
      if IsRed(b, n) {
        assert Examined(b, p, ds) == [];
        assert q + [] == q;
      } else {
        BfsScanTail(b, bb, q, p, ds, end);
      }
    }
  }

  /** Past a first visit that does not hit, a scan is the scan of the
      remaining offsets from the state that visit leaves. */
  lemma ScanFromTail(mode: Mode, bb: Board, fr: Frontier, p: Pos, ds: seq<Offset>, end: Pos)
    requires Valid(bb) && Fits(mode, fr) && p in bb.cells && end in bb.cells
    requires |ds| > 0 && !Visit(mode, bb, fr, p, Neighbour(p, ds[0]), end).hit
    ensures var s := Visit(mode, bb, fr, p, Neighbour(p, ds[0]), end);
      ScanFrom(mode, bb, fr, p, ds, end) == ScanFrom(mode, s.board, s.frontier, p, ds[1..], end)
  {
  }

  /** The BFS scan past a first neighbour that is not RED. */
  lemma {:induction false} BfsScanTail(b: Board, bb: Board, q: seq<Pos>, p: Pos, ds: seq<Offset>, end: Pos)
    requires Valid(bb) && SameColors(b, bb) && p in bb.cells && end in bb.cells
    requires |ds| > 0 && !IsRed(b, Neighbour(p, ds[0]))
    ensures ScanFrom(Bfs, bb, Queue(q), p, ds, end).frontier
         == Queue(q + Whites(b, p, Examined(b, p, ds)))
    decreases |ds|, 0
  {
    var n := Neighbour(p, ds[0]);
    var s := Visit(Bfs, bb, Queue(q), p, n, end);
    var w := Whites(b, p, Examined(b, p, ds[1..]));
    var q1 := if IsWhite(b, n) then q + [n] else q;
    assert !s.hit && s.frontier == Queue(q1) by {
      BfsVisit(b, bb, q, p, n, end);
    }
    ScanFromTail(Bfs, bb, Queue(q), p, ds, end);
    assert ScanFrom(Bfs, s.board, s.frontier, p, ds[1..], end).frontier == Queue(q1 + w) by {
      SameColorsTrans(b, bb, s.board);
      BfsScanQueue(b, s.board, q1, p, ds[1..], end);
    }
    BfsTailQueue(b, p, ds, q);
  }

  /** The queue after the first BFS visit, followed by the WHITE cells the
      remaining offsets examine, is the queue followed by all of them. */
  lemma BfsTailQueue(b: Board, p: Pos, ds: seq<Offset>, q: seq<Pos>)
    requires |ds| > 0 && !IsRed(b, Neighbour(p, ds[0]))
    ensures var n := Neighbour(p, ds[0]);
      (if IsWhite(b, n) then q + [n] else q) + Whites(b, p, Examined(b, p, ds[1..]))
        == q + Whites(b, p, Examined(b, p, ds))
  {
    var n := Neighbour(p, ds[0]);
    var w := Whites(b, p, Examined(b, p, ds[1..]));
    ScanTailShape(b, p, ds);
    if IsWhite(b, n) {
      assert (q + [n]) + w == q + ([n] + w);
    }
  }

  /** Pushing one cell adds exactly that cell to the member set. */
  lemma MembersPush(fr: Frontier, fr': Frontier, n: Pos, key: int)
    requires fr.Queue? ==> fr' == Queue(fr.q + [n])
    requires fr.Heap? ==> fr' == Heap(fr.h + multiset{Entry(key, n)})
    ensures Members(fr') == Members(fr) + {n}
  {
    if fr.Heap? {
      assert HasPos(fr'.h, n) by { assert Entry(key, n) in fr'.h; }
      forall m | HasPos(fr.h, m) ensures HasPos(fr'.h, m) {
        var e :| e in fr.h && e.pos == m;
        assert e in fr'.h;
      }
    }
  }

  /** What admitting the WHITE neighbour `n` may change: it pushes at
      most `n`, with `p` as its predecessor, and writes no other cell. */
  lemma AdmitEffects(mode: Mode, bb: Board, fr: Frontier, p: Pos, n: Pos, end: Pos)
    requires Fits(mode, fr) && p in bb.cells && n in bb.cells
    ensures var s := Admit(mode, bb, fr, p, n, end);
      && Members(fr) <= Members(s.frontier) <= Members(fr) + {n}
      && (n in Members(s.frontier) - Members(fr) ==> s.board.cells[n].prev == Some(p))
      && (forall c | c in bb.cells :: s.board.cells[c].prev == bb.cells[c].prev || s.board.cells[c].prev == Some(p))
      && (forall c | c in bb.cells && s.board.cells[c] != bb.cells[c] :: c == n && n in Members(s.frontier))
  {
    var s := Admit(mode, bb, fr, p, n, end);
    match mode
    case Bfs => MembersPush(fr, s.frontier, n, 0);
    case Astar =>
      if !HasPos(fr.h, n) {
        var g := bb.cells[p].g + 1;
        MembersPush(fr, s.frontier, n, g + SqDist(n, end));
      }
    case Dijkstra =>
      var alt := bb.cells[p].dist.Succ();
      if alt.Below(bb.cells[n].dist) {
        MembersPush(fr, s.frontier, n, alt.n);
      }
  }

  /** What one neighbour visit may change: it pushes at most the WHITE
      neighbour `n`, and every predecessor it writes is `p`. */
  lemma VisitEffects(mode: Mode, b: Board, bb: Board, fr: Frontier, p: Pos, n: Pos, end: Pos)
    requires Valid(bb) && SameColors(b, bb) && Fits(mode, fr) && p in bb.cells && end in bb.cells
    ensures var s := Visit(mode, bb, fr, p, n, end);
      && Members(fr) <= Members(s.frontier)
      && Members(s.frontier) <= Members(fr) + (if IsWhite(b, n) then {n} else {})
      && (forall m | m in Members(s.frontier) - Members(fr) :: s.board.cells[m].prev == Some(p))
      && (forall c | c in bb.cells :: s.board.cells[c].prev == bb.cells[c].prev || s.board.cells[c].prev == Some(p))
      && (forall c | c in bb.cells && s.board.cells[c] != bb.cells[c] ::
            (c == n && IsWhite(b, n) && n in Members(s.frontier)) || (s.hit && c == Target(mode, n, end)))
  {
    if InBounds(bb, n) {
      assert b.cells[n].color == bb.cells[n].color;
      if bb.cells[n].color == White {
        AdmitEffects(mode, bb, fr, p, n, end);
      }
    }
  }

  /** What a scan `s` from `bb` and `fr` over the offsets `ds` may have
      changed, read through the colours of `b`: it only pushed WHITE
      neighbours examined before the first RED one, each with `p` as
      predecessor, and apart from them it wrote only the hit target, and
      only `p` into predecessors. */
  ghost predicate ScanWrites(mode: Mode, b: Board, bb: Board, fr: Frontier, s: Scan, p: Pos, ds: seq<Offset>, end: Pos)
    requires bb.cells.Keys <= s.board.cells.Keys
  {
    && Members(fr) <= Members(s.frontier)
    && (forall m | m in Members(s.frontier) - Members(fr) :: m in Whites(b, p, Examined(b, p, ds)))
    && (forall m | m in Members(s.frontier) - Members(fr) :: m in s.board.cells && s.board.cells[m].prev == Some(p))
    && (forall c | c in bb.cells :: s.board.cells[c].prev == bb.cells[c].prev || s.board.cells[c].prev == Some(p))
    && (forall c | c in bb.cells && s.board.cells[c] != bb.cells[c] ::
          (c in Whites(b, p, Examined(b, p, ds)) && c in Members(s.frontier)) ||
          (FirstRed(b, p, ds) < |ds| && c == Target(mode, Neighbour(p, ds[FirstRed(b, p, ds)]), end)))
  }

  /** What a whole scan may change, in every mode. */
  lemma {:induction false} ScanEffects(mode: Mode, b: Board, bb: Board, fr: Frontier, p: Pos, ds: seq<Offset>, end: Pos)
    requires Valid(bb) && SameColors(b, bb) && Fits(mode, fr) && p in bb.cells && end in bb.cells
    ensures ScanWrites(mode, b, bb, fr, ScanFrom(mode, bb, fr, p, ds, end), p, ds, end)
    decreases |ds|
  {
    if |ds| > 0 {
      var n := Neighbour(p, ds[0]);
      var s1 := Visit(mode, bb, fr, p, n, end);
      VisitEffects(mode, b, bb, fr, p, n, end);
      ScanHit(mode, b, bb, fr, p, ds, end);
      if IsRed(b, n) {
        assert s1.hit by {
          assert b.cells[n].color == bb.cells[n].color;
        }
        assert !IsWhite(b, n);
      } else {
        ScanEffectsTail(mode, b, bb, fr, p, ds, end);
      }
    }
  }

  lemma {:induction false} ScanEffectsTail(mode: Mode, b: Board, bb: Board, fr: Frontier, p: Pos, ds: seq<Offset>, end: Pos)
    requires Valid(bb) && SameColors(b, bb) && Fits(mode, fr) && p in bb.cells && end in bb.cells
    requires |ds| > 0 && !IsRed(b, Neighbour(p, ds[0]))
    ensures ScanWrites(mode, b, bb, fr, ScanFrom(mode, bb, fr, p, ds, end), p, ds, end)
    decreases |ds|, 0
  {
    var n := Neighbour(p, ds[0]);
    var s1 := Visit(mode, bb, fr, p, n, end);
    VisitEffects(mode, b, bb, fr, p, n, end);
    assert !s1.hit by {
      if InBounds(bb, n) { assert b.cells[n].color == bb.cells[n].color; }
    }
    SameColorsTrans(b, bb, s1.board);
    ScanEffects(mode, b, s1.board, s1.frontier, p, ds[1..], end);
    ScanTailShape(b, p, ds);
  }

  lemma SameColorsTrans(a: Board, b: Board, c: Board)
    requires SameColors(a, b) && SameColors(b, c)
    ensures SameColors(a, c)
  {
  }
}

/**
 Mode-specific admission: the values A* and Dijkstra write into an admitted
 cell, and A*'s heap never holding two entries for one position.
 */
module AdmissionFacts {
  import opened Grid
  import opened Frontier
  import opened Algorithms
  import opened StepFacts

  /** A heap scan only ever adds entries. */
  lemma {:induction false} ScanGrowsHeap(mode: Mode, bb: Board, h: multiset<Entry>, p: Pos, ds: seq<Offset>, end: Pos)
    requires Valid(bb) && !mode.Bfs? && p in bb.cells && end in bb.cells
    ensures h <= ScanFrom(mode, bb, Heap(h), p, ds, end).frontier.h
    decreases |ds|
  {
    if |ds| > 0 {
      var s1 := Visit(mode, bb, Heap(h), p, Neighbour(p, ds[0]), end);
      if !s1.hit {
        ScanGrowsHeap(mode, s1.board, s1.frontier.h, p, ds[1..], end);
      }
    }
  }

  /** Pushing an entry whose position is new keeps positions unique. */
  lemma PushUnique(h: multiset<Entry>, e: Entry)
    requires UniquePositions(h) && !HasPos(h, e.pos)
    ensures UniquePositions(h + multiset{e})
  {
    var h' := h + multiset{e};
    forall a, c | a in h' && c in h' && a.pos == c.pos ensures a == c && h'[a] == 1 {
      if a == e || c == e {
        assert a == c;
        assert a !in h;
      }
    }
  }

  /** A* never pushes a second entry for a position already in its heap. */
  lemma {:induction false} AstarScanUnique(bb: Board, h: multiset<Entry>, p: Pos, ds: seq<Offset>, end: Pos)
    requires Valid(bb) && p in bb.cells && end in bb.cells && UniquePositions(h)
    ensures UniquePositions(ScanFrom(Astar, bb, Heap(h), p, ds, end).frontier.h)
    decreases |ds|
  {
    if |ds| > 0 {
      var n := Neighbour(p, ds[0]);
      var s1 := Visit(Astar, bb, Heap(h), p, n, end);
      if InBounds(bb, n) && bb.cells[n].color == White && !HasPos(h, n) {
        PushUnique(h, Entry(bb.cells[p].g + 1 + SqDist(n, end), n));
      }
      if !s1.hit {
        AstarScanUnique(s1.board, s1.frontier.h, p, ds[1..], end);
      }
    }
  }

  /** The record A* writes into an admitted neighbour `m` of `p`. */
  function AstarAdmitted(c: Cell, gp: nat, m: Pos, p: Pos, end: Pos): Cell {
    c.(g := gp + 1, h := SqDist(m, end), f := gp + 1 + SqDist(m, end), prev := Some(p))
  }

  /** The outcome promised for one WHITE neighbour `m` of `p`. */
  ghost predicate AstarOutcome(rb: Board, rh: multiset<Entry>, bb: Board, h: multiset<Entry>, p: Pos, m: Pos, end: Pos)
    requires p in bb.cells && m in bb.cells
  {
    && m in rb.cells
    && (HasPos(h, m) ==> rb.cells[m] == bb.cells[m])
    && (!HasPos(h, m) ==>
          && rb.cells[m] == AstarAdmitted(bb.cells[m], bb.cells[p].g, m, p, end)
          && Entry(bb.cells[p].g + 1 + SqDist(m, end), m) in rh)
  }

  /** The outcome of a whole A* scan from `bb` and `h` for the neighbour `m`. */
  ghost predicate AstarScanOutcome(bb: Board, h: multiset<Entry>, p: Pos, ds: seq<Offset>, end: Pos, m: Pos)
    requires Valid(bb) && p in bb.cells && end in bb.cells
  {
    var s := ScanFrom(Astar, bb, Heap(h), p, ds, end);
    m in bb.cells && AstarOutcome(s.board, s.frontier.h, bb, h, p, m, end)
  }

  /** A*: each WHITE neighbour examined is admitted iff the heap had no
      entry at its position; if so it gets g = parent.g + 1, the squared
      Euclidean distance to the end as h, f = g + h, the popped cell as
      predecessor, and an entry keyed by f. */
  lemma {:induction false} AstarScan(b: Board, bb: Board, h: multiset<Entry>, p: Pos, ds: seq<Offset>, end: Pos)
    requires Valid(bb) && SameColors(b, bb) && p in bb.cells && end in bb.cells
    requires !IsWhite(b, p) && !IsRed(b, p)
    ensures forall m | m in Whites(b, p, Examined(b, p, ds)) ::
      AstarScanOutcome(bb, h, p, ds, end, m)
    decreases |ds|
  {
    if |ds| > 0 && !IsRed(b, Neighbour(p, ds[0])) {
      AstarScanTail(b, bb, h, p, ds, end);
    }
  }

  lemma {:induction false} AstarScanTail(b: Board, bb: Board, h: multiset<Entry>, p: Pos, ds: seq<Offset>, end: Pos)
    requires Valid(bb) && SameColors(b, bb) && p in bb.cells && end in bb.cells
    requires !IsWhite(b, p) && !IsRed(b, p)
    requires |ds| > 0 && !IsRed(b, Neighbour(p, ds[0]))
    ensures forall m | m in Whites(b, p, Examined(b, p, ds)) ::
      AstarScanOutcome(bb, h, p, ds, end, m)
    decreases |ds|, 1
  {
    var n := Neighbour(p, ds[0]);
    ScanTailShape(b, p, ds);
    if IsWhite(b, n) {
      AstarScanHead(b, bb, h, p, ds, end);
    }
    AstarScanRest(b, bb, h, p, ds, end);
  }

  /** The first neighbour, when WHITE, ends as `Visit` left it. */
  lemma {:induction false} AstarScanHead(b: Board, bb: Board, h: multiset<Entry>, p: Pos, ds: seq<Offset>, end: Pos)
    requires Valid(bb) && SameColors(b, bb) && p in bb.cells && end in bb.cells
    requires !IsWhite(b, p) && !IsRed(b, p)
    requires |ds| > 0 && IsWhite(b, Neighbour(p, ds[0]))
    ensures AstarScanOutcome(bb, h, p, ds, end, Neighbour(p, ds[0]))
    decreases |ds|, 0
  {
    var n := Neighbour(p, ds[0]);
    var s1 := Visit(Astar, bb, Heap(h), p, n, end);
    var s := ScanFrom(Astar, bb, Heap(h), p, ds, end);
    assert b.cells[n].color == bb.cells[n].color;
    assert !s1.hit;
    assert s == ScanFrom(Astar, s1.board, s1.frontier, p, ds[1..], end);
    SameColorsTrans(b, bb, s1.board);
    ScanGrowsHeap(Astar, s1.board, s1.frontier.h, p, ds[1..], end);
    var gp := bb.cells[p].g;
    if !HasPos(h, n) {
      assert Entry(gp + 1 + SqDist(n, end), n) in s1.frontier.h;
      assert HasPos(s1.frontier.h, n);
    }
    var w := Whites(b, p, Examined(b, p, ds[1..]));
    if n in w {
      AstarScan(b, s1.board, s1.frontier.h, p, ds[1..], end);
      assert AstarOutcome(s.board, s.frontier.h, s1.board, s1.frontier.h, p, n, end);
    } else {
      ScanEffects(Astar, b, s1.board, s1.frontier, p, ds[1..], end);
      var k := FirstRed(b, p, ds[1..]);
      if k < |ds| - 1 {
        assert IsRed(b, Neighbour(p, ds[1..][k]));
      }
      assert s.board.cells[n] == s1.board.cells[n];
    }
  }

  /** The later neighbours other than the first one. */
  lemma {:induction false} AstarScanRest(b: Board, bb: Board, h: multiset<Entry>, p: Pos, ds: seq<Offset>, end: Pos)
    requires Valid(bb) && SameColors(b, bb) && p in bb.cells && end in bb.cells
    requires !IsWhite(b, p) && !IsRed(b, p)
    requires |ds| > 0 && !IsRed(b, Neighbour(p, ds[0]))
    ensures forall m | m in Whites(b, p, Examined(b, p, ds[1..])) && m != Neighbour(p, ds[0]) ::
      AstarScanOutcome(bb, h, p, ds, end, m)
    decreases |ds|, 0
  {
    var n := Neighbour(p, ds[0]);
    var s1 := Visit(Astar, bb, Heap(h), p, n, end);
    var s := ScanFrom(Astar, bb, Heap(h), p, ds, end);
    VisitEffects(Astar, b, bb, Heap(h), p, n, end);
    assert !s1.hit by {
      if InBounds(bb, n) { assert b.cells[n].color == bb.cells[n].color; }
    }
    assert s == ScanFrom(Astar, s1.board, s1.frontier, p, ds[1..], end);
    assert s1.board.cells[p] == bb.cells[p];
    SameColorsTrans(b, bb, s1.board);
    AstarScan(b, s1.board, s1.frontier.h, p, ds[1..], end);
    var w := Whites(b, p, Examined(b, p, ds[1..]));
    forall m | m in w && m != n ensures m in bb.cells && AstarOutcome(s.board, s.frontier.h, bb, h, p, m, end) {
      assert m in bb.cells;
      assert s1.board.cells[m] == bb.cells[m];
      assert HasPos(s1.frontier.h, m) == HasPos(h, m) by {
        if HasPos(s1.frontier.h, m) {
          var x :| x in s1.frontier.h && x.pos == m;
          assert x in h;
        }
      }
      OutcomeTransfer(s.board, s.frontier.h, s1.board, bb, s1.frontier.h, h, p, m, end);
    }
  }

  lemma OutcomeTransfer(rb: Board, rh: multiset<Entry>, bb1: Board, bb: Board, h1: multiset<Entry>, h: multiset<Entry>, p: Pos, m: Pos, end: Pos)
    requires p in bb.cells && m in bb.cells && p in bb1.cells && m in bb1.cells
    requires bb1.cells[m] == bb.cells[m] && bb1.cells[p] == bb.cells[p]
    requires HasPos(h1, m) == HasPos(h, m)
    requires AstarOutcome(rb, rh, bb1, h1, p, m, end)
    ensures AstarOutcome(rb, rh, bb, h, p, m, end)
  {
  }

  /** The outcome promised for one WHITE neighbour `m` of `p` under
      Dijkstra's rule: admitted when one more than the popped cell's
      distance is below the neighbour's distance. */
  ghost predicate DijkstraOutcome(rb: Board, rh: multiset<Entry>, bb: Board, p: Pos, m: Pos)
    requires p in bb.cells && m in bb.cells
  {
    var alt := bb.cells[p].dist.Succ();
    && m in rb.cells
    && (!alt.Below(bb.cells[m].dist) ==> rb.cells[m] == bb.cells[m])
    && (alt.Below(bb.cells[m].dist) ==>
          && rb.cells[m] == bb.cells[m].(dist := alt, prev := Some(p))
          && Entry(alt.n, m) in rh)
  }

  /** The outcome of a whole Dijkstra scan from `bb` and `h` for the
      neighbour `m`. */
  ghost predicate DijkstraScanOutcome(bb: Board, h: multiset<Entry>, p: Pos, ds: seq<Offset>, end: Pos, m: Pos)
    requires Valid(bb) && p in bb.cells && end in bb.cells
  {
    var s := ScanFrom(Dijkstra, bb, Heap(h), p, ds, end);
    m in bb.cells && DijkstraOutcome(s.board, s.frontier.h, bb, p, m)
  }

  /** Dijkstra: each WHITE neighbour examined is admitted iff
      `parent.dist + 1 < neighbour.dist`; if so its distance becomes
      `parent.dist + 1`, its predecessor the popped cell, and an entry keyed
      by that distance is pushed. */
  lemma {:induction false} DijkstraScan(b: Board, bb: Board, h: multiset<Entry>, p: Pos, ds: seq<Offset>, end: Pos)
    requires Valid(bb) && SameColors(b, bb) && p in bb.cells && end in bb.cells
    requires !IsWhite(b, p) && !IsRed(b, p) && b.cells[end].color == Red
    ensures forall m | m in Whites(b, p, Examined(b, p, ds)) ::
      DijkstraScanOutcome(bb, h, p, ds, end, m)
    decreases |ds|
  {
    if |ds| > 0 && !IsRed(b, Neighbour(p, ds[0])) {
      var n := Neighbour(p, ds[0]);
      ScanTailShape(b, p, ds);
      if IsWhite(b, n) {
        DijkstraScanHead(b, bb, h, p, ds, end);
      }
      DijkstraScanRest(b, bb, h, p, ds, end);
    }
  }

  lemma {:induction false} DijkstraScanHead(b: Board, bb: Board, h: multiset<Entry>, p: Pos, ds: seq<Offset>, end: Pos)
    requires Valid(bb) && SameColors(b, bb) && p in bb.cells && end in bb.cells
    requires !IsWhite(b, p) && !IsRed(b, p) && b.cells[end].color == Red
    requires |ds| > 0 && IsWhite(b, Neighbour(p, ds[0]))
    ensures DijkstraScanOutcome(bb, h, p, ds, end, Neighbour(p, ds[0]))
    decreases |ds|, 0
  {
    var n := Neighbour(p, ds[0]);
    var s1 := Visit(Dijkstra, bb, Heap(h), p, n, end);
    var s := ScanFrom(Dijkstra, bb, Heap(h), p, ds, end);
    assert b.cells[n].color == bb.cells[n].color;
    assert !s1.hit;
    assert s == ScanFrom(Dijkstra, s1.board, s1.frontier, p, ds[1..], end);
    assert s1.board.cells[p] == bb.cells[p];
    SameColorsTrans(b, bb, s1.board);
    ScanGrowsHeap(Dijkstra, s1.board, s1.frontier.h, p, ds[1..], end);
    var w := Whites(b, p, Examined(b, p, ds[1..]));
    if n in w {
      DijkstraScan(b, s1.board, s1.frontier.h, p, ds[1..], end);
      assert DijkstraOutcome(s.board, s.frontier.h, s1.board, p, n);
    } else {
      ScanEffects(Dijkstra, b, s1.board, s1.frontier, p, ds[1..], end);
      assert n != end;
      assert s.board.cells[n] == s1.board.cells[n];
    }
  }

  lemma {:induction false} DijkstraScanRest(b: Board, bb: Board, h: multiset<Entry>, p: Pos, ds: seq<Offset>, end: Pos)
    requires Valid(bb) && SameColors(b, bb) && p in bb.cells && end in bb.cells
    requires !IsWhite(b, p) && !IsRed(b, p) && b.cells[end].color == Red
    requires |ds| > 0 && !IsRed(b, Neighbour(p, ds[0]))
    ensures forall m | m in Whites(b, p, Examined(b, p, ds[1..])) && m != Neighbour(p, ds[0]) ::
      DijkstraScanOutcome(bb, h, p, ds, end, m)
    decreases |ds|, 0
  {
    var n := Neighbour(p, ds[0]);
    var s1 := Visit(Dijkstra, bb, Heap(h), p, n, end);
    var s := ScanFrom(Dijkstra, bb, Heap(h), p, ds, end);
    VisitEffects(Dijkstra, b, bb, Heap(h), p, n, end);
    assert !s1.hit by {
      if InBounds(bb, n) { assert b.cells[n].color == bb.cells[n].color; }
    }
    assert s == ScanFrom(Dijkstra, s1.board, s1.frontier, p, ds[1..], end);
    assert s1.board.cells[p] == bb.cells[p];
    SameColorsTrans(b, bb, s1.board);
    DijkstraScan(b, s1.board, s1.frontier.h, p, ds[1..], end);
    var w := Whites(b, p, Examined(b, p, ds[1..]));
    forall m | m in w && m != n ensures m in bb.cells && DijkstraOutcome(s.board, s.frontier.h, bb, p, m) {
      assert s1.board.cells[m] == bb.cells[m];
      assert DijkstraOutcome(s.board, s.frontier.h, s1.board, p, m);
    }
  }
}
