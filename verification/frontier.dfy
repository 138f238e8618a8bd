/**
 The two frontier structures of the search engine: a FIFO queue of cells
 (BFS's `deque`) and a binary heap of `(key, cell)` pairs (A* and Dijkstra's
 `heapq` list). The heap is modelled by its contents, a multiset; `Cell.__lt__`
 always answers False, so the tuple order compares keys only and a pop may
 return any entry of least key.
 */
module Frontier {
  import opened Grid

  /** One heap entry: `(f, cell)` for A*, `(dist, cell)` for Dijkstra. */
  datatype Entry = Entry(key: int, pos: Pos)

  datatype Frontier = Queue(q: seq<Pos>) | Heap(h: multiset<Entry>)

  /** The set of cells in the structure, as `Simulator.run` collects them
      into `prev_cells` / `next_cells`. */
  function Members(fr: Frontier): (r: set<Pos>)
    ensures fr.Queue? ==> forall p :: p in r <==> p in fr.q
    ensures fr.Heap? ==> forall p :: p in r <==> HasPos(fr.h, p)
  {
    match fr
    case Queue(q) => set p | p in q
    case Heap(h) => set e | e in h :: e.pos
  }

  /** `len(...)` of the structure. */
  function Size(fr: Frontier): nat {
    match fr
    case Queue(q) => |q|
    case Heap(h) => |h|
  }

  /** Some entry of `h` sits at position `p`. */
  predicate HasPos(h: multiset<Entry>, p: Pos) {
    exists e | e in h :: e.pos == p
  }

  /** `e` is an entry of `h` whose key no other entry undercuts: what
      `heapq.heappop` returns. */
  predicate IsMinEntry(h: multiset<Entry>, e: Entry) {
    e in h && forall o | o in h :: e.key <= o.key
  }

  /** No two heap entries share a position. */
  predicate UniquePositions(h: multiset<Entry>) {
    forall a, b | a in h && b in h && a.pos == b.pos :: a == b && h[a] == 1
  }

  /** No cell appears twice in the queue. */
  predicate Distinct(q: seq<Pos>) {
    forall i, j | 0 <= i < j < |q| :: q[i] != q[j]
  }

  /** `heapq.heappop`: finds an entry of least key and removes exactly one
      occurrence of it. `heapq.heapify`, which Dijkstra calls first, only
      rearranges the list and leaves this multiset as it is. The step does
      not call this method: it takes the popped entry as its `pick`
      parameter, and this method shows that every non-empty heap has an
      entry `IsMinEntry` accepts. */
  method HeapPop(h: multiset<Entry>) returns (e: Entry, rest: multiset<Entry>)
    requires |h| > 0
    ensures IsMinEntry(h, e)
    ensures rest + multiset{e} == h
    ensures |rest| == |h| - 1
  {
    e :| e in h;
    var todo := set o | o in h;
    while todo != {}
      invariant e in h
      invariant forall o | o in h && o !in todo :: e.key <= o.key
      invariant forall o | o in todo :: o in h
      decreases todo
    {
      var x :| x in todo;
      if x.key < e.key {
        e := x;
      }
      todo := todo - {x};
    }
    rest := h - multiset{e};
  }

  /** Removing the front cell of a duplicate-free queue removes it from
      the member set and nothing else. */
  lemma PopFrontMembers(q: seq<Pos>)
    requires |q| > 0 && Distinct(q)
    ensures Members(Queue(q[1..])) == Members(Queue(q)) - {q[0]}
  {
    forall p | p in Members(Queue(q)) - {q[0]} ensures p in Members(Queue(q[1..])) {
      var i :| 0 <= i < |q| && q[i] == p;
      assert q[1..][i - 1] == p;
    }
  }

  /** Two duplicate-free sequences with no common element concatenate to a
      duplicate-free one. */
  lemma DistinctConcat(a: seq<Pos>, b: seq<Pos>)
    requires Distinct(a) && Distinct(b)
    requires forall i, j | 0 <= i < |a| && 0 <= j < |b| :: a[i] != b[j]
    ensures Distinct(a + b)
  {
    var r := a + b;
    forall i, j | 0 <= i < j < |r| ensures r[i] != r[j] {
      if j < |a| {
        assert r[i] == a[i] && r[j] == a[j];
      } else if i >= |a| {
        assert r[i] == b[i - |a|] && r[j] == b[j - |a|];
      } else {
        assert r[i] == a[i] && r[j] == b[j - |a|];
      }
    }
  }
}
