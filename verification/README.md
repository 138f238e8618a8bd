# Pathfinding simulator core, modelled in Dafny

This project models the search engine of a grid pathfinding simulator and
the per-frame glue that drives it.

**The engine.** Each of the three modes (BFS, A*, Dijkstra) has two parts:

- an *init* that seeds a frontier: a queue for BFS, a `heapq` list for A* and Dijkstra;
- a *step* that does one unit of work:
  - pops one cell;
  - scans its in-bounds neighbours in `delta` order;
  - admits WHITE neighbours under the mode's rule;
  - stops with `"complete"` at the first RED (end) neighbour, or when the frontier runs empty.

**The glue.** The simulator provides:

- **`run`**: one step, then recolouring by the set difference of the frontier before and after the step:
  - cells that left it turn LIGHT_BLUE;
  - cells that entered it turn LIGHT_GREEN.

  Then it rebuilds the path by walking `prev` links from the end cell.
- **`ready`**: runs the mode's init and sets the status to `run`.
- **The key handling**: space and escape drive the status machine `wait → ready → run ⇄ pause → complete → wait` and its two resets.
- **A single wall click while waiting.**
- **The two colour writes at the top of `draw`**: they put the start and end markers back.

**Data.**

- A board is a finite map from `Pos(x, y)` to a `Cell` record holding:
  - colour;
  - `prev` as `Option<Pos>`;
  - trace;
  - `g`, `h`, `f`;
  - `dist` as `Inf | Fin(nat)`.
- The heap is modelled by its contents, a multiset of `(key, pos)` entries. `Cell.__lt__` always answers False, so a pop may return any entry of least key. That choice is the `pick` parameter of `Step`/`Tick`, constrained by `ValidPick`.
- `delta` and the colour constants come from a constants file that is not part of this model. `delta` is a parameter and the colours are an enumeration.

**Modules, in dependency order:**

| module | contents |
|---|---|
| `Grid` | cells, boards and board updates |
| `Frontier` | the queue and heap, and the pop |
| `Algorithms` | init and step of each mode |
| `StepFacts`, `AdmissionFacts`, `StepProps` | what a step does, stated against the board it starts from |
| `Simulator` | status, tick, `ready`, keys and the repaint |
| `TickFacts` | what a tick does, and the run invariant |
| `Keys` | the status machine and the resets |
| `Rerun` | a concrete two-run scenario showing the finding below |
| `FreshRun` | the corrected `ready` and what it guarantees |
| `Links` | the predecessor links stay acyclic in every session, so the path walk ends |

## Model

| member | source | states |
|---|---|---|
| Frontier.HeapPop | algorithms.py:87-88 | the entry popped from a non-empty heap has a key no other entry undercuts, and exactly one occurrence of it is removed (`heapify` leaves the multiset as it is) |
| Frontier.PopFrontMembers | algorithms.py:12 | removing the front of a duplicate-free queue removes exactly that cell from the set of queued cells |
| Grid.SqDist | algorithms.py:60-62 | the A* heuristic `(x-ex)^2 + (y-ey)^2` is a natural number, zero exactly at the end cell |
| Grid.NewBoard | simulator.py:53 | a new board is well-formed (its cells are exactly the in-bounds positions) and every cell is WHITE without a predecessor |
| Algorithms.AstarInit | algorithms.py:34-39 | every cell gets g = h = f = 0 and nothing else; the heap holds the single entry (0, start) |
| Algorithms.DijkstraInit | algorithms.py:76-83 | every predecessor is cleared, dist is 0 at the start and infinite elsewhere, colours and g are kept, and the heap holds (0, start) |
| Algorithms.Init | simulator.py:215-228 | whichever mode: colours unchanged, the frontier fits the mode and holds exactly the start, and predecessors survive except under Dijkstra |
| Algorithms.BfsInit | algorithms.py:7-8 | the BFS queue holds only the start, and the board is left exactly as it is: no predecessor an earlier run wrote is cleared |
| Algorithms.Pop | algorithms.py:43 | `popleft` (algorithms.py:12) or `heappop` (here and algorithms.py:88): the queue gives up exactly its front cell and keeps the rest in order; the heap gives up the picked entry's cell, the picked key is no greater than any key in the heap, and exactly one occurrence of that entry is removed; either way the remaining frontier is one entry smaller and holds no new cell |
| Algorithms.Admit | algorithms.py:21-22 | admitting a WHITE neighbour (BFS here; A* at algorithms.py:53-65 and Dijkstra at algorithms.py:97-102, whose rules `AdmissionFacts.AstarScan` and `DijkstraScan` state) never ends the step, keeps the board's shape and keeps the frontier's kind |
| Algorithms.Visit | algorithms.py:19-26 | one neighbour: the board stays well-formed, no colour changes, and the frontier keeps its kind |
| Algorithms.ScanFrom | algorithms.py:15-26 | the neighbour loop keeps the board well-formed and every colour, and the frontier only grows, by at most one entry per offset |
| Algorithms.Step | algorithms.py:10-29 | a step keeps the board well-formed and every colour as it was, and the frontier shrinks by one and grows by at most one entry per offset |
| StepFacts.ScanHit | algorithms.py:24-26 | a scan stops with `complete` exactly when some examined neighbour is in bounds and RED |
| StepFacts.BfsScanQueue | algorithms.py:15-23 | the BFS scan appends exactly the in-bounds WHITE neighbours met before the first RED one, in `delta` order |
| StepFacts.ScanEffects | algorithms.py:46-68 | in every mode (BFS at algorithms.py:19-26, A* here, Dijkstra at algorithms.py:95-105), a scan adds only WHITE neighbours examined before the first RED one, each with the popped cell as predecessor; apart from them it writes only the hit target, and every predecessor it writes is the popped cell |
| AdmissionFacts.AstarScanUnique | algorithms.py:53-64 | an A* scan never puts two heap entries at one position |
| AdmissionFacts.AstarScan | algorithms.py:52-65 | each examined WHITE neighbour is admitted iff no heap entry has its position; then g = parent.g + 1, h = squared distance to the end, f = g + h, prev = the popped cell, and an entry keyed by f is pushed; otherwise the cell is untouched |
| AdmissionFacts.DijkstraScan | algorithms.py:97-102 | each examined WHITE neighbour is admitted iff parent.dist + 1 < its dist; then it gets that distance, the popped cell as prev and an entry keyed by it; otherwise it is untouched |
| StepProps.StepSpec | algorithms.py:85-113 | over a whole step of any mode (Dijkstra here, BFS at algorithms.py:10-29, A* at algorithms.py:41-71): `complete` iff a RED neighbour was met or the frontier ended empty; growth bounded by the examined WHITE neighbours; each added cell is one of them with the popped cell as prev; the RED target gets the popped cell as prev; no other cell changes |
| StepProps.StepSparesMarked | algorithms.py:19-24 | in any mode (also algorithms.py:50-52 and algorithms.py:95-97), walls, the start marker and coloured cells are never written by a step and never enter the frontier |
| StepProps.BfsStep | algorithms.py:12-29 | the queue after a BFS step is the old queue without its front, followed by the examined WHITE neighbours in `delta` order; `complete` iff a RED neighbour was met or that queue is empty |
| StepProps.AstarStep | algorithms.py:41-71 | over a whole A* step the heap keeps one entry per position, and every examined WHITE neighbour has the admission outcome of `AstarScan` |
| StepProps.DijkstraStep | algorithms.py:85-113 | over a whole Dijkstra step every examined WHITE neighbour has the admission outcome of `DijkstraScan` |
| Simulator.Recolour | simulator.py:257-262 | cells that left the frontier become LIGHT_BLUE, cells that entered it LIGHT_GREEN, every other cell keeps its colour, and nothing but colours changes |
| Simulator.Walk | simulator.py:269-274 | the walk lists its first cell first, each next cell is the predecessor of the one before, the last one has none, and at most `fuel` cells are listed; a cell without predecessor gives itself alone |
| Simulator.Advance | simulator.py:246-267 | the tick before its walk keeps the board's shape and the frontier's kind, leaves the status `run` or `complete`, changes nothing but status, board and frontier, and turns colours only into LIGHT_BLUE or LIGHT_GREEN |
| Simulator.Tick | simulator.py:232-274 | a tick that does not hang is `Advance` followed by a path that starts at the end cell and follows predecessor links |
| Simulator.Repaint | simulator.py:297-298 | the end becomes RED and the start GREEN (unless they coincide); every other cell, every predecessor and the rest of the state are kept |
| Simulator.ReadyRun | simulator.py:215-229 | `ready` as written: status `run`, a frontier of the mode's kind holding exactly the start, every colour kept, and nothing but status, board and frontier changed |
| Simulator.Whiten | simulator.py:101-105 | both resets (escape's at simulator.py:208-211): every queued or explored cell becomes WHITE with no trace, its predecessor cleared after completion and kept by escape; every other cell is exactly as it was |
| Simulator.ClearWalls | simulator.py:111-113 | every wall becomes WHITE and every other cell is exactly as it was |
| Simulator.ClearPrev | algorithms.py:82 | every predecessor is cleared and nothing else changes, as Dijkstra's init does for its own mode |
| TickFacts.AdvanceRecolours | simulator.py:246-263 | after a tick, cells that left the frontier are LIGHT_BLUE, cells that entered it are LIGHT_GREEN, and all other cells keep their colour |
| TickFacts.AdvanceStatus | simulator.py:265-267 | the status becomes `complete` iff the popped cell had a RED neighbour or the frontier ended empty; otherwise it stays `run` with a non-empty frontier; mode, markers and offsets are kept |
| TickFacts.TickPath | simulator.py:269-274 | the path starts at the end cell and follows `prev` links, End first and not reversed, up to the first cell without one; it is `[end]` when the end has no predecessor |
| TickFacts.ReadyEstablishes | simulator.py:215-229 | `ready` on a board with distinct GREEN start and RED end starts a run in which the run invariant holds |
| TickFacts.AdvanceKeepsInv | simulator.py:257-262 | every cell entering the frontier was WHITE before the tick, no cell turns WHITE, and the run invariant (frontier cells are marked, end is RED) is kept: no cell is admitted twice in a run |
| TickFacts.RepaintKeepsInv | simulator.py:297-298 | `draw`'s repaint keeps the run invariant and keeps a running simulator runnable |
| TickFacts.TickKeepsInv | simulator.py:232-274 | a frame (tick then repaint) keeps the run invariant, and leaves a state the next tick can start from while the status is `run` |
| TickFacts.BfsQueueStaysDistinct | algorithms.py:21-22 | with distinct offsets, the BFS queue never holds a cell twice |
| Simulator.ToggleWall | simulator.py:125-142 | a click while waiting turns a WHITE cell into a wall and a wall into WHITE, changes nothing else, and does nothing in any other case |
| Keys.ToggleWallTwice | simulator.py:125-142 | a second click on the same cell undoes the first |
| Keys.PauseResume | simulator.py:93-98 | space toggles between `run` and `pause`, touching nothing else, and a second press restores the state |
| Simulator.HandleKey | simulator.py:89-113 | the key transitions, also escape in `run` at simulator.py:204-213. Forwards: space moves `wait` to `ready`, `run` to `pause`, `pause` to `run`, and `complete` to `wait` with an empty path; escape in `wait` turns every wall WHITE, keeping the rest of its record, and changes nothing else, escape in `run` returns to `wait` with an empty path, and escape in `pause` or `complete` does nothing (the board effects of the resets are `Keys.ResetAfterComplete`, `Keys.AbandonRun` and `Keys.ClearWallsOnce`). Backwards: only space in `pause` enters `run`, only space in `wait` enters `ready`, no key enters `complete` or leaves `ready`. No key changes the mode, markers, offsets or frontier |
| Keys.KeysKeepBoard | simulator.py:99-113 | no key changes the shape of the board or its well-formedness, and the only cells a key changes are queued, explored or wall cells |
| Keys.ResetAfterComplete | simulator.py:99-107 | space after a finished run returns to `wait` with an empty path: queued and explored cells become WHITE with no trace and no predecessor, every other cell is exactly as it was |
| Keys.AbandonRun | simulator.py:204-213 | escape during a run returns to `wait` with an empty path and whitened cells, but keeps every predecessor |
| Keys.ClearWallsOnce | simulator.py:110-113 | escape while waiting turns every wall WHITE (keeping its link and scores), leaves no wall and changes nothing else; a second press changes nothing |
| Keys.WhitenIdempotent | simulator.py:101-105 | the whitening of either reset is idempotent |
| Rerun.FirstRun | simulator.py:215-274 | on the row start, empty, end, space and two frames reach `complete` with the path E, M, S |
| Rerun.ResetKeepsEndPredecessor | simulator.py:99-105 | the reset after that run whitens M and clears its predecessor, but the RED end keeps M as its predecessor |
| Rerun.PhantomPath | simulator.py:270-274 | in the second run, the first tick never examines the end and the status stays `run`, yet the stored path is E, M, S |
| Rerun.StalePath | simulator.py:99-105 | the reset keeps the end's predecessor, and the BFS init (algorithms.py:7-8) keeps it too; with M walled off before the second run, the first tick completes with no route to the end, yet the path walked at simulator.py:270-274 is E, M: two cells, so `draw` shows it (simulator.py:312-314), and the second cell is a wall |
| Rerun.NoStalePath | algorithms.py:82 | the same walled-off run started by `ReadyClearing` completes with the end cell alone as its path |
| Rerun.FreshPath | algorithms.py:82 | `ReadyClearing` after the reset starts the second run on exactly the first run's board, so its first frame shows only the end |
| Simulator.ReadyClearing | algorithms.py:82 | the corrected `ready`: status `run`, the frontier holds exactly the start, colours are kept, and no cell has a predecessor |
| FreshRun.ReadyClearingSound | algorithms.py:82 | a run started by `ReadyClearing` is sound: every predecessor was written by that run |
| FreshRun.AdvanceSound | algorithms.py:21-25 | a tick keeps a run sound: every predecessor names a reached (start, queued or explored) cell, and no RED cell has one while the run goes on |
| FreshRun.RepaintSound | simulator.py:297-298 | `draw`'s repaint keeps a run sound |
| FreshRun.PathIsReached | simulator.py:269-274 | in a sound run, every cell the path lists after the end cell has been reached by the run, and a tick that does not meet the end shows the end cell alone |
| FreshRun.RunningPathIsEnd | simulator.py:266-274 | in a sound run, the path while the status is still `run` is the end cell alone |
| Links.WalkFromEnd | simulator.py:270-274 | on a board whose links go strictly down some ranking, the path walk from any cell ends within the number of cells |
| Links.AdvanceWritesUnmarked | algorithms.py:21-25 | in every run, as written or corrected: a tick writes only the popped cell into predecessors, and only of cells the run has not reached; a cell it writes is reached afterwards unless the run completed, so no predecessor is written twice in a run |
| Links.AdvanceReachesFromPopped | simulator.py:257-262 | a cell a tick reaches (turns LIGHT_GREEN) for the first time has the popped cell as its predecessor |
| Links.AdvanceKeepsMarkers | simulator.py:257-262 | a tick never gives the start a predecessor, keeps the end RED and turns no cell GREEN |
| Links.Relink | algorithms.py:21-25 | writing a reached cell into predecessors of unreached cells keeps reached cells linking only to reached cells, and keeps the links strictly decreasing under a new ranking |
| Links.TickNeverLoops | simulator.py:270-274 | in every run, as written or corrected: when reached cells link only to reached cells and the links are ranked, the tick's walk ends, and both facts carry over to the next tick |
| Links.NewSessionLinked | simulator.py:53-62 | the simulator as constructed, once drawn, meets the session invariant: the start has no predecessor and is the only GREEN cell, the end is not reached, and no cell has a predecessor |
| Links.RepaintLinked | simulator.py:297-298 | `draw` keeps the session invariant and paints the start |
| Links.KeyKeepsLinked | simulator.py:89-113 | every key in every status keeps the session invariant |
| Links.WhitenKeepsLinked | simulator.py:99-105 | after either reset the start is the only reached cell left and every predecessor is kept or cleared, so the session invariant holds |
| Links.ClickKeepsLinked | simulator.py:125-142 | a wall click keeps the session invariant |
| Links.ReadyKeepsLinked | simulator.py:215-229 | `ready` as written, with BFS and A* keeping the old links, keeps the session invariant |
| Links.TickKeepsLinked | simulator.py:232-274 | a tick of any run never hangs and keeps the session invariant apart from the start's colour, which the next `draw` restores; with the lemmas above, no session the frame loop (simulator.py:351-365) reaches by keys, clicks, `ready`, ticks and draws ever hangs in the walk |

## Left out

- Rendering:
  - pygame drawing, fonts, the mode panel and the `exec` frame loop;
  - the mouse-driven dragging of walls, start and end, and mode selection. `ToggleWall` models only a single click on a WHITE or GRAY cell.
- Timing: the `time.time()` start, pause and end accounting and the printed run time. These are wall-clock floats and are left out.
- Presentation only:
  - `complete()`, which converts the path to pixel coordinates;
  - the `debug_list` overlay.
- `dijkstra.path`. It is written at algorithms.py:106-109 but the simulator never reads it.
- pathfinding.py: it is an older copy of the simulator with calls that do not match the engine's signatures, and is not part of this model.
- The constants file: it is not part of this model, so `delta` is a parameter and the colours are an enumeration.
- `Simulator.Tick`: the walk is bounded by the number of cells. `Loops` stands for the source's endless walk. `Links.TickKeepsLinked` and the other session lemmas of `Links` show that `Loops` never happens in a session of keys, clicks, `ready`, ticks and draws; dragging the markers, which is not modelled, is not covered.
- `Algorithms.Step`: requires a non-empty frontier. The source would raise on `popleft`/`heappop`, and a non-empty frontier is exactly what the status `run` guarantees (`TickFacts.AdvanceStatus`).
- `StepProps.AstarStep`, `StepProps.DijkstraStep`:
  - stated only for a popped cell that is neither WHITE nor RED, which every tick of a run guarantees (`TickFacts.RunInv`);
  - `AstarStep` also needs a heap with one entry per position, which `ready` gives and `AdmissionFacts.AstarScanUnique` keeps.
- `TickFacts.BfsQueueStaysDistinct`: needs distinct offsets in `delta`. The constants file that defines it is not part of this model.
- `Simulator.HandleKey`: the space branches for pause and resume also move time stamps, which are not modelled.

Where the documented behaviour of the system and its code differ, the model follows the code:

- The path is End-first and never reversed.
- An unreachable end yields the path `[end]`, or the stale path of the finding below, rather than an empty path.
- There is no cycle guard on the walk.
- A step is never called on an empty frontier: the step that empties it already reports `complete`.
- The `trace` field is only ever cleared, never written.

## Findings

| source | as written | input that shows it | evidently intended | confidence | as-written member | corrected member |
|---|---|---|---|---|---|---|
| simulator.py:99-105 | `BFS_init` and `Astar_init` (algorithms.py:7-8, algorithms.py:34-39) keep every predecessor. The reset after a finished run clears `prev` only on LIGHT_GREEN and LIGHT_BLUE cells, so the RED end keeps the predecessor the previous run gave it. The next run's path (simulator.py:270-274) is walked through that stale link. | The row start, empty cell M, end, with offsets right then left. Run BFS to `complete` (path E, M, S), then press space, click M into a wall and press space. The first tick completes with no route to the end, yet the path is E, M: two cells, drawn through the wall. | Every run starts without predecessors, as `dijkstra_init` already does at algorithms.py:82. The path then lists only cells the run reached, and is the end alone until the end is met. | not executed | Rerun.StalePath | Simulator.ReadyClearing |
