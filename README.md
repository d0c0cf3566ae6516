# MiniWaze route engine in Dafny

This project models the route engine of MiniWaze, a Tk desktop app. A city map is a grid of cell tokens read from a CSV file:

- `0` is a blocked block;
- `N`, `S`, `L` and `R` are one-way avenues (north/south) and streets (east/west);
- `C` is a crossing;
- `SF` is an endpoint and `ND` a cell without a direction; neither gets outgoing edges.

The engine turns the grid into a directed, weighted graph and finds a cheapest route between two cells with Dijkstra's algorithm. The model covers four pieces:

- **Map loading** (`MapLoading`, map_loader.py). `MapLoader` is a class. `LoadGraph` runs the two nested passes: one node per cell, holding the stripped token, then the edges the movement rules allow, weighted by the target cell's token and the peak-hour flag. Each pass is a method with its loop invariants. It is proved against `Built`, which is a cell-by-cell description of the finished graph given by the pure functions `CellDirs` and `CellEdges`. The edge-rule properties are lemmas about those functions.
- **The graph** (`Graphs`, graph.py). `Node` and `Graph` are classes whose fields are updated in place. Ids are the text `"x,y"`. `PyText` models Python's `str(int)`, reading such a text back, and `str.strip()`, which the ids and tokens rely on.
- **The search** (`Pathfinding`, `HeapQueue`, `DijkstraInvariant`, `Walks`; pathfinder.py):
  - `FindPath` is the `while priority_queue` loop, one pass of it per `SearchStep` call and one edge per `UpdateNeighbour` call. It writes each node's `g_cost` and `parent` in place, uses lazy deletion through `visited`, and rebuilds the path along the parent links.
  - The heap is a sequence with extract-min in Python's `(cost, id)` tuple order.
  - The loop invariant is stated over a value snapshot of the search (`Search`). Each step of the loop has its own lemma.
  - The result is proved to be a cheapest walk. When no route is returned, it is proved that no walk exists.
- **The window's route logic** (`MainUi`, main_window.py):
  - the peak-hour rule;
  - start/end selection by clicks, and clearing it;
  - the guards and id formatting of "Calcular Ruta";
  - the saved destinations: a dictionary plus the list box that shows its names.

## Model

| member | source | states |
|---|---|---|
| MapLoading.MapLoader.constructor | programa/models/map_loader.py:5-7 | the loader keeps the file path and starts with an empty raw matrix |
| MapLoading.MapLoader.LoadGraph | programa/models/map_loader.py:9-110 | a missing file gives no graph and an empty raw matrix; otherwise the raw matrix is the file's rows and the new graph is exactly `Built` from the stripped tokens for the given peak flag; every edge leads to a node of the graph |
| MapLoading.MapLoader.ReadRows | programa/models/map_loader.py:14-23 | the first pass: the raw matrix becomes the rows read, and every cell has a node with its id, its stripped token, no edges and fresh search fields |
| MapLoading.AddRowNodes | programa/models/map_loader.py:22-23 | one row's cells get their nodes, in order, and nothing else changes |
| MapLoading.AddCellNode | programa/models/map_loader.py:23 | one cell gets its node under the id `"x,y"` |
| MapLoading.ConnectCells | programa/models/map_loader.py:54-108 | the second pass: the graph's node set is unchanged and every node ends up with exactly the edges `CellEdges` gives its cell |
| MapLoading.ConnectRow | programa/models/map_loader.py:55-108 | one row of the second pass: the row's cells get their edges and later rows none |
| MapLoading.LinkCell | programa/models/map_loader.py:56-108 | one cell that is not blocked gets exactly its planned edges, and every earlier cell keeps its own |
| MapLoading.BlockedCellLinked | programa/models/map_loader.py:59 | skipping a `0` cell, as `ConnectRow` does, leaves the graph as planned one cell further on: the cell's planned edge list is empty |
| MapLoading.ConnectCell | programa/models/map_loader.py:62-108 | the neighbour loop appends `CellEdges` of the cell to its edge list, in the order N, S, L, R |
| MapLoading.TryNeighbour | programa/models/map_loader.py:70-108 | one neighbour: an edge toward it is appended exactly when it is in bounds, not blocked and the move rule allows it; search fields untouched |
| MapLoading.MayMove | programa/models/map_loader.py:78-95 | the flag `can_move` equals the movement rule `CanMove` for the source token, neighbour token and direction |
| MapLoading.EdgeWeight | programa/models/map_loader.py:103-106 | the weight chosen from the cost constants equals `Weight` of the target token |
| MapLoading.Weight | programa/models/map_loader.py:103-106 | an edge's weight depends only on the target token and the peak flag and lies between 1 and 4 |
| MapLoading.Tokens | programa/models/map_loader.py:23 | the grid of tokens has the shape of the read grid and holds each cell's stripped text |
| MapLoading.Toward | programa/models/map_loader.py:63-68 | each neighbour differs from the cell in one coordinate by exactly 1 |
| MapLoading.EdgeEndpoints | programa/models/map_loader.py:63-71 | every edge of a cell goes from an in-bounds unblocked cell to an in-bounds unblocked cell at Manhattan distance 1, with the weight of the target token |
| MapLoading.BlockedCellHasNoEdges | programa/models/map_loader.py:59 | a `0` cell has no outgoing edges |
| MapLoading.NoEdgeIntoBlocked | programa/models/map_loader.py:75 | no edge enters a `0` cell |
| MapLoading.ArrowCellDirs | programa/models/map_loader.py:82-85 | an `N`/`S`/`L`/`R` cell has exactly one edge, in its arrow's direction, when that neighbour is in bounds and not blocked (whatever its token), and none otherwise |
| MapLoading.CrossingCellDirs | programa/models/map_loader.py:90-95 | a `C` cell has an edge toward d if and only if that neighbour is in bounds and holds d's arrow, `C` or `SF` |
| MapLoading.SinkCellHasNoEdges | programa/models/map_loader.py:60-95 | `SF`, `ND` and any other token that is neither an arrow nor `C` get no outgoing edges |
| MapLoading.CellDirsExactly | programa/models/map_loader.py:70-101 | a cell has an edge toward d if and only if both cells are in bounds and unblocked and the move rule of lines 78-95 allows it |
| MapLoading.CellDirsInNeighbourOrder | programa/models/map_loader.py:63-70 | a cell has at most four edges, in the neighbour order N, S, L, R, no direction twice |
| MapLoading.PeakChangesOnlyWeights | programa/models/map_loader.py:101-108 | peak and off-peak graphs have the same edges to the same targets in the same order; only weights differ |
| MapLoading.BuiltIsClosed | programa/models/map_loader.py:70-72 | every edge of a built graph leads to a node of that graph |
| Graphs.Node.constructor | programa/models/graph.py:2-10 | a new node has the id `"x,y"`, the given coordinates and value, no edges, `h_cost` 0, `g_cost` inf and no parent |
| Graphs.Node.AddEdge | programa/models/graph.py:12-13 | the edge is appended at the end, earlier edges and the other fields unchanged |
| Graphs.Graph.constructor | programa/models/graph.py:19-20 | a new graph has no nodes |
| Graphs.Graph.AddNode | programa/models/graph.py:22-25 | the new node is stored under its id, replacing any node with that id; every other entry and every other coordinate's lookup is unchanged |
| Graphs.Graph.GetNode | programa/models/graph.py:27-28 | the lookup is absent exactly when no node has the id `"x,y"`, and otherwise returns the stored node with that id |
| Graphs.Graph.AllNodes | programa/models/graph.py:30-31 | the result holds every stored node and nothing else, one per id |
| Graphs.KeyedByIdCard | programa/models/graph.py:30-31 | in a dictionary keyed by node ids there are exactly as many nodes as ids |
| Graphs.CoordIdParses | programa/models/graph.py:6 | both coordinates can be read back from an id `"x,y"` |
| Graphs.CoordIdInjective | programa/models/graph.py:6 | different cells have different ids |
| Graphs.Graph.ResetCosts | programa/models/graph.py:33-36 | as written: every node's `g_cost` and `parent` are left as they were, and only the graph gains the stray attributes |
| Graphs.ResetCostsKeepsStaleCost | programa/models/graph.py:33-36 | a graph whose node has cost 5 still has it after `reset_costs` |
| Graphs.Graph.ResetNodeCosts | programa/models/graph.py:33-36 | as intended, and as pathfinder.py:17-19 does: every node's `g_cost` becomes inf and its `parent` None, with nodes and edges unchanged |
| PyText.IntToString | programa/models/graph.py:6 | `str(int)` is non-empty and has no comma; it is all digits exactly for non-negative numbers |
| PyText.ParseIntToString | programa/models/graph.py:6 | `int(str(i)) == i` |
| PyText.IntToStringInjective | programa/models/graph.py:6 | different numbers print differently |
| PyText.Strip | programa/models/map_loader.py:23 | `strip()` returns the slice of its input between the leading and trailing whitespace, neither end of which is whitespace |
| PyText.StripIdempotent | programa/models/map_loader.py:23 | stripping twice is stripping once |
| PyText.StripUnchanged | programa/models/map_loader.py:23 | a token without surrounding whitespace is kept as is |
| HeapQueue.ArgMin | programa/models/pathfinder.py:27 | the chosen position holds an entry no other entry is less than in tuple order |
| HeapQueue.Pop | programa/models/pathfinder.py:27 | `heappop` returns a queued entry that no entry is less than, and leaves the rest: the multiset of entries loses exactly that one |
| HeapQueue.PopLeavesOthers | programa/models/pathfinder.py:27 | after a pop every other entry is still queued and nothing new is |
| HeapQueue.PoppedIsCheapest | programa/models/pathfinder.py:27 | the popped entry has the least cost in the queue |
| HeapQueue.PopIsDetermined | programa/models/pathfinder.py:27 | only one entry can be least, so a pop is determined by the queue's contents |
| HeapQueue.StrLessTotal | programa/models/pathfinder.py:27 | Python's string order is total, so ties in cost are broken by id |
| HeapQueue.StrLessTransitive | programa/models/pathfinder.py:27 | Python's string order is transitive |
| Pathfinding.FindPath | programa/models/pathfinder.py:5-47 | a missing start or end id gives `(None, 0)` and leaves every node's state unchanged; otherwise a returned path is a walk from start to end whose cost is the returned cost, and no walk is cheaper; `(None, inf)` comes back exactly when no walk reaches the end; from a node to itself the result is `([s], 0)`; edges are never changed; the nodes expanded (ghost `expanded`) are distinct, start with the start, end with the end when a path is returned, and each holds a finite `g_cost` that no walk from the start undercuts; from the reset (`StartCosts`) to the end of the search no node's cost goes up |
| Pathfinding.SearchStep | programa/models/pathfinder.py:26-45 | one pass of the main loop, on the entry `Pop` returns: a visited popped node is skipped, with nothing but the queue changed, which loses that entry; otherwise the node joins `visited` and `found` holds exactly when it is the end, in which case the cost is the popped cost and the path is `ParentChain` of the end, a cheapest walk to it; otherwise the main-loop invariant holds again with one node fewer unvisited; no node's cost goes up |
| Pathfinding.OpeningVisit | programa/models/pathfinder.py:26-35 | the first node popped is the start, so a start that is the end is returned at once; expanding a popped node appends it, keeping the expanded list distinct and equal to the visited set |
| Pathfinding.OpeningDone | programa/models/pathfinder.py:26-47 | when the queue runs dry the start has been expanded, so start and end differ |
| Pathfinding.ExpandedSettled | programa/models/pathfinder.py:30-32 | every expanded node has its final cost, and no walk from the start to it is cheaper |
| Pathfinding.SearchExhausted | programa/models/pathfinder.py:26-47 | when the queue runs dry no walk reaches the end, the start was expanded and is not the end, and every expanded node has its cheapest cost |
| Pathfinding.StartSearch | programa/models/pathfinder.py:16-22 | before the loop every node costs inf and has no parent, except that the start costs 0, and the queue holds `(0, start)` alone |
| Pathfinding.RelaxEdges | programa/models/pathfinder.py:37-45 | after the edge loop the main-loop invariant holds again, and no node's cost went up |
| Pathfinding.RelaxEdge | programa/models/pathfinder.py:38-45 | one edge: the edge-loop invariant holds one edge further on, the popped node's cost is unchanged and no node's cost goes up |
| Pathfinding.UpdateNeighbour | programa/models/pathfinder.py:38-45 | the exact update (`Relaxed`): an edge into a visited node, or one that does not make its target cheaper, leaves queue, costs and parents as they were; otherwise the target's cost becomes the popped cost plus the weight, its parent the popped node, and that entry is appended to the queue; edges unchanged |
| Pathfinding.RelaxStep | programa/models/pathfinder.py:38-45 | any state updated as `Relaxed` prescribes keeps the edge-loop invariant one edge further on and raises no cost |
| Pathfinding.RelaxedIs | programa/models/pathfinder.py:38-45 | a `Relaxed` update is either no change or exactly `Lower`, the state the invariant lemmas reason about |
| Pathfinding.SetSearchFields | programa/models/pathfinder.py:43-44 | writing one node's `g_cost`/`parent` changes exactly that id's entries and no edges |
| Pathfinding.ReconstructPath | programa/models/pathfinder.py:50-56 | the path is the parent chain of the end node, read from its root to the end node; no node's cost, parent or edges change |
| Pathfinding.Reversed | programa/models/pathfinder.py:56 | `path[::-1]` holds the same elements in the opposite order |
| Pathfinding.ReversedSnoc | programa/models/pathfinder.py:53-56 | appending then reversing puts the appended node first |
| Pathfinding.ReversedTwice | programa/models/pathfinder.py:56 | reversing twice gives back the list |
| Pathfinding.DistinctSnoc | programa/models/pathfinder.py:30-32 | appending an id not yet expanded keeps the expanded ids distinct |
| Pathfinding.NoneRaisedTransitive | programa/models/pathfinder.py:42-45 | costs that never went up across two stretches never went up across both |
| DijkstraInvariant.InitBetween | programa/models/pathfinder.py:17-24 | the state after set-up satisfies the main-loop invariant |
| DijkstraInvariant.SkipStep | programa/models/pathfinder.py:30-31 | dropping a stale entry of a visited node keeps the invariant and shrinks the queue |
| DijkstraInvariant.PoppedIsSettled | programa/models/pathfinder.py:27-32 | the least queued entry of an unvisited node carries that node's cost, and no walk to it is cheaper (Dijkstra's lemma) |
| DijkstraInvariant.VisitStep | programa/models/pathfinder.py:32 | marking the popped node visited keeps the invariant, fixes its cost as its distance, and shrinks the set of unvisited nodes |
| DijkstraInvariant.FirstExit | programa/models/pathfinder.py:37-45 | every walk from the start to an unvisited node passes an unvisited node whose cost is at most the walk's cost |
| DijkstraInvariant.EdgeToVisited | programa/models/pathfinder.py:38-39 | skipping an edge into a visited node keeps the edge-loop invariant |
| DijkstraInvariant.EdgeNotLower | programa/models/pathfinder.py:41-42 | an edge that offers no cheaper cost needs no update |
| DijkstraInvariant.EdgeLowers | programa/models/pathfinder.py:41-45 | lowering the target's cost, setting its parent and queueing it keeps the edge-loop invariant |
| DijkstraInvariant.EdgesDone | programa/models/pathfinder.py:37-45 | once all of a node's edges are relaxed the main-loop invariant holds again |
| DijkstraInvariant.ChainIsWalk | programa/models/pathfinder.py:50-56 | the parent chain of a node with cost c is a walk from the start to it of cost c |
| DijkstraInvariant.FoundIsShortest | programa/models/pathfinder.py:34-35 | when the end is popped its parent chain is a cheapest walk from the start, and from the start to itself it is `[s]` at cost 0 |
| DijkstraInvariant.NoWalkLeft | programa/models/pathfinder.py:47 | when the queue empties before the end is popped, no walk reaches the end |
| Walks.WalkExtend | programa/models/pathfinder.py:41-44 | a walk followed by an edge out of its last node is a walk costing that edge's weight more |
| Walks.WalkInGraph | programa/models/pathfinder.py:28 | the nodes at both ends of a walk in a closed graph are nodes of the graph |
| Walks.ParentChain | programa/models/pathfinder.py:50-56 | following ranked parent links from a node ends at that node and starts at a node without a parent |
| MainUi.PeakHoursOfDay | programa/ui/main_window.py:121 | the peak hours of a day are exactly 6-9, 12-13 and 17-20, ten in all; 5, 10, 14, 16 and 21 are not peak |
| MainUi.PointIdInjective | programa/ui/main_window.py:185-186 | two selected cells give the same route id if and only if they are the same cell |
| MainUi.MainWindow.constructor | programa/ui/main_window.py:15-20 | nothing loaded, no points, no destinations, hour 12 |
| MainUi.MainWindow.RefreshGraph | programa/ui/main_window.py:111-126 | without a loader nothing changes; otherwise the loader's raw matrix is the file's rows (empty if the file is gone) and the graph is rebuilt from them for the peak flag of the shown hour, or is None if the file is gone |
| MainUi.MainWindow.LoadMap | programa/ui/main_window.py:106-107 | a new loader for the file, holding its rows as raw matrix, and the graph built from them for the shown hour |
| MainUi.MainWindow.OnHourChange | programa/ui/main_window.py:128-131 | the hour changes, the raw matrix is re-read and the graph is rebuilt for it |
| MainUi.MainWindow.OnMapClick | programa/ui/main_window.py:141-158 | with no start a click sets the start; with a start but no end it sets the end; with both it changes nothing |
| MainUi.MainWindow.OnCanvasClick | programa/ui/map_canvas.py:117-127 | the canvas's click filter: without a map, or on a cell that is missing or blocked (`0`), a click changes nothing; otherwise it acts as `OnMapClick`, so only open cells of the loaded map are ever picked |
| MainUi.MainWindow.ClearPoints | programa/ui/main_window.py:160-162 | both points are cleared and nothing else changes |
| MainUi.MainWindow.CalculateRoute | programa/ui/main_window.py:176-188 | no map gives "no map" and no points give "select points", with no search; otherwise the search runs from `"x,y"` of the start to `"x,y"` of the end on the rebuilt graph, with the guarantees of `FindPath`; the loader is kept and its raw matrix re-read |
| MainUi.MainWindow.SaveDestination | programa/ui/main_window.py:198-206 | as written: with an end point and a non-empty name, the name maps to the end point and is appended to the list even if already listed; otherwise nothing changes |
| MainUi.MainWindow.SaveDestinationOnce | programa/ui/main_window.py:198-206 | as intended: the dictionary gains or updates the name and the list shows each saved name exactly once |
| MainUi.MainWindow.DeleteDestination | programa/ui/main_window.py:208-213 | the selected name leaves the dictionary and its row the list; a name no longer saved raises `KeyError` and changes nothing; while list and dictionary agree, deleting keeps them in agreement and never raises |
| MainUi.MainWindow.LoadDestinationToEnd | programa/ui/main_window.py:215-219 | the selected name's cell becomes the end point; a missing name raises `KeyError` and changes nothing |
| MainUi.RemoveKeepsAgree | programa/ui/main_window.py:211-213 | deleting a listed row and its name keeps the list and the dictionary in agreement |
| MainUi.SaveKeepsAgree | programa/ui/main_window.py:204-206 | saving a name once per name keeps the list and the dictionary in agreement |
| MainUi.SaveTwiceBreaksAgree | programa/ui/main_window.py:204-206 | saving one name twice, as written, lists it twice, so list and dictionary disagree |
| MainUi.DuplicateNameBreaksDelete | programa/ui/main_window.py:204-213 | save "casa" twice, delete the first row (done), delete the second: `KeyError("casa")` |
| MainUi.DuplicateNameSavedOnce | programa/ui/main_window.py:204-213 | with the corrected save the same steps leave one row, and deleting it succeeds |

## Left out

- Reading the CSV file (map_loader.py:17-23) and opening it: the rows arrive as a parameter `Option<Grid>`, with `None` for a missing file. The `FileNotFoundError` message print (line 25) is left out.
- MapLoading.MapLoader.LoadGraph: requires that no row is shorter than the first row. `cols` comes from row 0 (line 30), so a shorter later row makes `get_node` return None and line 57 or line 73 fail with `AttributeError`. For `[["R","R"],["R"]]` the scan fails at cell (1,0), looking south at line 73. That crash is not modelled.
- Edges hold the target node's id rather than a reference to the node, and a parent is an optional id. Ids are unique keys of `graph.nodes`, so nothing is lost.
- `float('inf')` is the constructor `Inf` of `Cost`. Weights and costs are natural numbers, which are the only weights the builder produces.
- The heap is a sequence with an extract-min (`HeapQueue.Pop`) in the same `(cost, id)` tuple order as `heapq`. The binary-heap array layout is not modelled. `heappush` is appending to the sequence.
- Pathfinding.FindPath: requires that every edge leads to a node of the graph. Line 28 looks up `graph.nodes[current_id]` and would raise `KeyError` otherwise. Every graph `LoadGraph` builds meets this (`MapLoading.BuiltIsClosed`).
- Pathfinding.FindPath: looks the popped node up after the visited test rather than before it (line 28). With the precondition above, the lookup cannot fail in either order.
- Pathfinding.FindPath: an absent start or end id gives `(None, 0)`, as the code does (pathfinder.py:14).
- Graphs.Graph.AllNodes: returns the set of stored nodes. `get_all_nodes` returns a list in the dictionary's insertion order, and that order is not modelled; nothing in the route engine calls it.
- Pathfinding.FindPath: the source keeps `g_cost` and `parent` on the nodes themselves, so the model does too. Two searches on the same graph therefore share that state; concurrency is not modelled.
- MainUi.MainWindow.CalculateRoute: after the rebuild at line 183 the graph can be None if the file has gone away. `find_path(None, …)` then fails with `AttributeError`. The model returns `MapUnreadable` instead of modelling the crash.
- MainUi.MainWindow.CalculateRoute: states the search guarantees over the rebuilt graph's edges, not again that the graph is `Built` from the file (`RefreshGraph` states that).
- Reading the hour from the spin box (`int(self.spin_hour.get())`, line 120): the hour is a field. A `ValueError` from non-numeric text is not modelled.
- Tk widgets, labels, dialogs, message boxes, canvas drawing, markers, path highlighting and animation (main_window.py:25-97, 108-109, 125-126, 143-155, 163-167, 177-181, 190-196, 199-203, 220-227; map_canvas.py apart from its click filter). The canvas shares the window's graph (main_window.py:108, 126), so `OnCanvasClick` reads the window's `graph`; turning pixel coordinates into a cell (map_canvas.py:118-119) is left out, and the click arrives as a cell. What a dialog returns is a parameter: the file's rows, the name typed (`Option<string>`), and the list-box selection (`Option<nat>`).
- `_load_map_dialog`, `_plan_trip`, `_modify_map_mode` and `_toggle_theme` are UI only: they open dialogs, set widgets or change the theme.
- login_window.py, main.py and user_manager.py are not part of this model. They are the login screen, application start-up and credential lookup.

## Findings

| source | as written | input that shows it | evidently intended | confidence | as-written member | corrected member |
|---|---|---|---|---|---|---|
| programa/models/graph.py:33-36 | `reset_costs` assigns `self.g_cost` and `self.parent`, setting attributes on the graph, so no node is reset | a graph with one node whose `g_cost` is 5: after `reset_costs` it is still 5 | every node's `g_cost` becomes inf and its `parent` None, as pathfinder.py:17-19 does inline | not executed | Graphs.Graph.ResetCosts, Graphs.ResetCostsKeepsStaleCost | Graphs.Graph.ResetNodeCosts |
| programa/ui/main_window.py:198-213 | saving a name already saved overwrites the dictionary entry and appends a second row to the list box | save "casa" twice, then delete both rows: the second delete raises `KeyError('casa')` at line 212 | a name already saved keeps its single row, so list and dictionary stay in agreement | not executed | MainUi.MainWindow.SaveDestination, MainUi.SaveTwiceBreaksAgree, MainUi.DuplicateNameBreaksDelete | MainUi.MainWindow.SaveDestinationOnce, MainUi.SaveKeepsAgree, MainUi.DuplicateNameSavedOnce |
