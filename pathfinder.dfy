/**
 * programa/models/pathfinder.py: Dijkstra's search over a graph's nodes,
 * writing each node's `g_cost` and `parent` in place, and the walk back
 * along the parent links from the end node.
 */
module Pathfinding {

  import opened Wrappers
  import opened Graphs
  import opened Walks
  import opened HeapQueue
  import opened DijkstraInvariant

  /** Python's `s[::-1]`. */
  function Reversed<T>(s: seq<T>): (r: seq<T>)
    ensures |r| == |s| && forall i :: 0 <= i < |s| ==> r[i] == s[|s| - 1 - i]
  {
    if s == [] then [] else Reversed(s[1..]) + [s[0]]
  }

  /** Reversing a list with one more element puts that element first. */
  lemma ReversedSnoc<T>(s: seq<T>, x: T)
    ensures Reversed(s + [x]) == [x] + Reversed(s)
  {
    var r, r' := Reversed(s + [x]), [x] + Reversed(s);
    assert |r| == |r'|;
    forall i | 0 <= i < |r|
      ensures r[i] == r'[i]
    {
      if i > 0 {
        assert r[i] == (s + [x])[|s| - i] == s[|s| - 1 - (i - 1)];
      }
    }
  }

  /** Reversing twice gives back the list. */
  lemma ReversedTwice<T>(s: seq<T>)
    ensures Reversed(Reversed(s)) == s
  {
  }

  /**
   * Writing a node's `g_cost` and `parent` (pathfinder.py:21 and 43-44):
   * since every node is stored under its own id, exactly that id's entries
   * change.
   */
  method SetSearchFields(g: Graph, n: Node, cost: Cost, parent: Option<Id>)
    requires g.Valid() && n.id in g.nodes && g.nodes[n.id] == n
    modifies n
    ensures g.nodes == old(g.nodes) && g.Valid()
    ensures g.Costs() == old(g.Costs())[n.id := cost]
    ensures g.Parents() == old(g.Parents())[n.id := parent]
    ensures g.Adj() == old(g.Adj())
  {
    assert forall k :: k in g.nodes && k != n.id ==> g.nodes[k] != n;
    ghost var costs, parents, adj := g.Costs(), g.Parents(), g.Adj();
    n.gCost := cost;
    n.parent := parent;
    assert g.Costs().Keys == costs[n.id := cost].Keys;
    forall k | k in g.nodes
      ensures g.Costs()[k] == costs[n.id := cost][k] && g.Parents()[k] == parents[n.id := parent][k]
    {
    }
    assert g.Parents().Keys == parents[n.id := parent].Keys;
  }

  /**
   * `_reconstruct_path` (pathfinder.py:49-56): collect the nodes from
   * `endNode` back along the parent links, then reverse. The result is the
   * parent chain of `endNode`, which starts at a node without a parent.
   */
  method ReconstructPath(g: Graph, endNode: Node, ghost parents: map<Id, Option<Id>>, ghost rank: map<Id, nat>) returns (path: seq<Id>)
    requires g.Valid() && endNode.id in g.nodes && g.nodes[endNode.id] == endNode && parents == g.Parents()
    requires Ranked(parents, rank) && rank.Keys <= g.nodes.Keys && endNode.id in rank
    ensures path == ParentChain(parents, rank, endNode.id)
    ensures path[|path| - 1] == endNode.id && parents[path[0]] == None
    ensures g.Adj() == old(g.Adj()) && g.Costs() == old(g.Costs()) && g.Parents() == parents
  {
    ghost var chain := ParentChain(parents, rank, endNode.id);
    var backwards: seq<Id> := [];
    var current: Option<Id> := Some(endNode.id);
    while current.Some?
      invariant current.Some? ==> current.value in rank && ParentChain(parents, rank, current.value) + Reversed(backwards) == chain
      invariant current.None? ==> Reversed(backwards) == chain
      decreases if current.Some? then rank[current.value] + 1 else 0
    {
      var v := current.value;
      var node := g.nodes[v];
      ReversedSnoc(backwards, node.id);
      assert ParentChain(parents, rank, v) + Reversed(backwards) == chain;
      if node.parent.Some? {
        assert ParentChain(parents, rank, v) == ParentChain(parents, rank, node.parent.value) + [v];
      }
      backwards := backwards + [node.id];
      current := node.parent;
    }
    path := Reversed(backwards);
  }

  /** No element occurs twice. */
  ghost predicate Distinct<T>(s: seq<T>) {
    forall i, j :: 0 <= i < j < |s| ==> s[i] != s[j]
  }

  lemma DistinctSnoc<T>(s: seq<T>, x: T)
    requires Distinct(s) && x !in s
    ensures Distinct(s + [x])
  {
    var t := s + [x];
    forall i, j | 0 <= i < j < |t|
      ensures t[i] != t[j]
    {
      assert t[i] == s[i];
    }
  }

  /** No node's cost went up from `before` to `after`. */
  ghost predicate NoneRaised(before: map<Id, Cost>, after: map<Id, Cost>) {
    forall k :: k in before ==> k in after && !Below(before[k], after[k])
  }

  lemma NoneRaisedReflexive(costs: map<Id, Cost>)
    ensures NoneRaised(costs, costs)
  {
  }

  lemma NoneRaisedTransitive(a: map<Id, Cost>, b: map<Id, Cost>, c: map<Id, Cost>)
    requires NoneRaised(a, b) && NoneRaised(b, c)
    ensures NoneRaised(a, c)
  {
  }

  /** Edge `k` of `u` leads to a node of a closed graph. */
  lemma EdgeInGraph(adj: Adjacency, u: Id, k: int)
    requires Closed(adj) && u in adj && 0 <= k < |adj[u]|
    ensures adj[u][k] in adj[u] && adj[u][k].target in adj
  {
  }

  /** The state after writing the target's fields and queueing it is `Lower`. */
  lemma LowerIs(adj: Adjacency, S: Search, cur: Id, k: int, S': Search, y: Id, n: nat)
    requires cur in adj && 0 <= k < |adj[cur]| && cur in S.costs && S.costs[cur].Fin?
    requires y == adj[cur][k].target && n == S.costs[cur].n + adj[cur][k].weight
    requires S'.visited == S.visited && S'.order == S.order && S'.queue == S.queue + [Entry(n, y)]
    requires S'.costs == S.costs[y := Fin(n)] && S'.parents == S.parents[y := Some(cur)]
    ensures S' == Lower(adj, S, cur, k)
  {
  }

  /**
   * Relaxing edge `e` out of `cur`, popped at cost `c` (pathfinder.py:38-45):
   * an edge into a visited node, or one that does not make its target
   * cheaper, changes nothing; otherwise the target gets cost `c` plus the
   * weight and parent `cur`, and is queued at that cost.
   */
  ghost predicate Relaxed(visited: set<Id>, costs: map<Id, Cost>, parents: map<Id, Option<Id>>, queue: seq<Entry>,
                          cur: Id, c: nat, e: Edge,
                          costs': map<Id, Cost>, parents': map<Id, Option<Id>>, queue': seq<Entry>)
  {
    var n := c + e.weight;
    && e.target in costs
    && if e.target in visited || !Below(Fin(n), costs[e.target]) then
         queue' == queue && costs' == costs && parents' == parents
       else
         && queue' == queue + [Entry(n, e.target)]
         && costs' == costs[e.target := Fin(n)]
         && parents' == parents[e.target := Some(cur)]
  }

  /**
   * Lines 38-45 for one edge `edge` of the visited node `current`, popped
   * at `currentCost`: an edge into a visited node is skipped; one that
   * makes its target cheaper sets the target's `g_cost` and `parent` and
   * queues it.
   */
  method UpdateNeighbour(g: Graph, visited: set<Id>, queue: seq<Entry>, current: Node, currentCost: nat, edge: Edge)
    returns (queue': seq<Entry>)
    requires g.Valid() && edge.target in g.nodes
    modifies g.nodes.Values
    ensures g.nodes == old(g.nodes) && g.Valid() && g.Adj() == old(g.Adj())
    ensures Relaxed(visited, old(g.Costs()), old(g.Parents()), queue, current.id, currentCost, edge, g.Costs(), g.Parents(), queue')
  {
    var neighbour := g.nodes[edge.target];
    assert neighbour.id == edge.target && old(g.Costs())[edge.target] == neighbour.gCost;
    queue' := queue;
    if neighbour.id in visited {
      return;
    }
    var newCost := currentCost + edge.weight;
    if Below(Fin(newCost), neighbour.gCost) {
      SetSearchFields(g, neighbour, Fin(newCost), Some(current.id));
      queue' := queue + [Entry(newCost, neighbour.id)];
    }
  }

  /** Relaxing edge `k` of the visited node `cur` keeps the edge-loop invariant, one edge further on, and raises no cost. */
  lemma RelaxStep(adj: Adjacency, s: Id, t: Id, S: Search, cur: Id, k: int, S': Search)
    requires Expanding(adj, s, t, S, cur, k) && k < |adj[cur]|
    requires S'.visited == S.visited && S'.order == S.order
    requires Relaxed(S.visited, S.costs, S.parents, S.queue, cur, S.costs[cur].n, adj[cur][k], S'.costs, S'.parents, S'.queue)
    ensures Expanding(adj, s, t, S', cur, k + 1) && S'.costs[cur] == S.costs[cur] && NoneRaised(S.costs, S'.costs)
  {
    var y, n := adj[cur][k].target, S.costs[cur].n + adj[cur][k].weight;
    RelaxedIs(adj, S, cur, k, S');
    if y in S.visited || !Below(Fin(n), S.costs[y]) {
      RelaxSkipped(adj, s, t, S, cur, k);
    } else {
      RelaxLowered(adj, s, t, S, cur, k);
    }
  }

  /** A search state `Relaxed` from `S` is `S` itself when the edge is skipped, and `Lower` of it otherwise. */
  lemma RelaxedIs(adj: Adjacency, S: Search, cur: Id, k: int, S': Search)
    requires cur in adj && 0 <= k < |adj[cur]| && cur in S.costs && S.costs[cur].Fin?
    requires S'.visited == S.visited && S'.order == S.order
    requires Relaxed(S.visited, S.costs, S.parents, S.queue, cur, S.costs[cur].n, adj[cur][k], S'.costs, S'.parents, S'.queue)
    ensures var y, n := adj[cur][k].target, S.costs[cur].n + adj[cur][k].weight;
      if y in S.visited || !Below(Fin(n), S.costs[y]) then S' == S else S' == Lower(adj, S, cur, k)
  {
    var y, n := adj[cur][k].target, S.costs[cur].n + adj[cur][k].weight;
    if !(y in S.visited || !Below(Fin(n), S.costs[y])) {
      LowerIs(adj, S, cur, k, S', y, n);
    }
  }

  /** An edge that is skipped keeps the edge-loop invariant, one edge further on. */
  lemma RelaxSkipped(adj: Adjacency, s: Id, t: Id, S: Search, cur: Id, k: int)
    requires Expanding(adj, s, t, S, cur, k) && k < |adj[cur]|
    requires adj[cur][k].target in S.visited || !Below(Fin(S.costs[cur].n + adj[cur][k].weight), S.costs[adj[cur][k].target])
    ensures Expanding(adj, s, t, S, cur, k + 1) && NoneRaised(S.costs, S.costs)
  {
    EdgeInGraph(adj, cur, k);
    if adj[cur][k].target in S.visited {
      EdgeToVisited(adj, s, t, S, cur, k);
    } else {
      EdgeNotLower(adj, s, t, S, cur, k);
    }
  }

  /** An edge that lowers its target keeps the edge-loop invariant, one edge further on, and raises no cost. */
  lemma RelaxLowered(adj: Adjacency, s: Id, t: Id, S: Search, cur: Id, k: int)
    requires Expanding(adj, s, t, S, cur, k) && k < |adj[cur]|
    requires adj[cur][k].target !in S.visited
    requires Below(Fin(S.costs[cur].n + adj[cur][k].weight), S.costs[adj[cur][k].target])
    ensures Expanding(adj, s, t, Lower(adj, S, cur, k), cur, k + 1)
    ensures Lower(adj, S, cur, k).costs[cur] == S.costs[cur] && NoneRaised(S.costs, Lower(adj, S, cur, k).costs)
  {
    EdgeInGraph(adj, cur, k);
    EdgeLowers(adj, s, t, S, cur, k);
  }

  /**
   * One pass of the edge loop (pathfinder.py:38-45) for edge `i` of the
   * visited node `current`, with the proof that it keeps the loop's
   * invariant.
   */
  method RelaxEdge(g: Graph, ghost adj: Adjacency, ghost s: Id, ghost t: Id, visited: set<Id>, queue: seq<Entry>,
                   ghost order: map<Id, nat>, current: Node, currentCost: nat, i: nat)
    returns (queue': seq<Entry>)
    requires g.Valid() && g.Adj() == adj && current.id in g.nodes && g.nodes[current.id] == current
    requires current.edges == adj[current.id] && i < |current.edges|
    requires g.Costs()[current.id] == Fin(currentCost)
    requires Expanding(adj, s, t, Search(visited, queue, g.Costs(), g.Parents(), order), current.id, i)
    modifies g.nodes.Values
    ensures g.nodes == old(g.nodes) && g.Valid()
    ensures g.Adj() == adj && g.Costs()[current.id] == Fin(currentCost)
    ensures NoneRaised(old(g.Costs()), g.Costs())
    ensures Expanding(adj, s, t, Search(visited, queue', g.Costs(), g.Parents(), order), current.id, i + 1)
  {
    ghost var S := Search(visited, queue, g.Costs(), g.Parents(), order);
    var edge := current.edges[i];
    EdgeInGraph(adj, current.id, i);
    queue' := UpdateNeighbour(g, visited, queue, current, currentCost, edge);
    RelaxStep(adj, s, t, S, current.id, i, Search(visited, queue', g.Costs(), g.Parents(), order));
  }

  /**
   * The edge loop of `find_path` (pathfinder.py:37-45) for the visited
   * node `current`, popped with cost `currentCost`: each edge in turn, in
   * the order of `current.edges`.
   */
  method RelaxEdges(g: Graph, ghost adj: Adjacency, ghost s: Id, ghost t: Id, visited: set<Id>, queue: seq<Entry>,
                    ghost order: map<Id, nat>, current: Node, currentCost: nat)
    returns (queue': seq<Entry>)
    requires g.Valid() && g.Adj() == adj && current.id in g.nodes && g.nodes[current.id] == current
    requires g.Costs()[current.id] == Fin(currentCost)
    requires Expanding(adj, s, t, Search(visited, queue, g.Costs(), g.Parents(), order), current.id, 0)
    modifies g.nodes.Values
    ensures g.nodes == old(g.nodes) && g.Valid()
    ensures g.Adj() == adj && NoneRaised(old(g.Costs()), g.Costs())
    ensures Between(adj, s, t, Search(visited, queue', g.Costs(), g.Parents(), order))
  {
    ghost var initial := g.Costs();
    queue' := queue;
    var i := 0;
    while i < |current.edges|
      invariant g.nodes == old(g.nodes) && g.Valid()
      invariant g.Adj() == adj && current.edges == adj[current.id]
      invariant g.Costs()[current.id] == Fin(currentCost)
      invariant i <= |current.edges| && NoneRaised(initial, g.Costs())
      invariant Expanding(adj, s, t, Search(visited, queue', g.Costs(), g.Parents(), order), current.id, i)
    {
      ghost var costs := g.Costs();
      queue' := RelaxEdge(g, adj, s, t, visited, queue', order, current, currentCost, i);
      NoneRaisedTransitive(initial, costs, g.Costs());
      i := i + 1;
    }
    EdgesDone(adj, s, t, Search(visited, queue', g.Costs(), g.Parents(), order), current.id);
  }

  /** The costs after the reset (pathfinder.py:17-21): inf everywhere but the start, which costs 0. */
  ghost function StartCosts(adj: Adjacency, s: Id): map<Id, Cost> {
    (map k | k in adj :: Inf)[s := Fin(0)]
  }

  /**
   * The set-up of `find_path` (pathfinder.py:16-22): every node's `g_cost`
   * becomes inf and its `parent` None, then the start's `g_cost` 0, and the
   * queue holds the start alone.
   */
  method StartSearch(g: Graph, startNode: Node) returns (queue: seq<Entry>)
    requires g.Valid() && startNode.id in g.nodes && g.nodes[startNode.id] == startNode
    modifies g.nodes.Values
    ensures g.nodes == old(g.nodes) && g.Valid() && g.Adj() == old(g.Adj())
    ensures g.Costs() == StartCosts(old(g.Adj()), startNode.id)
    ensures g.Parents() == map k | k in old(g.Adj()) :: None
    ensures queue == [Entry(0, startNode.id)]
  {
    g.ResetNodeCosts();
    SetSearchFields(g, startNode, Fin(0), startNode.parent);
    queue := [Entry(0, startNode.id)];
  }

  /**
   * The bookkeeping of the main loop that the search invariant leaves out:
   * `expanded` lists the visited nodes once each in visit order, the start
   * first; until a node is visited the queue holds the start alone; and
   * from a start that is also the end nothing has been visited yet.
   */
  ghost predicate Opening(s: Id, t: Id, visited: set<Id>, queue: seq<Entry>, expanded: seq<Id>) {
    && Distinct(expanded)
    && (forall v :: v in expanded <==> v in visited)
    && (expanded != [] ==> expanded[0] == s)
    && (expanded == [] ==> queue == [Entry(0, s)])
    && (s == t ==> expanded == [])
  }

  lemma OpeningSkip(s: Id, t: Id, visited: set<Id>, queue: seq<Entry>, expanded: seq<Id>, rest: seq<Entry>)
    requires Opening(s, t, visited, queue, expanded) && queue != [] && Pop(queue).0.id in visited
    ensures Opening(s, t, visited, rest, expanded)
  {
  }

  /** Visiting the popped node appends it to `expanded`; from a start that is the end it is the end. */
  lemma OpeningVisit(s: Id, t: Id, visited: set<Id>, queue: seq<Entry>, expanded: seq<Id>, rest: seq<Entry>)
    requires Opening(s, t, visited, queue, expanded) && queue != [] && Pop(queue).0.id !in visited
    ensures var x := Pop(queue).0.id;
      && (s == t ==> x == t)
      && (x != t ==> Opening(s, t, visited + {x}, rest, expanded + [x]))
      && Distinct(expanded + [x]) && (expanded + [x])[0] == s
      && forall v :: v in expanded + [x] <==> v in visited + {x}
  {
    var x := Pop(queue).0.id;
    DistinctSnoc(expanded, x);
    if expanded == [] {
      assert Pop(queue).0 in [Entry(0, s)];
    }
  }

  /** When the queue runs dry, the start has been expanded, so it is not the end. */
  lemma OpeningDone(s: Id, t: Id, visited: set<Id>, expanded: seq<Id>)
    requires Opening(s, t, visited, [], expanded)
    ensures expanded != [] && expanded[0] == s && s != t
    ensures Distinct(expanded) && forall v :: v in expanded <==> v in visited
  {
  }

  /** `xs` is not empty and ends with `x`. */
  predicate EndsWith(xs: seq<Id>, x: Id) {
    xs != [] && xs[|xs| - 1] == x
  }

  /** Every node of `expanded` has a finite cost in `costs`, and no walk from `s` to it is cheaper. */
  ghost predicate Settles(adj: Adjacency, s: Id, costs: map<Id, Cost>, expanded: seq<Id>) {
    forall v :: v in expanded ==> v in costs && costs[v].Fin? && NoShorter(adj, s, v, costs[v].n)
  }

  /** Every node in `expanded`, the visited nodes in visit order, has its final, cheapest cost. */
  lemma ExpandedSettled(adj: Adjacency, s: Id, S: Search, expanded: seq<Id>)
    requires Core(adj, s, S) && forall v :: v in expanded <==> v in S.visited
    ensures Settles(adj, s, S.costs, expanded) && forall v :: v in expanded ==> v in adj
  {
  }

  /** The state in which the loop ends with the queue empty (pathfinder.py:47): no walk reaches the end. */
  lemma SearchExhausted(adj: Adjacency, s: Id, t: Id, S: Search, expanded: seq<Id>)
    requires Between(adj, s, t, S) && S.queue == [] && Opening(s, t, S.visited, [], expanded)
    ensures forall p, c :: !WalkFromTo(adj, p, c, s, t)
    ensures s != t && expanded != [] && expanded[0] == s && Distinct(expanded)
    ensures Settles(adj, s, S.costs, expanded) && forall v :: v in expanded ==> v in adj
  {
    NoWalkLeft(adj, s, t, S);
    OpeningDone(s, t, S.visited, expanded);
    ExpandedSettled(adj, s, S, expanded);
  }

  /**
   * One pass of the main loop of `find_path` (pathfinder.py:26-45): pop
   * the cheapest entry; skip it if its node is visited; otherwise visit
   * it, and either it is the end, whose parent chain is returned with its
   * cost, or its edges are relaxed.
   */
  method SearchStep(g: Graph, ghost adj: Adjacency, ghost s: Id, t: Id, visited: set<Id>, queue: seq<Entry>,
                    ghost order: map<Id, nat>, ghost expanded: seq<Id>)
    returns (found: bool, path: seq<Id>, cost: nat,
             visited': set<Id>, queue': seq<Entry>, ghost order': map<Id, nat>, ghost expanded': seq<Id>)
    requires g.Valid() && g.Adj() == adj && queue != []
    requires Between(adj, s, t, Search(visited, queue, g.Costs(), g.Parents(), order))
    requires Opening(s, t, visited, queue, expanded)
    modifies g.nodes.Values
    ensures g.nodes == old(g.nodes) && g.Valid() && g.Adj() == adj
    ensures !found ==> Between(adj, s, t, Search(visited', queue', g.Costs(), g.Parents(), order'))
    ensures !found ==> Opening(s, t, visited', queue', expanded')
    ensures !found ==> |adj.Keys - visited'| < |adj.Keys - visited| || (visited' == visited && |queue'| < |queue|)
    ensures found ==> ShortestWalk(adj, path, cost, s, t) && (s == t ==> path == [s] && cost == 0)
    ensures found ==> Settles(adj, s, g.Costs(), expanded') && Distinct(expanded') && (forall v :: v in expanded' ==> v in adj)
    ensures found ==> expanded' != [] && expanded'[0] == s && EndsWith(expanded', t)
    ensures NoneRaised(old(g.Costs()), g.Costs())
    ensures Pop(queue).0.id in visited ==>
              !found && visited' == visited && queue' == Pop(queue).1 && g.Costs() == old(g.Costs()) && g.Parents() == old(g.Parents())
    ensures Pop(queue).0.id !in visited ==>
              visited' == visited + {Pop(queue).0.id} && (found <==> Pop(queue).0.id == t) && (found ==> cost == Pop(queue).0.cost)
    ensures found ==> Ranked(g.Parents(), order') && t in order' && path == ParentChain(g.Parents(), order', t)
  {
    found, path, cost := false, [], 0;
    var e, rest := Pop(queue).0, Pop(queue).1;
    NoneRaisedReflexive(g.Costs());
    ghost var S := Search(visited, queue, g.Costs(), g.Parents(), order);
    PoppedIsCheapest(queue, e);
    var currentCost, currentId := e.cost, e.id;
    if currentId in visited {
      OpeningSkip(s, t, visited, queue, expanded, rest);
      visited', queue', order', expanded' := visited, rest, order, expanded;
      SkipStep(adj, s, t, S, e, rest, Search(visited', queue', g.Costs(), g.Parents(), order'));
      return;
    }
    OpeningVisit(s, t, visited, queue, expanded, rest);
    expanded' := expanded + [currentId];
    order' := order[currentId := |visited|];
    visited' := visited + {currentId};
    queue' := rest;
    VisitStep(adj, s, t, S, e, rest, Search(visited', queue', g.Costs(), g.Parents(), order'));
    var currentNode := g.nodes[currentId];
    if currentId == t {
      FoundIsShortest(adj, s, t, Search(visited', queue', g.Costs(), g.Parents(), order'), currentCost);
      ExpandedSettled(adj, s, Search(visited', queue', g.Costs(), g.Parents(), order'), expanded');
      path := ReconstructPath(g, currentNode, g.Parents(), order');
      found, cost := true, currentCost;
      return;
    }
    queue' := RelaxEdges(g, adj, s, t, visited', queue', order', currentNode, currentCost);
  }

  /**
   * `find_path` (pathfinder.py:5-47). With an id missing it returns
   * `(None, 0)` and touches nothing. Otherwise it resets every node,
   * searches, and returns a cheapest walk from start to end with its cost,
   * or `(None, inf)` exactly when no walk reaches the end; from the start
   * to itself the walk is the start alone, at cost 0. The ghost `expanded`
   * lists the nodes the search visited, in order: the start first, the end
   * last when it is reached, each with its final, cheapest cost.
   */
  method FindPath(g: Graph, startId: Id, endId: Id) returns (path: Option<seq<Id>>, cost: Cost, ghost expanded: seq<Id>)
    requires g.Valid() && Closed(g.Adj())
    modifies g.nodes.Values
    ensures g.Adj() == old(g.Adj())
    ensures Distinct(expanded) && forall v :: v in expanded ==> v in old(g.Adj())
    ensures startId in g.nodes && endId in g.nodes ==> expanded != [] && expanded[0] == startId
    ensures path.Some? ==> EndsWith(expanded, endId)
    ensures Settles(old(g.Adj()), startId, g.Costs(), expanded)
    ensures startId !in g.nodes || endId !in g.nodes ==>
              path == None && cost == Fin(0) && g.Costs() == old(g.Costs()) && g.Parents() == old(g.Parents())
    ensures startId in g.nodes && endId in g.nodes && path.Some? ==>
              cost.Fin? && ShortestWalk(old(g.Adj()), path.value, cost.n, startId, endId)
    ensures startId in g.nodes && endId in g.nodes && path.None? ==>
              cost == Inf && forall p, c :: !WalkFromTo(old(g.Adj()), p, c, startId, endId)
    ensures startId in g.nodes && startId == endId ==> path == Some([startId]) && cost == Fin(0)
    ensures startId in g.nodes && endId in g.nodes ==> NoneRaised(StartCosts(old(g.Adj()), startId), g.Costs())
  {
    expanded := [];
    if startId !in g.nodes || endId !in g.nodes {
      return None, Fin(0), expanded;
    }
    ghost var adj := g.Adj();
    var queue := StartSearch(g, g.nodes[startId]);
    var visited: set<Id> := {};
    ghost var order: map<Id, nat> := map[];
    InitBetween(adj, startId, endId, Search(visited, queue, g.Costs(), g.Parents(), order));
    ghost var reset := StartCosts(adj, startId);
    NoneRaisedReflexive(reset);

    while queue != []
      invariant g.nodes == old(g.nodes) && g.Valid() && g.Adj() == adj
      invariant Between(adj, startId, endId, Search(visited, queue, g.Costs(), g.Parents(), order))
      invariant Opening(startId, endId, visited, queue, expanded)
      invariant NoneRaised(reset, g.Costs())
      decreases |adj.Keys - visited|, |queue|
    {
      ghost var before := g.Costs();
      var found, p, c;
      found, p, c, visited, queue, order, expanded := SearchStep(g, adj, startId, endId, visited, queue, order, expanded);
      NoneRaisedTransitive(reset, before, g.Costs());
      if found {
        return Some(p), Fin(c), expanded;
      }
    }
    SearchExhausted(adj, startId, endId, Search(visited, queue, g.Costs(), g.Parents(), order), expanded);
    return None, Inf, expanded;
  }
}
