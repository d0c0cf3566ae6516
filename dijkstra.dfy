/**
 * Why `find_path` (pathfinder.py:5-47) is right: the state of the search
 * as a value, the invariant its main loop keeps, and one lemma per step of
 * the loop. Nothing here runs; Pathfinding calls these lemmas.
 */
module DijkstraInvariant {

  import opened Wrappers
  import opened Graphs
  import opened Walks
  import opened HeapQueue

  /**
   * The search state: the `visited` set, the queue, every node's `g_cost`
   * and `parent`, and (ghost only) the order in which nodes were visited.
   */
  datatype Search = Search(visited: set<Id>, queue: seq<Entry>, costs: map<Id, Cost>, parents: map<Id, Option<Id>>, order: map<Id, nat>)

  /** `c` is finite and at most `n`: the Python test `not (n < c)`. */
  predicate AtMost(c: Cost, n: nat) {
    c.Fin? && c.n <= n
  }

  /** The parts of the state are keyed by the graph's ids. */
  ghost predicate Keyed(adj: Adjacency, s: Id, S: Search) {
    && s in adj
    && S.costs.Keys == adj.Keys && S.parents.Keys == adj.Keys
    && S.visited <= adj.Keys && S.order.Keys == S.visited
    && (forall i :: 0 <= i < |S.queue| ==> S.queue[i].id in adj)
  }

  /** The start keeps cost 0 and no parent; the visit order numbers the visited nodes. */
  ghost predicate Anchored(adj: Adjacency, s: Id, S: Search)
    requires Keyed(adj, s, S)
  {
    && S.costs[s] == Fin(0) && S.parents[s] == None
    && (forall v :: v in S.visited ==> S.order[v] < |S.visited|)
  }

  /** No queued entry is cheaper than its node's tentative cost. */
  ghost predicate QueueAbove(adj: Adjacency, s: Id, S: Search)
    requires Keyed(adj, s, S)
  {
    forall i :: 0 <= i < |S.queue| ==> AtMost(S.costs[S.queue[i].id], S.queue[i].cost)
  }

  /** Every unvisited node with a finite cost is queued with exactly that cost. */
  ghost predicate Frontier(adj: Adjacency, s: Id, S: Search)
    requires Keyed(adj, s, S)
  {
    forall v :: v in adj && v !in S.visited && S.costs[v].Fin? ==> Entry(S.costs[v].n, v) in S.queue
  }

  /**
   * `u` is a fitting parent of `v`: visited (earlier than `v` if `v` is
   * visited), and joined to `v` by an edge whose weight is the difference
   * of their costs.
   */
  ghost predicate ParentEdge(adj: Adjacency, s: Id, S: Search, u: Id, v: Id)
    requires Keyed(adj, s, S) && v in adj
  {
    && u in S.visited && S.costs[u].Fin? && S.costs[v].Fin?
    && (v in S.visited ==> S.order[u] < S.order[v])
    && exists e :: e in adj[u] && e.target == v && S.costs[v].n == S.costs[u].n + e.weight
  }

  /** Every node but the start that has a finite cost has a parent, and every parent fits. */
  ghost predicate Linked(adj: Adjacency, s: Id, S: Search)
    requires Keyed(adj, s, S)
  {
    && (forall v :: v in adj && v != s && S.costs[v].Fin? ==> S.parents[v].Some?)
    && (forall v :: v in adj && S.parents[v].Some? ==> ParentEdge(adj, s, S, S.parents[v].value, v))
  }

  /** Every visited node's cost is its distance from the start. */
  ghost predicate Settled(adj: Adjacency, s: Id, S: Search)
    requires Keyed(adj, s, S)
  {
    forall v :: v in S.visited ==> S.costs[v].Fin? && NoShorter(adj, s, v, S.costs[v].n)
  }

  /** The first `k` edges out of `x` are relaxed: their unvisited targets cost at most `x`'s cost plus the weight. */
  ghost predicate RelaxedUpTo(adj: Adjacency, s: Id, S: Search, x: Id, k: int)
    requires Keyed(adj, s, S) && x in adj && k <= |adj[x]|
  {
    && S.costs[x].Fin?
    && forall j :: 0 <= j < k && adj[x][j].target !in S.visited ==>
         adj[x][j].target in adj && AtMost(S.costs[adj[x][j].target], S.costs[x].n + adj[x][j].weight)
  }

  /** Every visited node but those in `except` has all its edges relaxed. */
  ghost predicate AllRelaxed(adj: Adjacency, s: Id, S: Search, except: set<Id>)
    requires Keyed(adj, s, S)
  {
    forall x :: x in S.visited && x !in except ==> RelaxedUpTo(adj, s, S, x, |adj[x]|)
  }

  ghost predicate Core(adj: Adjacency, s: Id, S: Search) {
    && Closed(adj) && Keyed(adj, s, S) && Anchored(adj, s, S)
    && QueueAbove(adj, s, S) && Frontier(adj, s, S) && Linked(adj, s, S) && Settled(adj, s, S)
  }

  /** The invariant at the top of the main loop (line 26), the end `t` not yet visited. */
  ghost predicate Between(adj: Adjacency, s: Id, t: Id, S: Search) {
    Core(adj, s, S) && t in adj && t !in S.visited && AllRelaxed(adj, s, S, {})
  }

  /** The invariant of the edge loop (lines 37-45) for `cur`, its first `k` edges done. */
  ghost predicate Expanding(adj: Adjacency, s: Id, t: Id, S: Search, cur: Id, k: int) {
    && Core(adj, s, S) && t in adj && t !in S.visited
    && cur in S.visited && 0 <= k <= |adj[cur]|
    && AllRelaxed(adj, s, S, {cur}) && RelaxedUpTo(adj, s, S, cur, k)
  }

  /** `e` was popped from `q`, leaving `rest`: the least entry is least in cost. */
  ghost predicate PoppedFrom(q: seq<Entry>, e: Entry, rest: seq<Entry>) {
    multiset(q) == multiset(rest) + multiset{e} && forall x :: x in q ==> e.cost <= x.cost
  }

  // Lines 17-24: the state before the loop

  lemma InitBetween(adj: Adjacency, s: Id, t: Id, S: Search)
    requires Closed(adj) && s in adj && t in adj
    requires S.visited == {} && S.queue == [Entry(0, s)] && S.order == map[]
    requires S.costs == (map k | k in adj :: Inf)[s := Fin(0)] && S.parents == map k | k in adj :: None
    ensures Between(adj, s, t, S)
  {
  }

  // Lines 26-35: popping an entry

  /** What popping leaves in the queue: only earlier entries, and all of them but the popped one. */
  ghost predicate Leaves(q: seq<Entry>, e: Entry, rest: seq<Entry>) {
    (forall x :: x in rest ==> x in q) && (forall x :: x in q && x != e ==> x in rest)
  }

  /** Dropping an entry whose node is visited, or visiting its node, keeps the queue above the costs and the frontier queued. */
  lemma PopKeepsQueue(adj: Adjacency, s: Id, S: Search, e: Entry, rest: seq<Entry>, S': Search)
    requires Keyed(adj, s, S) && QueueAbove(adj, s, S) && Frontier(adj, s, S) && Leaves(S.queue, e, rest)
    requires S' == S.(queue := rest) || S' == Visit(S, e, rest)
    requires e.id in S'.visited && S'.visited <= adj.Keys && S'.order.Keys == S'.visited
    ensures Keyed(adj, s, S') && QueueAbove(adj, s, S') && Frontier(adj, s, S')
  {
    forall i | 0 <= i < |rest|
      ensures rest[i].id in adj && AtMost(S.costs[rest[i].id], rest[i].cost)
    {
      assert rest[i] in S.queue;
    }
  }

  /** An entry of a node already visited is dropped (lines 30-31). */
  lemma SkipStep(adj: Adjacency, s: Id, t: Id, S: Search, e: Entry, rest: seq<Entry>, S': Search)
    requires Between(adj, s, t, S) && PoppedFrom(S.queue, e, rest) && e.id in S.visited
    requires S' == S.(queue := rest)
    ensures Between(adj, s, t, S') && |S'.queue| < |S.queue|
  {
    assert |multiset(S.queue)| == |multiset(rest)| + 1;
    PopLeavesOthers(S.queue, e, rest);
    PopKeepsQueue(adj, s, S, e, rest, S');
    QueueOnlyKeepsLinks(adj, s, S, S');
    QueueOnlyKeepsRelaxed(adj, s, S, S');
  }

  /** A parent that fits keeps fitting while neither node's cost and the visit order stay as they were. */
  lemma ParentEdgeKept(adj: Adjacency, s: Id, S: Search, S': Search, u: Id, v: Id)
    requires Keyed(adj, s, S) && Keyed(adj, s, S') && v in adj && ParentEdge(adj, s, S, u, v)
    requires S'.visited == S.visited && S'.order == S.order
    requires S'.costs[u] == S.costs[u] && S'.costs[v] == S.costs[v]
    ensures ParentEdge(adj, s, S', u, v)
  {
    var e :| e in adj[u] && e.target == v && S.costs[v].n == S.costs[u].n + e.weight;
  }

  /** Changing only the queue keeps the start anchored and the parent links. */
  lemma QueueOnlyKeepsLinks(adj: Adjacency, s: Id, S: Search, S': Search)
    requires Keyed(adj, s, S) && Keyed(adj, s, S') && Anchored(adj, s, S) && Linked(adj, s, S)
    requires S'.visited == S.visited && S'.costs == S.costs && S'.parents == S.parents && S'.order == S.order
    ensures Anchored(adj, s, S') && Linked(adj, s, S')
  {
    forall v | v in adj && S'.parents[v].Some?
      ensures ParentEdge(adj, s, S', S'.parents[v].value, v)
    {
      ParentEdgeKept(adj, s, S, S', S.parents[v].value, v);
    }
  }

  /** Changing only the queue keeps the visited nodes settled and relaxed. */
  lemma QueueOnlyKeepsRelaxed(adj: Adjacency, s: Id, S: Search, S': Search)
    requires Keyed(adj, s, S) && Keyed(adj, s, S') && Settled(adj, s, S) && AllRelaxed(adj, s, S, {})
    requires S'.visited == S.visited && S'.costs == S.costs
    ensures Settled(adj, s, S') && AllRelaxed(adj, s, S', {})
  {
    forall x | x in S'.visited
      ensures RelaxedUpTo(adj, s, S', x, |adj[x]|)
    {
      assert RelaxedUpTo(adj, s, S, x, |adj[x]|);
    }
  }

  /**
   * What the visited nodes promise about walks: the start costs 0, every
   * visited node costs its distance, and every edge out of a visited node
   * has been relaxed.
   */
  ghost predicate Exits(adj: Adjacency, s: Id, visited: set<Id>, costs: map<Id, Cost>) {
    && s in costs && costs[s] == Fin(0)
    && (forall u :: u in visited ==> u in costs && costs[u].Fin? && NoShorter(adj, s, u, costs[u].n))
    && (forall u, e :: u in visited && u in adj && e in adj[u] && e.target !in visited ==>
          u in costs && costs[u].Fin? && e.target in costs && AtMost(costs[e.target], costs[u].n + e.weight))
  }

  lemma BetweenExits(adj: Adjacency, s: Id, t: Id, S: Search)
    requires Between(adj, s, t, S)
    ensures Exits(adj, s, S.visited, S.costs)
  {
    forall u, e | u in S.visited && u in adj && e in adj[u] && e.target !in S.visited
      ensures e.target in S.costs && AtMost(S.costs[e.target], S.costs[u].n + e.weight)
    {
      assert RelaxedUpTo(adj, s, S, u, |adj[u]|);
      var j :| 0 <= j < |adj[u]| && adj[u][j] == e;
    }
  }

  /**
   * Any walk from the start to an unvisited node leaves the visited nodes
   * somewhere: at an unvisited node whose tentative cost is at most the
   * cost of the walk.
   */
  lemma {:induction false} FirstExit(adj: Adjacency, s: Id, visited: set<Id>, costs: map<Id, Cost>, p: seq<Id>, c: nat)
    returns (y: Id)
    requires Exits(adj, s, visited, costs)
    requires |p| > 0 && WalkFromTo(adj, p, c, s, p[|p| - 1]) && p[|p| - 1] !in visited
    ensures y in p && y in costs && y !in visited && AtMost(costs[y], c)
    decreases |p|
  {
    if |p| == 1 {
      y := s;
    } else {
      var u, v := p[|p| - 2], p[|p| - 1];
      var e :| e in adj[u] && e.target == v && e.weight <= c && IsWalk(adj, p[..|p| - 1], c - e.weight);
      var q := p[..|p| - 1];
      assert q[|q| - 1] == u && WalkFromTo(adj, q, c - e.weight, s, u);
      if u !in visited {
        y := FirstExit(adj, s, visited, costs, q, c - e.weight);
      } else {
        assert costs[u].n <= c - e.weight;
        y := v;
      }
    }
  }

  /** The least queued cost of an unvisited node is its distance (Dijkstra's lemma). */
  lemma PoppedIsSettled(adj: Adjacency, s: Id, t: Id, S: Search, e: Entry)
    requires Between(adj, s, t, S) && e in S.queue && e.id !in S.visited
    requires forall x :: x in S.queue ==> e.cost <= x.cost
    ensures e.id in adj && S.costs[e.id] == Fin(e.cost) && NoShorter(adj, s, e.id, e.cost)
  {
    var i :| 0 <= i < |S.queue| && S.queue[i] == e;
    assert AtMost(S.costs[S.queue[i].id], S.queue[i].cost);
    assert Entry(S.costs[e.id].n, e.id) in S.queue;
    BetweenExits(adj, s, t, S);
    forall p, c | WalkFromTo(adj, p, c, s, e.id)
      ensures e.cost <= c
    {
      var y := FirstExit(adj, s, S.visited, S.costs, p, c);
      assert Entry(S.costs[y].n, y) in S.queue;
    }
  }

  /** The state once the popped node `e.id` is added to `visited` (line 32). */
  ghost function Visit(S: Search, e: Entry, rest: seq<Entry>): Search {
    S.(visited := S.visited + {e.id}, queue := rest, order := S.order[e.id := |S.visited|])
  }

  /** Visiting the popped node keeps the invariant, its own edges still to do (line 32). */
  lemma VisitStep(adj: Adjacency, s: Id, t: Id, S: Search, e: Entry, rest: seq<Entry>, S': Search)
    requires Between(adj, s, t, S) && PoppedFrom(S.queue, e, rest) && e in S.queue && e.id !in S.visited
    requires S' == Visit(S, e, rest)
    ensures e.id in adj && S'.costs[e.id] == Fin(e.cost) && NoShorter(adj, s, e.id, e.cost)
    ensures Core(adj, s, S')
    ensures e.id != t ==> Expanding(adj, s, t, S', e.id, 0)
    ensures |adj.Keys - S'.visited| < |adj.Keys - S.visited|
  {
    assert adj.Keys - Visit(S, e, rest).visited < adj.Keys - S.visited;
    PopLeavesOthers(S.queue, e, rest);
    PoppedIsSettled(adj, s, t, S, e);
    PopKeepsQueue(adj, s, S, e, rest, Visit(S, e, rest));
    VisitKeepsSettled(adj, s, S, e, rest);
    VisitKeepsLinks(adj, s, S, e, rest);
    VisitKeepsRelaxed(adj, s, S, e, rest);
  }

  lemma VisitKeepsSettled(adj: Adjacency, s: Id, S: Search, e: Entry, rest: seq<Entry>)
    requires Keyed(adj, s, S) && Anchored(adj, s, S) && Settled(adj, s, S)
    requires e.id in adj && e.id !in S.visited && S.costs[e.id] == Fin(e.cost) && NoShorter(adj, s, e.id, e.cost)
    requires Keyed(adj, s, Visit(S, e, rest))
    ensures Anchored(adj, s, Visit(S, e, rest)) && Settled(adj, s, Visit(S, e, rest))
  {
  }

  lemma VisitKeepsLinks(adj: Adjacency, s: Id, S: Search, e: Entry, rest: seq<Entry>)
    requires Keyed(adj, s, S) && Anchored(adj, s, S) && Linked(adj, s, S) && e.id in adj && e.id !in S.visited
    requires Keyed(adj, s, Visit(S, e, rest))
    ensures Linked(adj, s, Visit(S, e, rest))
  {
    var S' := Visit(S, e, rest);
    forall v | v in adj && S.parents[v].Some?
      ensures ParentEdge(adj, s, S', S.parents[v].value, v)
    {
      var u := S.parents[v].value;
      assert ParentEdge(adj, s, S, u, v);
      var ed :| ed in adj[u] && ed.target == v && S.costs[v].n == S.costs[u].n + ed.weight;
      assert S'.order[u] == S.order[u] < |S.visited|;
    }
  }

  lemma VisitKeepsRelaxed(adj: Adjacency, s: Id, S: Search, e: Entry, rest: seq<Entry>)
    requires Keyed(adj, s, S) && AllRelaxed(adj, s, S, {}) && e.id in adj && S.costs[e.id].Fin?
    requires Keyed(adj, s, Visit(S, e, rest))
    ensures AllRelaxed(adj, s, Visit(S, e, rest), {e.id}) && RelaxedUpTo(adj, s, Visit(S, e, rest), e.id, 0)
  {
    var S' := Visit(S, e, rest);
    forall x | x in S'.visited && x != e.id
      ensures RelaxedUpTo(adj, s, S', x, |adj[x]|)
    {
      assert RelaxedUpTo(adj, s, S, x, |adj[x]|);
    }
  }

  // Lines 37-45: the edges of the visited node `cur`

  /** An edge to a visited node is skipped (lines 38-39). */
  lemma EdgeToVisited(adj: Adjacency, s: Id, t: Id, S: Search, cur: Id, k: int)
    requires Expanding(adj, s, t, S, cur, k) && k < |adj[cur]| && adj[cur][k].target in S.visited
    ensures Expanding(adj, s, t, S, cur, k + 1)
  {
  }

  /** An edge that does not lower its target's cost changes nothing (line 42). */
  lemma EdgeNotLower(adj: Adjacency, s: Id, t: Id, S: Search, cur: Id, k: int)
    requires Expanding(adj, s, t, S, cur, k) && k < |adj[cur]|
    requires adj[cur][k].target !in S.visited
    requires !Below(Fin(S.costs[cur].n + adj[cur][k].weight), S.costs[adj[cur][k].target])
    ensures Expanding(adj, s, t, S, cur, k + 1)
  {
    assert adj[cur][k] in adj[cur];
  }

  /**
   * The state after relaxing edge `k` of `cur` (lines 43-45): the
   * target's cost becomes `cur`'s cost plus the weight, its parent `cur`,
   * and an entry for it is queued.
   */
  ghost function Lower(adj: Adjacency, S: Search, cur: Id, k: int): Search
    requires cur in adj && 0 <= k < |adj[cur]| && cur in S.costs && S.costs[cur].Fin?
  {
    var y, n := adj[cur][k].target, S.costs[cur].n + adj[cur][k].weight;
    S.(costs := S.costs[y := Fin(n)], parents := S.parents[y := Some(cur)], queue := S.queue + [Entry(n, y)])
  }

  /** The hypotheses of relaxing edge `k` of the visited node `cur`: it leads out of the visited set and lowers its target's cost. */
  ghost predicate Lowers(adj: Adjacency, s: Id, S: Search, cur: Id, k: int)
    requires Keyed(adj, s, S)
  {
    && Closed(adj) && cur in S.visited && 0 <= k < |adj[cur]| && S.costs[cur].Fin?
    && adj[cur][k].target !in S.visited
    && adj[cur][k] in adj[cur] && adj[cur][k].target in adj
    && Below(Fin(S.costs[cur].n + adj[cur][k].weight), S.costs[adj[cur][k].target])
  }

  /** An edge that lowers its target's cost keeps the invariant (lines 42-45). */
  lemma EdgeLowers(adj: Adjacency, s: Id, t: Id, S: Search, cur: Id, k: int)
    requires Expanding(adj, s, t, S, cur, k) && k < |adj[cur]|
    requires adj[cur][k].target !in S.visited
    requires Below(Fin(S.costs[cur].n + adj[cur][k].weight), S.costs[adj[cur][k].target])
    ensures Expanding(adj, s, t, Lower(adj, S, cur, k), cur, k + 1)
    ensures Lower(adj, S, cur, k).costs[cur] == S.costs[cur]
  {
    assert adj[cur][k] in adj[cur];
    assert Lowers(adj, s, S, cur, k);
    LowerKeepsQueue(adj, s, S, cur, k);
    LowerKeepsSettled(adj, s, S, cur, k);
    LowerKeepsLinks(adj, s, S, cur, k);
    LowerKeepsRelaxed(adj, s, S, cur, k);
  }

  lemma LowerKeepsQueue(adj: Adjacency, s: Id, S: Search, cur: Id, k: int)
    requires Keyed(adj, s, S) && QueueAbove(adj, s, S) && Frontier(adj, s, S) && Lowers(adj, s, S, cur, k)
    ensures Keyed(adj, s, Lower(adj, S, cur, k)) && QueueAbove(adj, s, Lower(adj, S, cur, k)) && Frontier(adj, s, Lower(adj, S, cur, k))
  {
    var y, n := adj[cur][k].target, S.costs[cur].n + adj[cur][k].weight;
    var S' := Lower(adj, S, cur, k);
    assert Keyed(adj, s, S');
    forall i | 0 <= i < |S'.queue|
      ensures AtMost(S'.costs[S'.queue[i].id], S'.queue[i].cost)
    {
      if i < |S.queue| {
        assert AtMost(S.costs[S.queue[i].id], S.queue[i].cost);
      }
    }
    forall v | v in adj && v !in S'.visited && S'.costs[v].Fin?
      ensures Entry(S'.costs[v].n, v) in S'.queue
    {
      if v == y {
        assert S'.queue[|S.queue|] == Entry(n, y);
      } else {
        assert Entry(S.costs[v].n, v) in S.queue;
      }
    }
  }

  lemma LowerKeepsSettled(adj: Adjacency, s: Id, S: Search, cur: Id, k: int)
    requires Keyed(adj, s, S) && Anchored(adj, s, S) && Settled(adj, s, S) && Lowers(adj, s, S, cur, k)
    ensures Keyed(adj, s, Lower(adj, S, cur, k)) && Anchored(adj, s, Lower(adj, S, cur, k)) && Settled(adj, s, Lower(adj, S, cur, k))
  {
    var S' := Lower(adj, S, cur, k);
    assert adj[cur][k].target != s;
    assert Keyed(adj, s, S');
    forall v | v in S'.visited
      ensures S'.costs[v] == S.costs[v]
    {
    }
  }

  lemma LowerKeepsLinks(adj: Adjacency, s: Id, S: Search, cur: Id, k: int)
    requires Keyed(adj, s, S) && Linked(adj, s, S) && Lowers(adj, s, S, cur, k)
    ensures Keyed(adj, s, Lower(adj, S, cur, k)) && Linked(adj, s, Lower(adj, S, cur, k))
  {
    var y := adj[cur][k].target;
    var S' := Lower(adj, S, cur, k);
    assert Keyed(adj, s, S');
    forall v | v in adj && S'.parents[v].Some?
      ensures ParentEdge(adj, s, S', S'.parents[v].value, v)
    {
      if v == y {
        assert adj[cur][k] in adj[cur] && adj[cur][k].target == y;
      } else {
        ParentEdgeKept(adj, s, S, S', S.parents[v].value, v);
      }
    }
  }

  lemma LowerKeepsRelaxed(adj: Adjacency, s: Id, S: Search, cur: Id, k: int)
    requires Keyed(adj, s, S) && Lowers(adj, s, S, cur, k)
    requires AllRelaxed(adj, s, S, {cur}) && RelaxedUpTo(adj, s, S, cur, k)
    ensures Keyed(adj, s, Lower(adj, S, cur, k))
    ensures AllRelaxed(adj, s, Lower(adj, S, cur, k), {cur}) && RelaxedUpTo(adj, s, Lower(adj, S, cur, k), cur, k + 1)
  {
    var S' := Lower(adj, S, cur, k);
    assert Keyed(adj, s, S');
    forall x | x in S.visited
      ensures RelaxedUpTo(adj, s, S', x, if x == cur then k + 1 else |adj[x]|)
    {
      if x != cur {
        assert RelaxedUpTo(adj, s, S, x, |adj[x]|);
      }
    }
  }

  /** With all of `cur`'s edges done the main loop's invariant holds again. */
  lemma EdgesDone(adj: Adjacency, s: Id, t: Id, S: Search, cur: Id)
    requires cur in adj && Expanding(adj, s, t, S, cur, |adj[cur]|)
    ensures Between(adj, s, t, S)
  {
  }

  // Lines 34-35 and 47: the two results

  /** The parent links of a visited node lead back to the start along a walk costing the node's cost. */
  lemma {:induction false} ChainIsWalk(adj: Adjacency, s: Id, S: Search, v: Id)
    requires Core(adj, s, S) && v in S.visited
    ensures Ranked(S.parents, S.order)
    ensures WalkFromTo(adj, ParentChain(S.parents, S.order, v), S.costs[v].n, s, v)
    decreases S.order[v]
  {
    CoreRanked(adj, s, S);
    var chain := ParentChain(S.parents, S.order, v);
    if S.parents[v].None? {
      assert v == s;
    } else {
      var u := S.parents[v].value;
      assert ParentEdge(adj, s, S, u, v);
      var e :| e in adj[u] && e.target == v && S.costs[v].n == S.costs[u].n + e.weight;
      ChainIsWalk(adj, s, S, u);
      WalkExtend(adj, ParentChain(S.parents, S.order, u), S.costs[u].n, e);
    }
  }

  /**
   * Once the end `t` is visited at cost `c`, its parent chain is a
   * cheapest walk from the start; when the end is the start, that walk is
   * the start alone, at cost 0 (lines 34-35).
   */
  lemma FoundIsShortest(adj: Adjacency, s: Id, t: Id, S: Search, c: nat)
    requires Core(adj, s, S) && t in S.visited && S.costs[t] == Fin(c) && NoShorter(adj, s, t, c)
    ensures Ranked(S.parents, S.order) && S.order.Keys <= adj.Keys && S.parents.Keys == adj.Keys
    ensures ShortestWalk(adj, ParentChain(S.parents, S.order, t), c, s, t)
    ensures s == t ==> ParentChain(S.parents, S.order, t) == [s] && c == 0
  {
    ChainIsWalk(adj, s, S, t);
  }

  lemma CoreRanked(adj: Adjacency, s: Id, S: Search)
    requires Core(adj, s, S)
    ensures Ranked(S.parents, S.order)
  {
    forall v | v in S.order && S.parents[v].Some?
      ensures S.parents[v].value in S.order && S.order[S.parents[v].value] < S.order[v]
    {
      assert ParentEdge(adj, s, S, S.parents[v].value, v);
    }
  }

  /** When the queue runs dry before the end is visited, no walk reaches the end (line 47). */
  lemma NoWalkLeft(adj: Adjacency, s: Id, t: Id, S: Search)
    requires Between(adj, s, t, S) && S.queue == []
    ensures forall p, c :: !WalkFromTo(adj, p, c, s, t)
  {
    forall p, c | WalkFromTo(adj, p, c, s, t)
      ensures false
    {
      BetweenExits(adj, s, t, S);
      var y := FirstExit(adj, s, S.visited, S.costs, p, c);
    }
  }
}
