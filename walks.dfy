/**
 * What a route is: a walk along the edges of a graph, the sum of the
 * weights it uses, the walks no other walk beats, and the walk read off a
 * chain of parent links.
 */
module Walks {

  import opened Wrappers
  import opened Graphs

  /** The edge lists of a graph, by node id (`Graph.Adj()`). */
  type Adjacency = map<Id, seq<Edge>>

  /**
   * `p` is a non-empty sequence of nodes of `adj`, each consecutive pair
   * joined by an edge, and `c` is the sum of the weights of edges chosen
   * for those steps.
   */
  ghost predicate IsWalk(adj: Adjacency, p: seq<Id>, c: nat)
    decreases |p|
  {
    if |p| <= 1 then |p| == 1 && p[0] in adj && c == 0
    else
      var u, v := p[|p| - 2], p[|p| - 1];
      && u in adj
      && exists e :: e in adj[u] && e.target == v && e.weight <= c && IsWalk(adj, p[..|p| - 1], c - e.weight)
  }

  /** `p` is a walk of cost `c` from `s` to `t`. */
  ghost predicate WalkFromTo(adj: Adjacency, p: seq<Id>, c: nat, s: Id, t: Id) {
    |p| > 0 && p[0] == s && p[|p| - 1] == t && IsWalk(adj, p, c)
  }

  /** No walk from `s` to `t` costs less than `d`. */
  ghost predicate NoShorter(adj: Adjacency, s: Id, t: Id, d: nat) {
    forall p, c :: WalkFromTo(adj, p, c, s, t) ==> d <= c
  }

  /** `p` is a walk of cost `c` from `s` to `t` and no walk between them is cheaper. */
  ghost predicate ShortestWalk(adj: Adjacency, p: seq<Id>, c: nat, s: Id, t: Id) {
    WalkFromTo(adj, p, c, s, t) && NoShorter(adj, s, t, c)
  }

  /** A walk followed by an edge out of its last node is a walk, costing that edge's weight more. */
  lemma WalkExtend(adj: Adjacency, p: seq<Id>, c: nat, e: Edge)
    requires IsWalk(adj, p, c) && |p| > 0 && p[|p| - 1] in adj && e in adj[p[|p| - 1]]
    ensures IsWalk(adj, p + [e.target], c + e.weight)
  {
    var q := p + [e.target];
    assert q[..|q| - 1] == p;
    assert e in adj[q[|q| - 2]] && e.target == q[|q| - 1];
  }

  /** A walk is not empty and starts at a node of the graph; when the graph is closed it also ends at one. */
  lemma {:induction false} WalkInGraph(adj: Adjacency, p: seq<Id>, c: nat)
    requires IsWalk(adj, p, c)
    ensures |p| > 0 && p[0] in adj
    ensures Closed(adj) ==> p[|p| - 1] in adj
    decreases |p|
  {
    if |p| > 1 {
      var e :| e in adj[p[|p| - 2]] && e.target == p[|p| - 1] && e.weight <= c && IsWalk(adj, p[..|p| - 1], c - e.weight);
      WalkInGraph(adj, p[..|p| - 1], c - e.weight);
    }
  }

  // Parent chains (pathfinder.py:50-56)

  /**
   * Parent links that can be followed to an end: every ranked node's
   * parent, if any, is ranked lower.
   */
  ghost predicate Ranked(parents: map<Id, Option<Id>>, rank: map<Id, nat>) {
    forall v :: v in rank ==> v in parents && (parents[v].Some? ==> parents[v].value in rank && rank[parents[v].value] < rank[v])
  }

  /** The nodes met following parent links back from `v`, first one first. */
  ghost function ParentChain(parents: map<Id, Option<Id>>, rank: map<Id, nat>, v: Id): (chain: seq<Id>)
    requires Ranked(parents, rank) && v in rank
    ensures |chain| > 0 && chain[|chain| - 1] == v
    ensures chain[0] in rank && parents[chain[0]] == None
    decreases rank[v]
  {
    if parents[v].None? then [v] else ParentChain(parents, rank, parents[v].value) + [v]
  }
}
