/**
 * The graph container of programa/models/graph.py: nodes keyed by the id
 * "x,y", each holding its outgoing edges and the per-search fields
 * `g_cost` and `parent` that the path finder overwrites in place.
 */
module Graphs {

  import opened Wrappers
  import PyText

  /** A node id, the text `f"{x},{y}"`. */
  type Id = string

  function CoordId(x: int, y: int): Id {
    PyText.IntToString(x) + "," + PyText.IntToString(y)
  }

  /** Both coordinates can be read back from an id: the text before the comma is x, the rest is y. */
  lemma CoordIdParses(x: int, y: int)
    ensures var id, sx := CoordId(x, y), PyText.IntToString(x);
            && |id| > |sx| && id[|sx|] == ','
            && PyText.ParseInt(id[..|sx|]) == Some(x)
            && PyText.ParseInt(id[|sx| + 1..]) == Some(y)
  {
    var sx := PyText.IntToString(x);
    var id := CoordId(x, y);
    assert id[..|sx|] == sx && id[|sx| + 1..] == PyText.IntToString(y);
    PyText.ParseIntToString(x);
    PyText.ParseIntToString(y);
  }

  /** Two cells share an id only if they are the same cell. */
  lemma CoordIdInjective(x1: int, y1: int, x2: int, y2: int)
    requires CoordId(x1, y1) == CoordId(x2, y2)
    ensures x1 == x2 && y1 == y2
  {
    CoordIdParses(x1, y1);
    CoordIdParses(x2, y2);
    var a, c := PyText.IntToString(x1), PyText.IntToString(x2);
    var id := CoordId(x1, y1);
    assert id == a + "," + PyText.IntToString(y1);
    assert id == c + "," + PyText.IntToString(y2);
  }

  /** An outgoing edge: the target's id and the weight of moving there. */
  datatype Edge = Edge(target: Id, weight: nat)

  /** Every edge leads to a node of the same graph. */
  ghost predicate Closed(adj: map<Id, seq<Edge>>) {
    forall u, e :: u in adj && e in adj[u] ==> e.target in adj
  }

  /** A tentative cost; `Inf` is Python's `float('inf')`. */
  datatype Cost = Fin(n: nat) | Inf

  /** Python's `a < b`, with `inf` above every finite value. */
  predicate Below(a: Cost, b: Cost) {
    match (a, b)
    case (Fin(m), Fin(n)) => m < n
    case (Fin(_), Inf) => true
    case (Inf, _) => false
  }

  /** The state of one node as a value. */
  datatype NodeView = NodeView(id: Id, x: int, y: int, value: string, edges: seq<Edge>, hCost: int, gCost: Cost, parent: Option<Id>)

  class Node {
    const x: int
    const y: int
    const value: string
    const id: Id
    var edges: seq<Edge>
    var hCost: int
    var gCost: Cost
    var parent: Option<Id>

    /** graph.py:2-10 */
    constructor (x: int, y: int, value: string)
      ensures this.x == x && this.y == y && this.value == value
      ensures id == CoordId(x, y)
      ensures edges == [] && hCost == 0 && gCost == Inf && parent == None
    {
      this.x := x;
      this.y := y;
      this.value := value;
      this.id := CoordId(x, y);
      edges := [];
      hCost := 0;
      gCost := Inf;
      parent := None;
    }

    ghost function View(): NodeView
      reads this
    {
      NodeView(id, x, y, value, edges, hCost, gCost, parent)
    }

    /** graph.py:12-13: append, keeping the earlier edges. */
    method AddEdge(target: Id, weight: nat)
      modifies this
      ensures edges == old(edges) + [Edge(target, weight)]
      ensures hCost == old(hCost) && gCost == old(gCost) && parent == old(parent)
      ensures View() == old(View()).(edges := old(edges) + [Edge(target, weight)])
    {
      edges := edges + [Edge(target, weight)];
    }
  }

  class Graph {
    var nodes: map<Id, Node>
    /**
     * True once `reset_costs` has run on a non-empty graph: it assigns
     * `self.g_cost` and `self.parent`, which creates those two attributes
     * on the graph object itself.
     */
    var hasStrayCostAttributes: bool

    /** Every node is stored under its own id. */
    ghost predicate Valid()
      reads this
    {
      forall k :: k in nodes ==> nodes[k].id == k
    }

    /** The edge lists, by node id. */
    ghost function Adj(): map<Id, seq<Edge>>
      reads this, nodes.Values
    {
      map k | k in nodes :: nodes[k].edges
    }

    /** The nodes' states, by id. */
    ghost function View(): map<Id, NodeView>
      reads this, nodes.Values
    {
      map k | k in nodes :: nodes[k].View()
    }

    /** The nodes' tentative costs, by id. */
    ghost function Costs(): map<Id, Cost>
      reads this, nodes.Values
    {
      map k | k in nodes :: nodes[k].gCost
    }

    /** The nodes' parent links, by id. */
    ghost function Parents(): map<Id, Option<Id>>
      reads this, nodes.Values
    {
      map k | k in nodes :: nodes[k].parent
    }

    constructor ()
      ensures Valid() && nodes == map[] && !hasStrayCostAttributes
    {
      nodes := map[];
      hasStrayCostAttributes := false;
    }

    /** graph.py:22-25: a fresh node replaces whatever had its id. */
    method AddNode(x: int, y: int, value: string) returns (n: Node)
      requires Valid()
      modifies this
      ensures Valid() && fresh(n)
      ensures n.x == x && n.y == y && n.value == value && n.id == CoordId(x, y)
      ensures n.edges == [] && n.hCost == 0 && n.gCost == Inf && n.parent == None
      ensures nodes == old(nodes)[n.id := n]
      ensures View() == old(View())[n.id := n.View()]
      ensures GetNode(x, y) == n
      ensures forall x', y' :: (x', y') != (x, y) ==> GetNode(x', y') == old(GetNode(x', y'))
      ensures hasStrayCostAttributes == old(hasStrayCostAttributes)
    {
      n := new Node(x, y, value);
      nodes := nodes[n.id := n];
      forall x', y' | (x', y') != (x, y)
        ensures CoordId(x', y') != CoordId(x, y)
      {
        if CoordId(x', y') == CoordId(x, y) {
          CoordIdInjective(x', y', x, y);
        }
      }
    }

    /** graph.py:27-28: the node whose id is "x,y", or `None` (null). */
    function GetNode(x: int, y: int): (n: Node?)
      reads this
      ensures n == null <==> CoordId(x, y) !in nodes
      ensures n != null ==> n in nodes.Values && (Valid() ==> n.id == CoordId(x, y))
    {
      var k := CoordId(x, y);
      if k in nodes then nodes[k] else null
    }

    /** graph.py:30-31: exactly the stored nodes, each once. */
    function AllNodes(): (r: set<Node>)
      reads this
      ensures forall k :: k in nodes ==> nodes[k] in r
      ensures Valid() ==> |r| == |nodes|
      ensures Valid() ==> forall n :: n in r ==> n.id in nodes && nodes[n.id] == n
    {
      KeyedByIdCard(nodes);
      nodes.Values
    }

    /**
     * graph.py:33-36 as written: the loop assigns to the graph object, so
     * no node's `g_cost` or `parent` changes.
     */
    method ResetCosts()
      modifies this
      ensures nodes == old(nodes)
      ensures hasStrayCostAttributes == (old(hasStrayCostAttributes) || |nodes| > 0)
      ensures forall k :: k in nodes ==> nodes[k].gCost == old(nodes[k].gCost) && nodes[k].parent == old(nodes[k].parent)
    {
      var pending := nodes.Keys;
      while pending != {}
        invariant pending <= nodes.Keys && nodes == old(nodes)
        invariant hasStrayCostAttributes == (old(hasStrayCostAttributes) || pending != nodes.Keys)
        decreases pending
      {
        var k :| k in pending;
        hasStrayCostAttributes := true;
        pending := pending - {k};
      }
    }

    /**
     * What `reset_costs` evidently means, and what find_path does inline
     * (pathfinder.py:17-19): every node's `g_cost` becomes inf and its
     * `parent` None, nothing else changes.
     */
    method ResetNodeCosts()
      modifies nodes.Values
      ensures nodes == old(nodes) && Valid() == old(Valid())
      ensures forall k :: k in nodes ==> nodes[k].gCost == Inf && nodes[k].parent == None
      ensures forall k :: k in nodes ==> nodes[k].edges == old(nodes[k].edges) && nodes[k].hCost == old(nodes[k].hCost)
      ensures Costs() == (map k | k in nodes :: Inf) && Parents() == (map k | k in nodes :: None)
      ensures Adj() == old(Adj())
    {
      var pending := nodes.Keys;
      while pending != {}
        invariant pending <= nodes.Keys
        invariant forall k :: k in nodes && k !in pending ==> nodes[k].gCost == Inf && nodes[k].parent == None
        invariant forall k :: k in nodes ==> nodes[k].edges == old(nodes[k].edges) && nodes[k].hCost == old(nodes[k].hCost)
        decreases pending
      {
        var k :| k in pending;
        var n := nodes[k];
        n.gCost := Inf;
        n.parent := None;
        pending := pending - {k};
      }
    }
  }

  /**
   * `reset_costs` as written leaves a node's cost from an earlier search in
   * place: the node keeps `g_cost` 5 after the reset.
   */
  method ResetCostsKeepsStaleCost() returns (g: Graph, n: Node)
    ensures n.id in g.nodes && g.nodes[n.id] == n
    ensures g.hasStrayCostAttributes && n.gCost == Fin(5) && n.gCost != Inf
  {
    g := new Graph();
    n := g.AddNode(0, 0, "C");
    n.gCost := Fin(5);
    g.ResetCosts();
  }

  /** A map that stores each node under its own id holds as many nodes as ids. */
  lemma {:induction false} KeyedByIdCard(m: map<Id, Node>)
    ensures (forall k :: k in m ==> m[k].id == k) ==> |m.Values| == |m|
    decreases |m|
  {
    if m != map[] && forall k :: k in m ==> m[k].id == k {
      var k :| k in m;
      var rest := m - {k};
      KeyedByIdCard(rest);
      forall v | v in m.Values
        ensures v in rest.Values + {m[k]}
      {
        var j :| j in m && m[j] == v;
        if j != k {
          assert j in rest;
        }
      }
      assert m.Values == rest.Values + {m[k]};
      assert m[k] !in rest.Values;
      assert m.Keys == rest.Keys + {k};
    }
  }
}
