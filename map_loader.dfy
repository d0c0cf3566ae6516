/**
 * The graph builder of programa/models/map_loader.py: one node per grid
 * cell, then, for every scanned cell, the edges that the cell's token and
 * its four neighbours' tokens allow, weighted by the target's token.
 */
module MapLoading {

  import opened Wrappers
  import opened Graphs
  import PyText

  /** Rows of cell texts as the csv reader yields them (not yet stripped). */
  type Grid = seq<seq<string>>

  /**
   * The column count is taken from row 0 (line 30) and every scanned row is
   * indexed with it, so no row may be shorter than row 0.
   */
  predicate RowsCoverFirstRow(grid: Grid) {
    forall y :: 0 <= y < |grid| ==> |grid[y]| >= |grid[0]|
  }

  /** Line 30: `cols`. */
  function Cols(grid: Grid): nat {
    if |grid| > 0 then |grid[0]| else 0
  }

  /** Row `y`, column `x` lies inside the scanned rectangle `rows x cols`. */
  predicate InScan(grid: Grid, x: int, y: int) {
    0 <= x < Cols(grid) && 0 <= y < |grid|
  }

  /** The stripped tokens that the nodes hold (line 23). */
  function Tokens(grid: Grid): (t: Grid)
    ensures |t| == |grid|
    ensures forall y :: 0 <= y < |grid| ==> |t[y]| == |grid[y]|
    ensures forall y, x :: 0 <= y < |grid| && 0 <= x < |grid[y]| ==> t[y][x] == PyText.Strip(grid[y][x])
    ensures RowsCoverFirstRow(grid) ==> RowsCoverFirstRow(t)
  {
    seq(|grid|, y requires 0 <= y < |grid| =>
      seq(|grid[y]|, x requires 0 <= x < |grid[y]| => PyText.Strip(grid[y][x])))
  }

  // -----------------------------------------------------------------------
  // Directions (lines 63-68) and the movement rules (lines 78-95)
  // -----------------------------------------------------------------------

  /** 'N' up, 'S' down, 'L' left, 'R' right. */
  datatype Dir = North | South | West | East

  /** The neighbour order of lines 63-68. */
  const Neighbours: seq<Dir> := [North, South, West, East]

  function Rank(d: Dir): nat {
    match d
    case North => 0
    case South => 1
    case West => 2
    case East => 3
  }

  /** The token of the one-way cell that points in direction `d`. */
  function Arrow(d: Dir): string {
    match d
    case North => "N"
    case South => "S"
    case West => "L"
    case East => "R"
  }

  /** The neighbour of (x, y) in direction `d`. */
  function Toward(d: Dir, x: int, y: int): (c: (int, int))
    ensures c.0 == x || c.1 == y
    ensures c.0 - x + c.1 - y == 1 || x - c.0 + y - c.1 == 1
  {
    match d
    case North => (x, y - 1)
    case South => (x, y + 1)
    case West => (x - 1, y)
    case East => (x + 1, y)
  }

  /** Lines 78-95: whether a cell holding `source` may move into the neighbour holding `target` in direction `d`. */
  predicate CanMove(source: string, target: string, d: Dir) {
    if source == "N" && d == North then true
    else if source == "S" && d == South then true
    else if source == "L" && d == West then true
    else if source == "R" && d == East then true
    else if source == "C" then target == Arrow(d) || target == "C" || target == "SF"
    else false
  }

  // -----------------------------------------------------------------------
  // Costs (lines 42-44) and weights (lines 103-106)
  // -----------------------------------------------------------------------

  function StreetCost(isPeakHour: bool): nat { 2 }

  function AvenueCost(isPeakHour: bool): nat {
    if isPeakHour then 4 else 1
  }

  function CrossingCost(isPeakHour: bool): nat {
    if isPeakHour then 3 else 2
  }

  /** The weight of an edge into a cell holding `target`. */
  function Weight(target: string, isPeakHour: bool): (w: nat)
    ensures 1 <= w <= 4
  {
    if target == "L" || target == "R" then StreetCost(isPeakHour)
    else if target == "N" || target == "S" then AvenueCost(isPeakHour)
    else if target == "C" then CrossingCost(isPeakHour)
    else 1
  }

  // -----------------------------------------------------------------------
  // The edges that the builder gives one cell
  // -----------------------------------------------------------------------

  /**
   * Cell (x, y) of token grid `t` gets an edge toward `d`: it is scanned and
   * not blocked, the neighbour is inside the scanned rectangle and not
   * blocked, and the movement rule allows the move.
   */
  predicate Connects(t: Grid, x: int, y: int, d: Dir)
    requires RowsCoverFirstRow(t)
  {
    var c := Toward(d, x, y);
    && InScan(t, x, y)
    && t[y][x] != "0"
    && InScan(t, c.0, c.1)
    && t[c.1][c.0] != "0"
    && CanMove(t[y][x], t[c.1][c.0], d)
  }

  /** The edge toward `d`: the neighbour's id, weighted by the neighbour's token. */
  function EdgeToward(t: Grid, x: int, y: int, d: Dir, isPeakHour: bool): Edge
    requires RowsCoverFirstRow(t) && Connects(t, x, y, d)
  {
    var c := Toward(d, x, y);
    Edge(CoordId(c.0, c.1), Weight(t[c.1][c.0], isPeakHour))
  }

  /** The directions among `ds` in which the cell connects, in the order of `ds`. */
  function DirsAmong(t: Grid, x: int, y: int, ds: seq<Dir>): (r: seq<Dir>)
    requires RowsCoverFirstRow(t)
    decreases |ds|
  {
    if ds == [] then []
    else
      var last := ds[|ds| - 1];
      DirsAmong(t, x, y, ds[..|ds| - 1]) + (if Connects(t, x, y, last) then [last] else [])
  }

  /** The directions in which cell (x, y) gets edges. */
  function CellDirs(t: Grid, x: int, y: int): seq<Dir>
    requires RowsCoverFirstRow(t)
  {
    DirsAmong(t, x, y, Neighbours)
  }

  lemma {:induction false} DirsAmongConnect(t: Grid, x: int, y: int, ds: seq<Dir>)
    requires RowsCoverFirstRow(t)
    ensures forall i :: 0 <= i < |DirsAmong(t, x, y, ds)| ==> Connects(t, x, y, DirsAmong(t, x, y, ds)[i])
    decreases |ds|
  {
    if ds != [] {
      DirsAmongConnect(t, x, y, ds[..|ds| - 1]);
    }
  }

  /** The edges for a run of connecting directions, one per direction. */
  function EdgesAlong(t: Grid, x: int, y: int, dirs: seq<Dir>, isPeakHour: bool): (es: seq<Edge>)
    requires RowsCoverFirstRow(t)
    requires forall i :: 0 <= i < |dirs| ==> Connects(t, x, y, dirs[i])
    ensures |es| == |dirs|
  {
    seq(|dirs|, i requires 0 <= i < |dirs| => EdgeToward(t, x, y, dirs[i], isPeakHour))
  }

  /** The edge list the builder gives cell (x, y), in neighbour order. */
  function CellEdges(t: Grid, x: int, y: int, isPeakHour: bool): seq<Edge>
    requires RowsCoverFirstRow(t)
  {
    DirsAmongConnect(t, x, y, Neighbours);
    EdgesAlong(t, x, y, CellDirs(t, x, y), isPeakHour)
  }

  // -----------------------------------------------------------------------
  // Properties of the edge rules
  // -----------------------------------------------------------------------

  lemma {:induction false} DirsAmongExactly(t: Grid, x: int, y: int, ds: seq<Dir>, d: Dir)
    requires RowsCoverFirstRow(t)
    ensures d in DirsAmong(t, x, y, ds) <==> d in ds && Connects(t, x, y, d)
    decreases |ds|
  {
    if ds != [] {
      var front := ds[..|ds| - 1];
      DirsAmongExactly(t, x, y, front, d);
      assert ds == front + [ds[|ds| - 1]];
    }
  }

  /** A cell has an edge toward `d` exactly when the rules connect it toward `d`. */
  lemma CellDirsExactly(t: Grid, x: int, y: int, d: Dir)
    requires RowsCoverFirstRow(t)
    ensures d in CellDirs(t, x, y) <==> Connects(t, x, y, d)
  {
    DirsAmongExactly(t, x, y, Neighbours, d);
  }

  lemma {:induction false} DirsAmongKeepsOrder(t: Grid, x: int, y: int, ds: seq<Dir>)
    requires RowsCoverFirstRow(t)
    requires forall i, j :: 0 <= i < j < |ds| ==> Rank(ds[i]) < Rank(ds[j])
    ensures |DirsAmong(t, x, y, ds)| <= |ds|
    ensures forall i, j :: 0 <= i < j < |DirsAmong(t, x, y, ds)| ==>
              Rank(DirsAmong(t, x, y, ds)[i]) < Rank(DirsAmong(t, x, y, ds)[j])
    ensures forall i :: 0 <= i < |DirsAmong(t, x, y, ds)| ==> DirsAmong(t, x, y, ds)[i] in ds
    decreases |ds|
  {
    if ds != [] {
      var front := ds[..|ds| - 1];
      var last := ds[|ds| - 1];
      DirsAmongKeepsOrder(t, x, y, front);
      var r := DirsAmong(t, x, y, front);
      forall i | 0 <= i < |r|
        ensures Rank(r[i]) < Rank(last)
      {
        var j :| 0 <= j < |front| && front[j] == r[i];
      }
    }
  }

  /**
   * The edges of a cell are appended in neighbour order north, south, west,
   * east, so no direction occurs twice and a cell has at most four edges.
   */
  lemma CellDirsInNeighbourOrder(t: Grid, x: int, y: int)
    requires RowsCoverFirstRow(t)
    ensures |CellDirs(t, x, y)| <= 4
    ensures forall i, j :: 0 <= i < j < |CellDirs(t, x, y)| ==>
              Rank(CellDirs(t, x, y)[i]) < Rank(CellDirs(t, x, y)[j])
  {
    DirsAmongKeepsOrder(t, x, y, Neighbours);
  }

  /**
   * Every edge joins two unblocked cells of the scanned rectangle that are
   * at Manhattan distance 1, and weighs what the target's token costs.
   */
  lemma EdgeEndpoints(t: Grid, x: int, y: int, isPeakHour: bool, i: nat)
    requires RowsCoverFirstRow(t)
    requires i < |CellEdges(t, x, y, isPeakHour)|
    ensures var d := CellDirs(t, x, y)[i];
            var c := Toward(d, x, y);
            && InScan(t, x, y) && InScan(t, c.0, c.1)
            && CellEdges(t, x, y, isPeakHour)[i] == Edge(CoordId(c.0, c.1), Weight(t[c.1][c.0], isPeakHour))
            && t[y][x] != "0" && t[c.1][c.0] != "0"
            && (c.0 == x || c.1 == y)
            && (c.0 - x + c.1 - y == 1 || x - c.0 + y - c.1 == 1)
  {
    DirsAmongConnect(t, x, y, Neighbours);
  }

  /** A blocked cell gets no edge. */
  lemma BlockedCellHasNoEdges(t: Grid, x: int, y: int, isPeakHour: bool)
    requires RowsCoverFirstRow(t) && 0 <= y < |t| && 0 <= x < |t[y]| && t[y][x] == "0"
    ensures CellEdges(t, x, y, isPeakHour) == []
  {
    forall d: Dir ensures !Connects(t, x, y, d) {}
    NoConnectionNoEdges(t, x, y, isPeakHour);
  }

  lemma NoConnectionNoEdges(t: Grid, x: int, y: int, isPeakHour: bool)
    requires RowsCoverFirstRow(t)
    requires forall d: Dir :: !Connects(t, x, y, d)
    ensures CellDirs(t, x, y) == [] && CellEdges(t, x, y, isPeakHour) == []
  {
    if CellDirs(t, x, y) != [] {
      CellDirsExactly(t, x, y, CellDirs(t, x, y)[0]);
    }
  }

  /** No edge enters a blocked cell. */
  lemma NoEdgeIntoBlocked(t: Grid, x: int, y: int, isPeakHour: bool, tx: int, ty: int)
    requires RowsCoverFirstRow(t) && InScan(t, tx, ty) && t[ty][tx] == "0"
    ensures forall e :: e in CellEdges(t, x, y, isPeakHour) ==> e.target != CoordId(tx, ty)
  {
    forall e | e in CellEdges(t, x, y, isPeakHour)
      ensures e.target != CoordId(tx, ty)
    {
      var i :| 0 <= i < |CellEdges(t, x, y, isPeakHour)| && CellEdges(t, x, y, isPeakHour)[i] == e;
      EdgeEndpoints(t, x, y, isPeakHour, i);
      var c := Toward(CellDirs(t, x, y)[i], x, y);
      if e.target == CoordId(tx, ty) {
        CoordIdInjective(c.0, c.1, tx, ty);
      }
    }
  }

  predicate IsArrow(token: string) {
    token == "N" || token == "S" || token == "L" || token == "R"
  }

  /** The direction an arrow token points in. */
  function ArrowDir(token: string): (d: Dir)
    requires IsArrow(token)
    ensures Arrow(d) == token
  {
    if token == "N" then North else if token == "S" then South else if token == "L" then West else East
  }

  /**
   * A one-way cell gets one edge, in its arrow's direction, exactly when that
   * neighbour is in the scanned rectangle and not blocked, whatever its token.
   */
  lemma ArrowCellDirs(t: Grid, x: int, y: int)
    requires RowsCoverFirstRow(t) && InScan(t, x, y) && IsArrow(t[y][x])
    ensures var d := ArrowDir(t[y][x]);
            var c := Toward(d, x, y);
            CellDirs(t, x, y) == if InScan(t, c.0, c.1) && t[c.1][c.0] != "0" then [d] else []
  {
    var d := ArrowDir(t[y][x]);
    forall d' | d' != d ensures !Connects(t, x, y, d') {}
    CellDirsInNeighbourOrder(t, x, y);
    if Connects(t, x, y, d) {
      CellDirsExactly(t, x, y, d);
      var r := CellDirs(t, x, y);
      forall i | 0 <= i < |r| ensures r[i] == d {
        CellDirsExactly(t, x, y, r[i]);
      }
      RepeatedDirIsSingle(r, d);
    } else {
      NoConnectionNoEdges(t, x, y, false);
    }
  }

  lemma RepeatedDirIsSingle(r: seq<Dir>, d: Dir)
    requires forall i :: 0 <= i < |r| ==> r[i] == d
    requires forall i, j :: 0 <= i < j < |r| ==> Rank(r[i]) < Rank(r[j])
    ensures |r| <= 1
  {
    if r != [] {
      RankSpread(r);
    }
  }

  lemma {:induction false} RankSpread(r: seq<Dir>)
    requires r != []
    requires forall i, j :: 0 <= i < j < |r| ==> Rank(r[i]) < Rank(r[j])
    ensures Rank(r[|r| - 1]) >= Rank(r[0]) + |r| - 1
  {
    if |r| > 1 {
      RankSpread(r[..|r| - 1]);
    }
  }

  /**
   * An intersection emits toward `d` exactly when that neighbour is in the
   * scanned rectangle and holds the arrow pointing along `d`, "C" or "SF".
   */
  lemma CrossingCellDirs(t: Grid, x: int, y: int, d: Dir)
    requires RowsCoverFirstRow(t) && InScan(t, x, y) && t[y][x] == "C"
    ensures var c := Toward(d, x, y);
            d in CellDirs(t, x, y) <==>
              InScan(t, c.0, c.1) && (t[c.1][c.0] == Arrow(d) || t[c.1][c.0] == "C" || t[c.1][c.0] == "SF")
  {
    CellDirsExactly(t, x, y, d);
  }

  /** "SF", "ND" and every token without a rule get no edges. */
  lemma SinkCellHasNoEdges(t: Grid, x: int, y: int, isPeakHour: bool)
    requires RowsCoverFirstRow(t) && 0 <= y < |t| && 0 <= x < |t[y]|
    requires !IsArrow(t[y][x]) && t[y][x] != "C"
    ensures CellEdges(t, x, y, isPeakHour) == []
  {
    forall d: Dir ensures !Connects(t, x, y, d) {}
    NoConnectionNoEdges(t, x, y, isPeakHour);
  }

  /**
   * The peak flag decides only the weights: both lists have the same targets
   * in the same order, and every weight is the target token's weight.
   */
  lemma PeakChangesOnlyWeights(t: Grid, x: int, y: int)
    requires RowsCoverFirstRow(t)
    ensures |CellEdges(t, x, y, true)| == |CellEdges(t, x, y, false)|
    ensures forall i :: 0 <= i < |CellEdges(t, x, y, true)| ==>
              CellEdges(t, x, y, true)[i].target == CellEdges(t, x, y, false)[i].target
  {
  }

  // -----------------------------------------------------------------------
  // The builder (lines 9-110)
  // -----------------------------------------------------------------------

  predicate IsCell(t: Grid, x: int, y: int) {
    0 <= y < |t| && 0 <= x < |t[y]|
  }

  /** Cell (x', y') comes before cell (x, y) in the row-major scan. */
  predicate Before(x': int, y': int, x: int, y: int) {
    y' < y || (y' == y && x' < x)
  }

  /** The node state the builder gives cell (x, y) holding `token`: its id, its token, `edges` and fresh search fields. */
  function CellNode(x: int, y: int, token: string, edges: seq<Edge>): NodeView {
    NodeView(CoordId(x, y), x, y, token, edges, 0, Inf, None)
  }

  /** Every node sits at a cell of `t` and is stored under that cell's id. */
  ghost predicate KeyedByCell(m: map<Id, NodeView>, t: Grid) {
    forall k :: k in m ==> IsCell(t, m[k].x, m[k].y) && k == CoordId(m[k].x, m[k].y)
  }

  /**
   * The first pass (lines 20-23) has reached cell (x, y) of the token grid
   * `t`: every earlier cell has its node, stored under the cell's id, and
   * there are no other nodes.
   */
  ghost predicate NodesBefore(m: map<Id, NodeView>, t: Grid, x: int, y: int) {
    && KeyedByCell(m, t)
    && (forall k :: k in m ==> Before(m[k].x, m[k].y, x, y))
    && (forall y', x' :: IsCell(t, x', y') && Before(x', y', x, y) ==>
          CoordId(x', y') in m && m[CoordId(x', y')] == CellNode(x', y', t[y'][x'], []))
  }

  /** `m` is the graph built from token grid `t`: one node per cell, holding its token and the edges the rules give it. */
  ghost predicate Built(m: map<Id, NodeView>, t: Grid, isPeakHour: bool)
    requires RowsCoverFirstRow(t)
  {
    && KeyedByCell(m, t)
    && (forall y', x' :: IsCell(t, x', y') ==>
          CoordId(x', y') in m && m[CoordId(x', y')] == CellNode(x', y', t[y'][x'], CellEdges(t, x', y', isPeakHour)))
  }

  /** `plan` has one entry per cell of `t`. */
  predicate Shaped<T>(t: Grid, plan: seq<seq<T>>) {
    |plan| == |t| && forall y :: 0 <= y < |t| ==> |plan[y]| == |t[y]|
  }

  /** `plan` holds, cell by cell, the edge lists that the rules give the cells of `t`. */
  ghost predicate IsPlan(t: Grid, isPeakHour: bool, plan: seq<seq<seq<Edge>>>)
    requires RowsCoverFirstRow(t)
  {
    Shaped(t, plan) && forall y, x {:trigger CellEdges(t, x, y, isPeakHour)} :: IsCell(t, x, y) ==> plan[y][x] == CellEdges(t, x, y, isPeakHour)
  }

  ghost function Plan(t: Grid, isPeakHour: bool): (plan: seq<seq<seq<Edge>>>)
    requires RowsCoverFirstRow(t)
    ensures IsPlan(t, isPeakHour, plan)
  {
    seq(|t|, y requires 0 <= y < |t| => seq(|t[y]|, x requires 0 <= x < |t[y]| => CellEdges(t, x, y, isPeakHour)))
  }

  /**
   * The second pass (lines 54-108) has reached cell (x, y): one node per
   * cell of `t`, stored under the cell's id; the earlier cells hold their
   * planned edges, the later ones none.
   */
  ghost predicate LinkedBefore(m: map<Id, NodeView>, t: Grid, plan: seq<seq<seq<Edge>>>, x: int, y: int)
    requires Shaped(t, plan)
  {
    && KeyedByCell(m, t)
    && (forall y', x' :: IsCell(t, x', y') ==>
          && CoordId(x', y') in m
          && m[CoordId(x', y')] == CellNode(x', y', t[y'][x'], if Before(x', y', x, y) then plan[y'][x'] else []))
  }

  /** The graph object during the first pass: keyed by id, without stray attributes, and `NodesBefore` on its nodes. */
  ghost predicate FirstPassAt(g: Graph, t: Grid, x: int, y: int)
    reads g, g.nodes.Values
  {
    g.Valid() && !g.hasStrayCostAttributes && NodesBefore(g.View(), t, x, y)
  }

  // Steps of the first pass

  /** No node of the first pass has the id of the cell it is about to add. */
  lemma FreshCellId(m: map<Id, NodeView>, t: Grid, x: int, y: int)
    requires NodesBefore(m, t, x, y)
    ensures CoordId(x, y) !in m
  {
    if CoordId(x, y) in m {
      CoordIdInjective(m[CoordId(x, y)].x, m[CoordId(x, y)].y, x, y);
    }
  }

  lemma OneNodeAdded(m: map<Id, NodeView>, t: Grid, x: int, y: int)
    requires IsCell(t, x, y) && NodesBefore(m, t, x, y) && CoordId(x, y) !in m
    ensures NodesBefore(m[CoordId(x, y) := CellNode(x, y, t[y][x], [])], t, x + 1, y)
  {
    var m' := m[CoordId(x, y) := CellNode(x, y, t[y][x], [])];
    forall y', x' | IsCell(t, x', y') && Before(x', y', x + 1, y)
      ensures CoordId(x', y') in m' && m'[CoordId(x', y')] == CellNode(x', y', t[y'][x'], [])
    {
      if (x', y') != (x, y) {
        assert CoordId(x', y') in m;
      }
    }
  }

  lemma FirstPassDone(m: map<Id, NodeView>, t: Grid, plan: seq<seq<seq<Edge>>>)
    requires Shaped(t, plan) && NodesBefore(m, t, 0, |t|)
    ensures LinkedBefore(m, t, plan, 0, 0)
  {
  }

  // Steps of the second pass

  /** Every cell of `t` has a node holding the cell's token. */
  ghost predicate TokensAt(g: Graph, t: Grid)
    reads g, g.nodes.Values
  {
    forall y', x' :: IsCell(t, x', y') ==> CoordId(x', y') in g.nodes && g.nodes[CoordId(x', y')].value == t[y'][x']
  }

  /** During the second pass every cell's node holds the cell's token. */
  lemma LinkedTokens(g: Graph, t: Grid, plan: seq<seq<seq<Edge>>>, x: int, y: int)
    requires Shaped(t, plan) && LinkedBefore(g.View(), t, plan, x, y)
    ensures TokensAt(g, t)
  {
    forall y', x' | IsCell(t, x', y')
      ensures CoordId(x', y') in g.nodes && g.nodes[CoordId(x', y')].value == t[y'][x']
    {
      assert g.View()[CoordId(x', y')].value == t[y'][x'];
    }
  }

  /** Giving cell (x, y) its planned edges moves the second pass one cell on. */
  lemma OneCellLinked(m: map<Id, NodeView>, t: Grid, plan: seq<seq<seq<Edge>>>, x: int, y: int)
    requires Shaped(t, plan) && IsCell(t, x, y) && LinkedBefore(m, t, plan, x, y)
    ensures LinkedBefore(m[CoordId(x, y) := CellNode(x, y, t[y][x], plan[y][x])], t, plan, x + 1, y)
  {
    var m' := m[CoordId(x, y) := CellNode(x, y, t[y][x], plan[y][x])];
    forall y', x' | IsCell(t, x', y')
      ensures CoordId(x', y') in m'
      ensures m'[CoordId(x', y')] == CellNode(x', y', t[y'][x'], if Before(x', y', x + 1, y) then plan[y'][x'] else [])
    {
      if (x', y') != (x, y) {
        if CoordId(x', y') == CoordId(x, y) {
          CoordIdInjective(x', y', x, y);
        }
      }
    }
    forall k | k in m'
      ensures IsCell(t, m'[k].x, m'[k].y) && k == CoordId(m'[k].x, m'[k].y)
    {
      if k != CoordId(x, y) {
        assert m'[k] == m[k];
      }
    }
  }

  /** A cell whose plan is empty is linked without change. */
  lemma EmptyCellLinked(m: map<Id, NodeView>, t: Grid, plan: seq<seq<seq<Edge>>>, x: int, y: int)
    requires Shaped(t, plan) && IsCell(t, x, y) && LinkedBefore(m, t, plan, x, y) && plan[y][x] == []
    ensures LinkedBefore(m, t, plan, x + 1, y)
  {
    forall y', x' | IsCell(t, x', y')
      ensures CoordId(x', y') in m
      ensures m[CoordId(x', y')] == CellNode(x', y', t[y'][x'], if Before(x', y', x + 1, y) then plan[y'][x'] else [])
    {
      assert m[CoordId(x', y')] == CellNode(x', y', t[y'][x'], if Before(x', y', x, y) then plan[y'][x'] else []);
      if (x', y') == (x, y) {
        assert plan[y'][x'] == [];
      }
    }
  }

  /** A blocked cell gets no edges (line 59). */
  lemma BlockedCellPlan(t: Grid, isPeakHour: bool, plan: seq<seq<seq<Edge>>>, x: int, y: int)
    requires RowsCoverFirstRow(t) && IsPlan(t, isPeakHour, plan) && IsCell(t, x, y) && t[y][x] == "0"
    ensures plan[y][x] == []
  {
    BlockedCellHasNoEdges(t, x, y, isPeakHour);
  }

  /** The second pass skips a blocked cell (line 59), which is what its plan asks for. */
  lemma BlockedCellLinked(g: Graph, t: Grid, isPeakHour: bool, plan: seq<seq<seq<Edge>>>, x: int, y: int)
    requires RowsCoverFirstRow(t) && IsPlan(t, isPeakHour, plan) && IsCell(t, x, y)
    requires LinkedBefore(g.View(), t, plan, x, y)
    requires CoordId(x, y) in g.nodes && g.nodes[CoordId(x, y)].value == "0"
    ensures LinkedBefore(g.View(), t, plan, x + 1, y)
  {
    LinkedTokens(g, t, plan, x, y);
    BlockedCellPlan(t, isPeakHour, plan, x, y);
    EmptyCellLinked(g.View(), t, plan, x, y);
  }

  /** The cells right of the scanned rectangle get no edges. */
  lemma PlanBeyondScanIsEmpty(t: Grid, isPeakHour: bool, plan: seq<seq<seq<Edge>>>, y: int)
    requires RowsCoverFirstRow(t) && IsPlan(t, isPeakHour, plan) && 0 <= y < |t|
    ensures forall x' :: Cols(t) <= x' < |t[y]| ==> plan[y][x'] == []
  {
    forall x' | Cols(t) <= x' < |t[y]|
      ensures plan[y][x'] == []
    {
      NoConnectionNoEdges(t, x', y, isPeakHour);
    }
  }

  /** Once the scanned part of row `y` is linked, the whole row is. */
  lemma RowLinked(m: map<Id, NodeView>, t: Grid, plan: seq<seq<seq<Edge>>>, y: int)
    requires Shaped(t, plan) && 0 <= y < |t| && LinkedBefore(m, t, plan, Cols(t), y)
    requires forall x' :: Cols(t) <= x' < |t[y]| ==> plan[y][x'] == []
    ensures LinkedBefore(m, t, plan, 0, y + 1)
  {
  }

  lemma SecondPassDone(m: map<Id, NodeView>, t: Grid, isPeakHour: bool, plan: seq<seq<seq<Edge>>>)
    requires RowsCoverFirstRow(t) && IsPlan(t, isPeakHour, plan) && LinkedBefore(m, t, plan, 0, |t|)
    ensures Built(m, t, isPeakHour)
  {
  }

  // Properties of the built graph

  /** Every edge of a built graph leads to one of its nodes. */
  lemma EdgeLeadsToNode(m: map<Id, NodeView>, t: Grid, isPeakHour: bool, u: Id, e: Edge)
    requires RowsCoverFirstRow(t) && Built(m, t, isPeakHour)
    requires u in m && e in m[u].edges
    ensures e.target in m
  {
    var n := m[u];
    assert IsCell(t, n.x, n.y) && u == CoordId(n.x, n.y);
    var es := CellEdges(t, n.x, n.y, isPeakHour);
    assert n.edges == es;
    var i :| 0 <= i < |es| && es[i] == e;
    EdgeEndpoints(t, n.x, n.y, isPeakHour, i);
    var c := Toward(CellDirs(t, n.x, n.y)[i], n.x, n.y);
    assert IsCell(t, c.0, c.1);
  }

  /** A built graph is closed: every edge leads to one of its nodes. */
  lemma BuiltIsClosed(g: Graph, t: Grid, isPeakHour: bool)
    requires RowsCoverFirstRow(t) && Built(g.View(), t, isPeakHour)
    ensures Closed(g.Adj())
  {
    forall u: Id, e: Edge | u in g.Adj() && e in g.Adj()[u]
      ensures e.target in g.Adj()
    {
      assert g.Adj()[u] == g.View()[u].edges;
      EdgeLeadsToNode(g.View(), t, isPeakHour, u, e);
    }
  }

  // The code of the two passes

  lemma DirsAmongSnoc(t: Grid, x: int, y: int, ds: seq<Dir>, d: Dir)
    requires RowsCoverFirstRow(t)
    ensures DirsAmong(t, x, y, ds + [d]) == DirsAmong(t, x, y, ds) + (if Connects(t, x, y, d) then [d] else [])
  {
    assert (ds + [d])[..|ds|] == ds;
  }

  /** Appending the direction `d` when it connects appends its edge. */
  lemma EdgesAlongStep(t: Grid, x: int, y: int, dirs: seq<Dir>, d: Dir, isPeakHour: bool)
    requires RowsCoverFirstRow(t)
    requires forall i :: 0 <= i < |dirs| ==> Connects(t, x, y, dirs[i])
    ensures var next := dirs + (if Connects(t, x, y, d) then [d] else []);
            && (forall i :: 0 <= i < |next| ==> Connects(t, x, y, next[i]))
            && EdgesAlong(t, x, y, next, isPeakHour)
               == EdgesAlong(t, x, y, dirs, isPeakHour) + (if Connects(t, x, y, d) then [EdgeToward(t, x, y, d, isPeakHour)] else [])
  {
    if !Connects(t, x, y, d) {
      assert dirs + [] == dirs;
    }
  }

  /** Trying the neighbour `Neighbours[i]` appends its edge when it connects. */
  lemma NeighbourStep(t: Grid, x: int, y: int, i: int, isPeakHour: bool)
    requires RowsCoverFirstRow(t) && 0 <= i < 4
    ensures var dirs, next := DirsAmong(t, x, y, Neighbours[..i]), DirsAmong(t, x, y, Neighbours[..i + 1]);
            && (forall j :: 0 <= j < |dirs| ==> Connects(t, x, y, dirs[j]))
            && (forall j :: 0 <= j < |next| ==> Connects(t, x, y, next[j]))
            && EdgesAlong(t, x, y, next, isPeakHour)
               == EdgesAlong(t, x, y, dirs, isPeakHour)
                  + (if Connects(t, x, y, Neighbours[i]) then [EdgeToward(t, x, y, Neighbours[i], isPeakHour)] else [])
  {
    assert Neighbours[..i + 1] == Neighbours[..i] + [Neighbours[i]];
    DirsAmongSnoc(t, x, y, Neighbours[..i], Neighbours[i]);
    DirsAmongConnect(t, x, y, Neighbours[..i]);
    EdgesAlongStep(t, x, y, DirsAmong(t, x, y, Neighbours[..i]), Neighbours[i], isPeakHour);
  }

  /** Lines 82-95: the `can_move` cascade. */
  method MayMove(val: string, nVal: string, direction: Dir) returns (canMove: bool)
    ensures canMove == CanMove(val, nVal, direction)
  {
    canMove := false;
    if val == "N" && direction == North { canMove := true; }
    else if val == "S" && direction == South { canMove := true; }
    else if val == "L" && direction == West { canMove := true; }
    else if val == "R" && direction == East { canMove := true; }
    else if val == "C" {
      if direction == North && nVal in ["N", "C", "SF"] { canMove := true; }
      if direction == South && nVal in ["S", "C", "SF"] { canMove := true; }
      if direction == West && nVal in ["L", "C", "SF"] { canMove := true; }
      if direction == East && nVal in ["R", "C", "SF"] { canMove := true; }
    }
  }

  /** Lines 103-106: the weight of a move into a cell holding `nVal`. */
  method EdgeWeight(nVal: string, costStreet: nat, costAvenue: nat, costCrossing: nat, ghost isPeakHour: bool)
    returns (weight: nat)
    requires costStreet == StreetCost(isPeakHour) && costAvenue == AvenueCost(isPeakHour)
    requires costCrossing == CrossingCost(isPeakHour)
    ensures weight == Weight(nVal, isPeakHour)
  {
    weight := 1;
    if nVal in ["L", "R"] { weight := costStreet; }
    else if nVal in ["N", "S"] { weight := costAvenue; }
    else if nVal == "C" { weight := costCrossing; }
  }

  /**
   * Lines 71-108 for the neighbour (nx, ny) of the scanned cell (x, y) in
   * direction `direction`: if it lies in the scanned rectangle, is not
   * blocked and the move is allowed, append the edge to it.
   */
  method TryNeighbour(g: Graph, current: Node, ghost t: Grid, x: int, y: int, nx: int, ny: int, direction: Dir,
                      rows: int, cols: int, costStreet: nat, costAvenue: nat, costCrossing: nat, ghost isPeakHour: bool)
    requires RowsCoverFirstRow(t) && rows == |t| && cols == Cols(t)
    requires costStreet == StreetCost(isPeakHour) && costAvenue == AvenueCost(isPeakHour)
    requires costCrossing == CrossingCost(isPeakHour)
    requires g.Valid()
    requires TokensAt(g, t)
    requires InScan(t, x, y) && current.value == t[y][x] && t[y][x] != "0" && (nx, ny) == Toward(direction, x, y)
    modifies current
    ensures current.edges == old(current.edges) + (if Connects(t, x, y, direction) then [EdgeToward(t, x, y, direction, isPeakHour)] else [])
    ensures current.hCost == old(current.hCost) && current.gCost == old(current.gCost) && current.parent == old(current.parent)
  {
    if 0 <= nx < cols && 0 <= ny < rows {
      assert IsCell(t, nx, ny);
      var neighbour := g.GetNode(nx, ny);
      var nVal := neighbour.value;
      if nVal != "0" {
        var canMove := MayMove(current.value, nVal, direction);
        if canMove {
          var weight := EdgeWeight(nVal, costStreet, costAvenue, costCrossing, isPeakHour);
          current.AddEdge(neighbour.id, weight);
        }
      }
    }
  }

  /**
   * Lines 62-108 for the scanned, unblocked cell (x, y) whose node is
   * `current`: try the four neighbours in order and append an edge for
   * every allowed move. `costStreet`, `costAvenue` and `costCrossing` are
   * the constants of lines 42-44.
   */
  method ConnectCell(g: Graph, current: Node, ghost t: Grid, x: int, y: int, rows: int, cols: int,
                     costStreet: nat, costAvenue: nat, costCrossing: nat, ghost isPeakHour: bool)
    requires RowsCoverFirstRow(t) && rows == |t| && cols == Cols(t)
    requires costStreet == StreetCost(isPeakHour) && costAvenue == AvenueCost(isPeakHour)
    requires costCrossing == CrossingCost(isPeakHour)
    requires g.Valid()
    requires TokensAt(g, t)
    requires InScan(t, x, y) && current.value == t[y][x] && t[y][x] != "0"
    modifies current
    ensures current.edges == old(current.edges) + CellEdges(t, x, y, isPeakHour)
    ensures current.hCost == old(current.hCost) && current.gCost == old(current.gCost) && current.parent == old(current.parent)
  {
    var neighbours := [(x, y - 1, North), (x, y + 1, South), (x - 1, y, West), (x + 1, y, East)];
    ghost var before := current.edges;
    ghost var dirs: seq<Dir> := [];
    var i := 0;
    while i < 4
      invariant 0 <= i <= 4 && dirs == DirsAmong(t, x, y, Neighbours[..i])
      invariant forall j :: 0 <= j < |dirs| ==> Connects(t, x, y, dirs[j])
      invariant current.edges == before + EdgesAlong(t, x, y, dirs, isPeakHour)
      invariant current.hCost == old(current.hCost) && current.gCost == old(current.gCost) && current.parent == old(current.parent)
    {
      var (nx, ny, direction) := neighbours[i];
      assert direction == Neighbours[i] && (nx, ny) == Toward(direction, x, y);
      NeighbourStep(t, x, y, i, isPeakHour);
      TryNeighbour(g, current, t, x, y, nx, ny, direction, rows, cols, costStreet, costAvenue, costCrossing, isPeakHour);
      dirs := DirsAmong(t, x, y, Neighbours[..i + 1]);
      i := i + 1;
    }
    assert Neighbours[..4] == Neighbours;
  }

  /** Line 23 for cell (x, y), as a step of the first pass. */
  method AddCellNode(graph: Graph, ghost t: Grid, x: int, y: int, token: string)
    requires IsCell(t, x, y) && t[y][x] == token
    requires FirstPassAt(graph, t, x, y)
    modifies graph
    ensures FirstPassAt(graph, t, x + 1, y)
    ensures fresh(graph.nodes.Values - old(graph.nodes.Values))
  {
    ghost var m := graph.View();
    FreshCellId(m, t, x, y);
    var n := graph.AddNode(x, y, token);
    assert n.View() == CellNode(x, y, t[y][x], []);
    OneNodeAdded(m, t, x, y);
  }

  /** Lines 21-23 for row `y`: one node per cell of the row, holding the stripped text. */
  method AddRowNodes(graph: Graph, row: seq<string>, y: int, ghost t: Grid)
    requires 0 <= y < |t| && t[y] == seq(|row|, x requires 0 <= x < |row| => PyText.Strip(row[x]))
    requires FirstPassAt(graph, t, 0, y)
    modifies graph
    ensures FirstPassAt(graph, t, 0, y + 1)
    ensures fresh(graph.nodes.Values - old(graph.nodes.Values))
  {
    var x := 0;
    while x < |row|
      invariant 0 <= x <= |row|
      invariant FirstPassAt(graph, t, x, y)
      invariant fresh(graph.nodes.Values - old(graph.nodes.Values))
    {
      AddCellNode(graph, t, x, y, PyText.Strip(row[x]));
      x := x + 1;
    }
  }

  /** Lines 62-108 for one unblocked cell, as a step of the second pass. */
  method LinkCell(g: Graph, current: Node, ghost t: Grid, ghost plan: seq<seq<seq<Edge>>>, x: int, y: int, rows: int, cols: int,
                  costStreet: nat, costAvenue: nat, costCrossing: nat, ghost isPeakHour: bool)
    requires RowsCoverFirstRow(t) && rows == |t| && cols == Cols(t) && Shaped(t, plan)
    requires costStreet == StreetCost(isPeakHour) && costAvenue == AvenueCost(isPeakHour)
    requires costCrossing == CrossingCost(isPeakHour)
    requires g.Valid() && InScan(t, x, y) && LinkedBefore(g.View(), t, plan, x, y) && IsPlan(t, isPeakHour, plan)
    requires CoordId(x, y) in g.nodes && current == g.nodes[CoordId(x, y)] && current.value != "0"
    modifies current
    ensures LinkedBefore(g.View(), t, plan, x + 1, y)
  {
    assert IsCell(t, x, y) && plan[y][x] == CellEdges(t, x, y, isPeakHour);
    ghost var m := g.View();
    ghost var id := CoordId(x, y);
    LinkedTokens(g, t, plan, x, y);
    assert m[id] == current.View() == CellNode(x, y, t[y][x], []);
    ConnectCell(g, current, t, x, y, rows, cols, costStreet, costAvenue, costCrossing, isPeakHour);
    forall k | k in g.nodes
      ensures g.View()[k] == m[id := CellNode(x, y, t[y][x], plan[y][x])][k]
    {
      if k != id {
        assert g.nodes[k] != current;
      }
    }
    assert g.View() == m[id := CellNode(x, y, t[y][x], plan[y][x])];
    OneCellLinked(m, t, plan, x, y);
  }

  /** Lines 55-108 for row `y` of the scanned rectangle. */
  method ConnectRow(graph: Graph, ghost t: Grid, ghost plan: seq<seq<seq<Edge>>>, y: int, rows: int, cols: int,
                    costStreet: nat, costAvenue: nat, costCrossing: nat, ghost isPeakHour: bool)
    requires RowsCoverFirstRow(t) && rows == |t| && cols == Cols(t) && 0 <= y < rows
    requires costStreet == StreetCost(isPeakHour) && costAvenue == AvenueCost(isPeakHour)
    requires costCrossing == CrossingCost(isPeakHour)
    requires graph.Valid() && IsPlan(t, isPeakHour, plan) && LinkedBefore(graph.View(), t, plan, 0, y)
    modifies graph.nodes.Values
    ensures graph.nodes == old(graph.nodes)
    ensures LinkedBefore(graph.View(), t, plan, 0, y + 1)
  {
    var x := 0;
    while x < cols
      invariant 0 <= x <= cols && graph.nodes == old(graph.nodes)
      invariant LinkedBefore(graph.View(), t, plan, x, y)
    {
      assert IsCell(t, x, y);
      var current := graph.GetNode(x, y);
      var val := current.value;
      if val == "0" {
        BlockedCellLinked(graph, t, isPeakHour, plan, x, y);
      } else {
        LinkCell(graph, current, t, plan, x, y, rows, cols, costStreet, costAvenue, costCrossing, isPeakHour);
      }
      x := x + 1;
    }
    PlanBeyondScanIsEmpty(t, isPeakHour, plan, y);
    RowLinked(graph.View(), t, plan, y);
  }

  /** Lines 54-108: the second pass, over the scanned rectangle `rows x cols`. */
  method ConnectCells(graph: Graph, ghost t: Grid, rows: int, cols: int,
                      costStreet: nat, costAvenue: nat, costCrossing: nat, ghost isPeakHour: bool)
    requires RowsCoverFirstRow(t) && rows == |t| && cols == Cols(t)
    requires costStreet == StreetCost(isPeakHour) && costAvenue == AvenueCost(isPeakHour)
    requires costCrossing == CrossingCost(isPeakHour)
    requires graph.Valid() && NodesBefore(graph.View(), t, 0, |t|)
    modifies graph.nodes.Values
    ensures graph.nodes == old(graph.nodes)
    ensures Built(graph.View(), t, isPeakHour)
  {
    ghost var plan := Plan(t, isPeakHour);
    FirstPassDone(graph.View(), t, plan);
    var y := 0;
    while y < rows
      invariant 0 <= y <= rows && graph.nodes == old(graph.nodes)
      invariant LinkedBefore(graph.View(), t, plan, 0, y)
    {
      ConnectRow(graph, t, plan, y, rows, cols, costStreet, costAvenue, costCrossing, isPeakHour);
      y := y + 1;
    }
    SecondPassDone(graph.View(), t, isPeakHour, plan);
  }

  class MapLoader {
    const filePath: string
    /** The rows as read, before stripping (line 21). */
    var rawMatrix: Grid

    constructor (filePath: string)
      ensures this.filePath == filePath && rawMatrix == []
    {
      this.filePath := filePath;
      rawMatrix := [];
    }

    /**
     * Lines 9-110. `contents` stands for what the csv reader yields from
     * `filePath`, `None` when the file does not exist (lines 24-26).
     */
    method LoadGraph(contents: Option<Grid>, isPeakHour: bool) returns (g: Graph?)
      requires contents.Some? ==> RowsCoverFirstRow(contents.value)
      modifies this
      ensures contents.None? ==> g == null && rawMatrix == []
      ensures contents.Some? ==> g != null && fresh(g) && fresh(g.nodes.Values) && rawMatrix == contents.value
      ensures contents.Some? ==> g != null && g.Valid() && !g.hasStrayCostAttributes
      ensures contents.Some? ==> g != null && Built(g.View(), Tokens(contents.value), isPeakHour)
      ensures g != null ==> Closed(g.Adj())
    {
      var graph := new Graph();
      rawMatrix := [];
      if contents.None? {
        return null;
      }
      var grid := contents.value;
      ghost var t := Tokens(grid);
      ReadRows(graph, grid);

      var rows := |rawMatrix|;
      var cols := if rows > 0 then |rawMatrix[0]| else 0;
      var costStreet := 2;
      var costAvenue := if isPeakHour then 4 else 1;
      var costCrossing := if isPeakHour then 3 else 2;
      ConnectCells(graph, t, rows, cols, costStreet, costAvenue, costCrossing, isPeakHour);
      BuiltIsClosed(graph, t, isPeakHour);
      return graph;
    }

    /** Lines 20-23: keep every row as read and add one node per cell, holding the stripped text. */
    method ReadRows(graph: Graph, grid: Grid)
      requires graph.Valid() && !graph.hasStrayCostAttributes && graph.nodes == map[] && rawMatrix == []
      modifies this, graph
      ensures rawMatrix == grid
      ensures FirstPassAt(graph, Tokens(grid), 0, |grid|)
      ensures fresh(graph.nodes.Values)
    {
      ghost var t := Tokens(grid);
      var y := 0;
      while y < |grid|
        invariant 0 <= y <= |grid| && rawMatrix == grid[..y]
        invariant FirstPassAt(graph, t, 0, y)
        invariant fresh(graph.nodes.Values)
      {
        rawMatrix := rawMatrix + [grid[y]];
        assert t[y] == seq(|grid[y]|, x requires 0 <= x < |grid[y]| => PyText.Strip(grid[y][x]));
        AddRowNodes(graph, grid[y], y, t);
        y := y + 1;
      }
      assert rawMatrix == grid;
    }
  }
}
