/**
 * The route logic of the window in programa/ui/main_window.py: the
 * peak-hour rule, picking the start and end cells by clicking, building
 * the route request, and the saved destinations (a name -> cell map shown
 * in a list box). Widgets, dialogs and drawing are not modelled: what a
 * dialog would return is a parameter.
 */
module MainUi {

  import opened Wrappers
  import opened Graphs
  import opened Walks
  import opened MapLoading
  import opened Pathfinding

  /** Line 121: the hours whose traffic makes avenues and crossings dearer. */
  predicate IsPeak(h: int) {
    (6 <= h <= 9) || (12 <= h <= 13) || (17 <= h <= 20)
  }

  /** Of the 24 hours of a day exactly these ten are peak hours; 5, 10, 14, 16 and 21 are not. */
  lemma PeakHoursOfDay()
    ensures (set h | 0 <= h < 24 && IsPeak(h)) == {6, 7, 8, 9, 12, 13, 17, 18, 19, 20}
    ensures |set h | 0 <= h < 24 && IsPeak(h)| == 10
  {
    var peak := set h | 0 <= h < 24 && IsPeak(h);
    assert peak == {6, 7, 8, 9, 12, 13, 17, 18, 19, 20} by {
      forall h | h in {6, 7, 8, 9, 12, 13, 17, 18, 19, 20}
        ensures h in peak
      {
      }
    }
  }

  /** A selected grid cell `(x, y)`. */
  type Point = (int, int)

  /** The id `f"{x},{y}"` of a selected cell (lines 185-186). */
  function PointId(p: Point): Id {
    CoordId(p.0, p.1)
  }

  /** Two selected cells give the same route id only when they are the same cell. */
  lemma PointIdInjective(p: Point, q: Point)
    ensures PointId(p) == PointId(q) <==> p == q
  {
    if PointId(p) == PointId(q) {
      CoordIdInjective(p.0, p.1, q.0, q.1);
    }
  }

  /** What pressing "Calcular Ruta" leads to (lines 176-196). */
  datatype RouteOutcome =
    | NoMapLoaded
    | PointsNotSelected
      /** The map file could no longer be read: `find_path` then fails on the missing graph. */
    | MapUnreadable
    | Searched(startId: Id, endId: Id, path: Option<seq<Id>>, cost: Cost)

  /** A Python `KeyError` from a name the dictionary does not hold, or none. */
  datatype Outcome = Done | KeyError(name: string)

  /**
   * Every listed name is saved and every saved name is listed once: what
   * the destinations list box and dictionary are meant to agree on.
   */
  ghost predicate Agree(listed: seq<string>, saved: map<string, Point>) {
    && (forall i :: 0 <= i < |listed| ==> listed[i] in saved)
    && (forall n :: n in saved ==> n in listed)
    && (forall i, j :: 0 <= i < j < |listed| ==> listed[i] != listed[j])
  }

  /** Deleting a listed row and its name keeps the two in agreement, and the name was saved. */
  lemma RemoveKeepsAgree(listed: seq<string>, saved: map<string, Point>, i: int)
    requires Agree(listed, saved) && 0 <= i < |listed|
    ensures listed[i] in saved && Agree(listed[..i] + listed[i + 1..], saved - {listed[i]})
  {
    var rest, left := listed[..i] + listed[i + 1..], saved - {listed[i]};
    assert |rest| == |listed| - 1;
    assert forall k :: 0 <= k < i ==> rest[k] == listed[k];
    assert forall k :: i <= k < |rest| ==> rest[k] == listed[k + 1];
    forall n | n in left
      ensures n in rest
    {
      var k :| 0 <= k < |listed| && listed[k] == n;
      assert rest[if k < i then k else k - 1] == n;
    }
    forall a, b | 0 <= a < b < |rest|
      ensures rest[a] != rest[b]
    {
      assert rest[a] == listed[if a < i then a else a + 1];
    }
  }

  /** Saving a name once keeps the two in agreement: a new name is appended, a known one keeps its row. */
  lemma SaveKeepsAgree(listed: seq<string>, saved: map<string, Point>, name: string, p: Point)
    requires Agree(listed, saved)
    ensures Agree(if name in saved then listed else listed + [name], saved[name := p])
  {
    if name !in saved {
      var more := listed + [name];
      forall a, b | 0 <= a < b < |more|
        ensures more[a] != more[b]
      {
        if b == |listed| {
          assert more[a] == listed[a];
        }
      }
      assert forall n :: n in saved ==> n in more by {
        forall n | n in saved
          ensures n in more
        {
          var k :| 0 <= k < |listed| && listed[k] == n;
          assert more[k] == n;
        }
      }
    }
  }

  /** Saving a name twice, as written, lists it twice. */
  lemma SaveTwiceBreaksAgree(listed: seq<string>, saved: map<string, Point>, name: string, p: Point, q: Point)
    requires Agree(listed, saved)
    ensures !Agree(listed + [name] + [name], saved[name := p][name := q])
  {
    var twice := listed + [name] + [name];
    assert twice[|listed|] == twice[|listed| + 1];
  }

  /** `g` is what `load_graph` builds from `grid` for the given peak flag: one node per cell, the edges the rules allow. */
  ghost predicate LoadedFrom(g: Graph, grid: Grid, isPeak: bool)
    reads g, g.nodes.Values
  {
    RowsCoverFirstRow(grid) && g.Valid() && Closed(g.Adj()) && Built(g.View(), Tokens(grid), isPeak)
  }

  class MainWindow {
    var graph: Graph?
    var mapLoader: MapLoader?
    var startPoint: Option<Point>
    var endPoint: Option<Point>
    /** `self.destinations`: name -> cell. */
    var destinations: map<string, Point>
    /** The names shown in the destinations list box, in order. */
    var listed: seq<string>
    /** The hour the spin box shows. */
    var hour: int

    /** A graph is only ever built by a map loader. */
    ghost predicate Valid()
      reads this
    {
      graph != null ==> mapLoader != null
    }

    /** The list box and the dictionary agree. */
    ghost predicate Listed()
      reads this
    {
      Agree(listed, destinations)
    }

    /** Lines 15-20 and 57: nothing loaded, nothing selected, nothing saved, the spin box at 12. */
    constructor ()
      ensures graph == null && mapLoader == null && startPoint == None && endPoint == None
      ensures destinations == map[] && listed == [] && hour == 12
      ensures Valid() && Listed()
    {
      graph := null;
      mapLoader := null;
      startPoint := None;
      endPoint := None;
      destinations := map[];
      listed := [];
      hour := 12;
    }

    /**
     * Lines 111-126: rebuild the graph from the loader for the shown hour;
     * with no loader nothing happens. `contents` is what the loader's file
     * holds now.
     */
    method RefreshGraph(contents: Option<Grid>)
      requires Valid() && (contents.Some? ==> RowsCoverFirstRow(contents.value))
      modifies this, mapLoader
      ensures Valid() && mapLoader == old(mapLoader)
      ensures startPoint == old(startPoint) && endPoint == old(endPoint) && hour == old(hour)
      ensures destinations == old(destinations) && listed == old(listed)
      ensures mapLoader == null ==> graph == old(graph)
      ensures mapLoader != null && contents.None? ==> graph == null
      ensures mapLoader != null && contents.Some? ==>
                graph != null && fresh(graph) && fresh(graph.nodes.Values) && LoadedFrom(graph, contents.value, IsPeak(hour))
      ensures mapLoader != null ==> mapLoader.rawMatrix == (if contents.Some? then contents.value else [])
    {
      if mapLoader == null {
        return;
      }
      var isPeak := IsPeak(hour);
      var g := mapLoader.LoadGraph(contents, isPeak);
      assert contents.Some? ==> g != null && LoadedFrom(g, contents.value, isPeak);
      graph := g;
    }

    /** Lines 106-107: a new loader for the chosen file, and its graph. */
    method LoadMap(filePath: string, contents: Option<Grid>)
      requires contents.Some? ==> RowsCoverFirstRow(contents.value)
      modifies this
      ensures Valid() && mapLoader != null && fresh(mapLoader) && mapLoader.filePath == filePath
      ensures startPoint == old(startPoint) && endPoint == old(endPoint) && hour == old(hour)
      ensures destinations == old(destinations) && listed == old(listed)
      ensures contents.None? ==> graph == null
      ensures contents.Some? ==>
                graph != null && fresh(graph) && LoadedFrom(graph, contents.value, IsPeak(hour))
      ensures mapLoader.rawMatrix == (if contents.Some? then contents.value else [])
    {
      mapLoader := new MapLoader(filePath);
      RefreshGraph(contents);
    }

    /** Line 131: the spin box now shows `h`, and the graph is rebuilt for it. */
    method OnHourChange(h: int, contents: Option<Grid>)
      requires Valid() && (contents.Some? ==> RowsCoverFirstRow(contents.value))
      modifies this, mapLoader
      ensures Valid() && hour == h && mapLoader == old(mapLoader)
      ensures startPoint == old(startPoint) && endPoint == old(endPoint)
      ensures destinations == old(destinations) && listed == old(listed)
      ensures mapLoader == null ==> graph == old(graph)
      ensures mapLoader != null && contents.None? ==> graph == null
      ensures mapLoader != null && contents.Some? ==>
                graph != null && fresh(graph) && LoadedFrom(graph, contents.value, IsPeak(h))
      ensures mapLoader != null ==> mapLoader.rawMatrix == (if contents.Some? then contents.value else [])
    {
      hour := h;
      RefreshGraph(contents);
    }

    /** A click on `(x, y)` reaches the window: a map is loaded and the cell is one of its cells, not blocked. */
    predicate Pickable(x: int, y: int)
      reads this, graph, if graph != null then graph.nodes.Values else {}
    {
      graph != null && CoordId(x, y) in graph.nodes && graph.nodes[CoordId(x, y)].value != "0"
    }

    /**
     * The canvas's click handler (map_canvas.py:117-127), on the window's
     * own graph, which the canvas is handed at main_window.py:108 and 126:
     * without a map, or on a missing or blocked cell, the click is dropped;
     * otherwise it goes to `OnMapClick`.
     */
    method OnCanvasClick(x: int, y: int)
      modifies this
      ensures !old(Pickable(x, y)) ==> startPoint == old(startPoint) && endPoint == old(endPoint)
      ensures old(Pickable(x, y)) && old(startPoint).None? ==> startPoint == Some((x, y)) && endPoint == old(endPoint)
      ensures old(Pickable(x, y)) && old(startPoint).Some? && old(endPoint).None? ==>
                startPoint == old(startPoint) && endPoint == Some((x, y))
      ensures old(startPoint).Some? && old(endPoint).Some? ==> startPoint == old(startPoint) && endPoint == old(endPoint)
      ensures graph == old(graph) && mapLoader == old(mapLoader) && hour == old(hour)
      ensures destinations == old(destinations) && listed == old(listed)
    {
      if graph == null {
        return;
      }
      var node := graph.GetNode(x, y);
      if node != null && node.value != "0" {
        OnMapClick(x, y);
      }
    }

    /**
     * Lines 141-158: the first click picks the start, the next the end, and
     * once both are picked a click changes nothing. The method itself does
     * not look at the cell; clicks without a map or on a blocked cell are
     * dropped before they get here, by the canvas (`OnCanvasClick`).
     */
    method OnMapClick(x: int, y: int)
      modifies this
      ensures old(startPoint).None? ==> startPoint == Some((x, y)) && endPoint == old(endPoint)
      ensures old(startPoint).Some? && old(endPoint).None? ==> startPoint == old(startPoint) && endPoint == Some((x, y))
      ensures old(startPoint).Some? && old(endPoint).Some? ==> startPoint == old(startPoint) && endPoint == old(endPoint)
      ensures graph == old(graph) && mapLoader == old(mapLoader) && hour == old(hour)
      ensures destinations == old(destinations) && listed == old(listed)
    {
      if startPoint.None? {
        startPoint := Some((x, y));
      } else if endPoint.None? {
        endPoint := Some((x, y));
      }
    }

    /** Lines 160-162: both points are cleared, so the next click picks the start again. */
    method ClearPoints()
      modifies this
      ensures startPoint == None && endPoint == None
      ensures graph == old(graph) && mapLoader == old(mapLoader) && hour == old(hour)
      ensures destinations == old(destinations) && listed == old(listed)
    {
      startPoint := None;
      endPoint := None;
    }

    /**
     * Lines 176-196: without a map, or without both points, no search
     * runs; otherwise the graph is rebuilt for the shown hour and searched
     * from the start cell's id to the end cell's id.
     */
    method CalculateRoute(contents: Option<Grid>) returns (r: RouteOutcome)
      requires Valid() && (contents.Some? ==> RowsCoverFirstRow(contents.value))
      modifies this, mapLoader
      ensures Valid() && mapLoader == old(mapLoader)
      ensures startPoint == old(startPoint) && endPoint == old(endPoint) && hour == old(hour)
      ensures destinations == old(destinations) && listed == old(listed)
      ensures old(graph) == null ==> r == NoMapLoaded
      ensures old(graph) != null && startPoint.Some? && endPoint.Some? ==>
                mapLoader != null && mapLoader.rawMatrix == (if contents.Some? then contents.value else [])
      ensures old(graph) != null && (startPoint.None? || endPoint.None?) ==> r == PointsNotSelected
      ensures old(graph) != null && startPoint.Some? && endPoint.Some? ==>
                (contents.None? <==> r == MapUnreadable)
                && (contents.Some? ==> r.Searched? && r.startId == PointId(startPoint.value) && r.endId == PointId(endPoint.value))
      ensures r.Searched? ==> graph != null
      ensures r.Searched? && graph != null && (r.startId !in graph.nodes || r.endId !in graph.nodes) ==>
                r.path == None && r.cost == Fin(0)
      ensures r.Searched? && graph != null && r.startId in graph.nodes && r.endId in graph.nodes ==>
                (r.path.Some? ==> r.cost.Fin? && ShortestWalk(graph.Adj(), r.path.value, r.cost.n, r.startId, r.endId))
                && (r.path.None? ==> r.cost == Inf && forall p, c :: !WalkFromTo(graph.Adj(), p, c, r.startId, r.endId))
    {
      if graph == null {
        return NoMapLoaded;
      }
      if startPoint.None? || endPoint.None? {
        return PointsNotSelected;
      }
      RefreshGraph(contents);
      var startId := PointId(startPoint.value);
      var endId := PointId(endPoint.value);
      if graph == null {
        return MapUnreadable;
      }
      var path, cost, _ := FindPath(graph, startId, endId);
      return Searched(startId, endId, path, cost);
    }

    /**
     * Lines 198-206 as written: with an end point and a non-empty name the
     * name is mapped to the end point and appended to the list, even when
     * it is already listed.
     */
    method SaveDestination(name: Option<string>)
      modifies this
      ensures endPoint.Some? && name.Some? && name.value != "" ==>
                destinations == old(destinations)[name.value := endPoint.value] && listed == old(listed) + [name.value]
      ensures endPoint.None? || name.None? || name.value == "" ==>
                destinations == old(destinations) && listed == old(listed)
      ensures graph == old(graph) && mapLoader == old(mapLoader) && hour == old(hour)
      ensures startPoint == old(startPoint) && endPoint == old(endPoint)
    {
      if endPoint.None? {
        return;
      }
      if name.Some? && name.value != "" {
        destinations := destinations[name.value := endPoint.value];
        listed := listed + [name.value];
      }
    }

    /**
     * Saving as evidently intended: a name already saved gets the new end
     * point and keeps its one place in the list; a new name is appended.
     */
    method SaveDestinationOnce(name: Option<string>)
      requires Listed()
      modifies this
      ensures Listed()
      ensures endPoint.Some? && name.Some? && name.value != "" ==>
                destinations == old(destinations)[name.value := endPoint.value]
                && listed == if name.value in old(destinations) then old(listed) else old(listed) + [name.value]
      ensures endPoint.None? || name.None? || name.value == "" ==>
                destinations == old(destinations) && listed == old(listed)
      ensures graph == old(graph) && mapLoader == old(mapLoader) && hour == old(hour)
      ensures startPoint == old(startPoint) && endPoint == old(endPoint)
    {
      if endPoint.None? {
        return;
      }
      if name.Some? && name.value != "" {
        var n, p := name.value, endPoint.value;
        var shown := if n in destinations then listed else listed + [n];
        SaveKeepsAgree(listed, destinations, n, p);
        listed, destinations := shown, destinations[n := p];
      }
    }

    /**
     * Lines 208-213: the selected name is removed from the dictionary and
     * its row from the list; a name the dictionary no longer holds raises
     * `KeyError` and changes nothing.
     */
    method DeleteDestination(selection: Option<nat>) returns (r: Outcome)
      requires selection.Some? ==> selection.value < |listed|
      modifies this
      ensures selection.None? ==> r == Done && destinations == old(destinations) && listed == old(listed)
      ensures selection.Some? && old(listed)[selection.value] !in old(destinations) ==>
                r == KeyError(old(listed)[selection.value]) && destinations == old(destinations) && listed == old(listed)
      ensures selection.Some? && old(listed)[selection.value] in old(destinations) ==>
                r == Done && destinations == old(destinations) - {old(listed)[selection.value]}
                && listed == old(listed)[..selection.value] + old(listed)[selection.value + 1..]
      ensures old(Listed()) ==> Listed() && r == Done
      ensures graph == old(graph) && mapLoader == old(mapLoader) && hour == old(hour)
      ensures startPoint == old(startPoint) && endPoint == old(endPoint)
    {
      if selection.None? {
        return Done;
      }
      var i := selection.value;
      var name := listed[i];
      if name !in destinations {
        return KeyError(name);
      }
      if Listed() {
        RemoveKeepsAgree(listed, destinations, i);
      }
      destinations := destinations - {name};
      listed := listed[..i] + listed[i + 1..];
      return Done;
    }

    /**
     * Lines 215-219: the selected name's cell becomes the end point; a name
     * the dictionary no longer holds raises `KeyError` and changes nothing.
     */
    method LoadDestinationToEnd(selection: Option<nat>) returns (r: Outcome)
      requires selection.Some? ==> selection.value < |listed|
      modifies this
      ensures graph == old(graph) && mapLoader == old(mapLoader) && hour == old(hour)
      ensures startPoint == old(startPoint) && destinations == old(destinations) && listed == old(listed)
      ensures selection.None? ==> r == Done && endPoint == old(endPoint)
      ensures selection.Some? && listed[selection.value] !in destinations ==>
                r == KeyError(listed[selection.value]) && endPoint == old(endPoint)
      ensures selection.Some? && listed[selection.value] in destinations ==>
                r == Done && endPoint == Some(destinations[listed[selection.value]])
      ensures Listed() ==> r == Done
    {
      if selection.None? {
        return Done;
      }
      var name := listed[selection.value];
      if name !in destinations {
        return KeyError(name);
      }
      endPoint := Some(destinations[name]);
      return Done;
    }
  }

  /**
   * Saving one name twice and then deleting both of its rows: the second
   * delete finds the name already gone from the dictionary and raises
   * `KeyError`.
   */
  method DuplicateNameBreaksDelete() returns (first: Outcome, second: Outcome)
    ensures first == Done && second == KeyError("casa")
  {
    var w := new MainWindow();
    w.OnMapClick(0, 0);
    w.OnMapClick(1, 0);
    w.SaveDestination(Some("casa"));
    w.SaveDestination(Some("casa"));
    assert w.listed == ["casa", "casa"];
    first := w.DeleteDestination(Some(0));
    assert w.listed == ["casa"] && w.destinations == map[];
    second := w.DeleteDestination(Some(0));
  }

  /** With saving done once per name, the same steps delete both the entry and its row, and the second delete has nothing to select. */
  method DuplicateNameSavedOnce() returns (first: Outcome)
    ensures first == Done
  {
    var w := new MainWindow();
    w.OnMapClick(0, 0);
    w.OnMapClick(1, 0);
    w.SaveDestinationOnce(Some("casa"));
    w.SaveDestinationOnce(Some("casa"));
    assert w.listed == ["casa"];
    first := w.DeleteDestination(Some(0));
    assert w.listed == [] && w.destinations == map[];
  }
}
