/**
 * The pathfinder component (Pathfinding/Pathfinder.cs): endpoint lookup by
 * transform, the Manhattan heuristic, and the A* search itself, written as
 * the loop the component runs and proved against the search specification
 * of module AStar.
 */
module Pathfinder {
  import opened Wrappers
  import opened Scene
  import opened Graph
  import opened OpenList
  import opened AStar

  /** The heuristic delegate: an estimate between two transforms. */
  type Heuristic = (Transform, Transform) -> real

  /** A missing heuristic is replaced by the constant zero estimate. */
  function HeuristicOrZero(heuristic: Option<Heuristic>): (r: Heuristic)
    ensures heuristic.Some? ==> r == heuristic.value
    ensures heuristic.None? ==> forall s, e :: r(s, e) == 0.0
  {
    if heuristic.Some? then heuristic.value else (s: Transform, e: Transform) => 0.0
  }

  /** The delegate as the search applies it: to the transforms of a node and of the goal. */
  function NodeEstimate(graph: GridGraph, heuristic: Heuristic): Estimate
  {
    (n: Node, goal: Node) => heuristic(graph.transformOf(n), graph.transformOf(goal))
  }

  // ---------------------------------------------------------------------
  // Heuristic

  function Abs(x: real): real
  {
    if x < 0.0 then -x else x
  }

  /** The Manhattan distance between the positions of two transforms. */
  function CalculateHeuristic(position: Transform -> Vec3, start: Transform, end: Transform): (r: real)
    ensures r >= 0.0
    ensures r == 0.0 <==> position(start) == position(end)
  {
    var a, b := position(start), position(end);
    Abs(a.x - b.x) + Abs(a.y - b.y) + Abs(a.z - b.z)
  }

  /** The estimate is symmetric and obeys the triangle inequality, as a distance does. */
  lemma HeuristicIsDistance(position: Transform -> Vec3, a: Transform, b: Transform, c: Transform)
    ensures CalculateHeuristic(position, a, b) == CalculateHeuristic(position, b, a)
    ensures CalculateHeuristic(position, a, c) <= CalculateHeuristic(position, a, b) + CalculateHeuristic(position, b, c)
  {
    var p, q, r := position(a), position(b), position(c);
    AbsTriangle(p.x - q.x, q.x - r.x);
    AbsTriangle(p.y - q.y, q.y - r.y);
    AbsTriangle(p.z - q.z, q.z - r.z);
  }

  lemma AbsTriangle(u: real, v: real)
    ensures Abs(u + v) <= Abs(u) + Abs(v)
    ensures Abs(-u) == Abs(u)
  {
  }

  // ---------------------------------------------------------------------
  // Endpoint lookup

  /** Node `n` is the target transform itself, or lies within a grid cell of it. */
  predicate Matches(graph: GridGraph, position: Transform -> Vec3, n: Node, target: Transform, approximatePos: bool)
    ensures graph.transformOf(n) == target ==> Matches(graph, position, n, target, approximatePos)
    ensures !approximatePos ==> (Matches(graph, position, n, target, approximatePos) <==> graph.transformOf(n) == target)
    ensures graph.generationGridCellSize <= 0.0 ==>
              (Matches(graph, position, n, target, approximatePos) <==> graph.transformOf(n) == target)
  {
    || graph.transformOf(n) == target
    || (approximatePos && Within(position(graph.transformOf(n)), position(target), graph.generationGridCellSize))
  }

  /**
   * The first node of `nodes` that matches the target, in list order; an
   * exact match later in the list does not win over an earlier near one.
   */
  function Lookup(graph: GridGraph, position: Transform -> Vec3, target: Transform, approximatePos: bool,
                  nodes: seq<Node>): (r: Option<Node>)
    ensures r.None? <==> forall i :: 0 <= i < |nodes| ==> !Matches(graph, position, nodes[i], target, approximatePos)
    ensures r.Some? ==> exists i :: 0 <= i < |nodes| && nodes[i] == r.value
                          && Matches(graph, position, nodes[i], target, approximatePos)
                          && forall j :: 0 <= j < i ==> !Matches(graph, position, nodes[j], target, approximatePos)
  {
    if nodes == [] then None
    else if Matches(graph, position, nodes[0], target, approximatePos) then Some(nodes[0])
    else
      var r := Lookup(graph, position, target, approximatePos, nodes[1..]);
      if r.Some? then
        ghost var i :| 0 <= i < |nodes[1..]| && nodes[1..][i] == r.value
                       && Matches(graph, position, nodes[1..][i], target, approximatePos)
                       && forall j :: 0 <= j < i ==> !Matches(graph, position, nodes[1..][j], target, approximatePos);
        assert forall j :: 0 <= j < i + 1 ==> !Matches(graph, position, nodes[j], target, approximatePos) by {
          forall j | 0 <= j < i + 1
            ensures !Matches(graph, position, nodes[j], target, approximatePos)
          {
            if j > 0 {
              assert nodes[j] == nodes[1..][j - 1];
            }
          }
        }
        r
      else
        assert forall i :: 0 < i < |nodes| ==> nodes[i] == nodes[1..][i - 1];
        r
  }

  /** The scan over the graph's nodes with an early return on the first match. */
  method FindGridNodeByTransform(graph: GridGraph, position: Transform -> Vec3, target: Transform, approximatePos: bool)
    returns (found: bool, node: Option<Node>)
    ensures node == Lookup(graph, position, target, approximatePos, graph.nodes)
    ensures found <==> node.Some?
  {
    var i := 0;
    while i < |graph.nodes|
      invariant 0 <= i <= |graph.nodes|
      invariant Lookup(graph, position, target, approximatePos, graph.nodes)
             == Lookup(graph, position, target, approximatePos, graph.nodes[i..])
    {
      var n := graph.nodes[i];
      assert graph.nodes[i..][1..] == graph.nodes[i + 1..];
      if graph.transformOf(n) == target {
        return true, Some(n);
      } else if approximatePos
        && Within(position(graph.transformOf(n)), position(target), graph.generationGridCellSize) {
        return true, Some(n);
      }
      i := i + 1;
    }
    return false, None;
  }

  /** The Manhattan heuristic over a position map, as a delegate. */
  function Manhattan(position: Transform -> Vec3): Heuristic
  {
    (a: Transform, b: Transform) => CalculateHeuristic(position, a, b)
  }

  /**
   * Both transforms are looked up (near matches allowed, the goal only when
   * the start was found); a failed lookup gives the empty route, otherwise
   * the admissible search with the Manhattan heuristic answers.
   */
  method GetAstarPathFromTransforms(graph: GridGraph, position: Transform -> Vec3,
                                    startTransform: Transform, goalTransform: Transform)
    returns (path: Option<seq<Node>>)
    ensures var start := Lookup(graph, position, startTransform, true, graph.nodes);
            var goal := Lookup(graph, position, goalTransform, true, graph.nodes);
            && (start.None? || goal.None? ==> path == Some([]))
            && (start.Some? && goal.Some? ==>
                  SearchAnswer(graph, start.value, goal.value, NodeEstimate(graph, Manhattan(position)), true, path))
  {
    var foundStart, startNode := FindGridNodeByTransform(graph, position, startTransform, true);
    var foundGoal := false;
    var goalNode: Option<Node> := None;
    if foundStart {
      foundGoal, goalNode := FindGridNodeByTransform(graph, position, goalTransform, true);
    }
    if foundStart && foundGoal {
      path := FindPath(Some(graph), startNode.value, goalNode.value, Some(Manhattan(position)), true);
    } else {
      path := Some([]);
    }
  }

  // ---------------------------------------------------------------------
  // Search

  /**
   * What the search answers: a route exactly when the loop ends with the goal
   * closed, and that route is the predecessor chain of the final state read
   * from start to goal, one node longer than the goal's g-score.
   */
  ghost predicate SearchAnswer(graph: GridGraph, start: Node, goal: Node, h: Estimate, isAdmissible: bool,
                               path: Option<seq<Node>>)
  {
    var final := Search(graph, start, goal, h, isAdmissible);
    && (path.Some? <==> goal in final.closed)
    && (path.Some? ==>
          && IsRoute(graph, start, goal, path.value)
          && FollowsPred(final.pred, start, goal, path.value)
          && |path.value| == final.g[goal] + 1)
  }

  /**
   * A* from `start` to `goal`. A missing graph gives the empty route; a
   * missing heuristic counts as zero; from the goal itself the route is the
   * goal alone.
   */
  method FindPath(graph: Option<GridGraph>, start: Node, goal: Node, heuristic: Option<Heuristic>, isAdmissible: bool)
    returns (path: Option<seq<Node>>)
    ensures graph.None? ==> path == Some([])
    ensures graph.Some? ==>
              SearchAnswer(graph.value, start, goal, NodeEstimate(graph.value, HeuristicOrZero(heuristic)), isAdmissible, path)
    ensures graph.Some? && start == goal ==> path == Some([start])
  {
    if graph.None? {
      return Some([]);
    }
    var g := graph.value;
    var h := NodeEstimate(g, HeuristicOrZero(heuristic));

    path := None;
    var solutionFound := false;
    var gnDict: map<Node, nat> := map[start := 0];
    var fnDict: map<Node, real> := map[start := h(start, goal) + gnDict[start] as real];
    var pathDict: map<Node, Option<Node>> := map[start := None];
    var openList: seq<Node> := [start];
    var closedSet: set<Node> := {};
    assert SearchState(gnDict, fnDict, pathDict, openList, closedSet) == Init(start, goal, h);

    gnDict, fnDict, pathDict, openList, closedSet, solutionFound :=
      SearchLoop(g, goal, h, isAdmissible, gnDict, fnDict, pathDict, openList, closedSet);
    ghost var final := SearchState(gnDict, fnDict, pathDict, openList, closedSet);
    assert final == Search(g, start, goal, h, isAdmissible);

    if !solutionFound && goal in closedSet {
      solutionFound := true;
    }

    if solutionFound {
      ghost var rank, clock := SearchRanked(g, start, goal, h, isAdmissible);
      path := ReconstructPath(g, final, rank, clock, pathDict, start, goal);
    }

    if start == goal {
      SearchFromGoal(g, goal, h, isAdmissible);
      assert goal in closedSet;
      assert |path.value| == 1;
      assert path.value == [start];
    }
  }

  /**
   * The search loop of FindPath: at most MaxIterations passes, stopping early
   * when a pass breaks. It ends in the state the specification's loop ends
   * in; `solutionFound` is set only by the admissible exit.
   */
  method SearchLoop(graph: GridGraph, goal: Node, h: Estimate, isAdmissible: bool,
                    gn0: map<Node, nat>, fn0: map<Node, real>, pd0: map<Node, Option<Node>>,
                    ol0: seq<Node>, cs0: set<Node>)
    returns (gnDict: map<Node, nat>, fnDict: map<Node, real>, pathDict: map<Node, Option<Node>>,
             openList: seq<Node>, closedSet: set<Node>, solutionFound: bool)
    requires Tracked(SearchState(gn0, fn0, pd0, ol0, cs0))
    ensures SearchState(gnDict, fnDict, pathDict, openList, closedSet)
         == Run(graph, goal, h, isAdmissible, SearchState(gn0, fn0, pd0, ol0, cs0), 0)
    ensures solutionFound ==> goal in closedSet
  {
    gnDict, fnDict, pathDict, openList, closedSet := gn0, fn0, pd0, ol0, cs0;
    solutionFound := false;
    var debugIteration: nat := 0;
    while |openList| > 0 && debugIteration < MaxIterations
      invariant debugIteration <= MaxIterations
      invariant Tracked(SearchState(gnDict, fnDict, pathDict, openList, closedSet))
      invariant Run(graph, goal, h, isAdmissible, SearchState(gnDict, fnDict, pathDict, openList, closedSet), debugIteration)
             == Run(graph, goal, h, isAdmissible, SearchState(gn0, fn0, pd0, ol0, cs0), 0)
      invariant !solutionFound
      decreases MaxIterations - debugIteration
    {
      ghost var before := SearchState(gnDict, fnDict, pathDict, openList, closedSet);
      var breaks;
      gnDict, fnDict, pathDict, openList, closedSet, breaks, solutionFound :=
        SearchPass(graph, goal, h, isAdmissible, gnDict, fnDict, pathDict, openList, closedSet);
      if breaks {
        RunBreaks(graph, goal, h, isAdmissible, before, debugIteration);
        break;
      }
      RunGoesOn(graph, goal, h, isAdmissible, before, debugIteration);
      debugIteration := debugIteration + 1;
    }
    if |openList| == 0 || debugIteration == MaxIterations {
      // the loop may have ended by its own condition rather than a break
      RunStops(graph, goal, h, isAdmissible, SearchState(gnDict, fnDict, pathDict, openList, closedSet), debugIteration);
    }
  }

  /**
   * One pass of the search loop's body: close the tail of the open list (the
   * lowest f-score), then break on either exit or relax the closed node's
   * neighbours.
   */
  method SearchPass(graph: GridGraph, goal: Node, h: Estimate, isAdmissible: bool,
                    gnDict: map<Node, nat>, fnDict: map<Node, real>, pathDict: map<Node, Option<Node>>,
                    openList: seq<Node>, closedSet: set<Node>)
    returns (gn: map<Node, nat>, fn: map<Node, real>, pd: map<Node, Option<Node>>,
             ol: seq<Node>, cs: set<Node>, breaks: bool, solutionFound: bool)
    requires Tracked(SearchState(gnDict, fnDict, pathDict, openList, closedSet)) && |openList| > 0
    ensures Pass(SearchState(gn, fn, pd, ol, cs), breaks)
         == Iterate(graph, goal, h, isAdmissible, SearchState(gnDict, fnDict, pathDict, openList, closedSet))
    ensures solutionFound <==> openList[|openList| - 1] == goal && isAdmissible
  {
    ghost var before := SearchState(gnDict, fnDict, pathDict, openList, closedSet);
    gn, fn, pd, ol, cs := gnDict, fnDict, pathDict, openList, closedSet;
    var current := ol[|ol| - 1];
    ol := ol[..|ol| - 1];
    cs := cs + {current};
    assert SearchState(gn, fn, pd, ol, cs) == Pop(before);

    if current == goal && isAdmissible {
      return gn, fn, pd, ol, cs, true, true;
    } else if goal in cs {
      var pathIsTheShortest := NoneCheaperThan(gn, ol, gn[goal]);
      if pathIsTheShortest {
        return gn, fn, pd, ol, cs, true, false;
      }
    }
    gn, fn, pd, ol := ExpandNeighbors(graph, goal, h, current, gn, fn, pd, ol, cs);
    breaks, solutionFound := false, false;
  }

  /** The non-admissible exit test: no entry of the open list has a g-score below `gGoal`. */
  method NoneCheaperThan(gnDict: map<Node, nat>, openList: seq<Node>, gGoal: nat) returns (pathIsTheShortest: bool)
    requires forall i :: 0 <= i < |openList| ==> openList[i] in gnDict
    ensures pathIsTheShortest <==> forall i :: 0 <= i < |openList| ==> gnDict[openList[i]] >= gGoal
  {
    pathIsTheShortest := true;
    for k := 0 to |openList|
      invariant forall i :: 0 <= i < k ==> gnDict[openList[i]] >= gGoal
    {
      if gGoal > gnDict[openList[k]] {
        pathIsTheShortest := false;
        break;
      }
    }
  }

  /**
   * The neighbour loop of one iteration: each neighbour of `current` that is
   * not closed gets g, f and predecessor overwritten and is inserted into the
   * open list, exactly as the specification's pass relaxes it.
   */
  method ExpandNeighbors(graph: GridGraph, goal: Node, h: Estimate, current: Node,
                         gnDict: map<Node, nat>, fnDict: map<Node, real>, pathDict: map<Node, Option<Node>>,
                         openList: seq<Node>, closedSet: set<Node>)
    returns (gn: map<Node, nat>, fn: map<Node, real>, pd: map<Node, Option<Node>>, ol: seq<Node>)
    requires Tracked(SearchState(gnDict, fnDict, pathDict, openList, closedSet)) && current in closedSet
    ensures SearchState(gn, fn, pd, ol, closedSet)
         == RelaxAll(SearchState(gnDict, fnDict, pathDict, openList, closedSet), current, graph.neighbors(current), goal, h)
  {
    ghost var popped := SearchState(gnDict, fnDict, pathDict, openList, closedSet);
    gn, fn, pd, ol := gnDict, fnDict, pathDict, openList;
    var neighbors := graph.neighbors(current);
    for j := 0 to |neighbors|
      invariant SearchState(gn, fn, pd, ol, closedSet) == RelaxAll(popped, current, neighbors[..j], goal, h)
    {
      RelaxAllPrefix(popped, current, neighbors, j, goal, h);
      gn, fn, pd, ol := RelaxNeighbor(goal, h, current, neighbors[j], gn, fn, pd, ol, closedSet);
    }
    assert neighbors[..|neighbors|] == neighbors;
  }

  /**
   * The body of the neighbour loop: a closed neighbour is skipped; any other
   * gets g = g(current) + 1, f = g + h and predecessor `current`, and is
   * inserted into the open list.
   */
  method RelaxNeighbor(goal: Node, h: Estimate, current: Node, n: Node,
                       gnDict: map<Node, nat>, fnDict: map<Node, real>, pathDict: map<Node, Option<Node>>,
                       openList: seq<Node>, closedSet: set<Node>)
    returns (gn: map<Node, nat>, fn: map<Node, real>, pd: map<Node, Option<Node>>, ol: seq<Node>)
    requires Tracked(SearchState(gnDict, fnDict, pathDict, openList, closedSet)) && current in closedSet
    ensures SearchState(gn, fn, pd, ol, closedSet)
         == Relax(SearchState(gnDict, fnDict, pathDict, openList, closedSet), current, n, goal, h)
  {
    gn, fn, pd, ol := gnDict, fnDict, pathDict, openList;
    var movementCost := 1;
    if n in closedSet {
      return;
    }
    var gNeighbor := gn[current] + movementCost;
    gn := gn[n := gNeighbor];
    var fnCurrent := gNeighbor as real + h(n, goal);
    fn := fn[n := fnCurrent];
    pd := pd[n := Some(current)];
    assert Keyed(ol, fn);
    ol := FakePQListInsert(ol, fn, n);
  }

  /**
   * The route read off the predecessor map: from the goal back to the start,
   * then reversed. The ghost closing order bounds the walk.
   */
  method ReconstructPath(ghost graph: GridGraph, ghost s: SearchState, ghost rank: map<Node, nat>, ghost clock: nat,
                         pathDict: map<Node, Option<Node>>, start: Node, goal: Node)
    returns (path: Option<seq<Node>>)
    requires Ranked(graph, start, s, rank, clock) && pathDict == s.pred && goal in s.closed
    ensures path.Some?
    ensures IsRoute(graph, start, goal, path.value)
    ensures FollowsPred(s.pred, start, goal, path.value)
    ensures |path.value| == s.g[goal] + 1
  {
    BackChainStart(graph, start, s, rank, clock, goal);
    var reversed := [goal];
    var current := goal;
    while current != start
      invariant BackChain(graph, s, rank, goal, reversed) && reversed[|reversed| - 1] == current
      decreases rank[current]
    {
      PredOfClosed(graph, start, s, rank, clock, current);
      BackChainStep(graph, s, rank, goal, reversed);
      current := pathDict[current].value;
      reversed := reversed + [current];
    }
    BackChainRoute(graph, start, s, rank, goal, reversed);
    path := Some(Reverse(reversed));
  }
}
