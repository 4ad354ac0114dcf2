/**
 * The A* search of Pathfinder.FindPath as a specification: the search state,
 * one function per phase of the loop, and the invariants the loop keeps.
 */
module AStar {
  import opened Wrappers
  import opened Graph
  import opened OpenList

  /** The iteration cap of the search loop. */
  const MaxIterations: nat := 1000

  /**
   * The heuristic as the search applies it, `h(n, goal)`: the source's
   * delegate applied to the two nodes' transforms.
   */
  type Estimate = (Node, Node) -> real

  /** The five collections the search updates. */
  datatype SearchState = SearchState(
    g: map<Node, nat>,              // cost from the start (gnDict)
    f: map<Node, real>,             // cost plus estimate (fnDict)
    pred: map<Node, Option<Node>>,  // predecessor, None for the start (pathDict)
    open: seq<Node>,                // the open list, popped at the tail
    closed: set<Node>)              // closedSet

  /** Every open or closed node has a g-score, an f-score and a predecessor entry. */
  ghost predicate Tracked(s: SearchState)
  {
    && s.g.Keys == s.f.Keys && s.f.Keys == s.pred.Keys
    && (forall i :: 0 <= i < |s.open| ==> s.open[i] in s.g)
    && s.closed <= s.g.Keys
  }

  /** The state before the first iteration. */
  function Init(start: Node, goal: Node, h: Estimate): (r: SearchState)
    ensures Tracked(r) && r.g.Keys == {start} && r.closed == {} && r.open == [start]
    ensures r.g[start] == 0 && r.pred[start] == None && r.f[start] == h(start, goal)
  {
    SearchState(map[start := 0], map[start := h(start, goal) + 0.0], map[start := None], [start], {})
  }

  /**
   * One neighbour `n` of `current`: a closed neighbour is skipped; any other
   * one gets g, f and predecessor overwritten, whatever they were, and is
   * inserted into the open list again.
   */
  function Relax(s: SearchState, current: Node, n: Node, goal: Node, h: Estimate): (r: SearchState)
    requires Tracked(s) && current in s.closed
    ensures Tracked(r) && r.closed == s.closed
    ensures current in r.g && r.g[current] == s.g[current]
  {
    if n in s.closed then s
    else
      var gn := s.g[current] + 1;
      var f' := s.f[n := gn as real + h(n, goal)];
      assert Keyed(s.open, f');
      InsertedMembers(s.open, f', n);
      SearchState(s.g[n := gn], f', s.pred[n := Some(current)], Inserted(s.open, f', n), s.closed)
  }

  /** The neighbours in `ns` relaxed in list order. */
  function RelaxAll(s: SearchState, current: Node, ns: seq<Node>, goal: Node, h: Estimate): (r: SearchState)
    requires Tracked(s) && current in s.closed
    ensures Tracked(r) && r.closed == s.closed
    ensures current in r.g && r.g[current] == s.g[current]
    decreases |ns|
  {
    if ns == [] then s
    else Relax(RelaxAll(s, current, ns[..|ns| - 1], goal, h), current, ns[|ns| - 1], goal, h)
  }

  /** The open list's tail: the entry the next iteration pops. */
  function Tail(s: SearchState): Node
    requires |s.open| > 0
  {
    s.open[|s.open| - 1]
  }

  /** Remove the tail of the open list and add it to the closed set. */
  function Pop(s: SearchState): (r: SearchState)
    requires Tracked(s) && |s.open| > 0
    ensures Tracked(r)
  {
    s.(open := s.open[..|s.open| - 1], closed := s.closed + {Tail(s)})
  }

  /** The non-admissible exit test: no open entry has a g-score below the goal's. */
  predicate NoneCheaperThanGoal(s: SearchState, goal: Node)
    requires Tracked(s) && goal in s.g
    ensures NoneCheaperThanGoal(s, goal) <==> forall n :: n in s.open ==> s.g[goal] <= s.g[n]
    ensures NoneCheaperThanGoal(s, goal) && |s.open| > 0 ==> s.g[goal] <= s.g[Tail(s)]
  {
    forall i :: 0 <= i < |s.open| ==> s.g[s.open[i]] >= s.g[goal]
  }

  /** What one pass of the loop body leaves: the state, and whether the loop breaks. */
  datatype Pass = Pass(state: SearchState, breaks: bool)

  /**
   * One pass of the loop body: pop the tail and close it; break on the
   * admissible exit or the non-admissible one; otherwise relax the
   * popped node's neighbours in list order.
   */
  function Iterate(graph: GridGraph, goal: Node, h: Estimate, isAdmissible: bool, s: SearchState): (r: Pass)
    requires Tracked(s) && |s.open| > 0
    ensures Tracked(r.state)
  {
    var current := Tail(s);
    var popped := Pop(s);
    if current == goal && isAdmissible then Pass(popped, true)
    else if goal in popped.closed && NoneCheaperThanGoal(popped, goal) then Pass(popped, true)
    else Pass(RelaxAll(popped, current, graph.neighbors(current), goal, h), false)
  }

  /**
   * The loop from iteration `iteration` on: it runs while the open list is
   * non-empty and fewer than MaxIterations passes have been made, and until
   * a pass breaks.
   */
  function Run(graph: GridGraph, goal: Node, h: Estimate, isAdmissible: bool,
               s: SearchState, iteration: nat): (r: SearchState)
    requires Tracked(s) && iteration <= MaxIterations
    ensures Tracked(r)
    decreases MaxIterations - iteration
  {
    if |s.open| == 0 || iteration == MaxIterations then s
    else
      var pass := Iterate(graph, goal, h, isAdmissible, s);
      if pass.breaks then pass.state else Run(graph, goal, h, isAdmissible, pass.state, iteration + 1)
  }

  /** The state the search loop ends in. */
  function Search(graph: GridGraph, start: Node, goal: Node, h: Estimate, isAdmissible: bool): (r: SearchState)
    ensures Tracked(r)
  {
    Run(graph, goal, h, isAdmissible, Init(start, goal, h), 0)
  }

  /** The neighbours in `ns` that are not closed, in list order: the ones a pass relaxes. */
  function Unclosed(ns: seq<Node>, closed: set<Node>): (r: seq<Node>)
    ensures forall n :: n in r <==> n in ns && n !in closed
    decreases |ns|
  {
    if ns == [] then []
    else
      var rest := Unclosed(ns[..|ns| - 1], closed);
      var last := ns[|ns| - 1];
      assert ns == ns[..|ns| - 1] + [last];
      if last in closed then rest else rest + [last]
  }

  /** One relaxation, written out entry by entry. */
  lemma RelaxStep(s: SearchState, current: Node, n: Node, goal: Node, h: Estimate)
    requires Tracked(s) && current in s.closed
    ensures var r := Relax(s, current, n, goal, h);
            && (n in s.closed ==> r == s)
            && (n !in s.closed ==>
                  && r.g == s.g[n := s.g[current] + 1]
                  && r.f == s.f[n := (s.g[current] + 1) as real + h(n, goal)]
                  && r.pred == s.pred[n := Some(current)]
                  && r.open == Inserted(s.open, r.f, n))
  {
  }

  /**
   * After a pass, the tracked nodes are the ones tracked before and the
   * neighbours that were not closed.
   */
  lemma {:induction false} RelaxAllTracks(s: SearchState, current: Node, ns: seq<Node>, goal: Node, h: Estimate)
    requires Tracked(s) && current in s.closed
    ensures forall n :: n in RelaxAll(s, current, ns, goal, h).g <==> n in s.g || (n in ns && n !in s.closed)
    decreases |ns|
  {
    if ns != [] {
      var init, last := ns[..|ns| - 1], ns[|ns| - 1];
      assert ns == init + [last];
      RelaxAllTracks(s, current, init, goal, h);
      RelaxStep(RelaxAll(s, current, init, goal, h), current, last, goal, h);
    }
  }

  /**
   * Every neighbour that is not closed ends the pass with g = g(current) + 1,
   * f = g + h and predecessor `current`, whatever its entries were before.
   */
  lemma {:induction false} RelaxAllOverwrites(s: SearchState, current: Node, ns: seq<Node>, goal: Node, h: Estimate)
    requires Tracked(s) && current in s.closed
    ensures var r := RelaxAll(s, current, ns, goal, h);
            forall n :: n in ns && n !in s.closed ==>
              && n in r.g
              && r.g[n] == s.g[current] + 1
              && r.f[n] == (s.g[current] + 1) as real + h(n, goal)
              && r.pred[n] == Some(current)
    decreases |ns|
  {
    if ns != [] {
      var init, last := ns[..|ns| - 1], ns[|ns| - 1];
      assert ns == init + [last];
      RelaxAllOverwrites(s, current, init, goal, h);
      RelaxStep(RelaxAll(s, current, init, goal, h), current, last, goal, h);
    }
  }

  /** Closed nodes and nodes that are not neighbours keep their entries through a pass. */
  lemma {:induction false} RelaxAllKeeps(s: SearchState, current: Node, ns: seq<Node>, goal: Node, h: Estimate)
    requires Tracked(s) && current in s.closed
    ensures var r := RelaxAll(s, current, ns, goal, h);
            forall n :: n in s.g && (n !in ns || n in s.closed) ==>
              && n in r.g
              && r.g[n] == s.g[n] && r.f[n] == s.f[n] && r.pred[n] == s.pred[n]
    decreases |ns|
  {
    if ns != [] {
      var init, last := ns[..|ns| - 1], ns[|ns| - 1];
      assert ns == init + [last];
      RelaxAllKeeps(s, current, init, goal, h);
      RelaxStep(RelaxAll(s, current, init, goal, h), current, last, goal, h);
    }
  }

  /**
   * A pass adds each non-closed neighbour to the open list once per listing,
   * with no check for an entry already there, and removes nothing.
   */
  lemma {:induction false} RelaxAllOpens(s: SearchState, current: Node, ns: seq<Node>, goal: Node, h: Estimate)
    requires Tracked(s) && current in s.closed
    ensures multiset(RelaxAll(s, current, ns, goal, h).open) == multiset(s.open) + multiset(Unclosed(ns, s.closed))
    decreases |ns|
  {
    if ns != [] {
      var init, last := ns[..|ns| - 1], ns[|ns| - 1];
      var q := RelaxAll(s, current, init, goal, h);
      RelaxAllOpens(s, current, init, goal, h);
      RelaxStep(q, current, last, goal, h);
      if last !in s.closed {
        InsertedShape(q.open, RelaxAll(s, current, ns, goal, h).f, last);
      }
    }
  }

  /** A pass closes the popped tail and nothing else. */
  lemma IterateCloses(graph: GridGraph, goal: Node, h: Estimate, isAdmissible: bool, s: SearchState)
    requires Tracked(s) && |s.open| > 0
    ensures Iterate(graph, goal, h, isAdmissible, s).state.closed == s.closed + {s.open[|s.open| - 1]}
  {
  }

  /** With the open list empty or the cap reached, the loop leaves the state as it is. */
  lemma RunStops(graph: GridGraph, goal: Node, h: Estimate, isAdmissible: bool, s: SearchState, iteration: nat)
    requires Tracked(s) && iteration <= MaxIterations && (|s.open| == 0 || iteration == MaxIterations)
    ensures Run(graph, goal, h, isAdmissible, s, iteration) == s
  {
  }

  /** A pass that breaks ends the loop with its state. */
  lemma RunBreaks(graph: GridGraph, goal: Node, h: Estimate, isAdmissible: bool, s: SearchState, iteration: nat)
    requires Tracked(s) && iteration < MaxIterations && |s.open| > 0
    requires Iterate(graph, goal, h, isAdmissible, s).breaks
    ensures Run(graph, goal, h, isAdmissible, s, iteration) == Iterate(graph, goal, h, isAdmissible, s).state
  {
  }

  /** A pass that does not break hands its state on to the next iteration. */
  lemma RunGoesOn(graph: GridGraph, goal: Node, h: Estimate, isAdmissible: bool, s: SearchState, iteration: nat)
    requires Tracked(s) && iteration < MaxIterations && |s.open| > 0
    requires !Iterate(graph, goal, h, isAdmissible, s).breaks
    ensures Run(graph, goal, h, isAdmissible, s, iteration)
         == Run(graph, goal, h, isAdmissible, Iterate(graph, goal, h, isAdmissible, s).state, iteration + 1)
  {
  }

  /** Relaxing one more neighbour extends the pass by one relaxation. */
  lemma RelaxAllPrefix(s: SearchState, current: Node, ns: seq<Node>, j: nat, goal: Node, h: Estimate)
    requires Tracked(s) && current in s.closed && j < |ns|
    ensures RelaxAll(s, current, ns[..j + 1], goal, h) == Relax(RelaxAll(s, current, ns[..j], goal, h), current, ns[j], goal, h)
  {
    assert ns[..j + 1][..j] == ns[..j];
  }

  /** A closed node stays closed, and its g-score and predecessor stay fixed, through a pass. */
  lemma IterateFreezesClosed(graph: GridGraph, goal: Node, h: Estimate, isAdmissible: bool, s: SearchState)
    requires Tracked(s) && |s.open| > 0
    ensures var r := Iterate(graph, goal, h, isAdmissible, s).state;
            forall n :: n in s.closed ==> n in r.closed && r.g[n] == s.g[n] && r.pred[n] == s.pred[n]
  {
    var current := Tail(s);
    var popped := Pop(s);
    if !Iterate(graph, goal, h, isAdmissible, s).breaks {
      RelaxAllKeeps(popped, current, graph.neighbors(current), goal, h);
    }
  }

  /** Once a node is closed, its g-score and predecessor never change again. */
  lemma {:induction false} RunFreezesClosed(graph: GridGraph, goal: Node, h: Estimate, isAdmissible: bool,
                                            s: SearchState, iteration: nat)
    requires Tracked(s) && iteration <= MaxIterations
    ensures var r := Run(graph, goal, h, isAdmissible, s, iteration);
            forall n :: n in s.closed ==> n in r.closed && r.g[n] == s.g[n] && r.pred[n] == s.pred[n]
    decreases MaxIterations - iteration
  {
    if |s.open| == 0 || iteration == MaxIterations {
      RunStops(graph, goal, h, isAdmissible, s, iteration);
    } else {
      var pass := Iterate(graph, goal, h, isAdmissible, s);
      IterateFreezesClosed(graph, goal, h, isAdmissible, s);
      if pass.breaks {
        RunBreaks(graph, goal, h, isAdmissible, s, iteration);
      } else {
        RunGoesOn(graph, goal, h, isAdmissible, s, iteration);
        RunFreezesClosed(graph, goal, h, isAdmissible, pass.state, iteration + 1);
      }
    }
  }

  /** A property of states that every pass keeps holds of the loop's final state. */
  lemma {:induction false} RunKeeps(graph: GridGraph, goal: Node, h: Estimate, isAdmissible: bool,
                                    inv: SearchState -> bool, s: SearchState, iteration: nat)
    requires Tracked(s) && iteration <= MaxIterations && inv(s)
    requires forall t {:trigger Iterate(graph, goal, h, isAdmissible, t)} ::
               Tracked(t) && |t.open| > 0 && inv(t) ==> inv(Iterate(graph, goal, h, isAdmissible, t).state)
    ensures inv(Run(graph, goal, h, isAdmissible, s, iteration))
    decreases MaxIterations - iteration
  {
    if |s.open| == 0 || iteration == MaxIterations {
      RunStops(graph, goal, h, isAdmissible, s, iteration);
    } else {
      var pass := Iterate(graph, goal, h, isAdmissible, s);
      if pass.breaks {
        RunBreaks(graph, goal, h, isAdmissible, s, iteration);
      } else {
        RunGoesOn(graph, goal, h, isAdmissible, s, iteration);
        RunKeeps(graph, goal, h, isAdmissible, inv, pass.state, iteration + 1);
      }
    }
  }

  /** Each pass closes at most one new node, so the loop closes at most one node per remaining pass. */
  lemma {:induction false} RunClosesFew(graph: GridGraph, goal: Node, h: Estimate, isAdmissible: bool,
                                        s: SearchState, iteration: nat)
    requires Tracked(s) && iteration <= MaxIterations
    ensures |Run(graph, goal, h, isAdmissible, s, iteration).closed| <= |s.closed| + (MaxIterations - iteration)
    decreases MaxIterations - iteration
  {
    if |s.open| == 0 || iteration == MaxIterations {
      RunStops(graph, goal, h, isAdmissible, s, iteration);
    } else {
      var pass := Iterate(graph, goal, h, isAdmissible, s);
      IterateCloses(graph, goal, h, isAdmissible, s);
      assert |pass.state.closed| <= |s.closed| + 1;
      if pass.breaks {
        RunBreaks(graph, goal, h, isAdmissible, s, iteration);
      } else {
        RunGoesOn(graph, goal, h, isAdmissible, s, iteration);
        RunClosesFew(graph, goal, h, isAdmissible, pass.state, iteration + 1);
      }
    }
  }

  /** The search closes at most MaxIterations nodes, however large the graph. */
  lemma SearchClosesFew(graph: GridGraph, start: Node, goal: Node, h: Estimate, isAdmissible: bool)
    ensures |Search(graph, start, goal, h, isAdmissible).closed| <= MaxIterations
  {
    RunClosesFew(graph, goal, h, isAdmissible, Init(start, goal, h), 0);
  }

  /** Searching from the goal itself closes exactly the goal: the first pop takes one of the two exits. */
  lemma SearchFromGoal(graph: GridGraph, goal: Node, h: Estimate, isAdmissible: bool)
    ensures Search(graph, goal, goal, h, isAdmissible).closed == {goal}
    ensures Search(graph, goal, goal, h, isAdmissible).g[goal] == 0
  {
    var init := Init(goal, goal, h);
    var pass := Iterate(graph, goal, h, isAdmissible, init);
    assert Pop(init).open == [];
    assert pass.breaks && pass.state.closed == {goal};
  }

  // ---------------------------------------------------------------------
  // Routes

  /** A route: from start to goal along graph edges, never repeating a node. */
  ghost predicate IsRoute(graph: GridGraph, start: Node, goal: Node, route: seq<Node>)
  {
    && |route| > 0 && route[0] == start && route[|route| - 1] == goal
    && (forall i :: 0 <= i < |route| - 1 ==> route[i + 1] in graph.neighbors(route[i]))
    && (forall i, j :: 0 <= i < j < |route| ==> route[i] != route[j])
  }

  /** The route read off the predecessor map: each node's predecessor is the one before it. */
  ghost predicate FollowsPred(pred: map<Node, Option<Node>>, start: Node, goal: Node, route: seq<Node>)
  {
    && |route| > 0 && route[0] == start && route[|route| - 1] == goal
    && (forall i :: 0 < i < |route| ==> route[i] in pred && pred[route[i]] == Some(route[i - 1]))
  }

  ghost predicate Distinct(route: seq<Node>)
  {
    forall i, j :: 0 <= i < j < |route| ==> route[i] != route[j]
  }

  /** The list reversed (List.Reverse). */
  function Reverse(s: seq<Node>): (r: seq<Node>)
    ensures |r| == |s|
    ensures forall i :: 0 <= i < |s| ==> r[i] == s[|s| - 1 - i]
  {
    if s == [] then [] else Reverse(s[1..]) + [s[0]]
  }

  /**
   * A predecessor map determines its route: two repetition-free routes that
   * both follow it from start to goal are the same route.
   */
  lemma {:induction false} PredChainUnique(pred: map<Node, Option<Node>>, start: Node, goal: Node,
                                           a: seq<Node>, b: seq<Node>)
    requires FollowsPred(pred, start, goal, a) && Distinct(a)
    requires FollowsPred(pred, start, goal, b) && Distinct(b)
    ensures a == b
    decreases |a|
  {
    if goal == start {
      assert a[0] == a[|a| - 1] && b[0] == b[|b| - 1];
    } else {
      var p := a[|a| - 2];
      assert a[|a| - 1] == goal && b[|b| - 1] == goal;
      assert pred[goal] == Some(p) && pred[goal] == Some(b[|b| - 2]);
      PredChainUnique(pred, start, p, a[..|a| - 1], b[..|b| - 1]);
      assert a == a[..|a| - 1] + [goal] && b == b[..|b| - 1] + [goal];
    }
  }

  // ---------------------------------------------------------------------
  // The invariant behind route reconstruction

  /**
   * `rank` numbers the closed nodes in the order they were first closed.
   * The start is the only node without a predecessor and has g = 0; every
   * other tracked node was reached along a graph edge from a closed node,
   * one step costlier than it; and a closed node's predecessor was closed
   * strictly before it, so following predecessors from a closed node
   * reaches the start.
   */
  ghost predicate Ranked(graph: GridGraph, start: Node, s: SearchState, rank: map<Node, nat>, clock: nat)
  {
    && Tracked(s)
    && rank.Keys == s.closed
    && (forall n :: n in rank ==> rank[n] < clock)
    && start in s.g && s.g[start] == 0 && s.pred[start] == None
    && PredLinks(graph, start, s, rank)
    && (s.closed == {} ==> s.open == [start])
    && (s.closed != {} ==> start in s.closed)
  }

  /**
   * Each non-start entry's predecessor is closed, is joined to it by an edge,
   * is one step cheaper, and was closed before it if it is closed itself.
   * (The trigger is the predecessor lookup alone, which the body never
   * produces for a new node, so instantiation cannot run along the chain.)
   */
  ghost predicate PredLinks(graph: GridGraph, start: Node, s: SearchState, rank: map<Node, nat>)
    requires Tracked(s) && rank.Keys == s.closed
  {
    forall n {:trigger s.pred[n]} :: n in s.pred && n != start ==>
      && s.pred[n].Some? && s.pred[n].value in s.closed
      && n in graph.neighbors(s.pred[n].value)
      && s.g[n] == s.g[s.pred[n].value] + 1
      && (n in s.closed ==> rank[s.pred[n].value] < rank[n])
  }

  lemma InitRanked(graph: GridGraph, start: Node, goal: Node, h: Estimate)
    ensures Ranked(graph, start, Init(start, goal, h), map[], 0)
  {
  }

  lemma RelaxRanked(graph: GridGraph, start: Node, s: SearchState, current: Node, n: Node,
                    goal: Node, h: Estimate, rank: map<Node, nat>, clock: nat)
    requires Ranked(graph, start, s, rank, clock)
    requires current in s.closed && n in graph.neighbors(current)
    ensures Ranked(graph, start, Relax(s, current, n, goal, h), rank, clock)
  {
    var r := Relax(s, current, n, goal, h);
    if n in s.closed {
      assert r == s;
    } else {
      RankedAfterOverwrite(graph, start, s, r, current, n, rank, clock);
    }
  }

  /** The invariant survives overwriting the entries of a non-closed neighbour `n`. */
  lemma RankedAfterOverwrite(graph: GridGraph, start: Node, s: SearchState, r: SearchState,
                             current: Node, n: Node, rank: map<Node, nat>, clock: nat)
    requires Ranked(graph, start, s, rank, clock) && Tracked(r)
    requires current in s.closed && n !in s.closed && n in graph.neighbors(current)
    requires r.g == s.g[n := s.g[current] + 1] && r.pred == s.pred[n := Some(current)] && r.closed == s.closed
    ensures Ranked(graph, start, r, rank, clock)
  {
    assert start in s.closed && n != start;
    PredLinksAfterRelax(graph, start, s, r, current, n, rank);
  }

  /** The predecessor part of the invariant after one overwrite of `n`. */
  lemma PredLinksAfterRelax(graph: GridGraph, start: Node, s: SearchState, r: SearchState,
                            current: Node, n: Node, rank: map<Node, nat>)
    requires Tracked(s) && Tracked(r) && rank.Keys == s.closed && PredLinks(graph, start, s, rank)
    requires current in s.closed && n !in s.closed && n in graph.neighbors(current)
    requires r.g == s.g[n := s.g[current] + 1] && r.pred == s.pred[n := Some(current)] && r.closed == s.closed
    ensures PredLinks(graph, start, r, rank)
  {
    forall m | m in r.pred && m != start
      ensures r.pred[m].Some? && r.pred[m].value in r.closed
      ensures m in graph.neighbors(r.pred[m].value)
      ensures r.g[m] == r.g[r.pred[m].value] + 1
      ensures m in r.closed ==> rank[r.pred[m].value] < rank[m]
    {
      if m != n {
        assert r.pred[m] == s.pred[m];
        assert s.pred[m].value != n;
      }
    }
  }

  lemma {:induction false} RelaxAllRanked(graph: GridGraph, start: Node, s: SearchState, current: Node,
                                          ns: seq<Node>, goal: Node, h: Estimate,
                                          rank: map<Node, nat>, clock: nat)
    requires Ranked(graph, start, s, rank, clock)
    requires current in s.closed
    requires forall i :: 0 <= i < |ns| ==> ns[i] in graph.neighbors(current)
    ensures Ranked(graph, start, RelaxAll(s, current, ns, goal, h), rank, clock)
    decreases |ns|
  {
    if ns != [] {
      RelaxAllRanked(graph, start, s, current, ns[..|ns| - 1], goal, h, rank, clock);
      RelaxRanked(graph, start, RelaxAll(s, current, ns[..|ns| - 1], goal, h),
                  current, ns[|ns| - 1], goal, h, rank, clock);
    }
  }

  /** The invariant holds for some closing order. */
  ghost predicate RankedSome(graph: GridGraph, start: Node, s: SearchState)
  {
    exists rank: map<Node, nat>, clock: nat :: Ranked(graph, start, s, rank, clock)
  }

  /** One pass keeps the invariant: closing a node gives it the next rank. */
  lemma IterateRanked(graph: GridGraph, start: Node, goal: Node, h: Estimate, isAdmissible: bool,
                      s: SearchState, rank: map<Node, nat>, clock: nat)
    returns (rank': map<Node, nat>, clock': nat)
    requires Ranked(graph, start, s, rank, clock) && |s.open| > 0
    ensures Ranked(graph, start, Iterate(graph, goal, h, isAdmissible, s).state, rank', clock')
  {
    var current := Tail(s);
    var popped := Pop(s);
    rank', clock' := if current in s.closed then rank else rank[current := clock], clock + 1;
    PopRanked(graph, start, s, rank, clock);
    if !Iterate(graph, goal, h, isAdmissible, s).breaks {
      RelaxAllRanked(graph, start, popped, current, graph.neighbors(current), goal, h, rank', clock');
    }
  }

  /** One pass keeps the invariant for some closing order. */
  lemma IterateRankedSome(graph: GridGraph, start: Node, goal: Node, h: Estimate, isAdmissible: bool, s: SearchState)
    requires RankedSome(graph, start, s) && |s.open| > 0
    ensures RankedSome(graph, start, Iterate(graph, goal, h, isAdmissible, s).state)
  {
    var rank, clock :| Ranked(graph, start, s, rank, clock);
    var rank', clock' := IterateRanked(graph, start, goal, h, isAdmissible, s, rank, clock);
  }

  /** Every pass keeps the invariant, so the loop's final state satisfies it. */
  lemma RunRanked(graph: GridGraph, start: Node, goal: Node, h: Estimate, isAdmissible: bool,
                  s: SearchState, iteration: nat)
    requires Tracked(s) && RankedSome(graph, start, s) && iteration <= MaxIterations
    ensures RankedSome(graph, start, Run(graph, goal, h, isAdmissible, s, iteration))
  {
    var inv := t => RankedSome(graph, start, t);
    forall t | Tracked(t) && |t.open| > 0 && inv(t)
      ensures inv(Iterate(graph, goal, h, isAdmissible, t).state)
    {
      IterateRankedSome(graph, start, goal, h, isAdmissible, t);
    }
    RunKeeps(graph, goal, h, isAdmissible, inv, s, iteration);
  }

  /** Popping the tail and closing it keeps the invariant. */
  lemma PopRanked(graph: GridGraph, start: Node, s: SearchState, rank: map<Node, nat>, clock: nat)
    requires Ranked(graph, start, s, rank, clock) && |s.open| > 0
    ensures Ranked(graph, start, Pop(s), if Tail(s) in s.closed then rank else rank[Tail(s) := clock], clock + 1)
  {
    var popped := Pop(s);
    var rank' := if Tail(s) in s.closed then rank else rank[Tail(s) := clock];
    PredLinksAfterPop(graph, start, s, rank, clock);
    assert start in popped.closed by {
      if s.closed == {} {
        assert s.open == [start];
      }
    }
  }

  /** Closing the tail gives it a rank above every earlier one. */
  lemma PredLinksAfterPop(graph: GridGraph, start: Node, s: SearchState, rank: map<Node, nat>, clock: nat)
    requires Tracked(s) && rank.Keys == s.closed && PredLinks(graph, start, s, rank)
    requires (forall n :: n in rank ==> rank[n] < clock) && |s.open| > 0
    ensures var rank' := if Tail(s) in s.closed then rank else rank[Tail(s) := clock];
            rank'.Keys == Pop(s).closed && PredLinks(graph, start, Pop(s), rank')
  {
    var popped := Pop(s);
    var rank' := if Tail(s) in s.closed then rank else rank[Tail(s) := clock];
    forall n | n in popped.pred && n != start
      ensures popped.pred[n].Some? && popped.pred[n].value in popped.closed
      ensures n in graph.neighbors(popped.pred[n].value)
      ensures popped.g[n] == popped.g[popped.pred[n].value] + 1
      ensures n in popped.closed ==> rank'[popped.pred[n].value] < rank'[n]
    {
      assert popped.pred[n] == s.pred[n];
    }
  }

  // ---------------------------------------------------------------------
  // Route reconstruction

  /**
   * `back` is the predecessor chain read from the goal backwards: every
   * entry is closed, its predecessor is the next entry, joined to it by an
   * edge and one step cheaper, and closed strictly earlier.
   */
  ghost predicate BackChain(graph: GridGraph, s: SearchState, rank: map<Node, nat>, goal: Node, back: seq<Node>)
  {
    && |back| > 0 && back[0] == goal
    && (forall i :: 0 <= i < |back| ==> back[i] in rank && back[i] in s.g)
    && (forall i :: 0 <= i < |back| - 1 ==>
          && back[i] in s.pred && s.pred[back[i]] == Some(back[i + 1])
          && back[i] in graph.neighbors(back[i + 1]))
    && (forall i, j :: 0 <= i < j < |back| ==> rank[back[j]] < rank[back[i]])
    && s.g[goal] == s.g[back[|back| - 1]] + |back| - 1
  }

  /** A closed goal starts a chain. */
  lemma BackChainStart(graph: GridGraph, start: Node, s: SearchState, rank: map<Node, nat>, clock: nat, goal: Node)
    requires Ranked(graph, start, s, rank, clock) && goal in s.closed
    ensures BackChain(graph, s, rank, goal, [goal])
  {
  }

  /** A closed node other than the start has a closed predecessor one edge and one step before it. */
  lemma PredOfClosed(graph: GridGraph, start: Node, s: SearchState, rank: map<Node, nat>, clock: nat, n: Node)
    requires Ranked(graph, start, s, rank, clock) && n in s.closed && n != start
    ensures n in s.pred && s.pred[n].Some?
    ensures var p := s.pred[n].value;
            && p in rank && p in s.g && n in graph.neighbors(p)
            && s.g[n] == s.g[p] + 1 && rank[p] < rank[n]
  {
    assert s.pred[n].value in s.closed;
  }

  /**
   * A chain that has not reached the start extends by the predecessor of its
   * last node, which is ranked lower: following predecessors cannot go on
   * for ever.
   */
  lemma BackChainStep(graph: GridGraph, s: SearchState, rank: map<Node, nat>, goal: Node, back: seq<Node>)
    requires BackChain(graph, s, rank, goal, back)
    requires var last := back[|back| - 1];
             && last in s.pred && s.pred[last].Some?
             && var p := s.pred[last].value;
             && p in rank && p in s.g && last in graph.neighbors(p)
             && s.g[last] == s.g[p] + 1 && rank[p] < rank[last]
    ensures BackChain(graph, s, rank, goal, back + [s.pred[back[|back| - 1]].value])
  {
    var last := back[|back| - 1];
    var p := s.pred[last].value;
    var back' := back + [p];
    assert forall i :: 0 <= i < |back| ==> back'[i] == back[i];
    forall i | 0 <= i < |back'| - 1
      ensures back'[i] in s.pred && s.pred[back'[i]] == Some(back'[i + 1])
      ensures back'[i] in graph.neighbors(back'[i + 1])
    {
      if i < |back| - 1 {
        assert back'[i] == back[i] && back'[i + 1] == back[i + 1];
      } else {
        assert back'[i] == last && back'[i + 1] == p;
      }
    }
    forall i, j | 0 <= i < j < |back'|
      ensures rank[back'[j]] < rank[back'[i]]
    {
      if j == |back| && i < |back| - 1 {
        assert rank[back[|back| - 1]] < rank[back[i]];
      }
    }
  }

  /**
   * A chain that reached the start, reversed, is a route from start to goal
   * that follows the predecessor map and has one node more than the goal's
   * g-score.
   */
  lemma BackChainRoute(graph: GridGraph, start: Node, s: SearchState, rank: map<Node, nat>,
                       goal: Node, back: seq<Node>)
    requires BackChain(graph, s, rank, goal, back)
    requires back[|back| - 1] == start && s.g[start] == 0
    ensures var route := Reverse(back);
            && IsRoute(graph, start, goal, route)
            && FollowsPred(s.pred, start, goal, route)
            && |route| == s.g[goal] + 1
  {
    var route := Reverse(back);
    var m := |back|;
    forall i | 0 <= i < m - 1
      ensures route[i + 1] in graph.neighbors(route[i])
    {
      assert route[i + 1] == back[m - 2 - i] && route[i] == back[m - 1 - i];
    }
    forall i, j | 0 <= i < j < m
      ensures route[i] != route[j]
    {
      assert rank[back[m - 1 - i]] < rank[back[m - 1 - j]];
    }
    forall i | 0 < i < m
      ensures route[i] in s.pred && s.pred[route[i]] == Some(route[i - 1])
    {
      assert route[i] == back[m - 1 - i] && route[i - 1] == back[m - i];
    }
  }

  /** The search's final state satisfies the invariant for some closing order. */
  lemma SearchRanked(graph: GridGraph, start: Node, goal: Node, h: Estimate, isAdmissible: bool)
    returns (rank: map<Node, nat>, clock: nat)
    ensures Ranked(graph, start, Search(graph, start, goal, h, isAdmissible), rank, clock)
  {
    InitRanked(graph, start, goal, h);
    RunRanked(graph, start, goal, h, isAdmissible, Init(start, goal, h), 0);
    rank, clock :| Ranked(graph, start, Search(graph, start, goal, h, isAdmissible), rank, clock);
  }
}
