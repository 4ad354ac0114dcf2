/**
 * What the search as written does on small graphs, against what its
 * comments ask for: the open list loses its order once a node is relaxed a
 * second time, and a later, longer relaxation replaces a shorter one, so the
 * route returned need not be a shortest one. The relaxation with the
 * comparison the neighbour loop's comment asks for is defined beside it.
 */
module SearchFindings {
  import opened Wrappers
  import opened Graph
  import opened OpenList
  import opened AStar

  /** The zero estimate, the one a missing heuristic is replaced by. */
  function Zero(): Estimate
  {
    (n: Node, goal: Node) => 0.0
  }

  /** A graph over nodes 0..4 given by its neighbour lists (a node not listed has none). */
  function SmallGraph(edges: map<Node, seq<Node>>): GridGraph
  {
    GridGraph([0, 1, 2, 3, 4], (n: Node) => if n in edges then edges[n] else [], (n: Node) => n, 1.0)
  }

  /** A node whose f-score is no lower than any entry's goes to the head of the list. */
  lemma InsertFront(pq: seq<Node>, f: map<Node, real>, node: Node)
    requires Keyed(pq, f) && node in f
    requires forall i :: 0 <= i < |pq| ==> f[pq[i]] <= f[node]
    ensures Inserted(pq, f, node) == [node] + pq
  {
    var p := InsertIndex(pq, f, f[node]);
    assert p == 0;
    assert pq[..0] == [] && pq[0..] == pq;
  }

  /** Relaxing an unclosed neighbour whose new f-score is no lower than any open entry's. */
  lemma RelaxToFront(s: SearchState, current: Node, n: Node, goal: Node, h: Estimate)
    requires Tracked(s) && current in s.closed && n !in s.closed
    requires forall i :: 0 <= i < |s.open| ==> s.open[i] == n || s.f[s.open[i]] <= (s.g[current] + 1) as real + h(n, goal)
    ensures Relax(s, current, n, goal, h)
         == SearchState(s.g[n := s.g[current] + 1], s.f[n := (s.g[current] + 1) as real + h(n, goal)],
                        s.pred[n := Some(current)], [n] + s.open, s.closed)
  {
    var f' := s.f[n := (s.g[current] + 1) as real + h(n, goal)];
    InsertFront(s.open, f', n);
  }

  /** Relaxing a list of three neighbours is relaxing them one after another. */
  lemma RelaxThree(s: SearchState, current: Node, x: Node, y: Node, z: Node, goal: Node, h: Estimate)
    requires Tracked(s) && current in s.closed
    ensures RelaxAll(s, current, [x, y, z], goal, h)
         == Relax(Relax(Relax(s, current, x, goal, h), current, y, goal, h), current, z, goal, h)
  {
    var ns := [x, y, z];
    assert ns[..0] == [] && ns[..1] == [x] && ns[..2] == [x, y] && ns[..3] == ns;
    RelaxAllPrefix(s, current, ns, 0, goal, h);
    RelaxAllPrefix(s, current, ns, 1, goal, h);
    RelaxAllPrefix(s, current, ns, 2, goal, h);
  }

  /** Relaxing a list of two neighbours is relaxing them one after the other. */
  lemma RelaxTwo(s: SearchState, current: Node, x: Node, y: Node, goal: Node, h: Estimate)
    requires Tracked(s) && current in s.closed
    ensures RelaxAll(s, current, [x, y], goal, h) == Relax(Relax(s, current, x, goal, h), current, y, goal, h)
  {
    var ns := [x, y];
    assert ns[..0] == [] && ns[..1] == [x] && ns[..2] == ns;
    RelaxAllPrefix(s, current, ns, 0, goal, h);
    RelaxAllPrefix(s, current, ns, 1, goal, h);
  }

  /** Relaxing a one-neighbour list is relaxing that neighbour. */
  lemma RelaxOne(s: SearchState, current: Node, x: Node, goal: Node, h: Estimate)
    requires Tracked(s) && current in s.closed
    ensures RelaxAll(s, current, [x], goal, h) == Relax(s, current, x, goal, h)
  {
    assert [x][..0] == [];
  }

  /** A pass that pops a node other than the goal, with the goal not closed, relaxes the popped node's neighbours. */
  lemma IterateRelaxes(graph: GridGraph, goal: Node, h: Estimate, isAdmissible: bool, s: SearchState)
    requires Tracked(s) && |s.open| > 0 && Tail(s) != goal && goal !in s.closed
    ensures Iterate(graph, goal, h, isAdmissible, s)
         == Pass(RelaxAll(Pop(s), Tail(s), graph.neighbors(Tail(s)), goal, h), false)
  {
  }

  /** `s` has open list `open`, closed set `closed`, and at least the listed g, f and predecessor entries. */
  ghost predicate Shows(s: SearchState, open: seq<Node>, closed: set<Node>,
                        g: map<Node, nat>, f: map<Node, real>, pred: map<Node, Option<Node>>)
  {
    && Tracked(s) && s.open == open && s.closed == closed
    && (forall k :: k in g ==> k in s.g && s.g[k] == g[k])
    && (forall k :: k in f ==> k in s.f && s.f[k] == f[k])
    && (forall k :: k in pred ==> k in s.pred && s.pred[k] == pred[k])
  }

  /** Popping closes the tail and changes no score. */
  lemma PopShows(s: SearchState, open: seq<Node>, closed: set<Node>,
                 g: map<Node, nat>, f: map<Node, real>, pred: map<Node, Option<Node>>)
    requires Shows(s, open, closed, g, f, pred) && |open| > 0
    ensures Tail(s) == open[|open| - 1]
    ensures Shows(Pop(s), open[..|open| - 1], closed + {open[|open| - 1]}, g, f, pred)
  {
  }

  /** Relaxing to the head of the list, entry by entry. */
  lemma RelaxShows(s: SearchState, current: Node, n: Node, goal: Node, h: Estimate, open: seq<Node>, closed: set<Node>,
                   g: map<Node, nat>, f: map<Node, real>, pred: map<Node, Option<Node>>, key: real)
    requires Shows(s, open, closed, g, f, pred) && current in closed && current in g && n !in closed
    requires key == (g[current] + 1) as real + h(n, goal)
    requires forall i :: 0 <= i < |open| ==> open[i] == n || (open[i] in f && f[open[i]] <= key)
    ensures Shows(Relax(s, current, n, goal, h), [n] + open, closed,
                  g[n := g[current] + 1], f[n := key], pred[n := Some(current)])
  {
    RelaxToFront(s, current, n, goal, h);
  }

  /** The search from 0 after its first pop: 0 closed at cost 0, nothing open. */
  lemma StartPopped(goal: Node)
    requires goal != 0
    ensures Tail(Init(0, goal, Zero())) == 0
    ensures Shows(Pop(Init(0, goal, Zero())), [], {0}, map[0 := 0], map[0 := 0.0], map[0 := None])
  {
  }

  /** 0 opens 1 at cost 1. */
  lemma ZeroOpensOne(s: SearchState, goal: Node)
    requires Shows(s, [], {0}, map[0 := 0], map[0 := 0.0], map[0 := None])
    ensures Shows(Relax(s, 0, 1, goal, Zero()), [1], {0}, map[0 := 0, 1 := 1], map[0 := 0.0, 1 := 1.0],
                  map[0 := None, 1 := Some(0)])
  {
    RelaxShows(s, 0, 1, goal, Zero(), [], {0}, map[0 := 0], map[0 := 0.0], map[0 := None], 1.0);
  }

  /** 0 then opens 2 at cost 1, ahead of 1. */
  lemma ZeroOpensTwo(s: SearchState, goal: Node)
    requires Shows(s, [1], {0}, map[0 := 0, 1 := 1], map[0 := 0.0, 1 := 1.0], map[0 := None, 1 := Some(0)])
    ensures Shows(Relax(s, 0, 2, goal, Zero()), [2, 1], {0}, map[0 := 0, 1 := 1, 2 := 1],
                  map[0 := 0.0, 1 := 1.0, 2 := 1.0], map[0 := None, 1 := Some(0), 2 := Some(0)])
  {
    RelaxShows(s, 0, 2, goal, Zero(), [1], {0}, map[0 := 0, 1 := 1], map[0 := 0.0, 1 := 1.0],
               map[0 := None, 1 := Some(0)], 1.0);
  }

  // ---------------------------------------------------------------------
  // The open list is not kept sorted

  /** The edges 0 -> 1, 2, 3 and 1 -> 2. */
  function Fan(): GridGraph
  {
    SmallGraph(map[0 := [1, 2, 3], 1 := [2]])
  }

  /** After the first pass from 0 on `Fan`: 1, 2 and 3 open at cost 1. */
  ghost predicate FanAfter1(s: SearchState)
  {
    Shows(s, [3, 2, 1], {0}, map[0 := 0, 1 := 1, 2 := 1, 3 := 1], map[0 := 0.0, 1 := 1.0, 2 := 1.0, 3 := 1.0],
          map[0 := None, 1 := Some(0), 2 := Some(0), 3 := Some(0)])
  }

  /** After the second pass: 1 closed, and 2 relaxed again from it at cost 2. */
  ghost predicate FanAfter2(s: SearchState)
  {
    Shows(s, [2, 3, 2], {0, 1}, map[0 := 0, 1 := 1, 2 := 2, 3 := 1], map[0 := 0.0, 1 := 1.0, 2 := 2.0, 3 := 1.0],
          map[0 := None, 1 := Some(0), 2 := Some(1), 3 := Some(0)])
  }

  /** 0 opens 3 at cost 1, ahead of 2 and 1. */
  lemma ZeroOpensThree(s: SearchState)
    requires Shows(s, [2, 1], {0}, map[0 := 0, 1 := 1, 2 := 1], map[0 := 0.0, 1 := 1.0, 2 := 1.0],
                   map[0 := None, 1 := Some(0), 2 := Some(0)])
    ensures FanAfter1(Relax(s, 0, 3, 4, Zero()))
  {
    RelaxShows(s, 0, 3, 4, Zero(), [2, 1], {0}, map[0 := 0, 1 := 1, 2 := 1], map[0 := 0.0, 1 := 1.0, 2 := 1.0],
               map[0 := None, 1 := Some(0), 2 := Some(0)], 1.0);
  }

  lemma FanFirstPass()
    ensures var pass := Iterate(Fan(), 4, Zero(), true, Init(0, 4, Zero()));
            !pass.breaks && FanAfter1(pass.state)
  {
    var graph, h := Fan(), Zero();
    var s0 := Init(0, 4, h);
    StartPopped(4);
    var popped := Pop(s0);
    ZeroOpensOne(popped, 4);
    var a := Relax(popped, 0, 1, 4, h);
    ZeroOpensTwo(a, 4);
    ZeroOpensThree(Relax(a, 0, 2, 4, h));
    assert graph.neighbors(0) == [1, 2, 3];
    RelaxThree(popped, 0, 1, 2, 3, 4, h);
    IterateRelaxes(graph, 4, h, true, s0);
  }

  /** 1, popped, opens 2 again at cost 2. */
  lemma OneReopensTwo(s: SearchState)
    requires Shows(s, [3, 2], {0, 1}, map[0 := 0, 1 := 1, 2 := 1, 3 := 1], map[0 := 0.0, 1 := 1.0, 2 := 1.0, 3 := 1.0],
                   map[0 := None, 1 := Some(0), 2 := Some(0), 3 := Some(0)])
    ensures FanAfter2(Relax(s, 1, 2, 4, Zero()))
  {
    RelaxShows(s, 1, 2, 4, Zero(), [3, 2], {0, 1}, map[0 := 0, 1 := 1, 2 := 1, 3 := 1],
               map[0 := 0.0, 1 := 1.0, 2 := 1.0, 3 := 1.0], map[0 := None, 1 := Some(0), 2 := Some(0), 3 := Some(0)], 2.0);
  }

  /** The second pass pops 1. */
  lemma FanPopsOne(s: SearchState)
    requires FanAfter1(s)
    ensures Tail(s) == 1
    ensures Shows(Pop(s), [3, 2], {0, 1}, map[0 := 0, 1 := 1, 2 := 1, 3 := 1], map[0 := 0.0, 1 := 1.0, 2 := 1.0, 3 := 1.0],
                  map[0 := None, 1 := Some(0), 2 := Some(0), 3 := Some(0)])
  {
    PopShows(s, [3, 2, 1], {0}, map[0 := 0, 1 := 1, 2 := 1, 3 := 1], map[0 := 0.0, 1 := 1.0, 2 := 1.0, 3 := 1.0],
             map[0 := None, 1 := Some(0), 2 := Some(0), 3 := Some(0)]);
    assert [3, 2, 1][..2] == [3, 2] && {0} + {1} == {0, 1};
  }

  lemma FanSecondPass(s: SearchState)
    requires FanAfter1(s)
    ensures var pass := Iterate(Fan(), 4, Zero(), true, s);
            !pass.breaks && FanAfter2(pass.state)
  {
    var graph, h := Fan(), Zero();
    FanPopsOne(s);
    OneReopensTwo(Pop(s));
    assert graph.neighbors(1) == [2];
    RelaxOne(Pop(s), 1, 2, 4, h);
    IterateRelaxes(graph, 4, h, true, s);
  }

  /** Two passes of the search on `Fan`, run as the last two of `MaxIterations`. */
  lemma FanTwoPasses()
    ensures FanAfter2(Run(Fan(), 4, Zero(), true, Init(0, 4, Zero()), MaxIterations - 2))
  {
    var graph, h := Fan(), Zero();
    var s0 := Init(0, 4, h);
    FanFirstPass();
    var s1 := Iterate(graph, 4, h, true, s0).state;
    FanSecondPass(s1);
    var s2 := Iterate(graph, 4, h, true, s1).state;
    RunGoesOn(graph, 4, h, true, s0, MaxIterations - 2);
    RunGoesOn(graph, 4, h, true, s1, MaxIterations - 1);
    RunStops(graph, 4, h, true, s2, MaxIterations);
  }

  /** In the state after two passes the tail, node 2 at cost 2, is not the lowest entry. */
  lemma FanAfter2Unsorted(s: SearchState)
    requires FanAfter2(s)
    ensures && s.open == [2, 3, 2] && {2, 3} <= s.g.Keys && {2, 3} <= s.f.Keys
            && Keyed(s.open, s.f) && !TailLowest(s.open, s.f)
            && s.g[Tail(s)] == 2 && s.g[3] == 1
  {
    assert s.g[2] == 2 && s.g[3] == 1 && s.f[2] == 2.0 && s.f[3] == 1.0;
    assert s.f[s.open[1]] < s.f[s.open[2]];
  }

  /**
   * Relaxing a node again inserts a second entry for it and leaves the old
   * one in place under the node's new, higher f-score: after two passes the
   * open list is [2, 3, 2], no longer ordered by f-score, and the next pop
   * takes node 2 at cost 2 while node 3 at cost 1 is still open.
   */
  lemma OpenListLosesOrder()
    ensures var s2 := Run(Fan(), 4, Zero(), true, Init(0, 4, Zero()), MaxIterations - 2);
            && s2.open == [2, 3, 2] && {2, 3} <= s2.g.Keys && {2, 3} <= s2.f.Keys
            && Keyed(s2.open, s2.f) && !TailLowest(s2.open, s2.f)
            && s2.g[Tail(s2)] == 2 && s2.g[3] == 1
  {
    FanTwoPasses();
    FanAfter2Unsorted(Run(Fan(), 4, Zero(), true, Init(0, 4, Zero()), MaxIterations - 2));
  }

  // ---------------------------------------------------------------------
  // The route returned is not a shortest one

  /** The edges 0 -> 1, 2; 1 -> 2, 3; 2 -> 3, searched from 0 to 3. */
  function Diamond(): GridGraph
  {
    SmallGraph(map[0 := [1, 2], 1 := [2, 3], 2 := [3]])
  }

  /** After pass 1: 2 and 1 open at cost 1. */
  ghost predicate DiamondAfter1(s: SearchState)
  {
    Shows(s, [2, 1], {0}, map[0 := 0, 1 := 1, 2 := 1], map[0 := 0.0, 1 := 1.0, 2 := 1.0],
          map[0 := None, 1 := Some(0), 2 := Some(0)])
  }

  /** After pass 2: 1 closed, 2 and 3 opened from it at cost 2. */
  ghost predicate DiamondAfter2(s: SearchState)
  {
    Shows(s, [3, 2, 2], {0, 1}, map[0 := 0, 1 := 1, 2 := 2, 3 := 2], map[0 := 0.0, 1 := 1.0, 2 := 2.0, 3 := 2.0],
          map[0 := None, 1 := Some(0), 2 := Some(1), 3 := Some(1)])
  }

  /** After pass 3: 2 closed, and 3, reached at cost 2, overwritten from 2 at cost 3. */
  ghost predicate DiamondAfter3(s: SearchState)
  {
    Shows(s, [3, 3, 2], {0, 1, 2}, map[0 := 0, 1 := 1, 2 := 2, 3 := 3], map[0 := 0.0, 1 := 1.0, 2 := 2.0, 3 := 3.0],
          map[0 := None, 1 := Some(0), 2 := Some(1), 3 := Some(2)])
  }

  /** After pass 4: the stale entry of 2 popped, and 3 relaxed from 2 once more. */
  ghost predicate DiamondAfter4(s: SearchState)
  {
    Shows(s, [3, 3, 3], {0, 1, 2}, map[0 := 0, 1 := 1, 2 := 2, 3 := 3], map[0 := 0.0, 1 := 1.0, 2 := 2.0, 3 := 3.0],
          map[0 := None, 1 := Some(0), 2 := Some(1), 3 := Some(2)])
  }

  lemma DiamondFirstPass()
    ensures var pass := Iterate(Diamond(), 3, Zero(), true, Init(0, 3, Zero()));
            !pass.breaks && DiamondAfter1(pass.state)
  {
    var graph, h := Diamond(), Zero();
    var s0 := Init(0, 3, h);
    StartPopped(3);
    var popped := Pop(s0);
    ZeroOpensOne(popped, 3);
    ZeroOpensTwo(Relax(popped, 0, 1, 3, h), 3);
    assert graph.neighbors(0) == [1, 2];
    RelaxTwo(popped, 0, 1, 2, 3, h);
    IterateRelaxes(graph, 3, h, true, s0);
  }

  /** 1, popped, opens 2 again at cost 2. */
  lemma OneOpensTwo(s: SearchState)
    requires Shows(s, [2], {0, 1}, map[0 := 0, 1 := 1, 2 := 1], map[0 := 0.0, 1 := 1.0, 2 := 1.0],
                   map[0 := None, 1 := Some(0), 2 := Some(0)])
    ensures Shows(Relax(s, 1, 2, 3, Zero()), [2, 2], {0, 1}, map[0 := 0, 1 := 1, 2 := 2], map[0 := 0.0, 1 := 1.0, 2 := 2.0],
                  map[0 := None, 1 := Some(0), 2 := Some(1)])
  {
    RelaxShows(s, 1, 2, 3, Zero(), [2], {0, 1}, map[0 := 0, 1 := 1, 2 := 1], map[0 := 0.0, 1 := 1.0, 2 := 1.0],
               map[0 := None, 1 := Some(0), 2 := Some(0)], 2.0);
  }

  /** 1 then opens the goal 3 at cost 2. */
  lemma OneOpensThree(s: SearchState)
    requires Shows(s, [2, 2], {0, 1}, map[0 := 0, 1 := 1, 2 := 2], map[0 := 0.0, 1 := 1.0, 2 := 2.0],
                   map[0 := None, 1 := Some(0), 2 := Some(1)])
    ensures DiamondAfter2(Relax(s, 1, 3, 3, Zero()))
  {
    RelaxShows(s, 1, 3, 3, Zero(), [2, 2], {0, 1}, map[0 := 0, 1 := 1, 2 := 2], map[0 := 0.0, 1 := 1.0, 2 := 2.0],
               map[0 := None, 1 := Some(0), 2 := Some(1)], 2.0);
  }

  /** The second pass pops 1. */
  lemma DiamondPopsOne(s: SearchState)
    requires DiamondAfter1(s)
    ensures Tail(s) == 1
    ensures Shows(Pop(s), [2], {0, 1}, map[0 := 0, 1 := 1, 2 := 1], map[0 := 0.0, 1 := 1.0, 2 := 1.0],
                  map[0 := None, 1 := Some(0), 2 := Some(0)])
  {
    PopShows(s, [2, 1], {0}, map[0 := 0, 1 := 1, 2 := 1], map[0 := 0.0, 1 := 1.0, 2 := 1.0],
             map[0 := None, 1 := Some(0), 2 := Some(0)]);
    assert [2, 1][..1] == [2] && {0} + {1} == {0, 1};
  }

  lemma DiamondSecondPass(s: SearchState)
    requires DiamondAfter1(s)
    ensures var pass := Iterate(Diamond(), 3, Zero(), true, s);
            !pass.breaks && DiamondAfter2(pass.state)
  {
    var graph, h := Diamond(), Zero();
    DiamondPopsOne(s);
    var popped := Pop(s);
    OneOpensTwo(popped);
    OneOpensThree(Relax(popped, 1, 2, 3, h));
    assert graph.neighbors(1) == [2, 3];
    RelaxTwo(popped, 1, 2, 3, 3, h);
    IterateRelaxes(graph, 3, h, true, s);
  }

  /** 2, popped, overwrites the goal's cost 2 with 3. */
  lemma TwoRaisesThree(s: SearchState)
    requires Shows(s, [3, 2], {0, 1, 2}, map[0 := 0, 1 := 1, 2 := 2, 3 := 2], map[0 := 0.0, 1 := 1.0, 2 := 2.0, 3 := 2.0],
                   map[0 := None, 1 := Some(0), 2 := Some(1), 3 := Some(1)])
    ensures DiamondAfter3(Relax(s, 2, 3, 3, Zero()))
  {
    RelaxShows(s, 2, 3, 3, Zero(), [3, 2], {0, 1, 2}, map[0 := 0, 1 := 1, 2 := 2, 3 := 2],
               map[0 := 0.0, 1 := 1.0, 2 := 2.0, 3 := 2.0], map[0 := None, 1 := Some(0), 2 := Some(1), 3 := Some(1)], 3.0);
  }

  /** The third pass pops 2. */
  lemma DiamondPopsTwo(s: SearchState)
    requires DiamondAfter2(s)
    ensures Tail(s) == 2
    ensures Shows(Pop(s), [3, 2], {0, 1, 2}, map[0 := 0, 1 := 1, 2 := 2, 3 := 2], map[0 := 0.0, 1 := 1.0, 2 := 2.0, 3 := 2.0],
                  map[0 := None, 1 := Some(0), 2 := Some(1), 3 := Some(1)])
  {
    PopShows(s, [3, 2, 2], {0, 1}, map[0 := 0, 1 := 1, 2 := 2, 3 := 2], map[0 := 0.0, 1 := 1.0, 2 := 2.0, 3 := 2.0],
             map[0 := None, 1 := Some(0), 2 := Some(1), 3 := Some(1)]);
    assert [3, 2, 2][..2] == [3, 2] && {0, 1} + {2} == {0, 1, 2};
  }

  lemma DiamondThirdPass(s: SearchState)
    requires DiamondAfter2(s)
    ensures var pass := Iterate(Diamond(), 3, Zero(), true, s);
            !pass.breaks && DiamondAfter3(pass.state)
  {
    var graph, h := Diamond(), Zero();
    DiamondPopsTwo(s);
    TwoRaisesThree(Pop(s));
    assert graph.neighbors(2) == [3];
    RelaxOne(Pop(s), 2, 3, 3, h);
    IterateRelaxes(graph, 3, h, true, s);
  }

  /** The stale entry of 2, popped again, relaxes 3 once more at cost 3. */
  lemma TwoRelaxesThreeAgain(s: SearchState)
    requires Shows(s, [3, 3], {0, 1, 2}, map[0 := 0, 1 := 1, 2 := 2, 3 := 3], map[0 := 0.0, 1 := 1.0, 2 := 2.0, 3 := 3.0],
                   map[0 := None, 1 := Some(0), 2 := Some(1), 3 := Some(2)])
    ensures DiamondAfter4(Relax(s, 2, 3, 3, Zero()))
  {
    RelaxShows(s, 2, 3, 3, Zero(), [3, 3], {0, 1, 2}, map[0 := 0, 1 := 1, 2 := 2, 3 := 3],
               map[0 := 0.0, 1 := 1.0, 2 := 2.0, 3 := 3.0], map[0 := None, 1 := Some(0), 2 := Some(1), 3 := Some(2)], 3.0);
  }

  /** The fourth pass pops the stale entry of 2, already closed. */
  lemma DiamondPopsStaleTwo(s: SearchState)
    requires DiamondAfter3(s)
    ensures Tail(s) == 2
    ensures Shows(Pop(s), [3, 3], {0, 1, 2}, map[0 := 0, 1 := 1, 2 := 2, 3 := 3], map[0 := 0.0, 1 := 1.0, 2 := 2.0, 3 := 3.0],
                  map[0 := None, 1 := Some(0), 2 := Some(1), 3 := Some(2)])
  {
    PopShows(s, [3, 3, 2], {0, 1, 2}, map[0 := 0, 1 := 1, 2 := 2, 3 := 3], map[0 := 0.0, 1 := 1.0, 2 := 2.0, 3 := 3.0],
             map[0 := None, 1 := Some(0), 2 := Some(1), 3 := Some(2)]);
    assert [3, 3, 2][..2] == [3, 3] && {0, 1, 2} + {2} == {0, 1, 2};
  }

  lemma DiamondFourthPass(s: SearchState)
    requires DiamondAfter3(s)
    ensures var pass := Iterate(Diamond(), 3, Zero(), true, s);
            !pass.breaks && DiamondAfter4(pass.state)
  {
    var graph, h := Diamond(), Zero();
    DiamondPopsStaleTwo(s);
    TwoRelaxesThreeAgain(Pop(s));
    assert graph.neighbors(2) == [3];
    RelaxOne(Pop(s), 2, 3, 3, h);
    IterateRelaxes(graph, 3, h, true, s);
  }

  /** The fifth pass pops the goal and takes the admissible exit. */
  lemma DiamondLastPass(s: SearchState)
    requires DiamondAfter4(s)
    ensures var pass := Iterate(Diamond(), 3, Zero(), true, s);
            && pass.breaks && 3 in pass.state.closed && {1, 2, 3} <= pass.state.pred.Keys
            && pass.state.g[3] == 3
            && pass.state.pred[3] == Some(2) && pass.state.pred[2] == Some(1) && pass.state.pred[1] == Some(0)
  {
    PopShows(s, [3, 3, 3], {0, 1, 2}, map[0 := 0, 1 := 1, 2 := 2, 3 := 3], map[0 := 0.0, 1 := 1.0, 2 := 2.0, 3 := 3.0],
             map[0 := None, 1 := Some(0), 2 := Some(1), 3 := Some(2)]);
  }

  /** The search on `Diamond` ends after its fifth pass. */
  lemma DiamondSearch()
    ensures var final := Search(Diamond(), 0, 3, Zero(), true);
            && 3 in final.closed && final.g[3] == 3 && {1, 2, 3} <= final.pred.Keys
            && final.pred[3] == Some(2) && final.pred[2] == Some(1) && final.pred[1] == Some(0)
  {
    var graph, h := Diamond(), Zero();
    var s0 := Init(0, 3, h);
    DiamondFirstPass();
    var s1 := Iterate(graph, 3, h, true, s0).state;
    DiamondSecondPass(s1);
    var s2 := Iterate(graph, 3, h, true, s1).state;
    DiamondThirdPass(s2);
    var s3 := Iterate(graph, 3, h, true, s2).state;
    DiamondFourthPass(s3);
    var s4 := Iterate(graph, 3, h, true, s3).state;
    DiamondLastPass(s4);
    RunGoesOn(graph, 3, h, true, s0, 0);
    RunGoesOn(graph, 3, h, true, s1, 1);
    RunGoesOn(graph, 3, h, true, s2, 2);
    RunGoesOn(graph, 3, h, true, s3, 3);
    RunBreaks(graph, 3, h, true, s4, 4);
  }

  /** A predecessor map linking 3 to 2, 2 to 1 and 1 to 0 is followed by the route 0, 1, 2, 3. */
  lemma ChainFollows(pred: map<Node, Option<Node>>)
    requires {1, 2, 3} <= pred.Keys && pred[3] == Some(2) && pred[2] == Some(1) && pred[1] == Some(0)
    ensures FollowsPred(pred, 0, 3, [0, 1, 2, 3]) && Distinct([0, 1, 2, 3])
  {
  }

  /** ... and by no other route without repeats. */
  lemma ChainOnlyRoute(pred: map<Node, Option<Node>>)
    requires {1, 2, 3} <= pred.Keys && pred[3] == Some(2) && pred[2] == Some(1) && pred[1] == Some(0)
    ensures forall route :: FollowsPred(pred, 0, 3, route) && Distinct(route) ==> |route| == 4
  {
    ChainFollows(pred);
    forall route | FollowsPred(pred, 0, 3, route) && Distinct(route)
      ensures |route| == 4
    {
      PredChainUnique(pred, 0, 3, route, [0, 1, 2, 3]);
    }
  }

  /** `Diamond` has the three-node route 0, 1, 3. */
  lemma DiamondShortcut()
    ensures IsRoute(Diamond(), 0, 3, [0, 1, 3])
  {
    assert Diamond().neighbors(0) == [1, 2] && Diamond().neighbors(1) == [2, 3];
  }

  /**
   * On `Diamond` the admissible search with the zero estimate (which never
   * overestimates) closes the goal with g-score 3: node 3 was first reached
   * from 1 at cost 2, then overwritten from 2 at cost 3. Every route read
   * back through the predecessor map has four nodes, although the route
   * 0, 1, 3 has three.
   */
  lemma SearchNotShortest()
    ensures var final := Search(Diamond(), 0, 3, Zero(), true);
            && 3 in final.closed && final.g[3] == 3
            && IsRoute(Diamond(), 0, 3, [0, 1, 3])
            && (forall route :: FollowsPred(final.pred, 0, 3, route) && Distinct(route) ==> |route| == 4)
  {
    DiamondSearch();
    DiamondShortcut();
    ChainOnlyRoute(Search(Diamond(), 0, 3, Zero(), true).pred);
  }

  /** Relaxing a recorded node from a node whose cost is not lower raises the node's g-score. */
  lemma RelaxRaisesCost(s: SearchState, current: Node, n: Node, goal: Node, h: Estimate)
    requires Tracked(s) && current in s.closed && n !in s.closed && n in s.g
    requires s.g[n] <= s.g[current]
    ensures var r := Relax(s, current, n, goal, h);
            n in r.g && r.g[n] > s.g[n]
  {
  }

  // ---------------------------------------------------------------------
  // The relaxation with the comparison

  /**
   * The relaxation the neighbour loop's comment asks for ("check if you
   * need to update tables ... and do so if necessary"): the entries of `n`
   * are replaced, and `n` inserted, only when the new cost is lower than
   * the one recorded, or none is recorded.
   */
  function RelaxIfShorter(s: SearchState, current: Node, n: Node, goal: Node, h: Estimate): (r: SearchState)
    requires Tracked(s) && current in s.closed
    ensures Tracked(r) && r.closed == s.closed
    ensures forall m :: m in s.g ==> m in r.g && r.g[m] <= s.g[m]
    ensures n !in s.closed ==> n in r.g && r.g[n] <= s.g[current] + 1
    ensures current in r.g && r.g[current] == s.g[current]
  {
    if n in s.closed || (n in s.g && s.g[n] <= s.g[current] + 1) then s
    else Relax(s, current, n, goal, h)
  }

  /** The neighbours in `ns` relaxed in list order, each with the comparison. */
  function RelaxAllIfShorter(s: SearchState, current: Node, ns: seq<Node>, goal: Node, h: Estimate): (r: SearchState)
    requires Tracked(s) && current in s.closed
    ensures Tracked(r) && r.closed == s.closed
    ensures current in r.g && r.g[current] == s.g[current]
    ensures forall m :: m in s.g ==> m in r.g && r.g[m] <= s.g[m]
    ensures forall n :: n in ns && n !in s.closed ==> n in r.g && r.g[n] <= s.g[current] + 1
    decreases |ns|
  {
    if ns == [] then s
    else
      var q := RelaxAllIfShorter(s, current, ns[..|ns| - 1], goal, h);
      assert forall n :: n in ns ==> n in ns[..|ns| - 1] || n == ns[|ns| - 1];
      RelaxIfShorter(q, current, ns[|ns| - 1], goal, h)
  }

  /**
   * With the comparison, the pass that ruined `Diamond` keeps node 3 at its
   * cost 2: relaxing 3 from 2 (cost 2) leaves the entries of 3 as they were.
   */
  lemma ComparisonKeepsShorter(s: SearchState, current: Node, n: Node, goal: Node, h: Estimate)
    requires Tracked(s) && current in s.closed && n !in s.closed && n in s.g
    requires s.g[n] <= s.g[current]
    ensures RelaxIfShorter(s, current, n, goal, h) == s
  {
  }
}
