/**
 * The path follower (AI/Movement/Pathfinding.cs): each frame it walks an
 * agent along the route the pathfinder gave it, one node at a time, by
 * advancing an index into the route whenever the agent arrives at its
 * current target node.
 */
module AgentPathfinding {
  import opened Wrappers
  import opened Scene
  import opened Graph

  datatype AIState = Moving | InDanger | SeekCover | InCover

  /** The part of the agent component the follower reads and writes. */
  class AIAgent {
    var usePathFinding: bool
    var currentState: AIState
    /** The route; None is a null list, a None entry a null node. */
    var currentPath: Option<seq<Option<Node>>>
    var trackedTarget: Option<Transform>
    var transform: Transform

    constructor (transform: Transform, usePathFinding: bool)
      ensures this.transform == transform && this.usePathFinding == usePathFinding
      ensures currentState == Moving && currentPath.None? && trackedTarget.None?
    {
      this.transform := transform;
      this.usePathFinding := usePathFinding;
      currentState := Moving;
      currentPath := None;
      trackedTarget := None;
    }

    method TrackTarget(targetTransform: Transform)
      modifies this
      ensures trackedTarget == Some(targetTransform)
      ensures usePathFinding == old(usePathFinding) && currentState == old(currentState)
      ensures currentPath == old(currentPath) && transform == old(transform)
    {
      trackedTarget := Some(targetTransform);
    }
  }

  /** How a frame of the follower ends. */
  datatype FrameResult =
    | Skipped                           // returned before touching anything
    | Thrown                            // a null dereference or a bad index; nothing was written
    | Stepped(target: Node, index: nat) // ran to the end with this target and index

  /** Arrival: the agent is closer to the node than the degree of arrival. */
  function Arrived(transformOf: Node -> Transform, position: Transform -> Vec3, agentPosition: Vec3,
                   degreeOfArrival: real): (arrived: Node -> bool)
    ensures degreeOfArrival <= 0.0 ==> forall n :: !arrived(n)
    ensures forall n :: position(transformOf(n)) == agentPosition ==> (arrived(n) <==> degreeOfArrival > 0.0)
  {
    (n: Node) => Within(agentPosition, position(transformOf(n)), degreeOfArrival)
  }

  /** The index after an arrival: one further along, but never past the last entry. */
  function Advance(index: nat, count: nat): (i: nat)
    ensures index < count ==> i < count
    ensures i == index || i == index + 1
    ensures i == index + 1 <==> index + 1 < count
  {
    if index < count - 1 then index + 1 else index
  }

  /**
   * One frame of the follower of an agent that exists, from its target and
   * index and the agent's route, in the order the frame does its work.
   */
  function Frame(usePathFinding: bool, path: Option<seq<Option<Node>>>, arrived: Node -> bool,
                 target: Option<Node>, index: nat): (r: FrameResult)
    ensures !usePathFinding ==> r == Skipped
    ensures r.Stepped? ==> r.index == index || (path.Some? && r.index == index + 1 && r.index < |path.value|)
    ensures target.Some? && r.Stepped? && !arrived(target.value) ==> r == Stepped(target.value, index)
    ensures r.Thrown? ==> target.Some? || (path.Some? && |path.value| > 0)
  {
    if !usePathFinding then Skipped
    else if target.None? && (path.None? || |path.value| == 0) then Skipped
    else if target.None? && index >= |path.value| then Thrown
    else
      var t := if target.None? then path.value[index] else target;
      if t.None? then Thrown
      else if !arrived(t.value) then Stepped(t.value, index)
      else if path.None? then Thrown
      else if |path.value| == 0 then Stepped(t.value, index)
      else
        var i := Advance(index, |path.value|);
        if i >= |path.value| then Thrown
        else if path.value[i].None? then Stepped(t.value, i)
        else Stepped(path.value[i].value, i)
  }

  /** A route as the pathfinder returns it: no null entries. */
  predicate NoNullEntries(path: seq<Option<Node>>)
  {
    forall k :: 0 <= k < |path| ==> path[k].Some?
  }

  /**
   * Following a fixed route with no null entries, starting from an index on
   * it, never throws; the index stays on the route and moves by one exactly
   * when the agent has arrived and is not yet at the last node, and the new
   * target is the route's node at the new index.
   */
  lemma IndexStaysOnRoute(path: seq<Option<Node>>, arrived: Node -> bool, target: Option<Node>, index: nat)
    requires NoNullEntries(path) && index < |path|
    ensures var r := Frame(true, Some(path), arrived, target, index);
            && r.Stepped?
            && r.index < |path|
            && var t := if target.None? then path[index].value else target.value;
               && (r.index == index + 1 <==> arrived(t) && index + 1 < |path|)
               && (r.index == index <==> !(arrived(t) && index + 1 < |path|))
               && (if arrived(t) then r.target == path[r.index].value else r.target == t)
  {
  }

  /** Once at the last node, further arrivals keep the follower there. */
  lemma LastNodeIsFinal(path: seq<Option<Node>>, arrived: Node -> bool)
    requires NoNullEntries(path) && |path| > 0
    ensures var last := |path| - 1;
            Frame(true, Some(path), arrived, path[last], last) == Stepped(path[last].value, last)
  {
  }

  /** After `k` frames that each arrive, the index has moved `k` steps, stopping at the last entry. */
  function Arrivals(path: seq<Option<Node>>, target: Node, index: nat, k: nat): FrameResult
    decreases k
  {
    if k == 0 then Stepped(target, index)
    else
      var r := Frame(true, Some(path), _ => true, Some(target), index);
      if r.Stepped? then Arrivals(path, r.target, r.index, k - 1) else r
  }

  lemma {:induction false} ArrivalsSaturate(path: seq<Option<Node>>, target: Node, index: nat, k: nat)
    requires NoNullEntries(path) && index < |path|
    ensures var r := Arrivals(path, target, index, k);
            && r.Stepped?
            && r.index == (if index + k < |path| then index + k else |path| - 1)
            && (k > 0 ==> r.target == path[r.index].value)
    decreases k
  {
    if k > 0 {
      var r := Frame(true, Some(path), _ => true, Some(target), index);
      IndexStaysOnRoute(path, _ => true, Some(target), index);
      ArrivalsSaturate(path, r.target, r.index, k - 1);
    }
  }

  /**
   * A target left over from an earlier route is dereferenced against the
   * agent's current route without a null check: when the newest search found
   * nothing (a null route) the arrival test is followed by an exception.
   */
  lemma NullRouteAfterArrivalThrows(arrived: Node -> bool, target: Node, index: nat)
    requires arrived(target)
    ensures Frame(true, None, arrived, Some(target), index) == Thrown
  {
  }

  /**
   * The index is not reset when the route is replaced, so a shorter new
   * route leaves it past the end; the next arrival reads outside the route.
   */
  lemma ShorterRouteThrows(path: seq<Option<Node>>, arrived: Node -> bool, target: Node, index: nat)
    requires arrived(target) && 0 < |path| <= index
    ensures Frame(true, Some(path), arrived, Some(target), index) == Thrown
  {
  }

  class Pathfinding {
    var agent: AIAgent?
    var degreeOfArrival: real
    var currentTargetNode: Option<Node>
    var targetNodeIndex: nat

    constructor ()
      ensures agent == null && degreeOfArrival == 2.0
      ensures currentTargetNode.None? && targetNodeIndex == 0
    {
      agent := null;
      degreeOfArrival := 2.0;
      currentTargetNode := None;
      targetNodeIndex := 0;
    }

    /** Binds the agent component found on the same object (null if none) and rewinds the route. */
    method Initialize(component: AIAgent?)
      modifies this
      ensures agent == component && targetNodeIndex == 0
      ensures degreeOfArrival == old(degreeOfArrival) && currentTargetNode == old(currentTargetNode)
    {
      agent := component;
      targetNodeIndex := 0;
    }

    /** What the next frame does, read off the follower and its agent. */
    function Next(transformOf: Node -> Transform, position: Transform -> Vec3): FrameResult
      reads this, agent
    {
      if agent == null then Skipped
      else
        Frame(agent.usePathFinding, agent.currentPath,
              Arrived(transformOf, position, position(agent.transform), degreeOfArrival),
              currentTargetNode, targetNodeIndex)
    }

    /**
     * One frame: the follower takes the result `Next` predicts, and a moving
     * agent is told to track the target's transform.
     */
    method Update(transformOf: Node -> Transform, position: Transform -> Vec3) returns (result: FrameResult)
      modifies this, agent
      ensures result == old(Next(transformOf, position))
      ensures agent == old(agent) && degreeOfArrival == old(degreeOfArrival)
      ensures result.Stepped? ==> currentTargetNode == Some(result.target) && targetNodeIndex == result.index
      ensures !result.Stepped? ==> currentTargetNode == old(currentTargetNode) && targetNodeIndex == old(targetNodeIndex)
      ensures agent != null ==>
                && agent.usePathFinding == old(agent.usePathFinding) && agent.currentState == old(agent.currentState)
                && agent.currentPath == old(agent.currentPath) && agent.transform == old(agent.transform)
                && agent.trackedTarget == if result.Stepped? && agent.currentState == Moving
                                          then Some(transformOf(result.target)) else old(agent.trackedTarget)
    {
      if agent == null || !agent.usePathFinding {
        return Skipped;
      }
      if currentTargetNode.None? {
        if agent.currentPath.Some? && |agent.currentPath.value| > 0 {
          if targetNodeIndex >= |agent.currentPath.value| {
            return Thrown;
          }
          currentTargetNode := agent.currentPath.value[targetNodeIndex];
        } else {
          return Skipped;
        }
      }
      if currentTargetNode.None? {
        return Thrown;
      }
      var target := currentTargetNode.value;
      if Within(position(agent.transform), position(transformOf(target)), degreeOfArrival) {
        if agent.currentPath.None? {
          return Thrown;
        }
        var path := agent.currentPath.value;
        if |path| > 0 {
          var next := if targetNodeIndex < |path| - 1 then targetNodeIndex + 1 else targetNodeIndex;
          if next >= |path| {
            return Thrown;
          }
          targetNodeIndex := next;
          if path[next].Some? {
            currentTargetNode := path[next];
          }
        }
      }
      if agent.currentState == Moving {
        agent.TrackTarget(transformOf(currentTargetNode.value));
      }
      return Stepped(currentTargetNode.value, targetNodeIndex);
    }
  }
}
