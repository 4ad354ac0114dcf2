/**
 * The flock component (AI/Squad/Flock.cs): a swarm of agents and a
 * round-robin queue of targets. Each call to `SetNewSwarmTarget` sends the
 * whole swarm to the target at the front of the queue and moves that target
 * to the back.
 */
module Squad {
  import opened Wrappers
  import opened Scene

  /** The queue after one turn: the front moved to the back. */
  function Rotate(queue: seq<Transform>): (r: seq<Transform>)
    requires |queue| > 0
    ensures |r| == |queue|
    ensures r[|r| - 1] == queue[0]
  {
    queue[1..] + [queue[0]]
  }

  /** A turn keeps every target: the others move up one place, in order. */
  lemma RotateKeepsTargets(queue: seq<Transform>)
    requires |queue| > 0
    ensures multiset(Rotate(queue)) == multiset(queue)
    ensures forall i :: 0 <= i < |queue| - 1 ==> Rotate(queue)[i] == queue[i + 1]
  {
    assert queue == [queue[0]] + queue[1..];
  }

  /** The queue after `k` turns. */
  function RotateTimes(queue: seq<Transform>, k: nat): (r: seq<Transform>)
    requires |queue| > 0
    ensures |r| == |queue|
  {
    if k == 0 then queue else Rotate(RotateTimes(queue, k - 1))
  }

  /** One turn of a queue shifted by `p` is the queue shifted by `p + 1`. */
  lemma RotateShift(queue: seq<Transform>, p: nat)
    requires p < |queue|
    ensures Rotate(queue[p..] + queue[..p]) == queue[p + 1..] + queue[..p + 1]
  {
    var prev := queue[p..] + queue[..p];
    assert prev[0] == queue[p];
    assert prev[1..] == queue[p + 1..] + queue[..p];
    assert queue[..p + 1] == queue[..p] + [queue[p]];
  }

  /**
   * Within one round, after `k` turns the queue starts at its `k`-th target:
   * the targets reach the front in queue order.
   */
  lemma {:induction false} RotateTimesIsShift(queue: seq<Transform>, k: nat)
    requires 0 < |queue| && k <= |queue|
    ensures RotateTimes(queue, k) == queue[k..] + queue[..k]
    ensures k < |queue| ==> RotateTimes(queue, k)[0] == queue[k]
  {
    if k == 0 {
      assert queue[0..] + queue[..0] == queue;
    } else {
      RotateTimesIsShift(queue, k - 1);
      RotateShift(queue, k - 1);
    }
  }

  /** Turning the queue once per target brings it back to where it was. */
  lemma FullTurn(queue: seq<Transform>)
    requires |queue| > 0
    ensures RotateTimes(queue, |queue|) == queue
  {
    var n := |queue|;
    RotateTimesIsShift(queue, n);
    assert queue[n..] == [] && queue[..n] == queue;
  }

  /** Turning a queue `k` more times after a full round is turning it `k` times. */
  lemma {:induction false} RotateTimesPeriodic(queue: seq<Transform>, k: nat)
    requires |queue| > 0
    ensures RotateTimes(queue, k + |queue|) == RotateTimes(queue, k)
  {
    if k == 0 {
      FullTurn(queue);
    } else {
      RotateTimesPeriodic(queue, k - 1);
    }
  }

  /** The agents that the spawning loop keeps: those of the first `count` spawns that have the agent component. */
  function Survivors(spawn: nat -> Option<Agent>, count: nat): (r: seq<Agent>)
    ensures |r| <= count
    ensures forall a :: a in r ==> exists i :: 0 <= i < count && spawn(i) == Some(a)
  {
    if count == 0 then []
    else
      var earlier := Survivors(spawn, count - 1);
      if spawn(count - 1).Some? then earlier + [spawn(count - 1).value] else earlier
  }

  class Flock {
    var startingFlockCount: int
    var swarm: seq<Agent>
    var targetsPreset: seq<Transform>
    /** The target queue, front first. */
    var targetList: seq<Transform>

    constructor (targetsPreset: seq<Transform>)
      ensures this.targetsPreset == targetsPreset && startingFlockCount == 20
      ensures swarm == [] && targetList == []
    {
      this.targetsPreset := targetsPreset;
      startingFlockCount := 20;
      swarm := [];
      targetList := [];
    }

    /**
     * Enqueues the preset targets in order, or, with no preset, the objects
     * tagged as targets (passed in, in the order the scene lists them).
     */
    method GenerateTargets(tagged: seq<Transform>)
      modifies this
      ensures targetList == old(targetList) + (if |targetsPreset| > 0 then targetsPreset else tagged)
      ensures swarm == old(swarm) && targetsPreset == old(targetsPreset)
      ensures startingFlockCount == old(startingFlockCount)
    {
      var source := if |targetsPreset| > 0 then targetsPreset else tagged;
      for i := 0 to |source|
        invariant targetList == old(targetList) + source[..i]
        invariant swarm == old(swarm) && targetsPreset == old(targetsPreset)
        invariant startingFlockCount == old(startingFlockCount)
      {
        targetList := targetList + [source[i]];
      }
      assert source[..|source|] == source;
    }

    /**
     * Sends every swarm agent, in swarm order, to the front target and moves
     * that target to the back. `calls` lists the `SetTarget` calls made. With
     * an empty queue the dequeue throws before anything happens (`thrown`).
     */
    method SetNewSwarmTarget() returns (thrown: bool, calls: seq<(Agent, Transform)>)
      modifies this
      ensures thrown <==> old(|targetList|) == 0
      ensures thrown ==> targetList == old(targetList) && calls == []
      ensures !thrown ==> targetList == Rotate(old(targetList))
      ensures !thrown ==> |calls| == |swarm|
                          && forall i :: 0 <= i < |calls| ==> calls[i] == (swarm[i], old(targetList[0]))
      ensures swarm == old(swarm) && targetsPreset == old(targetsPreset)
      ensures startingFlockCount == old(startingFlockCount)
    {
      if |targetList| == 0 {
        return true, [];
      }
      var target := targetList[0];
      targetList := targetList[1..];
      calls := [];
      for i := 0 to |swarm|
        invariant |calls| == i
        invariant forall j :: 0 <= j < i ==> calls[j] == (swarm[j], target)
      {
        calls := calls + [(swarm[i], target)];
      }
      targetList := targetList + [target];
      thrown := false;
    }

    /**
     * Empties the swarm, then keeps each of `startingFlockCount` spawned
     * objects that carries an agent component. `spawn(i)` is what the `i`-th
     * instantiation yields (None when the component is missing).
     */
    method GenerateSwarm(spawn: nat -> Option<Agent>)
      modifies this
      ensures swarm == Survivors(spawn, if startingFlockCount > 0 then startingFlockCount else 0)
      ensures |swarm| <= if startingFlockCount > 0 then startingFlockCount else 0
      ensures targetList == old(targetList) && targetsPreset == old(targetsPreset)
      ensures startingFlockCount == old(startingFlockCount)
    {
      swarm := [];
      var i := 0;
      while i < startingFlockCount
        invariant 0 <= i && (startingFlockCount > 0 ==> i <= startingFlockCount)
        invariant startingFlockCount <= 0 ==> i == 0
        invariant swarm == Survivors(spawn, i)
        invariant targetList == old(targetList) && targetsPreset == old(targetsPreset)
        invariant startingFlockCount == old(startingFlockCount)
      {
        if spawn(i).Some? {
          swarm := swarm + [spawn(i).value];
        }
        i := i + 1;
      }
    }

    /** Puts a target at the back of the queue. */
    method AddTarget(target: Transform)
      modifies this
      ensures targetList == old(targetList) + [target]
      ensures swarm == old(swarm) && targetsPreset == old(targetsPreset)
      ensures startingFlockCount == old(startingFlockCount)
    {
      targetList := targetList + [target];
    }
  }
}
