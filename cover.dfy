/**
 * The cover reservation table (Cover/Cover.cs): an array of cover slots and,
 * beside it, an array naming the agent that holds each slot. Both arrays are
 * written in place when an agent takes or leaves cover.
 */
module CoverTable {
  import opened Wrappers
  import opened Scene
  import opened CoverSlots

  /** The agent's distance to a cover transform, as the table's caller measures it. */
  type Distance = Option<Transform> -> real

  // ---------------------------------------------------------------------
  // The table's contents as values

  /** The slot array and the agent array agree slot by slot. */
  predicate Mirrors(targets: seq<CoverTarget>, agents: seq<Option<Agent>>)
  {
    && |targets| == |agents|
    && forall i :: 0 <= i < |targets| ==> targets[i].occupyingAgent == agents[i]
  }

  /** Every slot names a cover transform: the distance sort never reads a null one. */
  predicate HasTransforms(targets: seq<CoverTarget>)
  {
    forall i :: 0 <= i < |targets| ==> targets[i].coverTransform.Some?
  }

  /** No agent holds two slots. */
  predicate OneSlotEach(agents: seq<Option<Agent>>)
  {
    forall i, j :: 0 <= i < j < |agents| && agents[i].Some? ==> agents[i] != agents[j]
  }

  /**
   * Slot `i` is free and no free slot is closer; among free slots at the same
   * distance it is the first, which is the order a stable sort by distance
   * leaves them in.
   */
  predicate IsClosestFree(targets: seq<CoverTarget>, distance: Distance, i: int)
  {
    && 0 <= i < |targets| && !targets[i].IsOccupied()
    && (forall j :: 0 <= j < |targets| && !targets[j].IsOccupied() ==>
          distance(targets[i].coverTransform) <= distance(targets[j].coverTransform))
    && (forall j :: 0 <= j < i && !targets[j].IsOccupied() ==>
          distance(targets[i].coverTransform) < distance(targets[j].coverTransform))
  }

  /** The slot the sort-then-scan picks: the closest free one, if any slot is free. */
  function ClosestFree(targets: seq<CoverTarget>, distance: Distance): (r: Option<nat>)
    ensures r.None? <==> !SomeFree(targets)
    ensures r.Some? ==> IsClosestFree(targets, distance, r.value)
    decreases |targets|
  {
    if targets == [] then None
    else
      var init, last := targets[..|targets| - 1], |targets| - 1;
      var r := ClosestFree(init, distance);
      assert forall j :: 0 <= j < last ==> targets[j] == init[j];
      if !targets[last].IsOccupied()
         && (r.None? || distance(targets[last].coverTransform) < distance(targets[r.value].coverTransform))
      then Some(last)
      else r
  }

  /** The closest free slot is unique: the choice does not depend on how ties are searched. */
  lemma ClosestFreeUnique(targets: seq<CoverTarget>, distance: Distance, i: int, j: int)
    requires IsClosestFree(targets, distance, i) && IsClosestFree(targets, distance, j)
    ensures i == j
  {
  }

  /** The first position of `x` in `s`, as `Array.IndexOf` finds it. */
  function IndexOf(s: seq<Option<Agent>>, x: Option<Agent>): (r: nat)
    requires x in s
    ensures r < |s| && s[r] == x
    ensures forall j :: 0 <= j < r ==> s[j] != x
  {
    if s[0] == x then 0 else 1 + IndexOf(s[1..], x)
  }

  /**
   * A null agent never takes a slot: the membership test finds the null entry
   * of any free slot and refuses it before the search.
   */
  lemma NullAgentRefused(targets: seq<CoverTarget>, agents: seq<Option<Agent>>)
    requires Mirrors(targets, agents) && SomeFree(targets)
    ensures None in agents
  {
    var i :| 0 <= i < |targets| && !targets[i].IsOccupied();
    assert agents[i] == None;
  }

  /** Giving a free slot to an agent that holds none keeps every agent to one slot. */
  lemma OccupyKeepsOneSlotEach(agents: seq<Option<Agent>>, i: int, agent: Option<Agent>)
    requires OneSlotEach(agents) && 0 <= i < |agents| && agent !in agents
    ensures OneSlotEach(agents[i := agent])
  {
    var a := agents[i := agent];
    forall j, k | 0 <= j < k < |a| && a[j].Some?
      ensures a[j] != a[k]
    {
      if j == i {
        assert a[k] == agents[k];
      } else if k == i {
        assert a[j] == agents[j];
      }
    }
  }

  /** Clearing the slot an agent held leaves it holding none, when it held one at most. */
  lemma ReleaseClearsAgent(agents: seq<Option<Agent>>, agent: Option<Agent>)
    requires OneSlotEach(agents) && agent.Some? && agent in agents
    ensures agent !in agents[IndexOf(agents, agent) := None]
    ensures OneSlotEach(agents[IndexOf(agents, agent) := None])
  {
    var i := IndexOf(agents, agent);
    var a := agents[i := None];
    forall k | 0 <= k < |a|
      ensures a[k] != agent
    {
      if i < k {
        assert agents[i] != agents[k];
      }
    }
  }

  // ---------------------------------------------------------------------
  // The component

  class Cover {
    var coverTargets: array<CoverTarget>
    var occupyingAgents: array<Option<Agent>>

    /**
     * The two arrays run in parallel, every agent holds at most one slot, and
     * every slot names its cover transform, as `FindCoverTargets` builds them.
     */
    ghost predicate Valid()
      reads this, coverTargets, occupyingAgents
    {
      && Mirrors(coverTargets[..], occupyingAgents[..])
      && OneSlotEach(occupyingAgents[..])
      && HasTransforms(coverTargets[..])
    }

    /** A component before `Start`: both serialized arrays empty. */
    constructor ()
      ensures Valid() && coverTargets.Length == 0
    {
      coverTargets := new CoverTarget[0];
      occupyingAgents := new Option<Agent>[0];
    }

    /** One free slot per child transform, in child order. */
    method FindCoverTargets(children: seq<Transform>)
      modifies this
      ensures Valid() && fresh(coverTargets) && fresh(occupyingAgents)
      ensures coverTargets[..] == EmptySlots(children)
      ensures forall i :: 0 <= i < occupyingAgents.Length ==> occupyingAgents[i].None?
    {
      coverTargets := NewSlots(children);
      occupyingAgents := new Option<Agent>[|children|](_ => None);
    }

    /** Some slot is free. */
    method IsCoverAvailable() returns (available: bool)
      ensures available <==> SomeFree(coverTargets[..])
    {
      available := AnyFree(coverTargets);
    }

    /**
     * An agent that holds no slot takes the closest free one and gets its
     * transform. An agent already holding a slot, or a full table, gets
     * nothing and nothing changes.
     */
    method TryOccupyCover(agent: Option<Agent>, distance: Distance) returns (occupied: bool, coverTransform: Option<Transform>)
      requires Valid()
      modifies coverTargets, occupyingAgents
      ensures Valid()
      ensures occupied ==> coverTransform.Some?
      ensures var slot := ClosestFree(old(coverTargets[..]), distance);
              if agent in old(occupyingAgents[..]) || slot.None? then
                && !occupied && coverTransform.None?
                && coverTargets[..] == old(coverTargets[..]) && occupyingAgents[..] == old(occupyingAgents[..])
              else
                && occupied && agent.Some?
                && coverTransform == old(coverTargets[slot.value]).coverTransform
                && coverTargets[..] == old(coverTargets[..])[slot.value := old(coverTargets[slot.value]).(occupyingAgent := agent)]
                && occupyingAgents[..] == old(occupyingAgents[..])[slot.value := agent]
    {
      if agent in occupyingAgents[..] {
        return false, None;
      }
      // the stable sort by distance followed by a scan for the first free
      // slot picks the free slot of least distance, the first among equals
      var best: Option<nat> := None;
      for i := 0 to coverTargets.Length
        invariant best == ClosestFree(coverTargets[..i], distance)
      {
        assert coverTargets[..i + 1][..i] == coverTargets[..i];
        if !coverTargets[i].IsOccupied()
           && (best.None? || distance(coverTargets[i].coverTransform) < distance(coverTargets[best.value].coverTransform))
        {
          best := Some(i);
        }
      }
      assert coverTargets[..coverTargets.Length] == coverTargets[..];
      if best.None? {
        return false, None;
      }
      // a free slot means a null occupant, so the agent, not found above, is not null
      NullAgentRefused(coverTargets[..], occupyingAgents[..]);
      var originalIndex := best.value;
      OccupyKeepsOneSlotEach(occupyingAgents[..], originalIndex, agent);
      coverTargets[originalIndex] := coverTargets[originalIndex].(occupyingAgent := agent);
      occupyingAgents[originalIndex] := agent;
      return true, coverTargets[originalIndex].coverTransform;
    }

    /**
     * A null agent, or one holding no slot, changes nothing; otherwise the
     * first slot it holds is cleared in both arrays, after which it holds none.
     */
    method RemoveCoverOccupant(agent: Option<Agent>)
      requires Valid()
      modifies coverTargets, occupyingAgents
      ensures Valid()
      ensures agent !in occupyingAgents[..] || agent.None?
      ensures if agent.None? || agent !in old(occupyingAgents[..]) then
                && coverTargets[..] == old(coverTargets[..]) && occupyingAgents[..] == old(occupyingAgents[..])
              else
                var index := IndexOf(old(occupyingAgents[..]), agent);
                && coverTargets[..] == old(coverTargets[..])[index := old(coverTargets[index]).(occupyingAgent := None)]
                && occupyingAgents[..] == old(occupyingAgents[..])[index := None]
    {
      if agent.None? {
        return;
      }
      if agent in occupyingAgents[..] {
        var index := IndexOf(occupyingAgents[..], agent);
        ReleaseClearsAgent(occupyingAgents[..], agent);
        coverTargets[index] := coverTargets[index].(occupyingAgent := None);
        occupyingAgents[index] := None;
      }
    }
  }
}
