/**
 * The older cover component (Cover.cs at the top of the scripts folder): a
 * single array of cover slots, written in place. It hands out the first free
 * slot and, unlike the newer table, does not check whether the agent already
 * holds one or whether it is null.
 */
module LegacyCover {
  import opened Wrappers
  import opened Scene
  import opened CoverSlots

  /** The first free slot, if any. */
  function FirstFree(targets: seq<CoverTarget>): (r: Option<nat>)
    ensures r.None? <==> !SomeFree(targets)
    ensures r.Some? ==> r.value < |targets| && !targets[r.value].IsOccupied()
                        && forall j :: 0 <= j < r.value ==> targets[j].IsOccupied()
  {
    if targets == [] then None
    else if !targets[0].IsOccupied() then Some(0)
    else
      var r := FirstFree(targets[1..]);
      assert forall j :: 1 <= j < |targets| ==> targets[j] == targets[1..][j - 1];
      if r.Some? then Some(r.value + 1) else None
  }

  /** The slots after `agent` asks for cover: the first free slot now names it. */
  function Occupy(targets: seq<CoverTarget>, agent: Option<Agent>): (r: seq<CoverTarget>)
    ensures |r| == |targets|
    ensures forall i :: 0 <= i < |r| ==> r[i].coverTransform == targets[i].coverTransform
    ensures FirstFree(targets).None? ==> r == targets
    ensures FirstFree(targets).Some? ==>
              && r[FirstFree(targets).value].occupyingAgent == agent
              && forall i :: 0 <= i < |r| && i != FirstFree(targets).value ==> r[i] == targets[i]
  {
    var slot := FirstFree(targets);
    if slot.None? then targets
    else targets[slot.value := targets[slot.value].(occupyingAgent := agent)]
  }

  /** The number of slots held by `agent`. */
  function Held(targets: seq<CoverTarget>, agent: Agent): (r: nat)
    ensures r <= |targets|
  {
    if targets == [] then 0
    else (if targets[0].occupyingAgent == Some(agent) then 1 else 0) + Held(targets[1..], agent)
  }

  /** Overwriting one slot changes the count by what that slot held before and after. */
  lemma {:induction false} HeldUpdate(targets: seq<CoverTarget>, i: nat, t: CoverTarget, agent: Agent)
    requires i < |targets|
    ensures Held(targets[i := t], agent)
            + (if targets[i].occupyingAgent == Some(agent) then 1 else 0)
            == Held(targets, agent) + (if t.occupyingAgent == Some(agent) then 1 else 0)
  {
    if i > 0 {
      assert targets[i := t][1..] == targets[1..][i - 1 := t];
      HeldUpdate(targets[1..], i - 1, t, agent);
    } else {
      assert targets[i := t][1..] == targets[1..];
    }
  }

  /**
   * A request by a real agent that finds a free slot always takes one more
   * slot for it, whether or not it already held one.
   */
  lemma OccupyAddsSlot(targets: seq<CoverTarget>, agent: Agent)
    requires SomeFree(targets)
    ensures Held(Occupy(targets, Some(agent)), agent) == Held(targets, agent) + 1
  {
    var i := FirstFree(targets).value;
    HeldUpdate(targets, i, targets[i].(occupyingAgent := Some(agent)), agent);
  }

  /** A null agent is reported as placed, but its slot stays free. */
  lemma NullOccupyKeepsSlots(targets: seq<CoverTarget>)
    ensures Occupy(targets, None) == targets
  {
    var slot := FirstFree(targets);
    if slot.Some? {
      assert targets[slot.value].occupyingAgent == None;
    }
  }

  class Cover {
    var coverTargets: array<CoverTarget>

    /** A component before `Start`: the serialized array is empty. */
    constructor ()
      ensures coverTargets.Length == 0
    {
      coverTargets := new CoverTarget[0];
    }

    /** One free slot per child transform, in child order. */
    method FindCoverTargets(children: seq<Transform>)
      modifies this
      ensures fresh(coverTargets)
      ensures coverTargets[..] == EmptySlots(children)
    {
      coverTargets := NewSlots(children);
    }

    /** Some slot is free. */
    method IsCoverAvailable() returns (available: bool)
      ensures available <==> SomeFree(coverTargets[..])
    {
      available := AnyFree(coverTargets);
    }

    /**
     * The first free slot is given to `agent` (even a null one, which leaves
     * it free) and its transform returned; with no free slot nothing changes.
     */
    method TryOccupyCover(agent: Option<Agent>) returns (occupied: bool, coverTransform: Option<Transform>)
      modifies coverTargets
      ensures coverTargets[..] == Occupy(old(coverTargets[..]), agent)
      ensures occupied <==> FirstFree(old(coverTargets[..])).Some?
      ensures var slot := FirstFree(old(coverTargets[..]));
              coverTransform == if slot.Some? then old(coverTargets[slot.value].coverTransform) else None
    {
      for i := 0 to coverTargets.Length
        invariant forall j :: 0 <= j < i ==> coverTargets[j].IsOccupied()
      {
        if !coverTargets[i].IsOccupied() {
          assert FirstFree(coverTargets[..]) == Some(i);
          coverTargets[i] := coverTargets[i].(occupyingAgent := agent);
          return true, coverTargets[i].coverTransform;
        }
      }
      return false, None;
    }
  }
}
