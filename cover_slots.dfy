/**
 * The cover slot shared by both cover components (Cover.cs and
 * Cover/Cover.cs declare the same struct) and the two loops they share
 * over an array of slots.
 */
module CoverSlots {
  import opened Wrappers
  import opened Scene

  /** A cover slot: where to take cover, and the agent holding it (None for null). */
  datatype CoverTarget = CoverTarget(coverTransform: Option<Transform>, occupyingAgent: Option<Agent>)
  {
    /** A slot is taken exactly when it names an agent. */
    predicate IsOccupied()
      ensures IsOccupied() <==> occupyingAgent != None
    {
      occupyingAgent.Some?
    }
  }

  predicate SomeFree(targets: seq<CoverTarget>)
  {
    exists i :: 0 <= i < |targets| && !targets[i].IsOccupied()
  }

  /** The slots of a freshly built component: one per child transform, all free. */
  function EmptySlots(children: seq<Transform>): (r: seq<CoverTarget>)
    ensures |r| == |children|
    ensures forall i :: 0 <= i < |r| ==> r[i] == CoverTarget(Some(children[i]), None)
  {
    seq(|children|, i requires 0 <= i < |children| => CoverTarget(Some(children[i]), None))
  }

  /** A fresh component has cover available exactly when it has a child. */
  lemma EmptySlotsAvailable(children: seq<Transform>)
    ensures SomeFree(EmptySlots(children)) <==> |children| > 0
  {
    if |children| > 0 {
      assert !EmptySlots(children)[0].IsOccupied();
    }
  }

  /** `FindCoverTargets`' loop: a new array naming each child transform in turn. */
  method NewSlots(children: seq<Transform>) returns (targets: array<CoverTarget>)
    ensures fresh(targets)
    ensures targets[..] == EmptySlots(children)
  {
    var numberOfChildren := |children|;
    targets := new CoverTarget[numberOfChildren](_ => CoverTarget(None, None));
    for i := 0 to numberOfChildren
      invariant forall j :: 0 <= j < i ==> targets[j] == CoverTarget(Some(children[j]), None)
      invariant forall j :: i <= j < numberOfChildren ==> targets[j] == CoverTarget(None, None)
    {
      targets[i] := targets[i].(coverTransform := Some(children[i]));
    }
  }

  /** `IsCoverAvailable`' loop: some slot is free. */
  method AnyFree(coverTargets: array<CoverTarget>) returns (available: bool)
    ensures available <==> SomeFree(coverTargets[..])
  {
    for i := 0 to coverTargets.Length
      invariant forall j :: 0 <= j < i ==> coverTargets[j].IsOccupied()
    {
      if !coverTargets[i].IsOccupied() {
        return true;
      }
    }
    return false;
  }
}
