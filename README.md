# Grid A* pathfinding, cover tables and squad targets — a verified model

This project models the decision-making core of a Unity game in which AI
agents move over a grid graph, take cover, and follow squad targets.

- **Pathfinder** (`pathfinder.dfy`, `astar.dfy`, `open_list.dfy`).
  - The A* search `FindPath` is modelled with the same dictionaries as the
    component: g-scores, f-scores, predecessors, the open list and the closed
    set. Its loop runs at most 1000 passes, with two early exits: the
    admissible one and the "no open entry is cheaper" one.
  - The sorted-list "priority queue" `FakePQListInsert` is modelled. Inserted
    into a list whose f-scores never increase towards the tail, a node keeps
    the lowest f-score at the tail, and the search pops from there. The search
    itself does not keep that order: a node relaxed again gets a second entry,
    and its old entry stays in place under the new, higher f-score
    (`SearchFindings.OpenListLosesOrder`).
  - The search is stated as a specification in module `AStar`: `Init`, `Pop`,
    `Relax`, `RelaxAll`, `Iterate`, `Run` and `Search`.
  - `FindPath` is a method whose loop is proved to end in the state `Search`
    describes. A ghost closing order (`Ranked`) proves that the route read back
    through the predecessor map is a real route. It runs from start to goal
    along graph edges, never repeats a node, and is one node longer than the
    goal's g-score.
  - Endpoint lookup by transform and the Manhattan heuristic are modelled too.
  - `search_findings.dfy` runs the search on two small graphs. On one of them
    the route returned is not a shortest one; the relaxation with the missing
    comparison is defined beside it (see "## Findings").
- **Cover table** (`cover.dfy`). Two parallel arrays, slots and occupants, are
  updated in place.
  - An agent already holding a slot is refused.
  - Otherwise the agent gets the closest free slot. Among equally distant
    free slots it gets the first, which is the slot a stable sort by distance
    puts first.
  - Leaving cover clears the agent's slot.
  - The invariant kept by every operation is that the arrays agree and that
    no agent holds two slots.
- **Cover slots** (`cover_slots.dfy`). The slot struct both cover components
  declare, and the two loops they share: building the slots from the
  children, and testing for a free slot.
- **Legacy cover table** (`legacy_cover.dfy`). The older component gives the
  first free slot to whoever asks. It has no check against duplicates, and a
  null agent is "placed" while the slot stays free.
- **Path follower** (`path_follower.dfy`). Each frame, the follower advances a
  saturating index along the agent's route when the agent arrives at its
  current target node. The frame is written as a specification function
  `Frame`. It includes the frames in which the component dereferences a null
  route or reads past its end.
- **Flock** (`flock.dfy`). A round-robin queue of targets.
  - Each call sends the whole swarm to the front target and moves it to the
    back.
  - The targets are generated from a preset or from tagged objects.
  - The swarm is rebuilt from the spawned agents.

Where the code's behaviour differs from its documentation, the model follows
the code. In a list whose f-scores never increase towards the tail, the older
of two entries with equal f-scores is popped first, not the newest. A
neighbour's g-score is overwritten even when the new value is larger.

Unity objects compare by reference, so nodes, transforms and agents are
identity numbers (`nat`), and null is `None`. Positions and scores are
`real`: float rounding is not modelled. `Vector3.Distance(a, b) < r` is stated
without a square root, as `r > 0` and squared distance `< r * r`
(`Scene.WithinIsDistance` proves the two agree).

## Model

| member | source | states |
|---|---|---|
| OpenList.InsertIndex | Assets/Scripts/Pathfinding/Pathfinder.cs:308-317 | the backward scan's insertion point: the scan stops behind the last entry from the tail with an f-score strictly greater than the key, so every entry from it on has an f-score no greater than the key and the entry just before it (if any) a strictly greater one |
| OpenList.FakePQListInsert | Assets/Scripts/Pathfinding/Pathfinder.cs:302-319 | the in-place insert loop produces exactly the list with the node spliced in at `InsertIndex` |
| OpenList.InsertedMembers | Assets/Scripts/Pathfinding/Pathfinder.cs:302-319 | after the insert, the list holds the new node and the old entries, and nothing else |
| OpenList.InsertedShape | Assets/Scripts/Pathfinding/Pathfinder.cs:302-319 | the list grows by one, the node sits at the insertion point, removing it gives the old list back (others keep their order), the multiset gains exactly the node, and an empty list becomes `[node]` |
| OpenList.InsertKeepsTailLowest | Assets/Scripts/Pathfinding/Pathfinder.cs:308-317 | inserting into a list whose f-scores never increase towards the tail keeps it that way, so the tail stays the lowest; the search's open list need not be such a list (`SearchFindings.OpenListLosesOrder`) |
| OpenList.InsertAgainstEqual | Assets/Scripts/Pathfinding/Pathfinder.cs:310-316 | in a list whose f-scores never increase towards the tail, the new node lands behind every strictly greater entry and in front of all others, so older entries with an equal f-score are popped before it |
| AStar.Init | Assets/Scripts/Pathfinding/Pathfinder.cs:111-133 | the search starts with only `start` recorded: g = 0, f = h(start, goal), no predecessor, open = [start], nothing closed |
| AStar.NoneCheaperThanGoal | Assets/Scripts/Pathfinding/Pathfinder.cs:154-164 | the second exit's test holds exactly when no open entry has a g-score below the goal's, and then in particular the tail's is not below it |
| AStar.Relax | Assets/Scripts/Pathfinding/Pathfinder.cs:171-192 | relaxing one neighbour keeps every open and closed node tracked in all three dictionaries, does not change the closed set, and does not change the current node's g-score |
| AStar.RelaxAll | Assets/Scripts/Pathfinding/Pathfinder.cs:169-193 | the whole neighbour loop keeps the dictionaries tracking every open and closed node, and keeps the closed set |
| AStar.RelaxAllTracks | Assets/Scripts/Pathfinding/Pathfinder.cs:169-193 | after the neighbour loop, the nodes with a g-score are exactly those that had one before, plus the neighbours that were not closed |
| AStar.RelaxAllOverwrites | Assets/Scripts/Pathfinding/Pathfinder.cs:176-190 | every unclosed neighbour ends with g = g(current) + 1, f = g + h and predecessor `current`, whatever it held before |
| AStar.RelaxAllKeeps | Assets/Scripts/Pathfinding/Pathfinder.cs:176 | closed nodes and non-neighbours keep their g, f and predecessor |
| AStar.RelaxAllOpens | Assets/Scripts/Pathfinding/Pathfinder.cs:169-193 | the open list gains exactly one entry per unclosed neighbour occurrence (as a multiset), so duplicates may appear |
| AStar.Unclosed | Assets/Scripts/Pathfinding/Pathfinder.cs:170-176 | the neighbours the loop relaxes are exactly those not in the closed set |
| AStar.Pop | Assets/Scripts/Pathfinding/Pathfinder.cs:140-143 | removing the tail and closing it keeps every open and closed node tracked |
| AStar.Iterate | Assets/Scripts/Pathfinding/Pathfinder.cs:139-193 | one pass of the loop body (pop, the two exits, the neighbour loop) keeps every node tracked |
| AStar.Run | Assets/Scripts/Pathfinding/Pathfinder.cs:137-195 | the loop, run from any iteration count up to 1000, keeps every node tracked |
| AStar.Search | Assets/Scripts/Pathfinding/Pathfinder.cs:111-195 | the state the search ends in, from the initial dictionaries, tracks every open and closed node |
| AStar.IterateFreezesClosed | Assets/Scripts/Pathfinding/Pathfinder.cs:143-176 | a pass never reopens a closed node or changes its g-score or predecessor |
| AStar.RunFreezesClosed | Assets/Scripts/Pathfinding/Pathfinder.cs:137-195 | over the whole loop, closed nodes stay closed with their g-score and predecessor fixed |
| AStar.RunKeeps | Assets/Scripts/Pathfinding/Pathfinder.cs:137-195 | any property that every pass preserves holds of the state the loop ends in |
| AStar.RunClosesFew | Assets/Scripts/Pathfinding/Pathfinder.cs:137-194 | from iteration `i`, the loop closes at most 1000 - i further nodes (one per remaining pass), so the iteration cap bounds the work |
| AStar.SearchClosesFew | Assets/Scripts/Pathfinding/Pathfinder.cs:135-194 | a whole search closes at most 1000 nodes |
| AStar.SearchFromGoal | Assets/Scripts/Pathfinding/Pathfinder.cs:128-150 | a search from the goal itself closes exactly the goal, with g = 0, in the first pass, whichever exit applies |
| AStar.Reverse | Assets/Scripts/Pathfinding/Pathfinder.cs:220 | `List.Reverse`: same length, element `i` is element `n - 1 - i` of the input |
| AStar.PredChainUnique | Assets/Scripts/Pathfinding/Pathfinder.cs:206-216 | the predecessor map determines the route: two repetition-free start-to-goal routes that both follow it are equal |
| AStar.InitRanked | Assets/Scripts/Pathfinding/Pathfinder.cs:111-133 | the initial state (start with g = 0, no predecessor, open = [start], nothing closed) satisfies the closing-order invariant |
| AStar.RelaxRanked | Assets/Scripts/Pathfinding/Pathfinder.cs:169-193 | relaxing a neighbour keeps the invariant: each predecessor is closed, joined by an edge, one step cheaper, and closed before its closed successors |
| AStar.RankedAfterOverwrite | Assets/Scripts/Pathfinding/Pathfinder.cs:180-190 | overwriting an unclosed neighbour's g and predecessor with `current`'s keeps the closing-order invariant |
| AStar.PredLinksAfterRelax | Assets/Scripts/Pathfinding/Pathfinder.cs:180-190 | the same overwrite keeps every predecessor link valid |
| AStar.RelaxAllRanked | Assets/Scripts/Pathfinding/Pathfinder.cs:170-193 | the whole neighbour loop keeps the closing-order invariant |
| AStar.PopRanked | Assets/Scripts/Pathfinding/Pathfinder.cs:140-143 | closing the tail (ranked next if it was not closed yet) keeps the closing-order invariant |
| AStar.PredLinksAfterPop | Assets/Scripts/Pathfinding/Pathfinder.cs:140-143 | closing the tail keeps every predecessor link valid under the extended ranking |
| AStar.IterateRanked | Assets/Scripts/Pathfinding/Pathfinder.cs:139-193 | every pass keeps the closing-order invariant, for some extended ranking |
| AStar.IterateRankedSome | Assets/Scripts/Pathfinding/Pathfinder.cs:139-193 | if some ranking fits before a pass, some ranking fits after it |
| AStar.RunRanked | Assets/Scripts/Pathfinding/Pathfinder.cs:137-195 | the loop as a whole keeps the closing-order invariant |
| AStar.SearchRanked | Assets/Scripts/Pathfinding/Pathfinder.cs:111-195 | the final state of every search has a closing order satisfying the invariant |
| AStar.BackChainStart | Assets/Scripts/Pathfinding/Pathfinder.cs:206-210 | reconstruction starts from the closed goal |
| AStar.PredOfClosed | Assets/Scripts/Pathfinding/Pathfinder.cs:212-216 | every closed node other than the start has a predecessor: a neighbour closed strictly earlier, one step cheaper |
| AStar.BackChainStep | Assets/Scripts/Pathfinding/Pathfinder.cs:212-216 | following one more predecessor extends the backward chain along a graph edge, to an earlier-closed node |
| AStar.BackChainRoute | Assets/Scripts/Pathfinding/Pathfinder.cs:206-220 | once the walk reaches the start, the reversed chain is a repetition-free route along edges that follows the predecessor map and has g(goal) + 1 nodes |
| Pathfinder.CalculateHeuristic | Assets/Scripts/Pathfinding/Pathfinder.cs:92-98 | the Manhattan estimate is non-negative, and zero exactly when the two positions coincide |
| Pathfinder.HeuristicIsDistance | Assets/Scripts/Pathfinding/Pathfinder.cs:92-98 | the estimate is symmetric and obeys the triangle inequality |
| Scene.WithinIsDistance | Assets/Scripts/Pathfinding/Pathfinder.cs:82 | the square-root-free nearness test agrees with `Vector3.Distance(a, b) < r` |
| Pathfinder.HeuristicOrZero | Assets/Scripts/Pathfinding/Pathfinder.cs:104-105 | a given heuristic is used as it is; a missing one is replaced by the estimate that is 0 everywhere |
| Pathfinder.Matches | Assets/Scripts/Pathfinding/Pathfinder.cs:77-82 | a node matches a transform when it is that transform, or, with approximate lookup, when it lies within a cell of it; without approximate lookup, or with a cell size of at most 0, only the transform itself matches |
| Scene.Within | Assets/Scripts/Pathfinding/Pathfinder.cs:82 | the nearness test holds only for a positive radius, holds for a point and itself exactly when the radius is positive, and agrees with the squared-distance test taken from the other point |
| Pathfinder.Lookup | Assets/Scripts/Pathfinding/Pathfinder.cs:73-90 | the node found is the first in graph order that is the transform or lies within a cell of it (an exact match later does not win); none is found exactly when no node matches |
| Pathfinder.FindGridNodeByTransform | Assets/Scripts/Pathfinding/Pathfinder.cs:73-90 | the scan with early return finds exactly `Lookup`'s node, and reports success exactly when it found one |
| Pathfinder.GetAstarPathFromTransforms | Assets/Scripts/Pathfinding/Pathfinder.cs:59-71 | a failed lookup of either endpoint gives the empty list; otherwise the answer is the admissible search with the Manhattan heuristic between the two found nodes |
| Pathfinder.FindPath | Assets/Scripts/Pathfinding/Pathfinder.cs:100-254 | no graph gives the empty list; otherwise a route comes back exactly when the goal is closed when the loop ends, else null; the route runs from start to goal along edges, repeats no node, follows the predecessor map, and has g(goal) + 1 nodes; from the goal itself the route is `[goal]` |
| Pathfinder.SearchLoop | Assets/Scripts/Pathfinding/Pathfinder.cs:135-195 | the while loop ends in the state the specification's `Run` ends in, and `solutionFound` implies the goal is closed |
| Pathfinder.SearchPass | Assets/Scripts/Pathfinding/Pathfinder.cs:139-193 | one loop body does exactly the specification's pass, and `solutionFound` is set exactly on the admissible exit (the popped node is the goal) |
| Pathfinder.NoneCheaperThan | Assets/Scripts/Pathfinding/Pathfinder.cs:154-164 | the test holds exactly when no open entry has a g-score below the goal's |
| Pathfinder.ExpandNeighbors | Assets/Scripts/Pathfinding/Pathfinder.cs:169-193 | the neighbour loop does exactly the specification's `RelaxAll` over the neighbour list |
| Pathfinder.RelaxNeighbor | Assets/Scripts/Pathfinding/Pathfinder.cs:171-192 | one neighbour is handled exactly as the specification's `Relax` |
| Pathfinder.ReconstructPath | Assets/Scripts/Pathfinding/Pathfinder.cs:201-221 | the walk back through the predecessor map terminates and gives a repetition-free route along edges from start to goal, with g(goal) + 1 nodes |
| CoverTable.ClosestFree | Assets/Scripts/Cover/Cover.cs:37-49 | sorting by distance and taking the first free slot picks none exactly when no slot is free, and otherwise a free slot no farther than any other free slot and strictly nearer than every earlier free slot |
| CoverTable.ClosestFreeUnique | Assets/Scripts/Cover/Cover.cs:38-47 | the slot so characterised is unique |
| CoverTable.IndexOf | Assets/Scripts/Cover/Cover.cs:74 | `Array.IndexOf`: the first position holding the value |
| CoverTable.NullAgentRefused | Assets/Scripts/Cover/Cover.cs:31-35 | when any slot is free the occupant array holds null, so a null agent is refused by the membership test |
| CoverTable.OccupyKeepsOneSlotEach | Assets/Scripts/Cover/Cover.cs:31-46 | giving a slot to an agent that holds none keeps every agent to at most one slot |
| CoverTable.ReleaseClearsAgent | Assets/Scripts/Cover/Cover.cs:72-76 | clearing the first slot an agent holds leaves it holding none, and keeps every agent to one slot |
| CoverSlots.CoverTarget.IsOccupied | Assets/Scripts/Cover/Cover.cs:86-89 | a slot is taken exactly when it names an agent (the older component's struct, Assets/Scripts/Cover.cs:59-62, is the same) |
| CoverSlots.EmptySlots | Assets/Scripts/Cover/Cover.cs:58-65 | a fresh component has one slot per child, in child order, all free (the older component builds the same) |
| CoverSlots.EmptySlotsAvailable | Assets/Scripts/Cover/Cover.cs:18-26 | a fresh component has cover available exactly when the object has a child |
| CoverSlots.NewSlots | Assets/Scripts/Cover.cs:42-51 | the loop builds a new array whose slots are exactly `EmptySlots` of the children |
| CoverSlots.AnyFree | Assets/Scripts/Cover.cs:16-24 | the early-return scan reports true exactly when some slot is free |
| CoverTable.Cover.FindCoverTargets | Assets/Scripts/Cover/Cover.cs:56-66 | new arrays, one free slot per child transform and an all-null occupant array, satisfying the table invariant |
| CoverTable.Cover.IsCoverAvailable | Assets/Scripts/Cover/Cover.cs:18-26 | true exactly when some slot is free |
| CoverTable.Cover.TryOccupyCover | Assets/Scripts/Cover/Cover.cs:28-53 | an agent already in the occupant array, or a full table, gets false and null with nothing changed; otherwise the closest free slot is written in both arrays with the agent, its (never null) transform is returned, and the invariant is kept |
| CoverTable.Cover.RemoveCoverOccupant | Assets/Scripts/Cover/Cover.cs:68-78 | a null or absent agent changes nothing; otherwise its first slot is cleared in both arrays, after which the agent holds no slot |
| LegacyCover.FirstFree | Assets/Scripts/Cover.cs:28-36 | none exactly when all slots are occupied, otherwise the lowest free index |
| LegacyCover.Occupy | Assets/Scripts/Cover.cs:28-36 | the slots keep their number and transforms; with no free slot nothing changes, otherwise the first free slot is given to the agent and every other slot is unchanged |
| LegacyCover.OccupyAddsSlot | Assets/Scripts/Cover.cs:26-39 | with a free slot, a request by a real agent always adds one slot held by it, even if it already held one (there is no duplicate check) |
| LegacyCover.NullOccupyKeepsSlots | Assets/Scripts/Cover.cs:30-34 | a null agent's request changes no slot, although the call reports success |
| LegacyCover.Cover.FindCoverTargets | Assets/Scripts/Cover.cs:42-51 | a new array with one free slot per child transform |
| LegacyCover.Cover.IsCoverAvailable | Assets/Scripts/Cover.cs:16-24 | true exactly when some slot is free |
| LegacyCover.Cover.TryOccupyCover | Assets/Scripts/Cover.cs:26-39 | the first free slot is given to the agent and its transform returned, true exactly when a slot was free; otherwise nothing changes and null is returned |
| AgentPathfinding.AIAgent.TrackTarget | Assets/Scripts/AI/Agents/AIAgent.cs:86-89 | the agent's tracked target becomes the given transform; nothing else of the agent changes |
| AgentPathfinding.Arrived | Assets/Scripts/AI/Movement/Pathfinding.cs:30-34 | with a degree of arrival of at most 0 the agent never arrives; standing on the node's position it arrives exactly when the degree is positive |
| AgentPathfinding.Frame | Assets/Scripts/AI/Movement/Pathfinding.cs:36-69 | a non-pathfinding agent's frame is skipped; a completed frame keeps the index or moves it one further while staying on the route; with a target and no arrival it keeps target and index; a frame throws only with a target or a non-empty route |
| AgentPathfinding.Advance | Assets/Scripts/AI/Movement/Pathfinding.cs:57 | the index moves by one exactly when it is not yet at the last entry, so an index on the route stays on it |
| AgentPathfinding.IndexStaysOnRoute | Assets/Scripts/AI/Movement/Pathfinding.cs:40-61 | on a fixed route with no null entries and an index on it, a frame never throws; the index stays in 0..Count-1 and advances by one exactly on arrival before the last node; the new target is the route's node there |
| AgentPathfinding.LastNodeIsFinal | Assets/Scripts/AI/Movement/Pathfinding.cs:57-61 | at the last node, arrival keeps both index and target |
| AgentPathfinding.ArrivalsSaturate | Assets/Scripts/AI/Movement/Pathfinding.cs:52-61 | after k arriving frames the index is min(i + k, Count - 1) and the target is the route's node there |
| AgentPathfinding.NullRouteAfterArrivalThrows | Assets/Scripts/AI/Movement/Pathfinding.cs:52-55 | a target kept from an earlier route, with the route now null, throws on arrival |
| AgentPathfinding.ShorterRouteThrows | Assets/Scripts/AI/Movement/Pathfinding.cs:55-58 | an index left past the end of a shorter new route throws on arrival |
| AgentPathfinding.Pathfinding.Initialize | Assets/Scripts/AI/Movement/Pathfinding.cs:18-23 | binds the agent component and resets the index to 0 |
| AgentPathfinding.Pathfinding.Update | Assets/Scripts/AI/Movement/Pathfinding.cs:36-69 | the frame ends as `Frame` predicts (skipped for a null or non-pathfinding agent, or with no target and no route; thrown where the component would throw, leaving the follower unchanged); a completed frame stores the target and index, and a moving agent is told to track the target's transform |
| SearchFindings.OpenListLosesOrder | Assets/Scripts/Pathfinding/Pathfinder.cs:169-192 | on the graph 0 -> 1, 2, 3 and 1 -> 2 with the zero estimate, after two passes the open list is [2, 3, 2]: its f-scores are not ordered, and the tail is node 2 at cost 2 while node 3 at cost 1 is still open |
| SearchFindings.SearchNotShortest | Assets/Scripts/Pathfinding/Pathfinder.cs:176-192 | on the graph 0 -> 1, 2; 1 -> 2, 3; 2 -> 3 the admissible search with the zero estimate closes the goal 3 with g = 3, and every route read back has four nodes, although the route 0, 1, 3 exists |
| SearchFindings.RelaxRaisesCost | Assets/Scripts/Pathfinding/Pathfinder.cs:180-190 | relaxing a recorded node from a node whose cost is not lower raises the recorded cost |
| SearchFindings.RelaxIfShorter | Assets/Scripts/Pathfinding/Pathfinder.cs:176-192 | the relaxation with the comparison never raises a g-score, leaves every unclosed neighbour at most one step above the current node, and keeps every node tracked |
| SearchFindings.RelaxAllIfShorter | Assets/Scripts/Pathfinding/Pathfinder.cs:169-193 | the neighbour loop with the comparison never raises a g-score and leaves every unclosed neighbour at most one step above the current node |
| SearchFindings.ComparisonKeepsShorter | Assets/Scripts/Pathfinding/Pathfinder.cs:176-192 | with the comparison, the relaxation that raised the goal's cost in `SearchNotShortest` leaves the state as it was |
| Squad.Rotate | Assets/Scripts/AI/Squad/Flock.cs:79-84 | a turn keeps the queue's length and puts the old front at the back |
| Squad.RotateKeepsTargets | Assets/Scripts/AI/Squad/Flock.cs:79-84 | a turn keeps every target (same multiset) and moves the others up one place, in order |
| Squad.RotateTimesIsShift | Assets/Scripts/AI/Squad/Flock.cs:76-85 | within a round, after k turns the queue starts at its k-th target, so the targets reach the front in queue order |
| Squad.FullTurn | Assets/Scripts/AI/Squad/Flock.cs:76-85 | one turn per target brings the queue back to where it started |
| Squad.RotateTimesPeriodic | Assets/Scripts/AI/Squad/Flock.cs:76-85 | the hand-out order repeats with period equal to the queue length |
| Squad.Survivors | Assets/Scripts/AI/Squad/Flock.cs:91-104 | the kept agents are at most as many as the spawns, and each comes from one of them |
| Squad.Flock.GenerateTargets | Assets/Scripts/AI/Squad/Flock.cs:61-74 | the preset targets, or failing a preset the tagged ones, are enqueued in order behind the existing queue |
| Squad.Flock.SetNewSwarmTarget | Assets/Scripts/AI/Squad/Flock.cs:76-85 | an empty queue throws with nothing changed; otherwise every swarm agent, in order, is sent to the old front, and the queue is turned once |
| Squad.Flock.GenerateSwarm | Assets/Scripts/AI/Squad/Flock.cs:87-105 | the swarm is cleared and refilled with the spawns that carry an agent component, at most `startingFlockCount` of them |
| Squad.Flock.AddTarget | Assets/Scripts/AI/Squad/Flock.cs:107-110 | the target is appended at the back and the queue is otherwise unchanged |

## Left out

- The edge cost and g-scores are floats in the component. They are modelled as `nat`, since every edge costs 1 and the search starts from 0.
- f-scores and heuristic values are `real`. Float rounding and NaN are not modelled.
- The search's optimality does not hold for the code, which overwrites g-scores without comparing them (see "## Findings"). What is proved about the search as written is that the route returned is a valid, repetition-free route consistent with the final dictionaries.
- SearchFindings.RelaxAllIfShorter: that the whole search with the comparison returns a shortest route is not proved; the property proved is the relaxation's (no cost rises, every edge from the current node is satisfied). The rest of the model follows the code as written.
- The body of `FindPath` is split into methods, one per loop or loop body: `SearchLoop`, `SearchPass`, `ExpandNeighbors`, `RelaxNeighbor`, `NoneCheaperThan` and `ReconstructPath`. The `continue` in the neighbour loop is an early return of `RelaxNeighbor`. The dictionaries and lists are values passed through these methods rather than shared objects. The open list's in-place insert returns the new list, and `List.Reverse` is a function.
- The debug visualisation of `FindPath` is not modelled: the point prefabs, `SpawnPoints` and `ClearPoints`. The same goes for the component's event wiring (`Initialize`, `OnEnable`, `OnDisable`) and the warning log in `GetAstarPathFromTransforms`.
- Pathfinder.GetAstarPathFromTransforms: called before the graph is built (a null graph), the lookup at Assets/Scripts/Pathfinding/Pathfinder.cs:75 would throw; the model always has a graph here, and only `FindPath` models the null-graph case.
- Graph construction is not modelled. The graph is given as its node list, a neighbour function, each node's transform and the cell size.
- Transform positions are a function from transforms to positions, fixed during a call.
- CoverTable.Cover.TryOccupyCover: a null agent facing a full, non-empty table would throw from the distance computation; this throw is modelled as a refusal with nothing changed. Cover transforms are never null, as `FindCoverTargets` builds them from the children (the table invariant says so). The agent-to-cover distance is a function parameter.
- The sort (`OrderBy`) and `Array.IndexOf` of `TryOccupyCover` are not modelled step by step. A left-to-right scan for the first strictly nearer free slot replaces them, which picks the same slot (`ClosestFree` states which).
- Unity's "fake null" for destroyed objects is not modelled.
- AgentPathfinding.Pathfinding.Update: the index is a `nat`. A negative index, which only the inspector could set, is not modelled.
- `CheckifAroundDestination` is the square-root-free nearness test on the two positions.
- Steering, kinematics, the rest of `AIAgent`, and the route request `AIAgent.GeneratePathToTarget` are not modelled. The follower reads the agent's fields and calls `TrackTarget` only.
- `FlockAgent.SetTarget` is code outside this model. `SetNewSwarmTarget` returns the list of calls it makes instead of changing the agents.
- Squad.Flock.GenerateSwarm: random placement and prefab instantiation are left out. `spawn(i)` stands for what the i-th instantiation yields.
- The tagged-object search of `GenerateTargets` is a parameter.
- `Flock.Update` is not modelled, because its body is commented out.

## Findings

| source | as written | input that shows it | evidently intended | confidence | as-written member | corrected member |
|---|---|---|---|---|---|---|
| Assets/Scripts/Pathfinding/Pathfinder.cs:176-192 | every unclosed neighbour's g-score, f-score and predecessor are overwritten with the new values, with no comparison to the recorded ones | edges 0 -> 1, 2; 1 -> 2, 3; 2 -> 3, start 0, goal 3, zero heuristic, admissible: 3 is reached from 1 at cost 2, then overwritten from 2 at cost 3, and the route returned is 0, 1, 2, 3 instead of 0, 1, 3 | update the tables only when the new cost is lower ("check if you need to update tables"), so costs never rise and the route returned is a shortest one; proved of the corrected loop: no cost rises and every edge from the current node is satisfied; that the whole corrected search returns a shortest route is out of scope | not executed | SearchFindings.SearchNotShortest | SearchFindings.RelaxAllIfShorter |
