/**
 * The read-only grid graph the pathfinder searches. Its construction is not
 * part of this model: a graph is an ordered node list, a neighbour function,
 * the transform each node sits on and the cell size it was generated with.
 */
module Graph {
  import opened Scene

  /** Graph nodes are compared by identity, so each one is a number. */
  type Node = nat

  datatype GridGraph = GridGraph(
    nodes: seq<Node>,
    neighbors: Node -> seq<Node>,
    transformOf: Node -> Transform,
    generationGridCellSize: real)
}
