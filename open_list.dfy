/**
 * The open list of the A* search (Pathfinder.FakePQListInsert): a plain list
 * kept so that the lowest f-score sits at the tail, where the search pops it.
 */
module OpenList {
  import opened Graph

  /** Every entry of the list has an f-score. */
  ghost predicate Keyed(pq: seq<Node>, f: map<Node, real>)
  {
    forall i :: 0 <= i < |pq| ==> pq[i] in f
  }

  /** f-scores never increase from head to tail, so the tail holds the lowest. */
  ghost predicate TailLowest(pq: seq<Node>, f: map<Node, real>)
    requires Keyed(pq, f)
  {
    forall i, j :: 0 <= i < j < |pq| ==> f[pq[i]] >= f[pq[j]]
  }

  /**
   * Where the backward scan puts a node with f-score `key`: just after the
   * last entry whose f-score is strictly greater, or at the head if none is.
   */
  function InsertIndex(pq: seq<Node>, f: map<Node, real>, key: real): (p: nat)
    requires Keyed(pq, f)
    ensures p <= |pq|
    ensures p > 0 ==> f[pq[p - 1]] > key
    ensures forall i :: p <= i < |pq| ==> f[pq[i]] <= key
  {
    if pq == [] then 0
    else if f[pq[|pq| - 1]] > key then |pq|
    else InsertIndex(pq[..|pq| - 1], f, key)
  }

  /** The list after inserting `node` at its scan position. */
  function Inserted(pq: seq<Node>, f: map<Node, real>, node: Node): seq<Node>
    requires Keyed(pq, f) && node in f
  {
    var p := InsertIndex(pq, f, f[node]);
    pq[..p] + [node] + pq[p..]
  }

  /**
   * Insertion into the list, scanning from the tail towards the head; the
   * list is a local of the search, so the in-place insert returns the new list.
   */
  method FakePQListInsert(pqList: seq<Node>, f: map<Node, real>, node: Node) returns (r: seq<Node>)
    requires Keyed(pqList, f) && node in f
    ensures r == Inserted(pqList, f, node)
  {
    r := pqList;
    if |pqList| == 0 {
      r := r + [node];
    } else {
      var i := |pqList| - 1;
      while i >= 0
        invariant -1 <= i < |pqList|
        invariant forall j :: i < j < |pqList| ==> f[pqList[j]] <= f[node]
        invariant i >= 0 ==> r == pqList
        invariant i < 0 ==> r == [node] + pqList
        decreases i + 1
      {
        if f[pqList[i]] > f[node] {
          r := r[..i + 1] + [node] + r[i + 1..];
          break;
        } else if i == 0 {
          r := [node] + r;
        }
        i := i - 1;
      }
    }
  }

  /** The inserted list holds the node and the old entries, nothing else. */
  lemma InsertedMembers(pq: seq<Node>, f: map<Node, real>, node: Node)
    requires Keyed(pq, f) && node in f
    ensures forall x :: x in Inserted(pq, f, node) <==> x == node || x in pq
  {
    var p := InsertIndex(pq, f, f[node]);
    assert pq == pq[..p] + pq[p..];
  }

  /**
   * The node appears once more, every other entry keeps its relative order,
   * and an empty list becomes the one-element list.
   */
  lemma InsertedShape(pq: seq<Node>, f: map<Node, real>, node: Node)
    requires Keyed(pq, f) && node in f
    ensures var r := Inserted(pq, f, node);
            var p := InsertIndex(pq, f, f[node]);
            && |r| == |pq| + 1
            && r[p] == node
            && r[..p] + r[p + 1..] == pq
            && multiset(r) == multiset(pq) + multiset{node}
            && (pq == [] ==> r == [node])
  {
    SpliceShape(pq, node, InsertIndex(pq, f, f[node]));
  }

  /** Splicing `x` in at `p` and cutting it out again gives the list back. */
  lemma SpliceShape(a: seq<Node>, x: Node, p: nat)
    requires p <= |a|
    ensures var r := a[..p] + [x] + a[p..];
            && |r| == |a| + 1 && r[p] == x
            && r[..p] + r[p + 1..] == a
            && multiset(r) == multiset(a) + multiset{x}
  {
    var r := a[..p] + [x] + a[p..];
    assert r[..p] == a[..p] && r[p + 1..] == a[p..];
    assert a == a[..p] + a[p..];
  }

  /** Inserting keeps a tail-lowest list tail-lowest. */
  lemma InsertKeepsTailLowest(pq: seq<Node>, f: map<Node, real>, node: Node)
    requires Keyed(pq, f) && node in f && TailLowest(pq, f)
    ensures Keyed(Inserted(pq, f, node), f)
    ensures TailLowest(Inserted(pq, f, node), f)
  {
    var r := Inserted(pq, f, node);
    var p := InsertIndex(pq, f, f[node]);
    InsertAgainstEqual(pq, f, node);
    assert forall i :: 0 <= i < p ==> r[i] == pq[i];
    assert forall i :: p < i < |r| ==> r[i] == pq[i - 1];
    assert Keyed(r, f);
    forall i, j | 0 <= i < j < |r|
      ensures f[r[i]] >= f[r[j]]
    {
      if j < p {
        assert f[pq[i]] >= f[pq[j]];
      } else if i > p {
        assert f[pq[i - 1]] >= f[pq[j - 1]];
      }
    }
  }

  /**
   * In a tail-lowest list the new node lands behind every strictly greater
   * entry and in front of every other one: existing entries with an equal
   * f-score stay tail-side of it and are popped before it.
   */
  lemma InsertAgainstEqual(pq: seq<Node>, f: map<Node, real>, node: Node)
    requires Keyed(pq, f) && node in f && TailLowest(pq, f)
    ensures var r := Inserted(pq, f, node);
            var p := InsertIndex(pq, f, f[node]);
            && |r| == |pq| + 1 && r[p] == node
            && (forall i :: 0 <= i < p ==> f[r[i]] > f[node])
            && (forall i :: p < i < |r| ==> f[r[i]] <= f[node])
  {
    var r := Inserted(pq, f, node);
    var p := InsertIndex(pq, f, f[node]);
    forall i | 0 <= i < p
      ensures f[r[i]] > f[node]
    {
      assert r[i] == pq[i];
      assert f[pq[i]] >= f[pq[p - 1]];
    }
    forall i | p < i < |r|
      ensures f[r[i]] <= f[node]
    {
      assert r[i] == pq[i - 1];
    }
  }
}
