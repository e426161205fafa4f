/** Towns, roads and the adjacency map that the navigator's graph keeps. */
module Graphs {

  /** A town. Towns are told apart by identity only, so a town is its index. */
  type Node = nat

  /** A one-way road from `source` to `destination` of the given length. */
  datatype Edge = Edge(source: Node, destination: Node, weight: int)

  /** Each town's outgoing roads, in the order they were added. */
  type Adjacency = map<Node, seq<Edge>>

  /** Every road starts at the town whose list holds it and ends at a town of the map. */
  ghost predicate WellFormed(adj: Adjacency) {
    forall u, e | u in adj && e in adj[u] :: e.source == u && e.destination in adj
  }

  /** Every road has its mirror image, of the same length, in the list of its destination. */
  ghost predicate Undirected(adj: Adjacency) {
    forall u, e {:trigger Mirrored(adj, u, e)} | u in adj && e in adj[u] :: Mirrored(adj, u, e)
  }

  /** The road `e` out of `u` has its mirror image in the list of its destination. */
  ghost predicate Mirrored(adj: Adjacency, u: Node, e: Edge) {
    e.destination in adj && Edge(e.destination, u, e.weight) in adj[e.destination]
  }

  /** The map after `addNode(n)`: a new town gets an empty list, a known town keeps its own. */
  function WithNode(adj: Adjacency, n: Node): (r: Adjacency)
    ensures r.Keys == adj.Keys + {n}
    ensures forall u | u in adj :: r[u] == adj[u]
    ensures n !in adj ==> r[n] == []
  {
    if n in adj then adj else adj[n := []]
  }

  /**
   * The map after `addEdge(s, d, w)`: the road s->d is appended to s's list and then
   * the road d->s to d's list (both to the same list when s == d); no other list changes.
   */
  function WithEdge(adj: Adjacency, s: Node, d: Node, w: int): (r: Adjacency)
    requires s in adj && d in adj
    ensures r.Keys == adj.Keys
    ensures forall u | u in adj ::
      r[u] == adj[u] + (if u == s then [Edge(s, d, w)] else []) + (if u == d then [Edge(d, s, w)] else [])
  {
    var r1 := adj[s := adj[s] + [Edge(s, d, w)]];
    r1[d := r1[d] + [Edge(d, s, w)]]
  }

  /** Adding a town twice is the same as adding it once. */
  lemma WithNodeIdempotent(adj: Adjacency, n: Node)
    ensures WithNode(WithNode(adj, n), n) == WithNode(adj, n)
  {
  }

  /** Adding a town keeps every road well-formed and mirrored. */
  lemma WithNodeKeepsShape(adj: Adjacency, n: Node)
    requires WellFormed(adj) && Undirected(adj)
    ensures WellFormed(WithNode(adj, n)) && Undirected(WithNode(adj, n))
  {
    var r := WithNode(adj, n);
    forall u: Node, e: Edge | u in r && e in r[u]
      ensures Mirrored(r, u, e)
    {
      assert u in adj && Mirrored(adj, u, e);
    }
  }

  /** Adding a road in both directions keeps every road well-formed and mirrored. */
  lemma WithEdgeKeepsShape(adj: Adjacency, s: Node, d: Node, w: int)
    requires s in adj && d in adj
    requires WellFormed(adj) && Undirected(adj)
    ensures WellFormed(WithEdge(adj, s, d, w)) && Undirected(WithEdge(adj, s, d, w))
  {
    var r := WithEdge(adj, s, d, w);
    forall u: Node, e: Edge | u in r && e in r[u]
      ensures e.source == u && e.destination in r
      ensures Mirrored(r, u, e)
    {
      var m := e.destination;
      if e in adj[u] {
        assert Mirrored(adj, u, e);
        assert r[m] == adj[m] + (if m == s then [Edge(s, d, w)] else []) + (if m == d then [Edge(d, s, w)] else []);
      } else if u == s && e == Edge(s, d, w) {
        assert r[d][|r[d]| - 1] == Edge(d, s, w);
      } else {
        assert u == d && e == Edge(d, s, w);
        assert r[s][|adj[s]|] == Edge(s, d, w);
      }
    }
  }
}
