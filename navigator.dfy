/** The navigator's graph: an adjacency map that is updated in place, and the path query. */
module Navigator {
  import opened Graphs
  import opened Queues
  import opened Search

  datatype Option<T> = None | Some(value: T)

  class Graph {
    var adjacency: Adjacency

    /** Every road is well-formed and has its mirror image: the graph is undirected. */
    ghost predicate Valid()
      reads this
    {
      WellFormed(adjacency) && Undirected(adjacency)
    }

    constructor ()
      ensures Valid() && adjacency == map[]
    {
      adjacency := map[];
    }

    /** `putIfAbsent(node, new ArrayList<>())`. */
    method AddNode(node: Node)
      requires Valid()
      modifies this
      ensures Valid()
      ensures adjacency == WithNode(old(adjacency), node)
    {
      if node !in adjacency {
        adjacency := adjacency[node := []];
      }
      WithNodeKeepsShape(old(adjacency), node);
    }

    /** Appends the road source->destination to source's list, then destination->source to destination's. */
    method AddEdge(source: Node, destination: Node, weight: int)
      requires Valid()
      requires source in adjacency && destination in adjacency
      modifies this
      ensures Valid()
      ensures adjacency == WithEdge(old(adjacency), source, destination, weight)
    {
      adjacency := adjacency[source := adjacency[source] + [Edge(source, destination, weight)]];
      adjacency := adjacency[destination := adjacency[destination] + [Edge(destination, source, weight)]];
      WithEdgeKeepsShape(old(adjacency), source, destination, weight);
    }

    /**
     * The relaxation loop, then the walk back from `end` along `previous` and the reversal.
     * It computes exactly `PathFrom`, whose properties the lemmas of module Search state.
     */
    method ShortestPath(start: Node, end: Node) returns (path: seq<Node>)
      requires Valid()
      requires start in adjacency || |adjacency| == 0
      ensures path == PathFrom(adjacency, start, end)
    {
      var distance: map<Node, int> := map[start := 0];
      var previous: map<Node, Node> := map[];
      var queue: seq<Node> := [start];
      var visited: set<Node> := {};
      var nodesProcessed: nat := 0;
      ghost var rank: map<Node, nat> := map[];
      ghost var final := Explored(adjacency, start);

      while queue != [] && nodesProcessed < |adjacency|
        invariant Runnable(adjacency, start, State(distance, previous, visited, queue, nodesProcessed, rank))
        invariant Explore(adjacency, start, State(distance, previous, visited, queue, nodesProcessed, rank)) == final
        decreases |adjacency| - nodesProcessed
      {
        ghost var before := State(distance, previous, visited, queue, nodesProcessed, rank);
        RunnableQueueKnown(adjacency, start, before);
        var current;
        current, queue := Poll(queue, distance);
        if current !in visited {
          rank := rank[current := nodesProcessed];
        }
        visited := visited + {current};
        StepByParts(adjacency, before, current, State(distance, previous, visited, queue, nodesProcessed, rank));
        distance, previous, queue :=
          RelaxRoads(current, adjacency[current], distance, previous, visited, queue, nodesProcessed, rank);
        nodesProcessed := nodesProcessed + 1;
        assert State(distance, previous, visited, queue, nodesProcessed, rank) == Step(adjacency, before);
        StepRunnable(adjacency, start, before);
      }

      InvRanked(adjacency, start, final);
      var walk := WalkBack(previous, end, final.rank, final.processed);
      path := Reverse(walk);
    }
  }

  /**
   * `queue.poll()`: takes the entry in slot 0, moves the last entry into the root and sifts
   * it down, comparing by the distances recorded now.
   */
  method Poll(queue: seq<Node>, distance: map<Node, int>) returns (current: Node, rest: seq<Node>)
    requires queue != [] && Known(queue, distance)
    ensures current == queue[0] && rest == AfterPoll(queue, distance)
  {
    current := queue[0];
    var size := |queue| - 1;
    var x := queue[size];
    rest := queue[..size];
    if size != 0 {
      var k := 0;
      var half := size / 2;
      while k < half
        invariant k < size == |rest| && Known(rest, distance)
        invariant SiftDown(rest, k, x, distance) == AfterPoll(queue, distance)
        decreases size - k
      {
        Half(size, k);
        var child := 2 * k + 1;
        var c := rest[child];
        var right := child + 1;
        if right < size && distance[c] > distance[rest[right]] {
          child := right;
          c := rest[child];
        }
        assert child == Nearer(rest, k, distance);
        if distance[x] <= distance[c] {
          break;
        }
        rest := rest[k := c];
        k := child;
      }
      rest := rest[k := x];
    }
  }

  /** `queue.add(x)`: puts `x` in a new last slot and sifts it up, comparing by the distances recorded now. */
  method Offer(queue: seq<Node>, x: Node, distance: map<Node, int>) returns (queue': seq<Node>)
    requires Known(queue, distance) && x in distance
    ensures queue' == Offered(queue, x, distance)
  {
    var k: nat := |queue|;
    queue' := queue + [x];
    while k > 0
      invariant k < |queue'| == |queue| + 1 && Known(queue', distance)
      invariant SiftUp(queue', k, x, distance) == Offered(queue, x, distance)
      decreases k
    {
      var parent := (k - 1) / 2;
      var e := queue'[parent];
      if distance[x] >= distance[e] {
        break;
      }
      queue' := queue'[k := e];
      k := parent;
    }
    queue' := queue'[k := x];
  }

  /**
   * The inner `for` loop of `shortestPath`: for each road out of `current` to a town not yet
   * visited, record a shorter distance, the predecessor and a new queue entry.
   */
  method RelaxRoads(current: Node, edges: seq<Edge>, distance: map<Node, int>, previous: map<Node, Node>,
                    visited: set<Node>, queue: seq<Node>, ghost processed: nat, ghost rank: map<Node, nat>)
    returns (distance': map<Node, int>, previous': map<Node, Node>, queue': seq<Node>)
    requires current in distance && Known(queue, distance)
    ensures State(distance', previous', visited, queue', processed, rank)
            == Relax(State(distance, previous, visited, queue, processed, rank), current, edges)
  {
    distance', previous', queue' := distance, previous, queue;
    for j := 0 to |edges|
      invariant current in distance' && Known(queue', distance')
      invariant Relax(State(distance', previous', visited, queue', processed, rank), current, edges[j..])
                == Relax(State(distance, previous, visited, queue, processed, rank), current, edges)
    {
      var edge := edges[j];
      var neighbor := edge.destination;
      ghost var here := State(distance', previous', visited, queue', processed, rank);
      assert edges[j..][0] == edge && edges[j..][1..] == edges[j + 1..];
      if neighbor !in visited {
        var newDist := distance'[current] + edge.weight;
        var known := if neighbor in distance' then distance'[neighbor] else IntMax;
        if newDist < known {
          distance' := distance'[neighbor := newDist];
          previous' := previous'[neighbor := current];
          queue' := Offer(queue', neighbor, distance');
        }
      }
      assert State(distance', previous', visited, queue', processed, rank) == RelaxOne(here, current, edge);
    }
  }

  /** The second loop of `shortestPath`: collect `end`, its predecessor, its predecessor's, ... */
  method WalkBack(previous: map<Node, Node>, end: Node, ghost rank: map<Node, nat>, ghost bound: nat)
    returns (walk: seq<Node>)
    requires Ranked(previous, rank, bound)
    ensures walk == Chain(previous, rank, bound, end)
  {
    walk := [];
    var node: Option<Node> := Some(end);
    while node.Some?
      invariant node.Some? ==> walk + Chain(previous, rank, bound, node.value) == Chain(previous, rank, bound, end)
      invariant node.None? ==> walk == Chain(previous, rank, bound, end)
      decreases if node.Some? then Measure(rank, bound, node.value) + 1 else 0
    {
      walk := walk + [node.value];
      node := if node.value in previous then Some(previous[node.value]) else None;
    }
  }
}
