/**
 * The relaxation loop of `Graph.shortestPath`, written as functions over its local state,
 * and what can be proved about the list it returns.
 *
 * The loop polls a queue that may hold the same town several times (a town is re-inserted
 * whenever its distance drops, and older entries stay), expands every polled entry, stale
 * or not, and stops after as many polls as there are towns. So the result is a walk along
 * roads from `start` to `end` that realises the distance the loop recorded for `end`,
 * but not necessarily a least-weight one.
 */
module Search {
  import opened Graphs
  import opened Queues

  /** `Integer.MAX_VALUE`: the distance a town has before it is first reached. */
  const IntMax: int := 0x7fff_ffff

  /**
   * The loop's local state: `distance`, `previous`, `visited`, the priority queue as the
   * sequence of its entries, and `nodesProcessed`. `rank` records when each visited town was
   * first polled; nothing reads it, it only lets the proofs see that `previous` has no cycle.
   * `previous.put(start, null)` is modelled by leaving `start` out of `previous`: a lookup
   * of `start` then yields nothing, just as the null entry does.
   */
  datatype State = State(
    distance: map<Node, int>,
    previous: map<Node, Node>,
    visited: set<Node>,
    queue: seq<Node>,
    processed: nat,
    rank: map<Node, nat>)

  /** The state just before the loop: only `start` is known, at distance 0, and queued. */
  function Init(start: Node): State {
    State(map[start := 0], map[], {}, [start], 0, map[])
  }

  /** One pass of the inner loop body for road `e` leaving `current`. */
  function RelaxOne(s: State, current: Node, e: Edge): (r: State)
    requires current in s.distance && Known(s.queue, s.distance)
    ensures r.distance.Keys >= s.distance.Keys && Known(r.queue, r.distance)
  {
    var v := e.destination;
    if v in s.visited then s
    else
      var newDist := s.distance[current] + e.weight;
      if newDist < (if v in s.distance then s.distance[v] else IntMax) then
        Improved(s, current, v, newDist)
      else s
  }

  /** `v` gets distance `d` and predecessor `current`, and is added to the queue under its new distance. */
  function Improved(s: State, current: Node, v: Node, d: int): (r: State)
    requires Known(s.queue, s.distance)
    ensures r.distance == s.distance[v := d] && r.previous == s.previous[v := current]
    ensures r.visited == s.visited && r.rank == s.rank && r.processed == s.processed
    ensures Known(r.queue, r.distance)
  {
    var distance := s.distance[v := d];
    s.(distance := distance,
       previous := s.previous[v := current],
       queue := Offered(s.queue, v, distance))
  }

  /** The inner loop over `current`'s roads, in list order. */
  function Relax(s: State, current: Node, edges: seq<Edge>): (r: State)
    requires current in s.distance && Known(s.queue, s.distance)
    ensures r.distance.Keys >= s.distance.Keys && Known(r.queue, r.distance)
    decreases |edges|
  {
    if edges == [] then s
    else Relax(RelaxOne(s, current, edges[0]), current, edges[1..])
  }

  /**
   * What holds of the state at every point of the loop, the middle of the inner loop
   * included; the ranks given so far are below `bound`.
   */
  ghost predicate Consistent(adj: Adjacency, start: Node, s: State, bound: nat) {
    && Tracked(adj, start, s)
    && s.distance[start] == 0 && start !in s.previous
    && (forall v | v in s.distance :: v == start || v in s.previous)
    && s.visited <= s.distance.Keys
    && s.rank.Keys == s.visited
    && (forall u | u in s.rank :: s.rank[u] < bound)
    && (forall v {:trigger Recorded(adj, s.distance, s.previous, s.rank, v)} | v in s.previous ::
          Recorded(adj, s.distance, s.previous, s.rank, v))
  }

  /**
   * `v`'s recorded predecessor `u` is a polled town, polled for the first time before `v`
   * was (if `v` was polled at all), and `u`'s list holds a road to `v` whose length is
   * exactly the difference of their recorded distances.
   */
  ghost predicate Recorded(adj: Adjacency, distance: map<Node, int>, previous: map<Node, Node>,
                           rank: map<Node, nat>, v: Node)
    requires v in previous
  {
    var u := previous[v];
    && v in distance && u in distance && u in rank && u in adj
    && Edge(u, v, distance[v] - distance[u]) in adj[u]
    && (v in rank ==> rank[u] < rank[v])
  }

  /** Every town with a distance is `start` or has a list of roads, and every queue entry has a distance. */
  ghost predicate Tracked(adj: Adjacency, start: Node, s: State) {
    && start in s.distance
    && (forall v | v in s.distance :: v == start || v in adj)
    && Known(s.queue, s.distance)
  }

  /** Just enough for the outer loop to go on polling. */
  ghost predicate Runnable(adj: Adjacency, start: Node, s: State) {
    && WellFormed(adj)
    && (start in adj || |adj| == 0)
    && s.processed <= |adj|
    && Tracked(adj, start, s)
  }

  /** The loop invariant between two polls. */
  ghost predicate Inv(adj: Adjacency, start: Node, s: State) {
    && WellFormed(adj)
    && (start in adj || |adj| == 0)
    && Consistent(adj, start, s, s.processed)
    && s.processed <= |adj|
    && (s.processed == 0 ==> s.queue == [start] && s.visited == {} && s.previous == map[])
    && (s.processed > 0 ==> start in s.visited)
  }

  /** Every queue entry has a recorded distance and a list of roads. */
  ghost predicate QueueKnown(adj: Adjacency, s: State) {
    forall k | 0 <= k < |s.queue| :: s.queue[k] in s.distance && s.queue[k] in adj
  }

  /** One iteration of the outer loop: poll, mark visited, relax every road, count the poll. */
  function Step(adj: Adjacency, s: State): (r: State)
    requires s.queue != [] && QueueKnown(adj, s)
    ensures r.processed == s.processed + 1
  {
    var current := s.queue[0];
    Relax(Polled(s), current, adj[current]).(processed := s.processed + 1)
  }

  /** `Step` spelled out: the polled state, relaxed along the polled town's roads, one more poll counted. */
  lemma StepByParts(adj: Adjacency, s: State, current: Node, polled: State)
    requires s.queue != [] && QueueKnown(adj, s)
    requires current == s.queue[0]
    requires polled == Polled(s)
    ensures current in adj && current in polled.distance
    ensures Step(adj, s) == Relax(polled, current, adj[current]).(processed := s.processed + 1)
  {
  }

  /** The whole outer loop: poll until the queue is empty or `|adj|` polls have been made. */
  function Explore(adj: Adjacency, start: Node, s: State): (r: State)
    requires Runnable(adj, start, s)
    ensures Runnable(adj, start, r)
    ensures r.queue == [] || r.processed == |adj|
    ensures r.processed >= s.processed
    decreases |adj| - s.processed
  {
    if s.queue == [] || s.processed >= |adj| then s
    else
      StepRunnable(adj, start, s);
      Explore(adj, start, Step(adj, s))
  }

  /** The state the loop ends in when searching from `start`. */
  function Explored(adj: Adjacency, start: Node): (r: State)
    requires WellFormed(adj) && (start in adj || |adj| == 0)
    ensures Inv(adj, start, r)
  {
    ExploreInv(adj, start, Init(start));
    Explore(adj, start, Init(start))
  }

  /** A town's place in the first-poll order; towns never polled come after all others. */
  function Measure(rank: map<Node, nat>, bound: nat, v: Node): nat {
    if v in rank then rank[v] else bound
  }

  /** Following `previous` always moves to a town polled strictly earlier. */
  ghost predicate Ranked(previous: map<Node, Node>, rank: map<Node, nat>, bound: nat) {
    forall v | v in previous :: previous[v] in rank && rank[previous[v]] < Measure(rank, bound, v)
  }

  /** The list the path loop builds: `v`, its predecessor, its predecessor's, ... */
  function Chain(previous: map<Node, Node>, rank: map<Node, nat>, bound: nat, v: Node): seq<Node>
    requires Ranked(previous, rank, bound)
    decreases Measure(rank, bound, v)
  {
    if v in previous then [v] + Chain(previous, rank, bound, previous[v]) else [v]
  }

  /** `Collections.reverse`. */
  function Reverse(s: seq<Node>): (r: seq<Node>)
    ensures |r| == |s|
    ensures forall k | 0 <= k < |s| :: r[k] == s[|s| - 1 - k]
  {
    if s == [] then [] else Reverse(s[1..]) + [s[0]]
  }

  /** The list `shortestPath(start, end)` returns. */
  function PathFrom(adj: Adjacency, start: Node, end: Node): (p: seq<Node>)
    requires WellFormed(adj) && (start in adj || |adj| == 0)
  {
    var s := Explored(adj, start);
    InvRanked(adj, start, s);
    Reverse(Chain(s.previous, s.rank, s.processed, end))
  }

  // ---------------------------------------------------------------------------
  // Preservation of the invariant

  /** The state right after `poll` returned the front entry and it was added to `visited`. */
  function Polled(s: State): (r: State)
    requires s.queue != [] && Known(s.queue, s.distance)
    ensures Known(r.queue, r.distance)
  {
    var current := s.queue[0];
    s.(queue := AfterPoll(s.queue, s.distance),
       visited := s.visited + {current},
       rank := if current in s.visited then s.rank else s.rank[current := s.processed])
  }

  /** Polling and marking the polled town visited keeps the state consistent one rank further. */
  lemma PollConsistent(adj: Adjacency, start: Node, s: State)
    requires Consistent(adj, start, s, s.processed)
    requires s.queue != []
    ensures Consistent(adj, start, Polled(s), s.processed + 1)
  {
    var r := Polled(s);
    assert Tracked(adj, start, r);
    assert r.visited <= r.distance.Keys;
    assert r.rank.Keys == r.visited;
    assert forall u | u in r.rank :: r.rank[u] < s.processed + 1;
    forall v | v in r.previous
      ensures Recorded(adj, r.distance, r.previous, r.rank, v)
    {
      assert Recorded(adj, s.distance, s.previous, s.rank, v);
    }
  }

  /** Between polls, every queue entry can be polled. */
  lemma RunnableQueueKnown(adj: Adjacency, start: Node, s: State)
    requires Runnable(adj, start, s) && s.processed < |adj|
    ensures QueueKnown(adj, s)
  {
    assert start in adj;
    forall k | 0 <= k < |s.queue|
      ensures s.queue[k] in s.distance && s.queue[k] in adj
    {
    }
  }

  /** Relaxing roads that leave a town of the map reaches only towns of the map. */
  lemma {:induction false} RelaxTracked(adj: Adjacency, start: Node, s: State, current: Node, edges: seq<Edge>)
    requires WellFormed(adj) && Tracked(adj, start, s)
    requires current in s.distance && current in adj
    requires forall e | e in edges :: e in adj[current]
    ensures Tracked(adj, start, Relax(s, current, edges))
    ensures Relax(s, current, edges).processed == s.processed
    decreases |edges|
  {
    if edges != [] {
      var s1 := RelaxOne(s, current, edges[0]);
      assert edges[0] in adj[current] && edges[0].destination in adj;
      assert forall e | e in edges[1..] :: e in edges;
      RelaxTracked(adj, start, s1, current, edges[1..]);
    }
  }

  /** One iteration of the loop keeps it runnable. */
  lemma StepRunnable(adj: Adjacency, start: Node, s: State)
    requires Runnable(adj, start, s)
    requires s.queue != [] && s.processed < |adj|
    ensures QueueKnown(adj, s)
    ensures Runnable(adj, start, Step(adj, s))
  {
    RunnableQueueKnown(adj, start, s);
    var current := s.queue[0];
    RelaxTracked(adj, start, Polled(s), current, adj[current]);
  }

  /** The whole loop keeps the invariant. */
  lemma {:induction false} ExploreInv(adj: Adjacency, start: Node, s: State)
    requires Inv(adj, start, s)
    ensures Inv(adj, start, Explore(adj, start, s))
    decreases |adj| - s.processed
  {
    if s.queue != [] && s.processed < |adj| {
      StepInv(adj, start, s);
      ExploreInv(adj, start, Step(adj, s));
    }
  }

  /** One iteration of the loop keeps the invariant. */
  lemma StepInv(adj: Adjacency, start: Node, s: State)
    requires Inv(adj, start, s)
    requires s.queue != [] && s.processed < |adj|
    ensures QueueKnown(adj, s)
    ensures Inv(adj, start, Step(adj, s))
  {
    RunnableQueueKnown(adj, start, s);
    var current := s.queue[0];
    PollConsistent(adj, start, s);
    assert current in adj && start in Polled(s).visited by {
      if s.processed == 0 {
        assert s.queue == [start];
      }
    }
    RelaxConsistent(adj, start, Polled(s), current, adj[current], s.processed + 1);
  }

  /** Recording a new distance and predecessor for an unvisited town keeps the state consistent. */
  lemma ImproveConsistent(adj: Adjacency, start: Node, s: State, current: Node, v: Node, d: int, bound: nat, r: State)
    requires WellFormed(adj) && Consistent(adj, start, s, bound)
    requires current in s.visited && current in s.distance && current in adj
    requires v in adj && v !in s.visited && v != start
    requires Edge(current, v, d - s.distance[current]) in adj[current]
    requires r.distance == s.distance[v := d] && r.previous == s.previous[v := current]
    requires r.visited == s.visited && r.rank == s.rank && Known(r.queue, r.distance)
    ensures Consistent(adj, start, r, bound)
  {
    assert current != v;
    forall x | x in r.previous
      ensures Recorded(adj, r.distance, r.previous, r.rank, x)
    {
      if x != v {
        assert Recorded(adj, s.distance, s.previous, s.rank, x);
      }
    }
    assert Tracked(adj, start, r);
  }

  /** Relaxing one road out of a visited town keeps the state consistent and lowers distances only. */
  lemma RelaxOneConsistent(adj: Adjacency, start: Node, s: State, current: Node, e: Edge, bound: nat)
    requires WellFormed(adj) && Consistent(adj, start, s, bound)
    requires current in s.visited && start in s.visited && current in adj && e in adj[current]
    ensures var r := RelaxOne(s, current, e);
      && Consistent(adj, start, r, bound)
      && r.visited == s.visited && r.rank == s.rank && r.processed == s.processed
      && (forall v | v in s.distance :: r.distance[v] <= s.distance[v])
      && (forall v | v in s.visited :: r.distance[v] == s.distance[v])
  {
    var r := RelaxOne(s, current, e);
    var v := e.destination;
    var newDist := s.distance[current] + e.weight;
    if v !in s.visited && newDist < (if v in s.distance then s.distance[v] else IntMax) {
      assert r == Improved(s, current, v, newDist);
      assert e == Edge(current, v, newDist - s.distance[current]);
      ImproveConsistent(adj, start, s, current, v, newDist, bound, r);
    } else {
      assert r == s;
    }
  }

  /** The inner loop keeps the state consistent and lowers distances only. */
  lemma {:induction false} RelaxConsistent(adj: Adjacency, start: Node, s: State, current: Node,
                                           edges: seq<Edge>, bound: nat)
    requires WellFormed(adj) && Consistent(adj, start, s, bound)
    requires current in s.visited && start in s.visited && current in adj
    requires forall e | e in edges :: e in adj[current]
    ensures var r := Relax(s, current, edges);
      && Consistent(adj, start, r, bound)
      && r.visited == s.visited && r.rank == s.rank && r.processed == s.processed
      && (forall v | v in s.distance :: r.distance[v] <= s.distance[v])
      && (forall v | v in s.visited :: r.distance[v] == s.distance[v])
    decreases |edges|
  {
    if edges != [] {
      RelaxOneConsistent(adj, start, s, current, edges[0], bound);
      var s1 := RelaxOne(s, current, edges[0]);
      assert forall e | e in edges[1..] :: e in edges;
      RelaxConsistent(adj, start, s1, current, edges[1..], bound);
    }
  }

  /** The invariant makes the walk back along `previous` terminate. */
  lemma InvRanked(adj: Adjacency, start: Node, s: State)
    requires Inv(adj, start, s)
    ensures Ranked(s.previous, s.rank, s.processed)
  {
    forall v | v in s.previous
      ensures s.previous[v] in s.rank && s.rank[s.previous[v]] < Measure(s.rank, s.processed, v)
    {
      assert Recorded(adj, s.distance, s.previous, s.rank, v);
    }
  }

  /** Distances only go down during one iteration, and a visited town's distance is final. */
  lemma StepLowersDistances(adj: Adjacency, start: Node, s: State)
    requires Inv(adj, start, s)
    requires s.queue != [] && s.processed < |adj|
    requires QueueKnown(adj, s)
    ensures var r := Step(adj, s);
      && s.visited <= r.visited && s.queue[0] in r.visited
      && (forall v | v in s.distance :: v in r.distance && r.distance[v] <= s.distance[v])
      && (forall v | v in s.visited :: r.distance[v] == s.distance[v])
  {
    var current := s.queue[0];
    PollConsistent(adj, start, s);
    assert current in adj && start in Polled(s).visited by {
      if s.processed == 0 {
        assert s.queue == [start];
      }
    }
    RelaxConsistent(adj, start, Polled(s), current, adj[current], s.processed + 1);
  }

  /** Over the whole loop, no distance goes up and no visited town's distance changes. */
  lemma {:induction false} ExploreLowersDistances(adj: Adjacency, start: Node, s: State)
    requires Inv(adj, start, s)
    ensures var r := Explore(adj, start, s);
      && s.visited <= r.visited
      && (forall v | v in s.distance :: v in r.distance && r.distance[v] <= s.distance[v])
      && (forall v | v in s.visited :: r.distance[v] == s.distance[v])
    decreases |adj| - s.processed
  {
    if s.queue != [] && s.processed < |adj| {
      StepInv(adj, start, s);
      StepLowersDistances(adj, start, s);
      ExploreLowersDistances(adj, start, Step(adj, s));
    }
  }

  // ---------------------------------------------------------------------------
  // The walk back along `previous` and the returned path

  /** The chain follows `previous` link by link, ends where there is no link, and never repeats a town. */
  lemma {:induction false} ChainFacts(previous: map<Node, Node>, rank: map<Node, nat>, bound: nat, v: Node)
    requires Ranked(previous, rank, bound)
    ensures var c := Chain(previous, rank, bound, v);
      && |c| >= 1 && c[0] == v && c[|c| - 1] !in previous
      && (forall k | 0 <= k < |c| - 1 :: c[k] in previous && previous[c[k]] == c[k + 1])
      && (forall i, j | 0 <= i < j < |c| :: Measure(rank, bound, c[j]) < Measure(rank, bound, c[i]))
    decreases Measure(rank, bound, v)
  {
    if v in previous {
      var u := previous[v];
      ChainFacts(previous, rank, bound, u);
      var c' := Chain(previous, rank, bound, u);
      var c := Chain(previous, rank, bound, v);
      assert c == [v] + c';
      forall i, j | 0 <= i < j < |c|
        ensures Measure(rank, bound, c[j]) < Measure(rank, bound, c[i])
      {
        if i == 0 {
          assert c[j] == c'[j - 1];
          assert j - 1 == 0 || Measure(rank, bound, c'[j - 1]) < Measure(rank, bound, c'[0]);
        } else {
          assert c[i] == c'[i - 1] && c[j] == c'[j - 1];
        }
      }
    }
  }

  /** The chain behind the path of a finished search, with everything the path lemmas need. */
  lemma ExploredChain(adj: Adjacency, start: Node, end: Node) returns (c: seq<Node>)
    requires WellFormed(adj) && (start in adj || |adj| == 0)
    ensures var s := Explored(adj, start);
      && Ranked(s.previous, s.rank, s.processed)
      && c == Chain(s.previous, s.rank, s.processed, end)
      && PathFrom(adj, start, end) == Reverse(c)
      && |c| >= 1 && c[0] == end && c[|c| - 1] !in s.previous
      && (|c| == 1 <==> end !in s.previous)
      && (forall k | 0 <= k < |c| - 1 :: c[k] in s.previous && s.previous[c[k]] == c[k + 1])
      && (forall i, j | 0 <= i < j < |c| :: c[i] != c[j])
  {
    var s := Explored(adj, start);
    InvRanked(adj, start, s);
    c := Chain(s.previous, s.rank, s.processed, end);
    ChainFacts(s.previous, s.rank, s.processed, end);
    forall i, j | 0 <= i < j < |c|
      ensures c[i] != c[j]
    {
      assert Measure(s.rank, s.processed, c[j]) < Measure(s.rank, s.processed, c[i]);
    }
  }

  /** The path is never empty and always ends at `end`. */
  lemma PathEndsAtEnd(adj: Adjacency, start: Node, end: Node)
    requires WellFormed(adj) && (start in adj || |adj| == 0)
    ensures var p := PathFrom(adj, start, end);
      |p| >= 1 && p[|p| - 1] == end
  {
    var c := ExploredChain(adj, start, end);
  }

  /** A search from a town to itself returns just that town. */
  lemma PathToSelf(adj: Adjacency, x: Node)
    requires WellFormed(adj) && (x in adj || |adj| == 0)
    ensures PathFrom(adj, x, x) == [x]
  {
    var c := ExploredChain(adj, x, x);
  }

  /** A town the loop never reached (no `previous` entry) comes back as the one-town list `[end]`. */
  lemma PathToUnreached(adj: Adjacency, start: Node, end: Node)
    requires WellFormed(adj) && (start in adj || |adj| == 0)
    ensures end !in Explored(adj, start).previous ==> PathFrom(adj, start, end) == [end]
  {
    var c := ExploredChain(adj, start, end);
  }

  /** The path starts at `start` exactly when `end` is `start` or was reached. */
  lemma PathStartsAtStart(adj: Adjacency, start: Node, end: Node)
    requires WellFormed(adj) && (start in adj || |adj| == 0)
    ensures var p := PathFrom(adj, start, end);
      p[0] == start <==> end == start || end in Explored(adj, start).previous
  {
    var s := Explored(adj, start);
    var c := ExploredChain(adj, start, end);
    var last := c[|c| - 1];
    if |c| > 1 {
      var v := c[|c| - 2];
      assert Recorded(adj, s.distance, s.previous, s.rank, v);
      assert last in s.distance;
    }
  }

  /** No town appears twice on the path. */
  lemma PathHasNoRepeats(adj: Adjacency, start: Node, end: Node)
    requires WellFormed(adj) && (start in adj || |adj| == 0)
    ensures var p := PathFrom(adj, start, end);
      forall i, j | 0 <= i < j < |p| :: p[i] != p[j]
  {
    var c := ExploredChain(adj, start, end);
    var p := PathFrom(adj, start, end);
    forall i, j | 0 <= i < j < |p|
      ensures p[i] != p[j]
    {
      assert p[i] == c[|c| - 1 - i] && p[j] == c[|c| - 1 - j];
    }
  }

  /** `u`'s list holds a road to `v` of length `w`. */
  ghost predicate HasRoad(adj: Adjacency, u: Node, v: Node, w: int) {
    u in adj && Edge(u, v, w) in adj[u]
  }

  /** `weights[k]` is the length of a road from `p[k]` to `p[k + 1]`, for every step of `p`. */
  ghost predicate RouteWeights(adj: Adjacency, p: seq<Node>, weights: seq<int>) {
    && |weights| == |p| - 1
    && forall k: nat | k < |weights| :: HasRoad(adj, p[k], p[k + 1], weights[k])
  }

  /** `adj` has a road from `u` to `v` whose length is the difference of their distances in `d`. */
  ghost predicate Road(adj: Adjacency, d: map<Node, int>, u: Node, v: Node) {
    u in adj && u in d && v in d && Edge(u, v, d[v] - d[u]) in adj[u]
  }

  /** Each step of `p` is a road that accounts for the distances `d` records for its two ends. */
  ghost predicate FollowsRoads(adj: Adjacency, d: map<Node, int>, p: seq<Node>) {
    forall k: nat | k < |p| - 1 :: RoadAt(adj, d, p, k)
  }

  /** The step of `p` from position `k` to `k + 1` is a road that accounts for `d`. */
  ghost predicate RoadAt(adj: Adjacency, d: map<Node, int>, p: seq<Node>, k: nat)
    requires k < |p| - 1
  {
    Road(adj, d, p[k], p[k + 1])
  }

  /** The step of `c` from position `k + 1` back to `k` is a road that accounts for `d`. */
  ghost predicate LinkAt(adj: Adjacency, d: map<Node, int>, c: seq<Node>, k: nat)
    requires k < |c| - 1
  {
    Road(adj, d, c[k + 1], c[k])
  }

  /** Each link of a walk back along `previous` is a road that accounts for the recorded distances. */
  lemma LinksAreRoads(adj: Adjacency, start: Node, s: State, c: seq<Node>)
    requires Inv(adj, start, s)
    requires forall k | 0 <= k < |c| - 1 :: c[k] in s.previous && s.previous[c[k]] == c[k + 1]
    ensures forall k: nat | k < |c| - 1 :: LinkAt(adj, s.distance, c, k)
  {
    forall k: nat | k < |c| - 1
      ensures LinkAt(adj, s.distance, c, k)
    {
      assert Recorded(adj, s.distance, s.previous, s.rank, c[k]);
    }
  }

  /** Reversing a walk whose links are roads read backwards gives a list that follows roads forwards. */
  lemma ReversedLinksFollowRoads(adj: Adjacency, d: map<Node, int>, c: seq<Node>, p: seq<Node>)
    requires forall k: nat | k < |c| - 1 :: LinkAt(adj, d, c, k)
    requires |p| == |c| && forall k | 0 <= k < |p| :: p[k] == c[|c| - 1 - k]
    ensures FollowsRoads(adj, d, p)
  {
    forall k: nat | k < |p| - 1
      ensures RoadAt(adj, d, p, k)
    {
      var m := |c| - 2 - k;
      assert LinkAt(adj, d, c, m);
      assert p[k] == c[m + 1] && p[k + 1] == c[m];
    }
  }

  /** The path goes along roads, and each road accounts for the recorded distances of its ends. */
  lemma PathFollowsRoads(adj: Adjacency, start: Node, end: Node)
    requires WellFormed(adj) && (start in adj || |adj| == 0)
    ensures FollowsRoads(adj, Explored(adj, start).distance, PathFrom(adj, start, end))
  {
    var s := Explored(adj, start);
    var c := ExploredChain(adj, start, end);
    LinksAreRoads(adj, start, s, c);
    ReversedLinksFollowRoads(adj, s.distance, c, Reverse(c));
  }

  /** The sum of a list of road lengths. */
  function Sum(ws: seq<int>): int {
    if ws == [] then 0 else ws[0] + Sum(ws[1..])
  }

  /** The lengths of the steps of `p` under the recorded distances `d`. */
  function StepLengths(d: map<Node, int>, p: seq<Node>): (ws: seq<int>)
    requires forall k | 0 <= k < |p| :: p[k] in d
    ensures |ws| == if p == [] then 0 else |p| - 1
    ensures forall k | 0 <= k < |ws| :: ws[k] == d[p[k + 1]] - d[p[k]]
  {
    if |p| <= 1 then [] else [d[p[1]] - d[p[0]]] + StepLengths(d, p[1..])
  }

  /** The step lengths along a path add up to the difference of the distances at its two ends. */
  lemma {:induction false} StepLengthsTelescope(d: map<Node, int>, p: seq<Node>)
    requires |p| >= 1 && forall k | 0 <= k < |p| :: p[k] in d
    ensures Sum(StepLengths(d, p)) == d[p[|p| - 1]] - d[p[0]]
    decreases |p|
  {
    if |p| > 1 {
      StepLengthsTelescope(d, p[1..]);
    }
  }

  /** A list that follows roads accounting for `d` is a route whose lengths add up to the difference of its ends' distances. */
  lemma RoadsRealise(adj: Adjacency, d: map<Node, int>, p: seq<Node>) returns (weights: seq<int>)
    requires |p| >= 2 && FollowsRoads(adj, d, p)
    ensures p[0] in d && p[|p| - 1] in d
    ensures RouteWeights(adj, p, weights) && Sum(weights) == d[p[|p| - 1]] - d[p[0]]
  {
    forall k | 0 <= k < |p|
      ensures p[k] in d
    {
      if k < |p| - 1 {
        assert RoadAt(adj, d, p, k);
      } else {
        assert RoadAt(adj, d, p, k - 1);
      }
    }
    weights := StepLengths(d, p);
    forall k: nat | k < |weights|
      ensures HasRoad(adj, p[k], p[k + 1], weights[k])
    {
      assert RoadAt(adj, d, p, k);
    }
    StepLengthsTelescope(d, p);
  }

  /**
   * A path to a reached town is made of roads whose lengths add up to the distance the
   * loop recorded for `end`.
   */
  lemma PathRealisesDistance(adj: Adjacency, start: Node, end: Node) returns (weights: seq<int>)
    requires WellFormed(adj) && (start in adj || |adj| == 0)
    requires end in Explored(adj, start).previous
    ensures var p := PathFrom(adj, start, end);
      && RouteWeights(adj, p, weights)
      && end in Explored(adj, start).distance
      && Sum(weights) == Explored(adj, start).distance[end]
  {
    var p := PathFrom(adj, start, end);
    PathEndsAtEnd(adj, start, end);
    PathStartsAtStart(adj, start, end);
    PathFollowsRoads(adj, start, end);
    assert end != start by {
      var s := Explored(adj, start);
      assert Consistent(adj, start, s, s.processed);
    }
    weights := RoadsRealise(adj, Explored(adj, start).distance, p);
    ExploredStartIsZero(adj, start);
  }

  /** The start keeps distance 0 to the end of the loop. */
  lemma ExploredStartIsZero(adj: Adjacency, start: Node)
    requires WellFormed(adj) && (start in adj || |adj| == 0)
    ensures start in Explored(adj, start).distance && Explored(adj, start).distance[start] == 0
  {
    var s := Explored(adj, start);
    assert Consistent(adj, start, s, s.processed);
  }
}
