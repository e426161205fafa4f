# Simple map navigator, modelled in Dafny

The program is a console "map navigator" over six towns. It has a `Graph` class that keeps an
adjacency map from each town to its list of outgoing roads. `addNode` adds a town with an empty
list. `addEdge` adds a road in both directions. `shortestPath` runs a Dijkstra-style loop and
returns the list of towns from the start to the end. A menu helper, `getNodeByChoice`, turns a
menu number from 1 to 6 into a town.

The model has five modules:

- `Graphs` (graphs.dfy): towns as indices (`Node = nat`), because towns are told apart by
  identity only; the `Edge` datatype; the adjacency map as `map<Node, seq<Edge>>`; and the
  functions `WithNode` and `WithEdge` that say what `addNode` and `addEdge` make of a map.
- `Queues` (queues.dfy): the `java.util.PriorityQueue` of `shortestPath` as the sequence of its
  heap array, with `siftUp` and `siftDown` written out. The comparator reads the live `distance`
  map, so an entry whose distance drops while it sits in the heap is not moved, and a town
  queued twice stays in the heap twice.
- `Search` (search.dfy): the loop of `shortestPath` as functions over its local state
  (`distance`, `previous`, `visited`, the queue, `nodesProcessed`). `Step` is one poll,
  `Explore` runs the loop to its end, `Chain` is the walk back along `previous`, and `PathFrom`
  is the returned list. The lemmas about `PathFrom` hold whatever order the queue polls in.
- `Navigator` (navigator.dfy): the `Graph` class itself. Its methods update the adjacency map in
  place, and `ShortestPath` runs the two `while` loops and the inner `for` loop with their
  invariants. Each method is proved to compute the matching function of `Graphs` or `Search`.
- `Menu` (menu.dfy): `getNodeByChoice`, the fixed map that the program builds, and the search
  from Pune on that map traced poll by poll.

The loop is not a correct shortest-path search, and the model does not claim that it is. Stale
queue entries are polled and expanded again, and every poll counts against the budget of
`adjacencyMap.size()` polls. On the fixed map, the six polls from Pune are Pune, Satara, Hubali,
Hubali again, Solapur and Solapur again, so Kolapur is never expanded. As a result,
Pune→Belgaum comes out as Pune, Satara, Belgaum, whose roads weigh 9. The route through Hubali
and Kolapur weighs 8. `Menu.PuneToBelgaum` proves both facts.

## Model

| member | source | states |
|---|---|---|
| Graphs.WithNode | sd.java:51-53 | `addNode` keeps every town's list and adds the town; a new town gets an empty list |
| Graphs.WithNodeIdempotent | sd.java:51-53 | adding a town twice leaves the same map as adding it once (`putIfAbsent`) |
| Graphs.WithEdge | sd.java:55-58 | `addEdge(s, d, w)` appends road s→d of weight w to s's list and road d→s of weight w to d's list; no other list changes and no town is added |
| Graphs.WithNodeKeepsShape | sd.java:51-53 | adding a town keeps every road well-formed and mirrored |
| Graphs.WithEdgeKeepsShape | sd.java:55-58 | adding a road in both directions keeps the map well-formed and undirected: every road has its mirror image of the same weight |
| Navigator.Graph.constructor | sd.java:47-49 | a new graph has an empty map and is undirected |
| Navigator.Graph.AddNode | sd.java:51-53 | the map becomes `WithNode` of the old map, and the graph stays undirected |
| Navigator.Graph.AddEdge | sd.java:55-58 | with both towns present, the map becomes `WithEdge` of the old map, and the graph stays undirected |
| Navigator.Graph.ShortestPath | sd.java:60-96 | the polling loop, the path loop and the reversal return exactly `PathFrom(adjacency, start, end)` |
| Navigator.RelaxRoads | sd.java:74-84 | the inner `for` loop over the polled town's roads leaves `distance`, `previous` and the queue as `Relax` says |
| Navigator.Poll | sd.java:72 | `poll` returns the front entry of the heap and leaves the heap `AfterPoll` makes of it |
| Navigator.Offer | sd.java:67 | `add` leaves the heap that `Offered` makes of it |
| Navigator.WalkBack | sd.java:88-93 | following `previous` from `end` until there is no entry yields `Chain` |
| Queues.SiftUpPermutes | sd.java:81 | `siftUp` puts the new entry in the hole and otherwise only moves entries |
| Queues.SiftDownPermutes | sd.java:72 | `siftDown` puts the moved entry in the hole and otherwise only moves entries |
| Queues.OfferedPermutes | sd.java:81 | `add` adds exactly one entry to the queue's multiset |
| Queues.AfterPollPermutes | sd.java:72 | `poll` removes exactly the front entry from the queue's multiset |
| Queues.OfferedOrders | sd.java:63 | while no distance changes, `add` keeps the heap ordered by distance |
| Queues.AfterPollOrders | sd.java:63 | while no distance changes, `poll` keeps the heap ordered by distance |
| Queues.OrderedFrontIsLeast | sd.java:63 | in a heap ordered by distance, the front entry has the least distance |
| Search.RelaxOneConsistent | sd.java:76-83 | relaxing one road keeps the invariant and does not add to `visited`; distances only go down; a visited town's distance stays the same |
| Search.Explore | sd.java:71-86 | the loop ends, either with an empty queue or after exactly `adjacencyMap.size()` polls |
| Search.Explored | sd.java:65-86 | the loop, started with only `start` at distance 0, ends in a state that satisfies the invariant: every `previous` link is a road whose weight is the difference of the two recorded distances |
| Search.StepInv | sd.java:72-85 | one poll keeps the loop invariant |
| Search.ExploreInv | sd.java:71-86 | the whole loop keeps the loop invariant |
| Search.StepLowersDistances | sd.java:77-80 | one poll marks the polled town visited; it never raises a distance or drops one, and it leaves a visited town's distance alone |
| Search.ExploreLowersDistances | sd.java:71-86 | the whole loop never raises a distance or drops one, and it leaves a visited town's distance alone |
| Search.Reverse | sd.java:94 | `Collections.reverse` keeps the length and puts element k at position n-1-k |
| Search.ChainFacts | sd.java:89-93 | the walk back starts at `end`, follows `previous` link by link, stops at a town with no `previous` entry, and visits each town at most once |
| Search.ExploredChain | sd.java:88-94 | the returned path is the reversed walk back; the walk has length 1 exactly when `end` has no `previous` entry |
| Search.PathEndsAtEnd | sd.java:88-94 | the returned list is never empty, and its last element is `end` |
| Search.PathToSelf | sd.java:65-67 | `shortestPath(x, x)` returns `[x]` |
| Search.PathToUnreached | sd.java:89-93 | when `end` was never reached, the result is `[end]` |
| Search.PathStartsAtStart | sd.java:88-94 | the path starts at `start` exactly when `end` is `start` or `end` was reached |
| Search.PathHasNoRepeats | sd.java:88-94 | no town appears twice in the returned list |
| Search.PathFollowsRoads | sd.java:77-80 | each pair of neighbours u, v in the path is a road u→v in u's list, of weight `distance[v] - distance[u]` |
| Search.StepLengthsTelescope | sd.java:77 | the recorded steps of a path add up to the difference of the distances at its ends |
| Search.PathRealisesDistance | sd.java:77-80 | for a reached `end`, the path's roads have weights that add up to `distance[end]` |
| Search.ExploredStartIsZero | sd.java:65 | `start` keeps distance 0 to the end of the loop |
| Menu.NodeByChoice | sd.java:168-185 | choices 1 to 6 pick `nodes[choice-1]`; any other choice raises `IllegalArgumentException("Invalid choice")`; a choice past the end of `nodes` raises an index error |
| Menu.BuiltIsFixedRoads | sd.java:114-131 | the six `addNode` and eleven `addEdge` calls build exactly the listed roads for each town |
| Menu.FixedRoadsUndirected | sd.java:121-131 | every road of the built map has its mirror image |
| Menu.FixedRoadsWellFormed | sd.java:121-131 | every road of the built map starts at its town and ends at a town of the map |
| Menu.ExploredFromPune | sd.java:60-86 | from Pune, the loop ends after six polls (Pune, Satara, Hubali, Hubali again, Solapur, Solapur again) in the traced state: Pune, Satara, Hubali and Solapur visited, Kolapur queued twice and Belgaum once but never expanded, with Kolapur at distance 6 via Hubali and Belgaum at 9 via Satara |
| Menu.PuneToKolapur | sd.java:88-95 | `shortestPath(Pune, Kolapur)` returns Pune, Satara, Hubali, Kolapur |
| Menu.PuneToBelgaum | sd.java:88-95 | `shortestPath(Pune, Belgaum)` returns Pune, Satara, Belgaum, of weight 9, although the route Pune, Satara, Hubali, Kolapur, Belgaum weighs less |

## Left out

- The `main` console loop (sd.java:100-166): the `Scanner` input, the printed menus and path, and the yes/no repeat. These are interactive input and output only. The map it builds is modelled by `Menu.Built`.
- `Node.getName`, `Node.toString` and the getters of `Edge`: plain accessors. A town is its index.
- Java `int` overflow in `distance.get(current) + edge.getWeight()` (sd.java:77): distances are unbounded integers. `Integer.MAX_VALUE` is kept as the distance of a town not yet reached.
- Navigator.Graph.AddEdge: requires both towns to be present. When one is missing, the null lookup makes Java throw, possibly after appending the first road; that failure is not modelled.
- Navigator.Graph.ShortestPath: requires `start` to be a town of the map, or the map to be empty. Otherwise the first poll's `adjacencyMap.get(current)` yields null and Java throws; that failure is not modelled.
- The hashing of `HashMap` and `HashSet`: these are Dafny maps and sets, whose behaviour does not depend on hash order.
- The growth of the `PriorityQueue`'s backing array: the heap is the sequence of its live entries.
- The lemmas about the returned path do not claim that it is a least-weight route. The loop does not guarantee that, as `Menu.PuneToBelgaum` shows.
