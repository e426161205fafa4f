/**
 * The menu side of the navigator: turning a menu number into a town, the fixed map of six
 * towns the program builds, and the search from Pune on that map, poll by poll.
 */
module Menu {
  import opened Graphs
  import opened Queues
  import opened Search

  /** What `getNodeByChoice` does: return a town, or throw. */
  datatype Outcome<T> =
    | Ok(value: T)
    | IllegalArgument(message: string)
    | IndexOutOfBounds(index: int)

  /** `nodes[i]`, or the exception Java raises when `i` is past the end of the array. */
  function At(nodes: seq<Node>, i: nat): (r: Outcome<Node>)
    ensures r.Ok? <==> i < |nodes|
    ensures r.Ok? ==> r.value == nodes[i]
  {
    if i < |nodes| then Ok(nodes[i]) else IndexOutOfBounds(i)
  }

  /**
   * `getNodeByChoice(choice, nodes...)`: menu numbers 1 to 6 pick `nodes[0]` to `nodes[5]`;
   * any other number is refused with "Invalid choice".
   */
  function NodeByChoice(choice: int, nodes: seq<Node>): (r: Outcome<Node>)
    ensures r.Ok? <==> 1 <= choice <= 6 && choice <= |nodes|
    ensures r.Ok? ==> r.value == nodes[choice - 1]
    ensures !(1 <= choice <= 6) ==> r == IllegalArgument("Invalid choice")
    ensures 1 <= choice <= 6 && |nodes| < choice ==> r == IndexOutOfBounds(choice - 1)
  {
    match choice
    case 1 => At(nodes, 0)
    case 2 => At(nodes, 1)
    case 3 => At(nodes, 2)
    case 4 => At(nodes, 3)
    case 5 => At(nodes, 4)
    case 6 => At(nodes, 5)
    case _ => IllegalArgument("Invalid choice")
  }

  // ---------------------------------------------------------------------------
  // The fixed map

  const Pune: Node := 0
  const Satara: Node := 1
  const Hubali: Node := 2
  const Kolapur: Node := 3
  const Belgaum: Node := 4
  const Solapur: Node := 5

  /** The towns in the order the menu lists them and passes them to `getNodeByChoice`. */
  const Towns: seq<Node> := [Pune, Satara, Hubali, Kolapur, Belgaum, Solapur]

  /** Each town's list of roads as the program's map holds them once built (sd.java:114-131). */
  const FixedRoads: Adjacency := map[
    Pune := [Edge(0, 1, 2), Edge(0, 2, 4), Edge(0, 5, 8)],
    Satara := [Edge(1, 0, 2), Edge(1, 2, 1), Edge(1, 3, 7), Edge(1, 4, 7), Edge(1, 5, 3)],
    Hubali := [Edge(2, 0, 4), Edge(2, 1, 1), Edge(2, 3, 3), Edge(2, 4, 7)],
    Kolapur := [Edge(3, 1, 7), Edge(3, 2, 3), Edge(3, 4, 2)],
    Belgaum := [Edge(4, 2, 7), Edge(4, 3, 2), Edge(4, 1, 7), Edge(4, 5, 15)],
    Solapur := [Edge(5, 0, 8), Edge(5, 1, 3), Edge(5, 4, 15)]]

  /** `WithEdge` on two distinct towns, stated key by key. */
  lemma Appended(m: Adjacency, s: Node, d: Node, w: int, t: Adjacency)
    requires s in m && d in m && s != d
    requires t.Keys == m.Keys
    requires t[s] == m[s] + [Edge(s, d, w)] && t[d] == m[d] + [Edge(d, s, w)]
    requires forall u | u in m && u != s && u != d :: t[u] == m[u]
    ensures WithEdge(m, s, d, w) == t
  {
    var r := WithEdge(m, s, d, w);
    forall u | u in r
      ensures r[u] == t[u]
    {
    }
  }

  // The map after the six towns and after each of the first ten roads.

  const Stage0: Adjacency := map[0 := [], 1 := [], 2 := [], 3 := [], 4 := [], 5 := []]

  const Stage1: Adjacency := map[
    0 := [Edge(0, 1, 2)],
    1 := [Edge(1, 0, 2)],
    2 := [],
    3 := [],
    4 := [],
    5 := []]

  const Stage2: Adjacency := map[
    0 := [Edge(0, 1, 2), Edge(0, 2, 4)],
    1 := [Edge(1, 0, 2)],
    2 := [Edge(2, 0, 4)],
    3 := [],
    4 := [],
    5 := []]

  const Stage3: Adjacency := map[
    0 := [Edge(0, 1, 2), Edge(0, 2, 4)],
    1 := [Edge(1, 0, 2), Edge(1, 2, 1)],
    2 := [Edge(2, 0, 4), Edge(2, 1, 1)],
    3 := [],
    4 := [],
    5 := []]

  const Stage4: Adjacency := map[
    0 := [Edge(0, 1, 2), Edge(0, 2, 4)],
    1 := [Edge(1, 0, 2), Edge(1, 2, 1), Edge(1, 3, 7)],
    2 := [Edge(2, 0, 4), Edge(2, 1, 1)],
    3 := [Edge(3, 1, 7)],
    4 := [],
    5 := []]

  const Stage5: Adjacency := map[
    0 := [Edge(0, 1, 2), Edge(0, 2, 4)],
    1 := [Edge(1, 0, 2), Edge(1, 2, 1), Edge(1, 3, 7)],
    2 := [Edge(2, 0, 4), Edge(2, 1, 1), Edge(2, 3, 3)],
    3 := [Edge(3, 1, 7), Edge(3, 2, 3)],
    4 := [],
    5 := []]

  const Stage6: Adjacency := map[
    0 := [Edge(0, 1, 2), Edge(0, 2, 4)],
    1 := [Edge(1, 0, 2), Edge(1, 2, 1), Edge(1, 3, 7)],
    2 := [Edge(2, 0, 4), Edge(2, 1, 1), Edge(2, 3, 3), Edge(2, 4, 7)],
    3 := [Edge(3, 1, 7), Edge(3, 2, 3)],
    4 := [Edge(4, 2, 7)],
    5 := []]

  const Stage7: Adjacency := map[
    0 := [Edge(0, 1, 2), Edge(0, 2, 4)],
    1 := [Edge(1, 0, 2), Edge(1, 2, 1), Edge(1, 3, 7)],
    2 := [Edge(2, 0, 4), Edge(2, 1, 1), Edge(2, 3, 3), Edge(2, 4, 7)],
    3 := [Edge(3, 1, 7), Edge(3, 2, 3), Edge(3, 4, 2)],
    4 := [Edge(4, 2, 7), Edge(4, 3, 2)],
    5 := []]

  const Stage8: Adjacency := map[
    0 := [Edge(0, 1, 2), Edge(0, 2, 4), Edge(0, 5, 8)],
    1 := [Edge(1, 0, 2), Edge(1, 2, 1), Edge(1, 3, 7)],
    2 := [Edge(2, 0, 4), Edge(2, 1, 1), Edge(2, 3, 3), Edge(2, 4, 7)],
    3 := [Edge(3, 1, 7), Edge(3, 2, 3), Edge(3, 4, 2)],
    4 := [Edge(4, 2, 7), Edge(4, 3, 2)],
    5 := [Edge(5, 0, 8)]]

  const Stage9: Adjacency := map[
    0 := [Edge(0, 1, 2), Edge(0, 2, 4), Edge(0, 5, 8)],
    1 := [Edge(1, 0, 2), Edge(1, 2, 1), Edge(1, 3, 7), Edge(1, 4, 7)],
    2 := [Edge(2, 0, 4), Edge(2, 1, 1), Edge(2, 3, 3), Edge(2, 4, 7)],
    3 := [Edge(3, 1, 7), Edge(3, 2, 3), Edge(3, 4, 2)],
    4 := [Edge(4, 2, 7), Edge(4, 3, 2), Edge(4, 1, 7)],
    5 := [Edge(5, 0, 8)]]

  const Stage10: Adjacency := map[
    0 := [Edge(0, 1, 2), Edge(0, 2, 4), Edge(0, 5, 8)],
    1 := [Edge(1, 0, 2), Edge(1, 2, 1), Edge(1, 3, 7), Edge(1, 4, 7), Edge(1, 5, 3)],
    2 := [Edge(2, 0, 4), Edge(2, 1, 1), Edge(2, 3, 3), Edge(2, 4, 7)],
    3 := [Edge(3, 1, 7), Edge(3, 2, 3), Edge(3, 4, 2)],
    4 := [Edge(4, 2, 7), Edge(4, 3, 2), Edge(4, 1, 7)],
    5 := [Edge(5, 0, 8), Edge(5, 1, 3)]]

  // Each road takes one stage to the next.

  lemma AddRoad1()
    ensures WithEdge(Stage0, Pune, Satara, 2) == Stage1
  {
    Appended(Stage0, Pune, Satara, 2, Stage1);
  }

  lemma AddRoad2()
    ensures WithEdge(Stage1, Pune, Hubali, 4) == Stage2
  {
    Appended(Stage1, Pune, Hubali, 4, Stage2);
  }

  lemma AddRoad3()
    ensures WithEdge(Stage2, Satara, Hubali, 1) == Stage3
  {
    Appended(Stage2, Satara, Hubali, 1, Stage3);
  }

  lemma AddRoad4()
    ensures WithEdge(Stage3, Satara, Kolapur, 7) == Stage4
  {
    Appended(Stage3, Satara, Kolapur, 7, Stage4);
  }

  lemma AddRoad5()
    ensures WithEdge(Stage4, Hubali, Kolapur, 3) == Stage5
  {
    Appended(Stage4, Hubali, Kolapur, 3, Stage5);
  }

  lemma AddRoad6()
    ensures WithEdge(Stage5, Hubali, Belgaum, 7) == Stage6
  {
    Appended(Stage5, Hubali, Belgaum, 7, Stage6);
  }

  lemma AddRoad7()
    ensures WithEdge(Stage6, Kolapur, Belgaum, 2) == Stage7
  {
    Appended(Stage6, Kolapur, Belgaum, 2, Stage7);
  }

  lemma AddRoad8()
    ensures WithEdge(Stage7, Pune, Solapur, 8) == Stage8
  {
    Appended(Stage7, Pune, Solapur, 8, Stage8);
  }

  lemma AddRoad9()
    ensures WithEdge(Stage8, Satara, Belgaum, 7) == Stage9
  {
    Appended(Stage8, Satara, Belgaum, 7, Stage9);
  }

  lemma AddRoad10()
    ensures WithEdge(Stage9, Satara, Solapur, 3) == Stage10
  {
    Appended(Stage9, Satara, Solapur, 3, Stage10);
  }

  lemma AddRoad11()
    ensures WithEdge(Stage10, Belgaum, Solapur, 15) == FixedRoads
  {
    Appended(Stage10, Belgaum, Solapur, 15, FixedRoads);
  }

  lemma TownsAdded()
    ensures WithNode(WithNode(WithNode(WithNode(WithNode(WithNode(map[], 0), 1), 2), 3), 4), 5) == Stage0
  {
  }

  /**
   * The map after the program's six `addNode` and eleven `addEdge` calls (sd.java:114-131),
   * each call as the function that `Graph.AddNode` and `Graph.AddEdge` are proved to compute.
   */
  ghost function Built(): Adjacency {
    var g := map[];
    var g := WithNode(g, Pune);
    var g := WithNode(g, Satara);
    var g := WithNode(g, Hubali);
    var g := WithNode(g, Kolapur);
    var g := WithNode(g, Belgaum);
    var g := WithNode(g, Solapur);
    var g := WithEdge(g, Pune, Satara, 2);
    var g := WithEdge(g, Pune, Hubali, 4);
    var g := WithEdge(g, Satara, Hubali, 1);
    var g := WithEdge(g, Satara, Kolapur, 7);
    var g := WithEdge(g, Hubali, Kolapur, 3);
    var g := WithEdge(g, Hubali, Belgaum, 7);
    var g := WithEdge(g, Kolapur, Belgaum, 2);
    var g := WithEdge(g, Pune, Solapur, 8);
    var g := WithEdge(g, Satara, Belgaum, 7);
    var g := WithEdge(g, Satara, Solapur, 3);
    WithEdge(g, Belgaum, Solapur, 15)
  }

  /** Building the map gives each town exactly the list of roads that `FixedRoads` holds. */
  lemma BuiltIsFixedRoads()
    ensures Built() == FixedRoads
  {
    TownsAdded();
    AddRoad1();
    AddRoad2();
    AddRoad3();
    AddRoad4();
    AddRoad5();
    AddRoad6();
    AddRoad7();
    AddRoad8();
    AddRoad9();
    AddRoad10();
    AddRoad11();
  }

  /** Every road of the program's map has its mirror image, as `Graph.AddEdge` guarantees. */
  lemma FixedRoadsUndirected()
    ensures Undirected(FixedRoads)
  {
    forall u, e | u in FixedRoads && e in FixedRoads[u]
      ensures Mirrored(FixedRoads, u, e)
    {
      var k :| 0 <= k < |FixedRoads[u]| && FixedRoads[u][k] == e;
      assert u <= 5;
      if u == 0 {
        assert k < 3;
      } else if u == 1 {
        assert k < 5;
      } else if u == 2 {
        assert k < 4;
      } else if u == 3 {
        assert k < 3;
      } else if u == 4 {
        assert k < 4;
      } else {
        assert k < 3;
      }
    }
  }

  /** Every road of the program's map starts at the town whose list holds it and ends at a town. */
  lemma FixedRoadsWellFormed()
    ensures WellFormed(FixedRoads)
  {
    forall u, e | u in FixedRoads && e in FixedRoads[u]
      ensures e.source == u && e.destination in FixedRoads
    {
      var k :| 0 <= k < |FixedRoads[u]| && FixedRoads[u][k] == e;
      assert u <= 5 && e.destination <= 5;
    }
  }

  // ---------------------------------------------------------------------------
  // The search from Pune on the fixed map, poll by poll

  /** Relaxing road `e` out of `c` takes state `s` to state `r`. */
  ghost predicate RelaxesTo(s: State, c: Node, e: Edge, r: State) {
    c in s.distance && Known(s.queue, s.distance) && RelaxOne(s, c, e) == r
  }

  /** A road that shortens the way to an unvisited town records it and queues it again. */
  lemma Improves(s: State, c: Node, e: Edge, q: seq<Node>)
    requires c in s.distance && Known(s.queue, s.distance)
    requires e.destination !in s.visited
    requires s.distance[c] + e.weight < (if e.destination in s.distance then s.distance[e.destination] else IntMax)
    requires Offered(s.queue, e.destination, s.distance[e.destination := s.distance[c] + e.weight]) == q
    ensures RelaxesTo(s, c, e, s.(distance := s.distance[e.destination := s.distance[c] + e.weight],
      previous := s.previous[e.destination := c], queue := q))
    ensures Known(q, s.distance[e.destination := s.distance[c] + e.weight])
  {
  }

  /** A road to a visited town, or one that does not shorten the way, changes nothing. */
  lemma Skips(s: State, c: Node, e: Edge)
    requires c in s.distance && Known(s.queue, s.distance)
    requires e.destination in s.visited ||
      s.distance[c] + e.weight >= (if e.destination in s.distance then s.distance[e.destination] else IntMax)
    ensures RelaxesTo(s, c, e, s)
  {
  }

  lemma RelaxThree(s: State, c: Node, e1: Edge, e2: Edge, e3: Edge, r1: State, r2: State, r3: State)
    requires RelaxesTo(s, c, e1, r1) && RelaxesTo(r1, c, e2, r2) && RelaxesTo(r2, c, e3, r3)
    ensures Relax(s, c, [e1, e2, e3]) == r3
  {
    assert Relax(r2, c, [e3]) == r3 by {
      assert [e3][1..] == [];
    }
    assert Relax(r1, c, [e2, e3]) == r3 by {
      assert [e2, e3][1..] == [e3];
    }
    assert [e1, e2, e3][1..] == [e2, e3];
  }

  lemma RelaxFour(s: State, c: Node, e1: Edge, e2: Edge, e3: Edge, e4: Edge,
                  r1: State, r2: State, r3: State, r4: State)
    requires RelaxesTo(s, c, e1, r1) && RelaxesTo(r1, c, e2, r2) && RelaxesTo(r2, c, e3, r3)
    requires RelaxesTo(r3, c, e4, r4)
    ensures Relax(s, c, [e1, e2, e3, e4]) == r4
  {
    RelaxThree(r1, c, e2, e3, e4, r2, r3, r4);
    assert [e1, e2, e3, e4][1..] == [e2, e3, e4];
  }

  lemma RelaxFive(s: State, c: Node, e1: Edge, e2: Edge, e3: Edge, e4: Edge, e5: Edge,
                  r1: State, r2: State, r3: State, r4: State, r5: State)
    requires RelaxesTo(s, c, e1, r1) && RelaxesTo(r1, c, e2, r2) && RelaxesTo(r2, c, e3, r3)
    requires RelaxesTo(r3, c, e4, r4) && RelaxesTo(r4, c, e5, r5)
    ensures Relax(s, c, [e1, e2, e3, e4, e5]) == r5
  {
    RelaxFour(r1, c, e2, e3, e4, e5, r2, r3, r4, r5);
    assert [e1, e2, e3, e4, e5][1..] == [e2, e3, e4, e5];
  }

  /** The loop state after `n` polls of the search from Pune; `Trace0` is the state before the loop. */
  const Trace0: State := Init(Pune)

  /** Pune is polled; Satara, Hubali and Solapur are reached from it. */
  const Trace1: State := Trace0.(
    queue := [1, 2, 5],
    visited := Trace0.visited + {0},
    rank := Trace0.rank[0 := 0],
    distance := Trace0.distance[1 := 2][2 := 4][5 := 8],
    previous := Trace0.previous[1 := 0][2 := 0][5 := 0],
    processed := 1)

  /** Satara is polled; Hubali and Solapur get nearer through it, and Kolapur and Belgaum are reached. */
  const Trace2: State := Trace1.(
    queue := [2, 5, 2, 3, 4, 5],
    visited := Trace1.visited + {1},
    rank := Trace1.rank[1 := 1],
    distance := Trace1.distance[2 := 3][3 := 9][4 := 9][5 := 5],
    previous := Trace1.previous[2 := 1][3 := 1][4 := 1][5 := 1],
    processed := 2)

  /** Hubali is polled; Kolapur gets nearer through it, Belgaum does not. */
  const Trace3: State := Trace2.(
    queue := [2, 5, 5, 3, 4, 3],
    visited := Trace2.visited + {2},
    rank := Trace2.rank[2 := 2],
    distance := Trace2.distance[3 := 6],
    previous := Trace2.previous[3 := 2],
    processed := 3)

  /** Hubali's stale entry is polled and expanded again, to no effect. */
  const Trace4: State := Trace3.(
    queue := [5, 3, 5, 3, 4],
    visited := Trace3.visited + {2},
    processed := 4)

  /** Solapur is polled; it improves nothing. */
  const Trace5: State := Trace4.(
    queue := [5, 3, 4, 3],
    visited := Trace4.visited + {5},
    rank := Trace4.rank[5 := 4],
    processed := 5)

  /** Solapur's stale entry is polled: the sixth poll, so the loop stops before Kolapur is expanded. */
  const Trace6: State := Trace5.(
    queue := [3, 3, 4],
    visited := Trace5.visited + {5},
    processed := 6)

  /** The roads out of Pune at the first poll. */
  lemma FirstRelax(p: State)
    requires 0 in p.distance && p.distance[0] == 0
    requires 1 !in p.distance && 2 !in p.distance && 5 !in p.distance
    requires 1 !in p.visited && 2 !in p.visited && 5 !in p.visited
    requires p.queue == [] && Known(p.queue, p.distance)
    ensures Relax(p, 0, [Edge(0, 1, 2), Edge(0, 2, 4), Edge(0, 5, 8)]) == p.(distance := p.distance[1 := 2][2 := 4][5 := 8], previous := p.previous[1 := 0][2 := 0][5 := 0], queue := [1, 2, 5])
  {
    Improves(p, 0, Edge(0, 1, 2), [1]);
    var r1 := p.(distance := p.distance[1 := 2], previous := p.previous[1 := 0], queue := [1]);
    Improves(r1, 0, Edge(0, 2, 4), [1, 2]);
    var r2 := r1.(distance := r1.distance[2 := 4], previous := r1.previous[2 := 0], queue := [1, 2]);
    Improves(r2, 0, Edge(0, 5, 8), [1, 2, 5]);
    var r3 := r2.(distance := r2.distance[5 := 8], previous := r2.previous[5 := 0], queue := [1, 2, 5]);
    RelaxThree(p, 0, Edge(0, 1, 2), Edge(0, 2, 4), Edge(0, 5, 8), r1, r2, r3);
  }

  lemma FirstQueue()
    ensures AfterPoll(Trace0.queue, Trace0.distance) == []
  {
    var s := Trace0;
  }

  lemma FirstPoll()
    requires QueueKnown(FixedRoads, Trace0)
    ensures Step(FixedRoads, Trace0) == Trace1
  {
    var s := Trace0;
    FirstQueue();
    var p := s.(queue := [], visited := s.visited + {0}, rank := s.rank[0 := 0]);
    assert Polled(s) == p;
    assert FixedRoads[0] == [Edge(0, 1, 2), Edge(0, 2, 4), Edge(0, 5, 8)];
    FirstRelax(p);
  }

  /** The roads out of Satara at the second poll. */
  lemma SecondRelax(p: State)
    requires 1 in p.distance && p.distance[1] == 2 && 2 in p.distance && p.distance[2] == 4 && 5 in p.distance && p.distance[5] == 8
    requires 3 !in p.distance && 4 !in p.distance
    requires 0 in p.visited
    requires 2 !in p.visited && 3 !in p.visited && 4 !in p.visited && 5 !in p.visited
    requires p.queue == [2, 5] && Known(p.queue, p.distance)
    ensures Relax(p, 1, [Edge(1, 0, 2), Edge(1, 2, 1), Edge(1, 3, 7), Edge(1, 4, 7), Edge(1, 5, 3)]) == p.(distance := p.distance[2 := 3][3 := 9][4 := 9][5 := 5], previous := p.previous[2 := 1][3 := 1][4 := 1][5 := 1], queue := [2, 5, 2, 3, 4, 5])
  {
    Skips(p, 1, Edge(1, 0, 2));
    Improves(p, 1, Edge(1, 2, 1), [2, 5, 2]);
    var r2 := p.(distance := p.distance[2 := 3], previous := p.previous[2 := 1], queue := [2, 5, 2]);
    Improves(r2, 1, Edge(1, 3, 7), [2, 5, 2, 3]);
    var r3 := r2.(distance := r2.distance[3 := 9], previous := r2.previous[3 := 1], queue := [2, 5, 2, 3]);
    Improves(r3, 1, Edge(1, 4, 7), [2, 5, 2, 3, 4]);
    var r4 := r3.(distance := r3.distance[4 := 9], previous := r3.previous[4 := 1], queue := [2, 5, 2, 3, 4]);
    Improves(r4, 1, Edge(1, 5, 3), [2, 5, 2, 3, 4, 5]);
    var r5 := r4.(distance := r4.distance[5 := 5], previous := r4.previous[5 := 1], queue := [2, 5, 2, 3, 4, 5]);
    RelaxFive(p, 1, Edge(1, 0, 2), Edge(1, 2, 1), Edge(1, 3, 7), Edge(1, 4, 7), Edge(1, 5, 3), p, r2, r3, r4, r5);
  }

  lemma SecondQueue()
    ensures AfterPoll(Trace1.queue, Trace1.distance) == [2, 5]
  {
    var s := Trace1;
    assert s.queue[..2] == [1, 2];
    assert Nearer([1, 2], 0, s.distance) == 1;
    assert SiftDown([2, 2], 1, 5, s.distance) == [2, 5];
  }

  lemma SecondPoll()
    requires QueueKnown(FixedRoads, Trace1)
    ensures Step(FixedRoads, Trace1) == Trace2
  {
    var s := Trace1;
    SecondQueue();
    var p := s.(queue := [2, 5], visited := s.visited + {1}, rank := s.rank[1 := 1]);
    assert Polled(s) == p;
    assert FixedRoads[1] == [Edge(1, 0, 2), Edge(1, 2, 1), Edge(1, 3, 7), Edge(1, 4, 7), Edge(1, 5, 3)];
    SecondRelax(p);
  }

  /** The roads out of Hubali at the third poll. */
  lemma ThirdRelax(p: State)
    requires 2 in p.distance && p.distance[2] == 3 && 3 in p.distance && p.distance[3] == 9 && 4 in p.distance && p.distance[4] == 9 && 5 in p.distance && p.distance[5] == 5
    requires 0 in p.visited && 1 in p.visited
    requires 3 !in p.visited && 4 !in p.visited
    requires p.queue == [2, 5, 5, 3, 4] && Known(p.queue, p.distance)
    ensures Relax(p, 2, [Edge(2, 0, 4), Edge(2, 1, 1), Edge(2, 3, 3), Edge(2, 4, 7)]) == p.(distance := p.distance[3 := 6], previous := p.previous[3 := 2], queue := [2, 5, 5, 3, 4, 3])
  {
    Skips(p, 2, Edge(2, 0, 4));
    Skips(p, 2, Edge(2, 1, 1));
    Improves(p, 2, Edge(2, 3, 3), [2, 5, 5, 3, 4, 3]);
    var r3 := p.(distance := p.distance[3 := 6], previous := p.previous[3 := 2], queue := [2, 5, 5, 3, 4, 3]);
    Skips(r3, 2, Edge(2, 4, 7));
    RelaxFour(p, 2, Edge(2, 0, 4), Edge(2, 1, 1), Edge(2, 3, 3), Edge(2, 4, 7), p, p, r3, r3);
  }

  lemma ThirdQueue()
    ensures AfterPoll(Trace2.queue, Trace2.distance) == [2, 5, 5, 3, 4]
  {
    var s := Trace2;
    assert s.queue[..5] == [2, 5, 2, 3, 4];
    assert Nearer([2, 5, 2, 3, 4], 0, s.distance) == 2;
    assert SiftDown([2, 5, 2, 3, 4], 2, 5, s.distance) == [2, 5, 5, 3, 4];
  }

  lemma ThirdPoll()
    requires QueueKnown(FixedRoads, Trace2)
    ensures Step(FixedRoads, Trace2) == Trace3
  {
    var s := Trace2;
    ThirdQueue();
    var p := s.(queue := [2, 5, 5, 3, 4], visited := s.visited + {2}, rank := s.rank[2 := 2]);
    assert Polled(s) == p;
    assert FixedRoads[2] == [Edge(2, 0, 4), Edge(2, 1, 1), Edge(2, 3, 3), Edge(2, 4, 7)];
    ThirdRelax(p);
  }

  /** The roads out of Hubali at the fourth poll. */
  lemma FourthRelax(p: State)
    requires 2 in p.distance && p.distance[2] == 3 && 3 in p.distance && p.distance[3] == 6 && 4 in p.distance && p.distance[4] == 9
    requires 0 in p.visited && 1 in p.visited
    requires p.queue == [5, 3, 5, 3, 4] && Known(p.queue, p.distance)
    ensures Relax(p, 2, [Edge(2, 0, 4), Edge(2, 1, 1), Edge(2, 3, 3), Edge(2, 4, 7)]) == p
  {
    Skips(p, 2, Edge(2, 0, 4));
    Skips(p, 2, Edge(2, 1, 1));
    Skips(p, 2, Edge(2, 3, 3));
    Skips(p, 2, Edge(2, 4, 7));
    RelaxFour(p, 2, Edge(2, 0, 4), Edge(2, 1, 1), Edge(2, 3, 3), Edge(2, 4, 7), p, p, p, p);
  }

  lemma FourthQueue()
    ensures AfterPoll(Trace3.queue, Trace3.distance) == [5, 3, 5, 3, 4]
  {
    var s := Trace3;
    assert s.queue[..5] == [2, 5, 5, 3, 4];
    assert Nearer([2, 5, 5, 3, 4], 0, s.distance) == 1;
    assert Nearer([5, 5, 5, 3, 4], 1, s.distance) == 3;
    assert SiftDown([5, 5, 5, 3, 4], 1, 3, s.distance) == [5, 3, 5, 3, 4];
  }

  lemma FourthPoll()
    requires QueueKnown(FixedRoads, Trace3)
    ensures Step(FixedRoads, Trace3) == Trace4
  {
    var s := Trace3;
    FourthQueue();
    var p := s.(queue := [5, 3, 5, 3, 4], visited := s.visited + {2});
    assert Polled(s) == p;
    assert FixedRoads[2] == [Edge(2, 0, 4), Edge(2, 1, 1), Edge(2, 3, 3), Edge(2, 4, 7)];
    FourthRelax(p);
  }

  /** The roads out of Solapur at the fifth poll. */
  lemma FifthRelax(p: State)
    requires 5 in p.distance && p.distance[5] == 5 && 4 in p.distance && p.distance[4] == 9
    requires 0 in p.visited && 1 in p.visited
    requires p.queue == [5, 3, 4, 3] && Known(p.queue, p.distance)
    ensures Relax(p, 5, [Edge(5, 0, 8), Edge(5, 1, 3), Edge(5, 4, 15)]) == p
  {
    Skips(p, 5, Edge(5, 0, 8));
    Skips(p, 5, Edge(5, 1, 3));
    Skips(p, 5, Edge(5, 4, 15));
    RelaxThree(p, 5, Edge(5, 0, 8), Edge(5, 1, 3), Edge(5, 4, 15), p, p, p);
  }

  lemma FifthQueue()
    ensures AfterPoll(Trace4.queue, Trace4.distance) == [5, 3, 4, 3]
  {
    var s := Trace4;
    assert s.queue[..4] == [5, 3, 5, 3];
    assert Nearer([5, 3, 5, 3], 0, s.distance) == 2;
    assert SiftDown([5, 3, 5, 3], 2, 4, s.distance) == [5, 3, 4, 3];
  }

  lemma FifthPoll()
    requires QueueKnown(FixedRoads, Trace4)
    ensures Step(FixedRoads, Trace4) == Trace5
  {
    var s := Trace4;
    FifthQueue();
    var p := s.(queue := [5, 3, 4, 3], visited := s.visited + {5}, rank := s.rank[5 := 4]);
    assert Polled(s) == p;
    assert FixedRoads[5] == [Edge(5, 0, 8), Edge(5, 1, 3), Edge(5, 4, 15)];
    FifthRelax(p);
  }

  /** The roads out of Solapur at the sixth poll. */
  lemma SixthRelax(p: State)
    requires 5 in p.distance && p.distance[5] == 5 && 4 in p.distance && p.distance[4] == 9
    requires 0 in p.visited && 1 in p.visited
    requires p.queue == [3, 3, 4] && Known(p.queue, p.distance)
    ensures Relax(p, 5, [Edge(5, 0, 8), Edge(5, 1, 3), Edge(5, 4, 15)]) == p
  {
    Skips(p, 5, Edge(5, 0, 8));
    Skips(p, 5, Edge(5, 1, 3));
    Skips(p, 5, Edge(5, 4, 15));
    RelaxThree(p, 5, Edge(5, 0, 8), Edge(5, 1, 3), Edge(5, 4, 15), p, p, p);
  }

  lemma SixthQueue()
    ensures AfterPoll(Trace5.queue, Trace5.distance) == [3, 3, 4]
  {
    var s := Trace5;
    assert s.queue[..3] == [5, 3, 4];
    assert Nearer([5, 3, 4], 0, s.distance) == 1;
  }

  lemma SixthPoll()
    requires QueueKnown(FixedRoads, Trace5)
    ensures Step(FixedRoads, Trace5) == Trace6
  {
    var s := Trace5;
    SixthQueue();
    var p := s.(queue := [3, 3, 4], visited := s.visited + {5});
    assert Polled(s) == p;
    assert FixedRoads[5] == [Edge(5, 0, 8), Edge(5, 1, 3), Edge(5, 4, 15)];
    SixthRelax(p);
  }
  /** One more iteration of the loop, from `s` to `t`, leaves the final state of `Explore` unchanged. */
  lemma ExploreStep(adj: Adjacency, start: Node, s: State, t: State)
    requires Runnable(adj, start, s) && s.queue != [] && s.processed < |adj|
    requires QueueKnown(adj, s) ==> Step(adj, s) == t
    ensures Runnable(adj, start, t) && Explore(adj, start, s) == Explore(adj, start, t)
  {
    StepRunnable(adj, start, s);
  }

  /** The program's map has six towns. */
  lemma FixedRoadsSize()
    ensures FixedRoads.Keys == {0, 1, 2, 3, 4, 5} && |FixedRoads| == 6
  {
    assert FixedRoads.Keys == {0, 1, 2, 3, 4, 5};
  }

  /** `t` is what one iteration of the loop makes of `s`. */
  ghost predicate StepsTo(adj: Adjacency, s: State, t: State) {
    s.queue != [] && (QueueKnown(adj, s) ==> Step(adj, s) == t)
  }

  /** Three iterations in a row keep the loop runnable and leave its final state unchanged. */
  lemma {:induction false} ExploreThree(adj: Adjacency, start: Node, t0: State, t1: State, t2: State, t3: State)
    requires Runnable(adj, start, t0) && t2.processed < |adj|
    requires t0.processed + 1 == t1.processed && t1.processed + 1 == t2.processed
    requires StepsTo(adj, t0, t1) && StepsTo(adj, t1, t2) && StepsTo(adj, t2, t3)
    ensures Runnable(adj, start, t3) && Explore(adj, start, t0) == Explore(adj, start, t3)
  {
    ExploreStep(adj, start, t0, t1);
    ExploreStep(adj, start, t1, t2);
    ExploreStep(adj, start, t2, t3);
  }

  /** Six iterations in a row, from a runnable state, end the loop on a six-town map. */
  lemma {:induction false} ExploreSix(adj: Adjacency, start: Node, t0: State, t1: State, t2: State, t3: State, t4: State, t5: State, t6: State)
    requires Runnable(adj, start, t0) && |adj| == 6
    requires t0.processed == 0 && t1.processed == 1 && t2.processed == 2
    requires t3.processed == 3 && t4.processed == 4 && t5.processed == 5 && t6.processed == 6
    requires StepsTo(adj, t0, t1) && StepsTo(adj, t1, t2) && StepsTo(adj, t2, t3)
    requires StepsTo(adj, t3, t4) && StepsTo(adj, t4, t5) && StepsTo(adj, t5, t6)
    ensures Explore(adj, start, t0) == t6
  {
    ExploreThree(adj, start, t0, t1, t2, t3);
    ExploreThree(adj, start, t3, t4, t5, t6);
  }

  lemma FirstStep() ensures StepsTo(FixedRoads, Trace0, Trace1) {
    if QueueKnown(FixedRoads, Trace0) { FirstPoll(); }
  }

  lemma SecondStep() ensures StepsTo(FixedRoads, Trace1, Trace2) {
    if QueueKnown(FixedRoads, Trace1) { SecondPoll(); }
  }

  lemma ThirdStep() ensures StepsTo(FixedRoads, Trace2, Trace3) {
    if QueueKnown(FixedRoads, Trace2) { ThirdPoll(); }
  }

  lemma FourthStep() ensures StepsTo(FixedRoads, Trace3, Trace4) {
    if QueueKnown(FixedRoads, Trace3) { FourthPoll(); }
  }

  lemma FifthStep() ensures StepsTo(FixedRoads, Trace4, Trace5) {
    if QueueKnown(FixedRoads, Trace4) { FifthPoll(); }
  }

  lemma SixthStep() ensures StepsTo(FixedRoads, Trace5, Trace6) {
    if QueueKnown(FixedRoads, Trace5) { SixthPoll(); }
  }

  /** A search from a town of a well-formed map starts in a runnable state. */
  lemma InitRunnable(adj: Adjacency, start: Node)
    requires WellFormed(adj) && start in adj
    ensures Runnable(adj, start, Init(start))
  {
    assert Known(Init(start).queue, Init(start).distance);
  }

  /** The search starts in a state the loop invariant admits. */
  lemma StartRunnable()
    ensures WellFormed(FixedRoads) && Pune in FixedRoads && |FixedRoads| == 6
    ensures Runnable(FixedRoads, Pune, Trace0)
  {
    FixedRoadsWellFormed();
    FixedRoadsSize();
    InitRunnable(FixedRoads, Pune);
  }

  /** The search from Pune makes exactly the six polls traced above. */
  lemma ExploredFromPune()
    ensures WellFormed(FixedRoads) && Pune in FixedRoads
    ensures Explored(FixedRoads, Pune) == Trace6
  {
    StartRunnable();
    FirstStep();
    SecondStep();
    ThirdStep();
    FourthStep();
    FifthStep();
    SixthStep();
    ExploreSix(FixedRoads, Pune, Trace0, Trace1, Trace2, Trace3, Trace4, Trace5, Trace6);
  }

  /** The walks back along `previous` once the search from Pune is over. */
  lemma FinalChains()
    requires Ranked(Trace6.previous, Trace6.rank, 6)
    ensures Chain(Trace6.previous, Trace6.rank, 6, Kolapur) == [Kolapur, Hubali, Satara, Pune]
    ensures Chain(Trace6.previous, Trace6.rank, 6, Belgaum) == [Belgaum, Satara, Pune]
  {
    var s := Trace6;
    assert Chain(s.previous, s.rank, 6, Pune) == [0];
    assert Chain(s.previous, s.rank, 6, Satara) == [1, 0];
    assert Chain(s.previous, s.rank, 6, Hubali) == [2, 1, 0];
  }

  /** Once the final state of the search is known, the returned path is its walk back, reversed. */
  lemma PathOfFinal(adj: Adjacency, start: Node, end: Node, s: State)
    requires WellFormed(adj) && start in adj && Explored(adj, start) == s
    ensures Ranked(s.previous, s.rank, s.processed)
    ensures PathFrom(adj, start, end) == Reverse(Chain(s.previous, s.rank, s.processed, end))
  {
    InvRanked(adj, start, s);
  }

  lemma ReverseThree(a: Node, b: Node, c: Node)
    ensures Reverse([a, b, c]) == [c, b, a]
  {
    var r := Reverse([a, b, c]);
    assert r[0] == c && r[1] == b && r[2] == a;
  }

  lemma ReverseFour(a: Node, b: Node, c: Node, d: Node)
    ensures Reverse([a, b, c, d]) == [d, c, b, a]
  {
    var r := Reverse([a, b, c, d]);
    assert r[0] == d && r[1] == c && r[2] == b && r[3] == a;
  }

  /** `shortestPath(Pune, Kolapur)` returns Pune, Satara, Hubali, Kolapur. */
  lemma PuneToKolapur()
    ensures WellFormed(FixedRoads) && Pune in FixedRoads
    ensures PathFrom(FixedRoads, Pune, Kolapur) == [Pune, Satara, Hubali, Kolapur]
  {
    ExploredFromPune();
    PathOfFinal(FixedRoads, Pune, Kolapur, Trace6);
    FinalChains();
    ReverseFour(Kolapur, Hubali, Satara, Pune);
  }

  /** The only weights of the route Pune, Satara, Belgaum add up to 9; the route through Hubali and Kolapur weighs 8. */
  lemma BelgaumRoutes()
    ensures forall ws | RouteWeights(FixedRoads, [Pune, Satara, Belgaum], ws) :: Sum(ws) == 9
    ensures RouteWeights(FixedRoads, [Pune, Satara, Hubali, Kolapur, Belgaum], [2, 1, 3, 2])
    ensures Sum([2, 1, 3, 2]) == 8
  {
    forall ws | RouteWeights(FixedRoads, [Pune, Satara, Belgaum], ws)
      ensures Sum(ws) == 9
    {
      var p := [Pune, Satara, Belgaum];
      assert HasRoad(FixedRoads, p[0], p[1], ws[0]);
      assert HasRoad(FixedRoads, p[1], p[2], ws[1]);
      assert ws[0] == 2 && ws[1] == 7;
      assert ws[1..] == [7] && [7][1..] == [];
    }
    assert HasRoad(FixedRoads, 0, 1, 2) && HasRoad(FixedRoads, 1, 2, 1);
    assert HasRoad(FixedRoads, 2, 3, 3) && HasRoad(FixedRoads, 3, 4, 2);
  }

  /**
   * `shortestPath(Pune, Belgaum)` returns Pune, Satara, Belgaum, whose roads weigh 9 in all,
   * although the route through Satara, Hubali and Kolapur weighs only 8: Kolapur is still
   * waiting in the queue when the six polls are used up.
   */
  lemma PuneToBelgaum()
    ensures WellFormed(FixedRoads) && Pune in FixedRoads
    ensures PathFrom(FixedRoads, Pune, Belgaum) == [Pune, Satara, Belgaum]
    ensures forall ws | RouteWeights(FixedRoads, [Pune, Satara, Belgaum], ws) :: Sum(ws) == 9
    ensures RouteWeights(FixedRoads, [Pune, Satara, Hubali, Kolapur, Belgaum], [2, 1, 3, 2])
    ensures Sum([2, 1, 3, 2]) < 9
  {
    ExploredFromPune();
    PathOfFinal(FixedRoads, Pune, Belgaum, Trace6);
    FinalChains();
    ReverseThree(Belgaum, Satara, Pune);
    BelgaumRoutes();
  }
}
