/**
 * The priority queue of `shortestPath`: a `java.util.PriorityQueue` built with the comparator
 * `Comparator.comparingInt(distance::get)`. It is a binary heap kept in an array, the
 * children of slot `k` being slots `2k + 1` and `2k + 2`. The comparator reads the distance
 * map at the moment it compares, so entries added earlier are compared by their current
 * distances; an entry whose distance drops while it sits in the heap is not moved.
 */
module Queues {
  import opened Graphs

  /** Every entry has a recorded distance, so the comparator can compare it. */
  ghost predicate Known(q: seq<Node>, d: map<Node, int>) {
    forall k | 0 <= k < |q| :: q[k] in d
  }

  /**
   * `siftUp(k, x)`: slot `k` is a hole to be filled with `x`; while the parent of the hole
   * holds a strictly greater distance than `x`, that parent moves down into the hole.
   */
  function SiftUp(h: seq<Node>, k: nat, x: Node, d: map<Node, int>): (r: seq<Node>)
    requires k < |h| && Known(h, d) && x in d
    ensures |r| == |h| && Known(r, d)
    decreases k
  {
    if k == 0 then h[0 := x]
    else
      var parent := (k - 1) / 2;
      if d[x] >= d[h[parent]] then h[k := x]
      else SiftUp(h[k := h[parent]], parent, x, d)
  }

  /**
   * `siftDown(k, x)`: slot `k` is a hole to be filled with `x`; while the hole has a child
   * whose distance is strictly below `x`'s, the smaller child (the left one on a tie) moves
   * up into the hole.
   */
  function SiftDown(h: seq<Node>, k: nat, x: Node, d: map<Node, int>): (r: seq<Node>)
    requires k < |h| && Known(h, d) && x in d
    ensures |r| == |h| && Known(r, d)
    decreases |h| - k
  {
    Half(|h|, k);
    if k >= |h| / 2 then h[k := x]
    else
      var c := Nearer(h, k, d);
      if d[x] <= d[h[c]] then h[k := x]
      else SiftDown(h[k := h[c]], c, x, d)
  }

  /** The child of slot `k` that `siftDown` compares with: the right one only when it is strictly nearer. */
  function Nearer(h: seq<Node>, k: nat, d: map<Node, int>): (c: nat)
    requires 2 * k + 1 < |h| && Known(h, d)
    ensures c == 2 * k + 1 || c == 2 * k + 2
    ensures c < |h| && d[h[c]] <= d[h[2 * k + 1]]
    ensures 2 * k + 2 < |h| ==> d[h[c]] <= d[h[2 * k + 2]]
  {
    var child := 2 * k + 1;
    if child + 1 < |h| && d[h[child]] > d[h[child + 1]] then child + 1 else child
  }

  /** `queue.add(x)`: `x` goes into a new last slot and is sifted up. */
  function Offered(h: seq<Node>, x: Node, d: map<Node, int>): (r: seq<Node>)
    requires Known(h, d) && x in d
    ensures |r| == |h| + 1 && Known(r, d)
  {
    SiftUp(h + [x], |h|, x, d)
  }

  /**
   * The heap left by `queue.poll()`, which returns the entry in slot 0: the last entry is
   * taken out and sifted down from the root.
   */
  function AfterPoll(h: seq<Node>, d: map<Node, int>): (r: seq<Node>)
    requires |h| > 0 && Known(h, d)
    ensures |r| == |h| - 1 && Known(r, d)
  {
    var last := |h| - 1;
    if last == 0 then [] else SiftDown(h[..last], 0, h[last], d)
  }

  // ---------------------------------------------------------------------------
  // The entries are kept

  /** Sifting up moves entries around and puts `x` in place of the hole's old entry. */
  lemma {:induction false} SiftUpPermutes(h: seq<Node>, k: nat, x: Node, d: map<Node, int>)
    requires k < |h| && Known(h, d) && x in d
    ensures multiset(SiftUp(h, k, x, d)) == multiset(h) - multiset{h[k]} + multiset{x}
    decreases k
  {
    if k > 0 {
      var parent := (k - 1) / 2;
      if d[x] < d[h[parent]] {
        var h' := h[k := h[parent]];
        SiftUpPermutes(h', parent, x, d);
        Exchanged(h, k, parent, x, SiftUp(h', parent, x, d));
      }
    }
  }

  /** Sifting down moves entries around and puts `x` in place of the hole's old entry. */
  lemma {:induction false} SiftDownPermutes(h: seq<Node>, k: nat, x: Node, d: map<Node, int>)
    requires k < |h| && Known(h, d) && x in d
    ensures multiset(SiftDown(h, k, x, d)) == multiset(h) - multiset{h[k]} + multiset{x}
    decreases |h| - k
  {
    Half(|h|, k);
    var r := SiftDown(h, k, x, d);
    if k < |h| / 2 {
      var c := Nearer(h, k, d);
      if d[x] > d[h[c]] {
        var h' := h[k := h[c]];
        assert r == SiftDown(h', c, x, d);
        SiftDownPermutes(h', c, x, d);
        Exchanged(h, k, c, x, r);
      } else {
        assert r == h[k := x];
        Replaced(h, k, x);
      }
    } else {
      assert r == h[k := x];
      Replaced(h, k, x);
    }
  }

  /** Slot `k` has a child exactly when `k` is below half the heap's size (`size >>> 1`). */
  lemma Half(n: nat, k: nat)
    ensures k < n / 2 <==> 2 * k + 1 < n
  {
  }

  /** Overwriting one slot swaps that slot's entry for the new one. */
  lemma Replaced(h: seq<Node>, k: nat, y: Node)
    requires k < |h|
    ensures multiset(h[k := y]) == multiset(h) - multiset{h[k]} + multiset{y}
  {
  }

  /**
   * Moving the entry of slot `c` into the hole at `k` and then filling slot `c` with `x`
   * exchanges the hole's old entry for `x`.
   */
  lemma Exchanged(h: seq<Node>, k: nat, c: nat, x: Node, r: seq<Node>)
    requires k < |h| && c < |h| && c != k
    requires multiset(r) == multiset(h[k := h[c]]) - multiset{h[c]} + multiset{x}
    ensures multiset(r) == multiset(h) - multiset{h[k]} + multiset{x}
  {
    Replaced(h, k, h[c]);
    var m := multiset(h);
    assert m - multiset{h[k]} + multiset{h[c]} - multiset{h[c]} == m - multiset{h[k]};
  }

  /** `add` adds exactly one entry, `x`, and keeps all the others. */
  lemma OfferedPermutes(h: seq<Node>, x: Node, d: map<Node, int>)
    requires Known(h, d) && x in d
    ensures multiset(Offered(h, x, d)) == multiset(h) + multiset{x}
  {
    SiftUpPermutes(h + [x], |h|, x, d);
  }

  /** `poll` removes exactly the entry it returns, the one in slot 0, and keeps all the others. */
  lemma AfterPollPermutes(h: seq<Node>, d: map<Node, int>)
    requires |h| > 0 && Known(h, d)
    ensures multiset(AfterPoll(h, d)) == multiset(h) - multiset{h[0]}
  {
    var last := |h| - 1;
    if last > 0 {
      assert h == h[..last] + [h[last]];
      SiftDownPermutes(h[..last], 0, h[last], d);
    }
  }

  // ---------------------------------------------------------------------------
  // Heap order

  /** No entry has a smaller distance than its parent's. */
  ghost predicate HeapOrdered(h: seq<Node>, d: map<Node, int>)
    requires Known(h, d)
  {
    forall j | 0 < j < |h| :: ParentNoFarther(h, d, j)
  }

  /** The entry in slot `j` is no nearer than the one in its parent slot. */
  ghost predicate ParentNoFarther(h: seq<Node>, d: map<Node, int>, j: nat)
    requires Known(h, d) && 0 < j < |h|
  {
    d[h[(j - 1) / 2]] <= d[h[j]]
  }

  /** In a heap-ordered array every entry is at least as far as its ancestors; `j`'s ancestor chain reaches slot 0. */
  lemma {:induction false} RootBelow(h: seq<Node>, d: map<Node, int>, j: nat)
    requires Known(h, d) && HeapOrdered(h, d) && j < |h|
    ensures d[h[0]] <= d[h[j]]
    decreases j
  {
    if j > 0 {
      assert ParentNoFarther(h, d, j);
      RootBelow(h, d, (j - 1) / 2);
    }
  }

  /** When the heap is ordered, `poll` returns an entry of least distance. */
  lemma OrderedFrontIsLeast(h: seq<Node>, d: map<Node, int>)
    requires |h| > 0 && Known(h, d) && HeapOrdered(h, d)
    ensures forall j | 0 <= j < |h| :: d[h[0]] <= d[h[j]]
  {
    forall j | 0 <= j < |h|
      ensures d[h[0]] <= d[h[j]]
    {
      RootBelow(h, d, j);
    }
  }

  /**
   * The heap is ordered everywhere except around the hole at `k`: `x`, which is to fill
   * the hole, is no farther than the hole's children, and neither is the hole's parent.
   */
  ghost predicate UpReady(h: seq<Node>, k: nat, x: Node, d: map<Node, int>)
    requires Known(h, d) && x in d && k < |h|
  {
    && (forall j | 0 < j < |h| && j != k :: ParentNoFarther(h, d, j))
    && (forall j | 0 < j < |h| && (j - 1) / 2 == k :: d[x] <= d[h[j]])
    && (k > 0 ==> forall j | 0 < j < |h| && (j - 1) / 2 == k :: d[h[(k - 1) / 2]] <= d[h[j]])
  }

  /** Sifting up into a hole that is ready restores heap order. */
  lemma {:induction false} SiftUpOrders(h: seq<Node>, k: nat, x: Node, d: map<Node, int>)
    requires k < |h| && Known(h, d) && x in d && UpReady(h, k, x, d)
    ensures HeapOrdered(SiftUp(h, k, x, d), d)
    decreases k
  {
    if k > 0 {
      var parent := (k - 1) / 2;
      if d[x] < d[h[parent]] {
        var h' := h[k := h[parent]];
        forall j | 0 < j < |h'| && j != parent
          ensures ParentNoFarther(h', d, j)
        {
          if j == k {
          } else {
            assert ParentNoFarther(h, d, j);
          }
        }
        forall j | 0 < j < |h'| && (j - 1) / 2 == parent
          ensures d[x] <= d[h'[j]]
        {
          if j != k {
            assert ParentNoFarther(h, d, j);
          }
        }
        if parent > 0 {
          var grand := (parent - 1) / 2;
          forall j | 0 < j < |h'| && (j - 1) / 2 == parent
            ensures d[h'[grand]] <= d[h'[j]]
          {
            assert ParentNoFarther(h, d, parent);
            if j != k {
              assert ParentNoFarther(h, d, j);
            }
          }
        }
        SiftUpOrders(h', parent, x, d);
      } else {
        UpFilled(h, k, x, d);
      }
    } else {
      UpFilled(h, k, x, d);
    }
  }

  /** `add` keeps an ordered heap ordered, as long as no distance changes in between. */
  lemma OfferedOrders(h: seq<Node>, x: Node, d: map<Node, int>)
    requires Known(h, d) && x in d && HeapOrdered(h, d)
    ensures HeapOrdered(Offered(h, x, d), d)
  {
    var h' := h + [x];
    forall j | 0 < j < |h'| && j != |h|
      ensures ParentNoFarther(h', d, j)
    {
      assert ParentNoFarther(h, d, j);
    }
    SiftUpOrders(h', |h|, x, d);
  }

  /**
   * The heap is ordered except below the hole at `k`: the hole's parent is no farther than
   * `x`, which is to fill the hole, nor than the hole's children.
   */
  ghost predicate DownReady(h: seq<Node>, k: nat, x: Node, d: map<Node, int>)
    requires Known(h, d) && x in d && k < |h|
  {
    && (forall j | 0 < j < |h| && (j - 1) / 2 != k :: ParentNoFarther(h, d, j))
    && (k > 0 ==> d[h[(k - 1) / 2]] <= d[x])
    && (k > 0 ==> forall j | 0 < j < |h| && (j - 1) / 2 == k :: d[h[(k - 1) / 2]] <= d[h[j]])
  }

  /** Sifting down into a hole that is ready restores heap order. */
  lemma {:induction false} SiftDownOrders(h: seq<Node>, k: nat, x: Node, d: map<Node, int>)
    requires k < |h| && Known(h, d) && x in d && DownReady(h, k, x, d)
    ensures HeapOrdered(SiftDown(h, k, x, d), d)
    decreases |h| - k
  {
    Half(|h|, k);
    if k < |h| / 2 {
      var c := Nearer(h, k, d);
      if d[x] > d[h[c]] {
        MoveUp(h, k, x, d, c);
        SiftDownOrders(h[k := h[c]], c, x, d);
      } else {
        Children(k);
        Filled(h, k, x, d);
      }
    } else {
      Filled(h, k, x, d);
    }
  }

  /** The children of slot `k` are slots `2k + 1` and `2k + 2`. */
  lemma Children(k: nat)
    ensures (2 * k) / 2 == k && (2 * k + 1) / 2 == k
  {
  }

  /** A slot whose parent is `k` is slot `2k + 1` or slot `2k + 2`. */
  lemma ChildOf(j: nat, k: nat)
    requires j > 0 && (j - 1) / 2 == k
    ensures j == 2 * k + 1 || j == 2 * k + 2
  {
  }

  /** Moving the nearer child `c` of a ready hole up into it leaves a ready hole at `c`. */
  lemma MoveUp(h: seq<Node>, k: nat, x: Node, d: map<Node, int>, c: nat)
    requires k < |h| / 2 && Known(h, d) && x in d && DownReady(h, k, x, d)
    requires 2 * k + 1 < |h| && c == Nearer(h, k, d)
    requires d[x] > d[h[c]]
    ensures Known(h[k := h[c]], d) && DownReady(h[k := h[c]], c, x, d)
  {
    var h' := h[k := h[c]];
    Children(k);
    assert (c - 1) / 2 == k;
    forall j | 0 < j < |h'| && (j - 1) / 2 != c
      ensures ParentNoFarther(h', d, j)
    {
      if j == k {
      } else if (j - 1) / 2 == k {
        ChildOf(j, k);
      } else {
        assert ParentNoFarther(h, d, j);
      }
    }
    forall j | 0 < j < |h'| && (j - 1) / 2 == c
      ensures d[h'[k]] <= d[h'[j]]
    {
      assert ParentNoFarther(h, d, j);
    }
  }

  /** Filling a ready hole with `x` orders the heap, once `x` is no farther than the hole's children. */
  lemma Filled(h: seq<Node>, k: nat, x: Node, d: map<Node, int>)
    requires k < |h| && Known(h, d) && x in d && DownReady(h, k, x, d)
    requires 2 * k + 1 < |h| ==> d[x] <= d[h[2 * k + 1]]
    requires 2 * k + 2 < |h| ==> d[x] <= d[h[2 * k + 2]]
    ensures HeapOrdered(h[k := x], d)
  {
    var h' := h[k := x];
    forall j | 0 < j < |h'|
      ensures ParentNoFarther(h', d, j)
    {
      if j == k {
      } else if (j - 1) / 2 == k {
        ChildOf(j, k);
      } else {
        assert ParentNoFarther(h, d, j);
      }
    }
  }

  /** Filling a hole ready for sifting up with `x` orders the heap, once `x` is no nearer than the hole's parent. */
  lemma UpFilled(h: seq<Node>, k: nat, x: Node, d: map<Node, int>)
    requires k < |h| && Known(h, d) && x in d && UpReady(h, k, x, d)
    requires k > 0 ==> d[h[(k - 1) / 2]] <= d[x]
    ensures HeapOrdered(h[k := x], d)
  {
    var h' := h[k := x];
    forall j | 0 < j < |h'|
      ensures ParentNoFarther(h', d, j)
    {
      if j == k {
      } else if (j - 1) / 2 == k {
      } else {
        assert ParentNoFarther(h, d, j);
      }
    }
  }

  /** `poll` leaves an ordered heap ordered, as long as no distance changes in between. */
  lemma AfterPollOrders(h: seq<Node>, d: map<Node, int>)
    requires |h| > 0 && Known(h, d) && HeapOrdered(h, d)
    ensures HeapOrdered(AfterPoll(h, d), d)
  {
    var last := |h| - 1;
    if last > 0 {
      var t := h[..last];
      forall j | 0 < j < |t|
        ensures ParentNoFarther(t, d, j)
      {
        assert ParentNoFarther(h, d, j);
      }
      SiftDownOrders(t, 0, h[last], d);
    }
  }
}
