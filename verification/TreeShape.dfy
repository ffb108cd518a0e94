/** The shape that choosing the child of least capacity gives the tree. */
module TreeShape {
  import opened Sums
  import opened Slots
  import opened TreeArena

  /** The children of a node differ in capacity by at most one segment. */
  ghost predicate BalancedRow(row: seq<nat>) {
    && (forall i :: 0 <= i < |row| ==> row[i] % W == 0)
    && (forall i, j :: 0 <= i < |row| && 0 <= j < |row| ==> row[i] <= row[j] + W)
  }

  ghost predicate Balanced(a: Arena) {
    forall n :: 0 <= n < |a.capacity| ==> BalancedRow(a.capacity[n])
  }

  ghost predicate LeastOf(row: seq<nat>, i: nat) {
    i < |row| && forall j :: 0 <= j < |row| ==> row[i] <= row[j]
  }

  /** On the way from the root to `c`, every step goes to a child of least capacity. */
  ghost predicate LeastPath(a: Arena, N: nat, c: nat)
    requires Linked(a, N) && c < |a.owner|
    decreases c
  {
    c > 0 ==>
      var e := a.owner[c].value;
      assert IsEdge(a, e, c);
      LeastOf(a.capacity[e.node], e.id) && LeastPath(a, N, e.node)
  }

  lemma GrowLeastKeepsBalance(row: seq<nat>, i: nat)
    requires BalancedRow(row) && LeastOf(row, i)
    ensures BalancedRow(row[i := row[i] + W])
  {
    var row' := row[i := row[i] + W];
    forall j, k | 0 <= j < |row'| && 0 <= k < |row'| ensures row'[j] <= row'[k] + W {}
  }

  /** Whether a path is least depends on links and capacities of older nodes only. */
  lemma {:induction false} LeastPathFrame(a: Arena, b: Arena, N: nat, c: nat)
    requires Linked(a, N) && Linked(b, N) && c < |a.owner| <= |b.owner|
    requires forall m :: 0 <= m <= c ==> b.owner[m] == a.owner[m]
    requires forall m :: 0 <= m < c ==> b.capacity[m] == a.capacity[m]
    requires LeastPath(a, N, c)
    ensures LeastPath(b, N, c)
    decreases c
  {
    if c > 0 {
      var e := a.owner[c].value;
      assert IsEdge(a, e, c) && IsEdge(b, e, c);
      LeastPathFrame(a, b, N, e.node);
    }
  }

  /** Number of steps from the root to `c`. */
  ghost function Depth(a: Arena, N: nat, c: nat): nat
    requires Linked(a, N) && c < |a.owner|
    decreases c
  {
    if c == 0 then 0 else
      assert IsEdge(a, a.owner[c].value, c);
      1 + Depth(a, N, a.owner[c].value.node)
  }

  /** Nodes of a full N-ary tree of height h: 1 + N + ... + N^h. */
  function FullTree(N: nat, h: nat): (k: nat)
    ensures k >= 1
  {
    if h == 0 then 1 else 1 + N * FullTree(N, h - 1)
  }

  lemma {:induction false} SumAbove(row: seq<nat>, x: nat)
    requires forall i :: 0 <= i < |row| ==> row[i] >= x
    ensures Sum(row) >= |row| * x
  {
    if row != [] {
      SumAbove(row[1..], x);
      assert |row| * x == x + |row[1..]| * x;
    }
  }

  lemma NextMultiple(x: nat, y: nat)
    requires x % W == 0 && y % W == 0 && x > y
    ensures x >= y + W
  {
    assert x == W * (x / W) && y == W * (y / W);
  }

  /** One child above the average by a segment means that all are at least average. */
  lemma BalancedRowBound(row: seq<nat>, y: nat, i: nat)
    requires BalancedRow(row) && i < |row| && y % W == 0 && Sum(row) <= |row| * y
    ensures row[i] <= y
  {
    if row[i] > y {
      NextMultiple(row[i], y);
      var rest: seq<nat> := row[i := row[i] - W];
      SumUpdate(row, i, row[i] - W);
      SumAbove(rest, y);
    }
  }

  /** A node `d` steps down has at most the nodes of a full tree of the remaining height below it. */
  lemma {:induction false} CapacityShrinks(a: Arena, N: nat, h: nat, c: nat)
    requires Settled(a, N) && Balanced(a) && |a.owner| <= FullTree(N, h) && c < |a.owner|
    ensures Depth(a, N, c) <= h && CapOf(a, c) <= W * FullTree(N, h - Depth(a, N, c))
    decreases c
  {
    if c > 0 {
      var e := a.owner[c].value;
      assert IsEdge(a, e, c);
      CapacityShrinks(a, N, h, e.node);
      var left := h - Depth(a, N, e.node);
      assert CapAt(a, N, c) == CapOf(a, c) == a.capacity[e.node][e.id];
      SumAtLeast(a.capacity[e.node], e.id);
      assert CapOf(a, e.node) >= W + W;
      assert left > 0;
      assert Sum(a.capacity[e.node]) <= W * (N * FullTree(N, left - 1));
      Regroup(N, FullTree(N, left - 1));
      BalancedRowBound(a.capacity[e.node], W * FullTree(N, left - 1), e.id);
    }
  }

  lemma Regroup(n: nat, x: nat)
    ensures W * (n * x) == n * (W * x) && (W * x) % W == 0
  {
  }

  /** A tree of at most 1 + N + ... + N^h nodes has height at most h. */
  lemma LogarithmicDepth(a: Arena, N: nat, h: nat, c: nat)
    requires Settled(a, N) && Balanced(a) && |a.owner| <= FullTree(N, h) && c < |a.owner|
    ensures Depth(a, N, c) <= h
  {
    CapacityShrinks(a, N, h, c);
  }
}
