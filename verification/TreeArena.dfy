/**
 * The nodes of the tree pool, numbered in the order they are published, and the accounting laws
 * of their counters. `off[c]` is what is under way at node `c`: reservations that have left its
 * owner's counter and not yet been used at `c`, and credits made at `c` and not yet added to the
 * owner's counter. The laws hold in every state, sequential or not.
 */
module TreeArena {
  import opened Options
  import opened Words
  import opened Sums
  import opened Slots

  datatype Edge = Edge(node: nat, id: nat)

  /** Field `f` of node `n` is `f[n]`. */
  datatype Arena = Arena(
    free: seq<set<nat>>,
    owner: seq<Option<Edge>>,
    childs: seq<seq<Option<nat>>>,
    size: seq<seq<nat>>,
    capacity: seq<seq<nat>>)

  /** The cell that get_free_slot_ looks at in round `i`. */
  function ScanId(N: nat, index: nat, i: nat): (id: nat)
    requires N > 0
    ensures id < N
  {
    AndBound(index + i, N - 1);
    Masked(index + i, N)
  }

  function NoChilds(n: nat): (s: seq<Option<nat>>)
    ensures |s| == n && forall i :: 0 <= i < n ==> s[i] == None
  {
    seq(n, i => None)
  }

  /** A single node as its constructor leaves it. */
  ghost function NewArena(N: nat): Arena {
    Arena([AllSlots()], [None], [NoChilds(N)], [Zeros(N)], [Zeros(N)])
  }

  ghost predicate Sized(a: Arena, N: nat) {
    && |a.free| == |a.owner| == |a.childs| == |a.size| == |a.capacity| > 0
    && (forall n :: 0 <= n < |a.free| ==> |a.childs[n]| == |a.size[n]| == |a.capacity[n]| == N)
  }

  /** Node `c` hangs below `e`. */
  predicate IsEdge(a: Arena, e: Edge, c: nat)
    requires |a.owner| == |a.childs|
  {
    && e.node < c < |a.owner|
    && e.id < |a.childs[e.node]|
    && a.childs[e.node][e.id] == Some(c)
    && a.owner[c] == Some(e)
  }

  /** Owners and children agree, and an owner is older than its children. */
  ghost predicate Linked(a: Arena, N: nat) {
    && Sized(a, N)
    && a.owner[0].None?
    && (forall c :: 0 < c < |a.owner| ==> a.owner[c].Some? && IsEdge(a, a.owner[c].value, c))
    && (forall n, i :: 0 <= n < |a.childs| && 0 <= i < N && a.childs[n][i].Some? ==>
          IsEdge(a, Edge(n, i), a.childs[n][i].value))
  }

  /** Linked, and an empty place has no slots. */
  ghost predicate Shape(a: Arena, N: nat) {
    && Linked(a, N)
    && (forall n, i :: 0 <= n < |a.childs| && 0 <= i < N && a.childs[n][i].None? ==>
          a.size[n][i] == 0 && a.capacity[n][i] == 0)
  }

  /** What `size()` of node `n` adds up. */
  function SizeOf(a: Arena, n: nat): nat
    requires n < |a.size| == |a.free|
  {
    |a.free[n]| + Sum(a.size[n])
  }

  /** What `capacity()` of node `n` adds up. */
  function CapOf(a: Arena, n: nat): nat
    requires n < |a.capacity|
  {
    W + Sum(a.capacity[n])
  }

  /** The counters that the owner of `c` keeps for it. */
  ghost function SizeAt(a: Arena, N: nat, c: nat): nat
    requires Linked(a, N) && 0 < c < |a.owner|
  {
    a.size[a.owner[c].value.node][a.owner[c].value.id]
  }

  ghost function CapAt(a: Arena, N: nat, c: nat): nat
    requires Linked(a, N) && 0 < c < |a.owner|
  {
    a.capacity[a.owner[c].value.node][a.owner[c].value.id]
  }

  // ---- the atomic updates ----

  function SetFree(a: Arena, n: nat, f: set<nat>): Arena
    requires n < |a.free|
  {
    a.(free := a.free[n := f])
  }

  function SetSize(a: Arena, n: nat, i: nat, v: nat): Arena
    requires n < |a.size| && i < |a.size[n]|
  {
    var row: seq<nat> := a.size[n][i := v];
    a.(size := a.size[n := row])
  }

  function SetCap(a: Arena, n: nat, i: nat, v: nat): Arena
    requires n < |a.capacity| && i < |a.capacity[n]|
  {
    var row: seq<nat> := a.capacity[n][i := v];
    a.(capacity := a.capacity[n := row])
  }

  /** The addition of `inc_size_(id, val)`. */
  function AddToSize(a: Arena, e: Edge, v: nat): Arena
    requires e.node < |a.size| && e.id < |a.size[e.node]|
  {
    var w: nat := a.size[e.node][e.id] + v;
    SetSize(a, e.node, e.id, w)
  }

  /** The addition of `inc_cap_(id, val)`. */
  function AddToCap(a: Arena, e: Edge, v: nat): Arena
    requires e.node < |a.capacity| && e.id < |a.capacity[e.node]|
  {
    var w: nat := a.capacity[e.node][e.id] + v;
    SetCap(a, e.node, e.id, w)
  }

  /** The new node of a successful exchange on `childs_[i]` of node `n`. */
  function Publish(a: Arena, n: nat, i: nat, slots: set<nat>): Arena
    requires n < |a.childs| && i < |a.childs[n]|
  {
    var N := |a.childs[n]|;
    Arena(a.free + [slots],
          a.owner + [Some(Edge(n, i))],
          a.childs[n := a.childs[n][i := Some(|a.childs|)]] + [NoChilds(N)],
          a.size + [Zeros(N)],
          a.capacity + [Zeros(N)])
  }

  // ---- the laws ----

  /** Every node's free slots are announced at its owner or on their way there; the root sees them all. */
  ghost predicate SizeLaw(a: Arena, N: nat, off: seq<nat>, all: nat) {
    && Shape(a, N)
    && |off| == |a.owner|
    && (forall c :: 0 < c < |a.owner| ==> SizeAt(a, N, c) + off[c] == SizeOf(a, c))
    && SizeOf(a, 0) + all == TotalFree(a.free)
  }

  ghost predicate CapLaw(a: Arena, N: nat, off: seq<nat>, all: nat) {
    && Shape(a, N)
    && |off| == |a.owner|
    && (forall c :: 0 < c < |a.owner| ==> CapAt(a, N, c) + off[c] == CapOf(a, c))
    && CapOf(a, 0) + all == W * |a.owner|
  }

  /** The part of a quantity at node `n` that the root cannot see yet. */
  function Below(n: nat, v: nat): nat {
    if n == 0 then 0 else v
  }

  /** The two bookkeepings agree away from the root, whose entry nobody reads. */
  ghost predicate Moved(off: seq<nat>, off': seq<nat>, n: nat, d: int) {
    && |off'| == |off|
    && (forall c :: 0 < c < |off| ==> off'[c] == off[c] + (if c == n then d else 0))
  }

  lemma SetFreeEffect(a: Arena, N: nat, n: nat, f: set<nat>)
    requires Shape(a, N) && n < |a.owner|
    ensures var a' := SetFree(a, n, f);
            && Shape(a', N)
            && (forall c :: 0 <= c < |a.owner| ==> CapOf(a', c) == CapOf(a, c))
            && (forall c :: 0 < c < |a.owner| ==> CapAt(a', N, c) == CapAt(a, N, c))
            && (forall c :: 0 < c < |a.owner| ==> SizeAt(a', N, c) == SizeAt(a, N, c))
            && (forall c :: 0 <= c < |a.owner| && c != n ==> SizeOf(a', c) == SizeOf(a, c))
            && SizeOf(a', n) + |a.free[n]| == SizeOf(a, n) + |f|
  {
    var a' := SetFree(a, n, f);
    forall c, e | IsEdge(a, e, c) ensures IsEdge(a', e, c) {}
  }

  lemma SetSizeEffect(a: Arena, N: nat, n: nat, i: nat, v: nat)
    requires Shape(a, N) && n < |a.owner| && i < N && a.childs[n][i].Some?
    ensures var a', child := SetSize(a, n, i, v), a.childs[n][i].value;
            && Shape(a', N)
            && (forall c :: 0 <= c < |a.owner| ==> CapOf(a', c) == CapOf(a, c))
            && (forall c :: 0 < c < |a.owner| ==> CapAt(a', N, c) == CapAt(a, N, c))
            && (forall c :: 0 < c < |a.owner| ==>
                  SizeAt(a', N, c) == if c == child then v else SizeAt(a, N, c))
            && (forall c :: 0 <= c < |a.owner| && c != n ==> SizeOf(a', c) == SizeOf(a, c))
            && SizeOf(a', n) + a.size[n][i] == SizeOf(a, n) + v
            && child != 0 && SizeAt(a, N, child) == a.size[n][i]
  {
    var a' := SetSize(a, n, i, v);
    forall c, e | IsEdge(a, e, c) ensures IsEdge(a', e, c) {}
    SumUpdate(a.size[n], i, v);
  }

  lemma SetCapEffect(a: Arena, N: nat, n: nat, i: nat, v: nat)
    requires Shape(a, N) && n < |a.owner| && i < N && a.childs[n][i].Some?
    ensures var a', child := SetCap(a, n, i, v), a.childs[n][i].value;
            && Shape(a', N)
            && (forall c :: 0 <= c < |a.owner| ==> SizeOf(a', c) == SizeOf(a, c))
            && (forall c :: 0 < c < |a.owner| ==> SizeAt(a', N, c) == SizeAt(a, N, c))
            && (forall c :: 0 < c < |a.owner| ==>
                  CapAt(a', N, c) == if c == child then v else CapAt(a, N, c))
            && (forall c :: 0 <= c < |a.owner| && c != n ==> CapOf(a', c) == CapOf(a, c))
            && CapOf(a', n) + a.capacity[n][i] == CapOf(a, n) + v
            && child != 0 && CapAt(a, N, child) == a.capacity[n][i]
  {
    var a' := SetCap(a, n, i, v);
    forall c, e | IsEdge(a, e, c) ensures IsEdge(a', e, c) {}
    SumUpdate(a.capacity[n], i, v);
  }

  lemma PublishEffect(a: Arena, N: nat, n: nat, i: nat, slots: set<nat>)
    requires Shape(a, N) && n < |a.owner| && i < N && a.childs[n][i].None?
    ensures var a', child := Publish(a, n, i, slots), |a.owner|;
            && Shape(a', N)
            && |a'.owner| == child + 1 && a'.owner[child] == Some(Edge(n, i))
            && (forall c :: 0 <= c < child ==> SizeOf(a', c) == SizeOf(a, c) && CapOf(a', c) == CapOf(a, c))
            && (forall c :: 0 < c < child ==> SizeAt(a', N, c) == SizeAt(a, N, c) && CapAt(a', N, c) == CapAt(a, N, c))
            && SizeAt(a', N, child) == 0 && CapAt(a', N, child) == 0
            && SizeOf(a', child) == |slots| && CapOf(a', child) == W
  {
    var a', child := Publish(a, n, i, slots), |a.owner|;
    forall c, e | IsEdge(a, e, c) ensures IsEdge(a', e, c) {}
    assert IsEdge(a', Edge(n, i), child);
  }

  // ---- each atomic update keeps the laws, with the bookkeeping moved accordingly ----

  /** A reservation at `n` takes a bit of its segment. */
  lemma TakeKeepsLaw(a: Arena, N: nat, off: seq<nat>, all: nat, off': seq<nat>, n: nat, k: nat)
    requires SizeLaw(a, N, off, all) && n < |a.owner| && k in a.free[n]
    requires Moved(off, off', n, -1) && all >= Below(n, 1)
    ensures SizeLaw(SetFree(a, n, a.free[n] - {k}), N, off', all - Below(n, 1))
  {
    SetFreeEffect(a, N, n, a.free[n] - {k});
    TotalFreeUpdate(a.free, n, a.free[n] - {k});
  }

  /** A release sets a bit at `n` and owes one credit to the owner. */
  lemma GiveKeepsLaw(a: Arena, N: nat, off: seq<nat>, all: nat, off': seq<nat>, n: nat, k: nat)
    requires SizeLaw(a, N, off, all) && n < |a.owner| && k !in a.free[n]
    requires Moved(off, off', n, 1)
    ensures SizeLaw(SetFree(a, n, a.free[n] + {k}), N, off', all + Below(n, 1))
  {
    SetFreeEffect(a, N, n, a.free[n] + {k});
    TotalFreeUpdate(a.free, n, a.free[n] + {k});
  }

  /** A reservation at `n` moves on to the child at `i`. */
  lemma DescendKeepsLaw(a: Arena, N: nat, off: seq<nat>, all: nat, mid: seq<nat>, off': seq<nat>, n: nat, i: nat,
      w: nat)
    requires SizeLaw(a, N, off, all) && n < |a.owner| && i < N && a.size[n][i] == w + 1
    requires a.childs[n][i].Some?
    requires Moved(off, mid, n, -1) && Moved(mid, off', a.childs[n][i].value, 1) && all >= Below(n, 1)
    ensures SizeLaw(SetSize(a, n, i, w), N, off', all - Below(n, 1) + 1)
  {
    SetSizeEffect(a, N, n, i, w);
  }

  /** A credit of `v` made at `c` is added to its owner's counter and now owed by the owner. */
  lemma CreditKeepsLaw(a: Arena, N: nat, off: seq<nat>, all: nat, mid: seq<nat>, off': seq<nat>, c: nat, v: nat,
      e: Edge, w: nat)
    requires SizeLaw(a, N, off, all) && 0 < c < |a.owner|
    requires a.owner[c] == Some(e) && IsEdge(a, e, c) && w == a.size[e.node][e.id] + v
    requires Moved(off, mid, c, -(v as int)) && Moved(mid, off', e.node, v) && all >= v
    ensures SizeLaw(SetSize(a, e.node, e.id, w), N, off', all - v + Below(e.node, v))
  {
    SetSizeEffect(a, N, e.node, e.id, w);
  }

  lemma CapCreditKeepsLaw(a: Arena, N: nat, off: seq<nat>, all: nat, mid: seq<nat>, off': seq<nat>, c: nat, v: nat,
      e: Edge, w: nat)
    requires CapLaw(a, N, off, all) && 0 < c < |a.owner|
    requires a.owner[c] == Some(e) && IsEdge(a, e, c) && w == a.capacity[e.node][e.id] + v
    requires Moved(off, mid, c, -(v as int)) && Moved(mid, off', e.node, v) && all >= v
    ensures CapLaw(SetCap(a, e.node, e.id, w), N, off', all - v + Below(e.node, v))
  {
    SetCapEffect(a, N, e.node, e.id, w);
  }

  /** A new node owes its whole segment to its owner, in both counters. */
  lemma PublishKeepsLaws(a: Arena, N: nat, off: seq<nat>, all: nat, coff: seq<nat>, call: nat, n: nat, i: nat)
    requires SizeLaw(a, N, off, all) && CapLaw(a, N, coff, call)
    requires n < |a.owner| && i < N && a.childs[n][i].None?
    ensures SizeLaw(Publish(a, n, i, AllSlots()), N, off + [W], all + W)
    ensures CapLaw(Publish(a, n, i, AllSlots()), N, coff + [W], call + W)
  {
    PublishEffect(a, N, n, i, AllSlots());
    TotalFreeAppend(a.free, AllSlots());
  }

  lemma FirstLaws(N: nat)
    ensures SizeLaw(NewArena(N), N, [0], 0) && CapLaw(NewArena(N), N, [0], 0)
  {
    TotalFreeAppend([], AllSlots());
    assert [] + [AllSlots()] == [AllSlots()];
  }

  // ---- what the counters mean when nothing is under way ----

  /** The total of `weights` over the subtree of node `n`, by recursion over the tree itself. */
  ghost function Under(a: Arena, N: nat, weights: seq<nat>, n: nat): nat
    requires Linked(a, N) && |weights| == |a.owner| && n < |a.owner|
    decreases |a.owner| - n, N + 1
  {
    weights[n] + UnderFrom(a, N, weights, n, 0)
  }

  /** The part of it below the children from place `i` on. */
  ghost function UnderFrom(a: Arena, N: nat, weights: seq<nat>, n: nat, i: nat): nat
    requires Linked(a, N) && |weights| == |a.owner| && n < |a.owner| && i <= N
    decreases |a.owner| - n, N - i
  {
    if i == N then 0
    else if a.childs[n][i].None? then UnderFrom(a, N, weights, n, i + 1)
    else
      assert IsEdge(a, Edge(n, i), a.childs[n][i].value);
      Under(a, N, weights, a.childs[n][i].value) + UnderFrom(a, N, weights, n, i + 1)
  }

  /** `rows` hold for every place the total of its child, and nothing for an empty place. */
  ghost predicate Exact(a: Arena, N: nat, weights: seq<nat>, rows: seq<seq<nat>>) {
    && Linked(a, N)
    && |weights| == |rows| == |a.owner|
    && (forall n :: 0 <= n < |rows| ==> |rows[n]| == N)
    && (forall n, i :: 0 <= n < |rows| && 0 <= i < N ==>
          rows[n][i] == if a.childs[n][i].Some? && a.childs[n][i].value < |rows|
                        then weights[a.childs[n][i].value] + Sum(rows[a.childs[n][i].value]) else 0)
  }

  lemma {:induction false} ExactMeansUnder(a: Arena, N: nat, weights: seq<nat>, rows: seq<seq<nat>>, n: nat)
    requires Exact(a, N, weights, rows) && n < |rows|
    ensures weights[n] + Sum(rows[n]) == Under(a, N, weights, n)
    decreases |a.owner| - n, N + 1
  {
    ExactMeansUnderFrom(a, N, weights, rows, n, 0);
    assert rows[n][0..] == rows[n];
  }

  lemma {:induction false} ExactMeansUnderFrom(a: Arena, N: nat, weights: seq<nat>, rows: seq<seq<nat>>, n: nat, i: nat)
    requires Exact(a, N, weights, rows) && n < |rows| && i <= N
    ensures Sum(rows[n][i..]) == UnderFrom(a, N, weights, n, i)
    decreases |a.owner| - n, N - i
  {
    if i < N {
      ExactMeansUnderFrom(a, N, weights, rows, n, i + 1);
      assert rows[n][i..][1..] == rows[n][i + 1..];
      if a.childs[n][i].Some? {
        assert IsEdge(a, Edge(n, i), a.childs[n][i].value);
        ExactMeansUnder(a, N, weights, rows, a.childs[n][i].value);
      }
    }
  }

  function Widths(n: nat): (s: seq<nat>)
    ensures |s| == n && forall i :: 0 <= i < n ==> s[i] == W
  {
    seq(n, i => W)
  }

  /** With nothing under way, every counter is the exact total of its child's subtree. */
  ghost predicate Settled(a: Arena, N: nat) {
    && SizeLaw(a, N, Zeros(|a.owner|), 0)
    && CapLaw(a, N, Zeros(|a.owner|), 0)
  }

  lemma ChildCounters(a: Arena, N: nat, n: nat, i: nat)
    requires Settled(a, N) && n < |a.owner| && i < N && a.childs[n][i].Some?
    ensures var c := a.childs[n][i].value;
            c < |a.owner| && a.size[n][i] == SizeOf(a, c) && a.capacity[n][i] == CapOf(a, c)
  {
    var c := a.childs[n][i].value;
    assert IsEdge(a, Edge(n, i), c);
    assert SizeAt(a, N, c) == a.size[n][i] && CapAt(a, N, c) == a.capacity[n][i];
  }

  lemma SizesAreExact(a: Arena, N: nat)
    requires Settled(a, N)
    ensures Exact(a, N, Sizes(a.free), a.size)
  {
    forall n, i | 0 <= n < |a.owner| && 0 <= i < N && a.childs[n][i].Some?
      ensures var c := a.childs[n][i].value; c < |a.owner| && a.size[n][i] == SizeOf(a, c)
    {
      ChildCounters(a, N, n, i);
    }
  }

  lemma CapacitiesAreExact(a: Arena, N: nat)
    requires Settled(a, N)
    ensures Exact(a, N, Widths(|a.owner|), a.capacity)
  {
    forall n, i | 0 <= n < |a.owner| && 0 <= i < N && a.childs[n][i].Some?
      ensures var c := a.childs[n][i].value; c < |a.owner| && a.capacity[n][i] == CapOf(a, c)
    {
      ChildCounters(a, N, n, i);
    }
  }

  /** What a node reports is the truth about its subtree. */
  lemma SettledReports(a: Arena, N: nat, n: nat)
    requires Settled(a, N) && n < |a.owner|
    ensures SizeOf(a, n) == Under(a, N, Sizes(a.free), n)
    ensures CapOf(a, n) == Under(a, N, Widths(|a.owner|), n)
  {
    SizesAreExact(a, N);
    CapacitiesAreExact(a, N);
    ExactMeansUnder(a, N, Sizes(a.free), a.size, n);
    ExactMeansUnder(a, N, Widths(|a.owner|), a.capacity, n);
  }
}
