/** The tree pool run by a single thread, as the code updates it. */
module TreePools {
  import opened Options
  import opened Words
  import opened Sums
  import opened Slots
  import opened TreeArena
  import opened TreeShape

  /** One quantity under way: `d` at node `at`. */
  function Off(len: nat, at: nat, d: nat): (s: seq<nat>)
    ensures |s| == len && forall c :: 0 <= c < len ==> s[c] == if c == at then d else 0
  {
    seq(len, c => if c == at then d else 0)
  }

  /** The size law of a sequential pool in which node `at` still has `d` slots to settle with its owner. */
  ghost predicate Owes(a: Arena, N: nat, at: nat, d: nat) {
    SizeLaw(a, N, Off(|a.owner|, at, d), Below(at, d))
  }

  ghost predicate OwesCap(a: Arena, N: nat, at: nat, d: nat) {
    CapLaw(a, N, Off(|a.owner|, at, d), Below(at, d))
  }

  lemma OwesNothing(a: Arena, N: nat, at: nat, d: nat)
    requires at == 0 || d == 0
    ensures Owes(a, N, at, d) <==> SizeLaw(a, N, Zeros(|a.owner|), 0)
    ensures OwesCap(a, N, at, d) <==> CapLaw(a, N, Zeros(|a.owner|), 0)
  {
  }

  lemma SizeCreditStep(a: Arena, N: nat, c: nat, v: nat, e: Edge)
    requires Owes(a, N, c, v) && 0 < c < |a.owner| && a.owner[c] == Some(e)
    ensures IsEdge(a, e, c) && Owes(AddToSize(a, e, v), N, e.node, v)
  {
    var len, w := |a.owner|, a.size[e.node][e.id] + v;
    assert IsEdge(a, e, c);
    CreditKeepsLaw(a, N, Off(len, c, v), v, Off(len, c, 0), Off(len, e.node, v), c, v, e, w);
    assert AddToSize(a, e, v) == SetSize(a, e.node, e.id, w);
  }

  lemma CapCreditStep(a: Arena, N: nat, c: nat, v: nat, e: Edge)
    requires OwesCap(a, N, c, v) && 0 < c < |a.owner| && a.owner[c] == Some(e)
    ensures IsEdge(a, e, c) && OwesCap(AddToCap(a, e, v), N, e.node, v)
  {
    var len, w := |a.owner|, a.capacity[e.node][e.id] + v;
    assert IsEdge(a, e, c);
    CapCreditKeepsLaw(a, N, Off(len, c, v), v, Off(len, c, 0), Off(len, e.node, v), c, v, e, w);
    assert AddToCap(a, e, v) == SetCap(a, e.node, e.id, w);
  }

  lemma SizeCreditKeepsCapLaw(a: Arena, N: nat, e: Edge, c: nat, v: nat, at: nat, d: nat)
    requires OwesCap(a, N, at, d) && IsEdge(a, e, c) && c < |a.owner|
    ensures OwesCap(AddToSize(a, e, v), N, at, d)
  {
    SetSizeEffect(a, N, e.node, e.id, a.size[e.node][e.id] + v);
  }

  lemma CapCreditKeepsSizeLaw(a: Arena, N: nat, e: Edge, c: nat, v: nat, at: nat, d: nat)
    requires Owes(a, N, at, d) && IsEdge(a, e, c) && c < |a.owner|
    ensures Owes(AddToCap(a, e, v), N, at, d)
  {
    SetCapEffect(a, N, e.node, e.id, a.capacity[e.node][e.id] + v);
  }

  /** A capacity credit that follows a least path keeps the balance, and the rest of the path is least. */
  lemma CapCreditKeepsBalance(a: Arena, N: nat, c: nat, e: Edge)
    requires Shape(a, N) && Balanced(a) && 0 < c < |a.owner| && a.owner[c] == Some(e) && LeastPath(a, N, c)
    requires Shape(AddToCap(a, e, W), N)
    ensures Balanced(AddToCap(a, e, W)) && LeastPath(AddToCap(a, e, W), N, e.node)
  {
    assert IsEdge(a, e, c);
    GrowLeastKeepsBalance(a.capacity[e.node], e.id);
    LeastPathFrame(a, AddToCap(a, e, W), N, e.node);
  }

  lemma RoundFor(N: nat, index: nat, j: nat) returns (i: nat)
    requires j < N
    ensures i < N && (index + i) % N == j
  {
    var q, r := index / N, index % N;
    assert index == q * N + r;
    if r <= j {
      i := j - r;
      DivisionUnique(index + i, q, N, j);
    } else {
      i := j + N - r;
      assert (q + 1) * N == q * N + N;
      DivisionUnique(index + i, q + 1, N, j);
    }
  }

  /** The round in which get_free_slot_ looks at child `j`, whatever the hint. */
  lemma ScanReaches(N: nat, index: nat, j: nat) returns (i: nat)
    requires IsPow2(N) && j < N
    ensures i < N && ScanId(N, index, i) == j
  {
    var k: nat :| N == Pow2(k);
    i := RoundFor(N, index, j);
    MaskIsRemainder(index + i, k);
  }

  ghost predicate ScanFinds(N: nat, index: nat, j: nat)
    requires N > 0
  {
    exists i: nat :: i < N && ScanId(N, index, i) == j
  }

  /** When N is not a power of two, the scan misses one and the same child from every hint. */
  lemma ScanMisses(N: nat) returns (j: nat)
    requires N > 0 && !IsPow2(N)
    ensures j < N && forall index: nat :: !ScanFinds(N, index, j)
  {
    var b := MaskHole(N - 1);
    j := Pow2(b);
    BitAnd(j, N - 1, b);
    BitPow2(b, b);
    BitZero(b);
    forall x: nat ensures Masked(x, N) != j { BitAnd(x, N - 1, b); }
  }

  /** get_free_slot_ looks at every child from every hint exactly when N is a power of two. */
  lemma ScanIsCompleteIffPow2(N: nat)
    requires N > 0
    ensures (forall index: nat, j: nat :: j < N ==> ScanFinds(N, index, j)) <==> IsPow2(N)
  {
    if IsPow2(N) {
      forall index: nat, j: nat | j < N ensures ScanFinds(N, index, j) {
        var i := ScanReaches(N, index, j);
        assert ScanId(N, index, i) == j;
      }
    } else {
      var j := ScanMisses(N);
      assert !ScanFinds(N, 0, j);
    }
  }

  /** `id` is the first place, in scan order from the hint, whose counter is not zero. */
  ghost predicate FirstFrom(N: nat, index: nat, row: seq<nat>, id: nat)
    requires N > 0
  {
    && id < |row| == N && row[id] > 0
    && exists i: nat :: FoundIn(N, index, row, id, i)
  }

  ghost predicate FoundIn(N: nat, index: nat, row: seq<nat>, id: nat, i: nat)
    requires N > 0
  {
    && |row| == N && i < N && id == ScanId(N, index, i)
    && forall j: nat :: j < i ==> row[ScanId(N, index, j)] == 0
  }

  lemma SetFreeKeepsCapLaw(a: Arena, N: nat, n: nat, f: set<nat>)
    requires CapLaw(a, N, Zeros(|a.owner|), 0) && n < |a.owner|
    ensures CapLaw(SetFree(a, n, f), N, Zeros(|a.owner|), 0)
  {
    SetFreeEffect(a, N, n, f);
  }

  lemma SetSizeKeepsCapLaw(a: Arena, N: nat, n: nat, i: nat, w: nat)
    requires CapLaw(a, N, Zeros(|a.owner|), 0) && n < |a.owner| && i < N && a.childs[n][i].Some?
    ensures CapLaw(SetSize(a, n, i, w), N, Zeros(|a.owner|), 0)
  {
    SetSizeEffect(a, N, n, i, w);
  }

  /** Taking a bit at the node that holds the reservation settles it. */
  lemma TakeSettles(a: Arena, N: nat, n: nat, k: nat)
    requires Owes(a, N, n, 1) && CapLaw(a, N, Zeros(|a.owner|), 0) && n < |a.owner| && k in a.free[n]
    ensures Settled(SetFree(a, n, a.free[n] - {k}), N)
  {
    TakeKeepsLaw(a, N, Off(|a.owner|, n, 1), Below(n, 1), Off(|a.owner|, n, 0), n, k);
    OwesNothing(SetFree(a, n, a.free[n] - {k}), N, n, 0);
    SetFreeKeepsCapLaw(a, N, n, a.free[n] - {k});
  }

  /** Giving a bit back leaves one slot to settle. */
  lemma GiveOwes(a: Arena, N: nat, n: nat, k: nat)
    requires Settled(a, N) && n < |a.owner| && k !in a.free[n]
    ensures Owes(SetFree(a, n, a.free[n] + {k}), N, n, 1)
    ensures CapLaw(SetFree(a, n, a.free[n] + {k}), N, Zeros(|a.owner|), 0)
  {
    GiveKeepsLaw(a, N, Zeros(|a.owner|), 0, Off(|a.owner|, n, 1), n, k);
    SetFreeKeepsCapLaw(a, N, n, a.free[n] + {k});
  }

  /** A reservation has moved to the child at `id` of node `n`. */
  ghost predicate ReservedAt(a: Arena, N: nat, n: nat, id: nat) {
    && Shape(a, N) && n < |a.owner| && id < N && a.childs[n][id].Some?
    && IsEdge(a, Edge(n, id), a.childs[n][id].value)
    && Owes(a, N, a.childs[n][id].value, 1)
    && CapLaw(a, N, Zeros(|a.owner|), 0)
  }

  /** The reservation at `n` moves to the child at `i`. */
  lemma ReserveMoves(a: Arena, N: nat, n: nat, i: nat, w: nat, b: Arena)
    requires Owes(a, N, n, 1) && CapLaw(a, N, Zeros(|a.owner|), 0)
    requires n < |a.owner| && i < N && a.size[n][i] == w + 1 && b == SetSize(a, n, i, w)
    ensures ReservedAt(b, N, n, i)
  {
    var len, c := |a.owner|, a.childs[n][i].value;
    assert IsEdge(a, Edge(n, i), c);
    DescendKeepsLaw(a, N, Off(len, n, 1), Below(n, 1), Off(len, n, 0), Off(len, c, 1), n, i, w);
    SetSizeKeepsCapLaw(a, N, n, i, w);
    assert IsEdge(b, Edge(n, i), c);
  }

  /** A node that holds a reservation has a slot below it. */
  lemma ReservedHasSlot(a: Arena, N: nat, n: nat)
    requires Owes(a, N, n, 1) && 0 < n < |a.owner|
    ensures SizeOf(a, n) > 0 && TotalFree(a.free) > 0
  {
    assert SizeAt(a, N, n) + Off(|a.owner|, n, 1)[n] == SizeOf(a, n);
  }

  /** An empty announcement is the truth: the child has no free slot at all. */
  lemma EmptyChild(a: Arena, N: nat, m: nat, i: nat)
    requires Settled(a, N) && m < |a.owner| && i < N && a.size[m][i] == 0 && a.childs[m][i].Some?
    ensures var c := a.childs[m][i].value;
            IsEdge(a, Edge(m, i), c) && a.free[c] == {} && Sum(a.size[c]) == 0
  {
    var c := a.childs[m][i].value;
    assert IsEdge(a, Edge(m, i), c);
    assert SizeAt(a, N, c) == SizeOf(a, c);
  }

  /** A new node, announced to nobody yet, owes its whole segment. */
  lemma PublishOwes(a: Arena, N: nat, n: nat, i: nat, b: Arena)
    requires Settled(a, N) && n < |a.owner| && i < N && a.childs[n][i].None? && b == Publish(a, n, i, AllSlots())
    ensures Shape(b, N) && Owes(b, N, |a.owner|, W) && OwesCap(b, N, |a.owner|, W)
  {
    hide SizeLaw, CapLaw;
    var c := |a.owner|;
    LawFacts(a, N, Zeros(c), 0);
    PublishKeepsLaws(a, N, Zeros(c), 0, Zeros(c), 0, n, i);
    LawFacts(b, N, Zeros(c) + [W], W);
    assert Zeros(c) + [W] == Off(c + 1, c, W);
  }

  lemma PublishKeepsShape(a: Arena, N: nat, n: nat, i: nat, b: Arena)
    requires Shape(a, N) && Balanced(a) && n < |a.owner| && i < N && a.childs[n][i].None?
    requires LeastPath(a, N, n) && LeastOf(a.capacity[n], i) && b == Publish(a, n, i, AllSlots())
    ensures Shape(b, N) && Balanced(b) && LeastPath(b, N, |a.owner|)
  {
    var c := |a.owner|;
    PublishEffect(a, N, n, i, AllSlots());
    LeastPathFrame(a, b, N, n);
    assert IsEdge(b, Edge(n, i), c);
  }

  /** What holds at every point of every call. */
  ghost predicate Orderly(N: nat, a: Arena, hints: seq<nat>, live: set<Handle>) {
    && IsPow2(N) && N > 0
    && Shape(a, N)
    && |hints| == |a.owner|
    && Ledger(a.free, live)
    && Balanced(a)
  }

  lemma ReserveKeepsOrder(N: nat, a: Arena, hints: seq<nat>, live: set<Handle>, b: Arena, hints': seq<nat>)
    requires Orderly(N, a, hints, live) && Shape(b, N)
    requires b.free == a.free && b.capacity == a.capacity && |hints'| == |hints|
    ensures Orderly(N, b, hints', live)
  {
  }

  /** From node `n`, always on to the first child that the hint leads to, the walk ends at `target`. */
  ghost predicate Walks(a: Arena, N: nat, hints: seq<nat>, n: nat, target: nat)
    requires Linked(a, N) && N > 0 && |hints| == |a.owner| && n < |a.owner|
    decreases |a.owner| - n
  {
    if a.free[n] != {} then target == n
    else exists id: nat :: FirstFrom(N, hints[n], a.size[n], id) && WalksOn(a, N, hints, n, id, target)
  }

  ghost predicate WalksOn(a: Arena, N: nat, hints: seq<nat>, n: nat, id: nat, target: nat)
    requires Linked(a, N) && N > 0 && |hints| == |a.owner| && n < |a.owner|
    decreases |a.owner| - n, 0
  {
    && id < N && a.childs[n][id].Some?
    && IsEdge(a, Edge(n, id), a.childs[n][id].value)
    && Walks(a, N, hints, a.childs[n][id].value, target)
  }

  /** The walk from `n` on does not depend on counters and hints of older nodes. */
  lemma {:induction false} WalksFrame(a: Arena, b: Arena, N: nat, hints: seq<nat>, hints': seq<nat>, n: nat,
      target: nat)
    requires Linked(a, N) && Linked(b, N) && N > 0 && |hints| == |hints'| == |a.owner| && n < |a.owner|
    requires b.owner == a.owner && b.childs == a.childs && b.free == a.free
    requires forall m :: n <= m < |a.owner| ==> b.size[m] == a.size[m] && hints'[m] == hints[m]
    requires Walks(a, N, hints, n, target)
    ensures Walks(b, N, hints', n, target)
    decreases |a.owner| - n
  {
    if a.free[n] == {} {
      var id: nat :| FirstFrom(N, hints[n], a.size[n], id) && WalksOn(a, N, hints, n, id, target);
      assert IsEdge(b, Edge(n, id), b.childs[n][id].value);
      WalksFrame(a, b, N, hints, hints', a.childs[n][id].value, target);
      assert WalksOn(b, N, hints', n, id, target);
    }
  }

  lemma WalkHere(a: Arena, N: nat, hints: seq<nat>, n: nat)
    requires Linked(a, N) && N > 0 && |hints| == |a.owner| && n < |a.owner| && a.free[n] != {}
    ensures Walks(a, N, hints, n, n)
  {
  }

  /** One step of the walk, after which the counter of the child has been lowered and the hint stored. */
  lemma WalkStep(a: Arena, N: nat, hints: seq<nat>, n: nat, id: nat, b: Arena, target: nat)
    requires Linked(a, N) && Linked(b, N) && N > 0 && |hints| == |a.owner| && n < |a.owner| && a.free[n] == {}
    requires FirstFrom(N, hints[n], a.size[n], id) && a.childs[n][id].Some?
    requires b == SetSize(a, n, id, a.size[n][id] - 1)
    requires a.childs[n][id].value < |b.owner| && Walks(b, N, hints[n := id], a.childs[n][id].value, target)
    ensures Walks(a, N, hints, n, target)
  {
    var c := a.childs[n][id].value;
    assert IsEdge(a, Edge(n, id), c);
    WalksFrame(b, a, N, hints[n := id], hints, c, target);
    assert WalksOn(a, N, hints, n, id, target);
  }

  lemma OrderlyFacts(N: nat, a: Arena, hints: seq<nat>, live: set<Handle>, n: nat)
    requires Orderly(N, a, hints, live) && n < |a.owner|
    ensures N > 0 && |a.free| == |a.owner| == |a.size| == |a.childs| == |a.capacity| == |hints|
    ensures |a.size[n]| == |a.childs[n]| == N && (a.owner[0].None? && (n > 0 ==> a.owner[n].Some?))
    ensures Shape(a, N) && Linked(a, N)
  {
  }

  lemma LawFacts(a: Arena, N: nat, off: seq<nat>, all: nat)
    requires SizeLaw(a, N, off, all)
    ensures Shape(a, N) && Linked(a, N) && |a.free| == |a.owner| == |a.size| == |a.childs| == |a.capacity| > 0
  {
  }

  lemma LedgerBound(free: seq<set<nat>>, live: set<Handle>, h: Handle)
    requires Ledger(free, live) && h in live
    ensures h.node < |free| && h.slot !in free[h.node]
  {
  }

  lemma BalanceFrame(a: Arena, b: Arena)
    requires Balanced(a) && b.capacity == a.capacity
    ensures Balanced(b)
  {
  }

  lemma ReservedFacts(a: Arena, N: nat, n: nat, id: nat)
    requires ReservedAt(a, N, n, id)
    ensures Linked(a, N) && n < |a.owner| == |a.childs| && id < N == |a.childs[n]| && a.childs[n][id].Some?
    ensures var c := a.childs[n][id].value;
            && IsEdge(a, Edge(n, id), c) && n < c < |a.owner| && Owes(a, N, c, 1)
            && SizeOf(a, c) > 0 && TotalFree(a.free) > 0 && Supply(a.free) == a.free
    ensures CapLaw(a, N, Zeros(|a.owner|), 0)
  {
    ReservedHasSlot(a, N, a.childs[n][id].value);
  }

  /** Below the root everything free is announced, but for the segment of the root. */
  lemma RootSum(a: Arena, N: nat, n: nat)
    requires Owes(a, N, n, 1) && n < |a.owner| && a.free[n] == {}
    ensures n > 0 ==> Sum(a.size[n]) > 0 && TotalFree(a.free) > 0
    ensures n == 0 ==> Sum(a.size[0]) == TotalFree(a.free)
  {
    if n > 0 { ReservedHasSlot(a, N, n); }
  }

  class TreePool {
    const N: nat
    var arena: Arena
    var hints: seq<nat>            // childs_index_ of each node
    ghost var live: set<Handle>    // the handles that users hold

    ghost predicate Tidy()
      reads this
    {
      Orderly(N, arena, hints, live)
    }

    ghost predicate Valid()
      reads this
    {
      Tidy() && Settled(arena, N)
    }

    /** Any number of children is accepted; the methods below need a power of two (TreeLivelock says why). */
    constructor (n: nat)
      ensures Valid() <==> IsPow2(n)
      ensures N == n && live == {} && |arena.owner| == 1 && Settled(arena, n)
    {
      N := n;
      var slots := MakeSlots();
      arena := Arena([slots], [None], [NoChilds(n)], [Zeros(n)], [Zeros(n)]);
      hints := [0];
      live := {};
      new;
      if IsPow2(n) { Pow2Positive(n); }
      FirstLaws(n);
      FirstLedger();
      OwesNothing(arena, n, 0, 0);
      assert Zeros(1) == [0];
    }

    // ---- the public observers ----

    /** The sum over size_. */
    method Size(n: nat) returns (ret: nat)
      requires n < |arena.size| == |arena.free|
      ensures ret == SizeOf(arena, n)
    {
      ret := |arena.free[n]|;
      for i := 0 to |arena.size[n]|
        invariant ret == |arena.free[n]| + Sum(arena.size[n][..i])
      {
        ret := ret + arena.size[n][i];
        assert arena.size[n][..i + 1] == arena.size[n][..i] + [arena.size[n][i]];
        SumAppend(arena.size[n][..i], arena.size[n][i]);
      }
      assert arena.size[n][..|arena.size[n]|] == arena.size[n];
    }

    method Capacity(n: nat) returns (ret: nat)
      requires n < |arena.capacity|
      ensures ret == CapOf(arena, n)
    {
      ret := W;
      for i := 0 to |arena.capacity[n]|
        invariant ret == W + Sum(arena.capacity[n][..i])
      {
        ret := ret + arena.capacity[n][i];
        assert arena.capacity[n][..i + 1] == arena.capacity[n][..i] + [arena.capacity[n][i]];
        SumAppend(arena.capacity[n][..i], arena.capacity[n][i]);
      }
      assert arena.capacity[n][..|arena.capacity[n]|] == arena.capacity[n];
    }

    /** Full exactly when size() is 0. */
    method Full(n: nat) returns (ret: bool)
      requires n < |arena.size| == |arena.free|
      ensures ret <==> SizeOf(arena, n) == 0
    {
      ret := arena.free[n] == {};
      for i := 0 to |arena.size[n]|
        invariant ret <==> arena.free[n] == {} && forall j :: 0 <= j < i ==> arena.size[n][j] == 0
      {
        ret := ret && arena.size[n][i] == 0;
      }
      SumZero(arena.size[n]);
    }

    // ---- credits ----

    /** inc_size_: settles `v` new slots of node `c` with all its ancestors. */
    method IncSize(c: nat, v: nat)
      requires Shape(arena, N) && c < |arena.owner| && Owes(arena, N, c, v)
      modifies this`arena
      ensures arena == old(arena).(size := arena.size)
      ensures SizeLaw(arena, N, Zeros(|arena.owner|), 0)
      ensures forall at, d :: OwesCap(old(arena), N, at, d) ==> OwesCap(arena, N, at, d)
      decreases c
    {
      if arena.owner[c].Some? {
        var e := arena.owner[c].value;
        SizeCreditStep(arena, N, c, v, e);
        forall at, d | OwesCap(arena, N, at, d) ensures OwesCap(AddToSize(arena, e, v), N, at, d) {
          SizeCreditKeepsCapLaw(arena, N, e, c, v, at, d);
        }
        arena := AddToSize(arena, e, v);
        IncSize(e.node, v);
      } else {
        OwesNothing(arena, N, c, v);
      }
    }

    /** inc_cap_: settles a new segment at node `c` with all its ancestors. */
    method IncCap(c: nat)
      requires Shape(arena, N) && c < |arena.owner| && OwesCap(arena, N, c, W)
      requires Balanced(arena) && LeastPath(arena, N, c)
      requires SizeLaw(arena, N, Zeros(|arena.owner|), 0)
      modifies this`arena
      ensures arena == old(arena).(capacity := arena.capacity)
      ensures Settled(arena, N) && Balanced(arena)
      decreases c
    {
      OwesNothing(arena, N, 0, 0);
      if arena.owner[c].Some? {
        var e := arena.owner[c].value;
        CapCreditStep(arena, N, c, W, e);
        CapCreditKeepsSizeLaw(arena, N, e, c, W, 0, 0);
        CapCreditKeepsBalance(arena, N, c, e);
        arena := AddToCap(arena, e, W);
        OwesNothing(arena, N, 0, 0);
        IncCap(e.node);
      } else {
        OwesNothing(arena, N, c, W);
      }
    }

    // ---- nodes ----

    /** get_or_create_node_(id): the child at `id`, created and announced when there is none. */
    method GetOrCreateNode(n: nat, id: nat) returns (child: nat)
      requires Tidy() && n < |arena.owner| && id < N
      requires arena.childs[n][id].None? ==>
                 Settled(arena, N) && LeastPath(arena, N, n) && LeastOf(arena.capacity[n], id)
      modifies this
      ensures live == old(live)
      ensures old(arena.childs[n][id].Some?) ==>
                child == old(arena.childs[n][id].value) && arena == old(arena) && hints == old(hints)
      ensures old(arena.childs[n][id].None?) ==>
                && Valid() && child == old(|arena.owner|) && hints == old(hints) + [0]
                && arena.free == old(arena.free) + [AllSlots()]
                && arena.owner == old(arena.owner) + [Some(Edge(n, id))]
                && arena.childs == Publish(old(arena), n, id, AllSlots()).childs
    {
      if arena.childs[n][id].Some? {
        return arena.childs[n][id].value;
      }
      child := AddNode(n, id);
    }

    /** The branch of get_or_create_node_ that creates the node. */
    method AddNode(n: nat, id: nat) returns (child: nat)
      requires Valid() && n < |arena.owner| && id < N && arena.childs[n][id].None?
      requires LeastPath(arena, N, n) && LeastOf(arena.capacity[n], id)
      modifies this
      ensures Valid() && live == old(live) && child == old(|arena.owner|) && hints == old(hints) + [0]
      ensures arena.free == old(arena.free) + [AllSlots()]
      ensures arena.owner == old(arena.owner) + [Some(Edge(n, id))]
      ensures arena.childs == Publish(old(arena), n, id, AllSlots()).childs
    {
      hide Ledger, Balanced, SizeLaw, CapLaw, Linked, LeastOf;
      OrderlyFacts(N, arena, hints, live, n);
      child := |arena.owner|;
      var slots := MakeSlots();
      var b := Publish(arena, n, id, slots);
      PublishOwes(arena, N, n, id, b);
      PublishKeepsShape(arena, N, n, id, b);
      GrowKeepsLedger(arena.free, live);
      arena := b;
      hints := hints + [0];
      IncSize(child, W);
      LawFacts(arena, N, Zeros(|arena.owner|), 0);
      LeastPathFrame(b, arena, N, child);
      IncCap(child);
      LawFacts(arena, N, Zeros(|arena.owner|), 0);
    }

    /** The reservation has moved to the child at `id` of node `n`. */
    ghost predicate Reserved(n: nat, id: nat)
      reads this
    {
      ReservedAt(arena, N, n, id)
    }

    /** The exchange of get_free_slot_ and the hint it leaves. */
    method TakeReservation(n: nat, id: nat)
      requires Tidy() && n < |arena.owner| && id < N && arena.size[n][id] > 0
      requires Owes(arena, N, n, 1) && CapLaw(arena, N, Zeros(|arena.owner|), 0)
      modifies this`arena, this`hints
      ensures Tidy() && Reserved(n, id) && hints == old(hints)[n := id]
      ensures arena == SetSize(old(arena), n, id, old(arena.size[n])[id] - 1)
    {
      var w: nat := arena.size[n][id] - 1;
      var b := SetSize(arena, n, id, w);
      ReserveMoves(arena, N, n, id, w, b);
      ReserveKeepsOrder(N, arena, hints, live, b, hints[n := id]);
      arena := b;
      hints := hints[n := id];
    }

    /**
     * get_free_slot_: takes one slot off the first child counter that is not zero, starting at the
     * hint; finds one exactly when there is one.
     */
    method GetFreeSlot(n: nat) returns (found: bool, slot: nat)
      requires Tidy() && n < |arena.owner|
      requires Owes(arena, N, n, 1) && CapLaw(arena, N, Zeros(|arena.owner|), 0)
      modifies this`arena, this`hints
      ensures Tidy()
      ensures found <==> Sum(old(arena.size[n])) > 0
      ensures !found ==> arena == old(arena) && hints == old(hints)
      ensures found ==> slot < N && old(arena.size[n])[slot] > 0 && hints == old(hints)[n := slot]
      ensures found ==> arena == SetSize(old(arena), n, slot, old(arena.size[n])[slot] - 1)
      ensures found ==> Reserved(n, slot) && FirstFrom(N, old(hints[n]), old(arena.size[n]), slot)
    {
      hide SizeLaw, CapLaw, Balanced, Ledger, Linked;
      OrderlyFacts(N, arena, hints, live, n);
      var index := hints[n];
      found, slot := false, 0;
      SumZero(arena.size[n]);
      for i := 0 to N
        invariant arena == old(arena) && hints == old(hints)
        invariant forall j :: 0 <= j < i ==> arena.size[n][ScanId(N, index, j)] == 0
      {
        var id := ScanId(N, index, i);
        if arena.size[n][id] > 0 {
          SumAtLeast(arena.size[n], id);
          assert FoundIn(N, index, arena.size[n], id, i);
          TakeReservation(n, id);
          return true, id;
        }
      }
      forall j | 0 <= j < N ensures arena.size[n][j] == 0 {
        var i := ScanReaches(N, index, j);
      }
    }

    /** create_node_ adds a node below `m` exactly when `m` announces no slot and has none itself. */
    ghost predicate Creates(m: nat)
      requires m < |arena.size| == |arena.free|
      reads this
    {
      Sum(arena.size[m]) == 0 && (m == 0 || arena.free[m] == {})
    }

    /** The scan of create_node_: the first child of least capacity, unless some child has a free slot. */
    method LeastChild(m: nat) returns (free: bool, idMin: nat)
      requires Tidy() && m < |arena.owner|
      ensures free <==> Sum(arena.size[m]) > 0
      ensures !free ==> LeastOf(arena.capacity[m], idMin)
      ensures !free ==> forall j :: 0 <= j < idMin ==> arena.capacity[m][j] > arena.capacity[m][idMin]
    {
      var minCap: Option<nat> := None;
      idMin := 0;
      for i := 0 to N
        invariant i == 0 <==> minCap.None?
        invariant idMin < N
        invariant i > 0 ==> idMin < i && minCap == Some(arena.capacity[m][idMin])
        invariant forall j :: 0 <= j < i ==> arena.capacity[m][idMin] <= arena.capacity[m][j] && arena.size[m][j] == 0
        invariant forall j :: 0 <= j < idMin ==> arena.capacity[m][idMin] < arena.capacity[m][j]
      {
        var tmpCap := arena.capacity[m][i];
        if minCap.None? || tmpCap < minCap.value {
          minCap, idMin := Some(tmpCap), i;
        }
        if arena.size[m][i] > 0 {
          SumAtLeast(arena.size[m], i);
          return true, idMin;
        }
      }
      SumZero(arena.size[m]);
      free := false;
    }

    /** create_node_ */
    method CreateNode(m: nat)
      requires Valid() && m < |arena.owner| && (Creates(m) ==> LeastPath(arena, N, m))
      modifies this
      ensures Valid() && live == old(live)
      ensures !old(Creates(m)) ==> arena == old(arena) && hints == old(hints)
      ensures old(Creates(m)) ==>
                && arena.free == old(arena.free) + [AllSlots()]
                && hints == old(hints) + [0]
                && |arena.owner| == old(|arena.owner|) + 1
      decreases if Creates(m) then 1 else 0, |arena.owner| - m
    {
      if arena.owner[m].Some? && arena.free[m] != {} {
        return;
      }
      assert m == 0 <==> arena.owner[m].None?;
      var free, idMin := LeastChild(m);
      if free {
        return;
      }
      SumZero(arena.size[m]);
      var child;
      if arena.childs[m][idMin].Some? {
        EmptyChild(arena, N, m, idMin);
        assert IsEdge(arena, Edge(m, idMin), arena.childs[m][idMin].value);
        child := GetOrCreateNode(m, idMin);
      } else {
        child := GetOrCreateNode(m, idMin);
        assert arena.free[child] == AllSlots() && 0 in AllSlots();
      }
      CreateNode(child);
    }

    // ---- acquire and release ----

    /**
     * find_child_id_ for an acquire that holds a reservation at `n`: the reservation moves to the
     * child it finds. Only the root can be without any slot below it, and then one node is created.
     */
    method FindChildId(n: nat) returns (id: nat)
      requires Tidy() && n < |arena.owner| && arena.free[n] == {}
      requires Owes(arena, N, n, 1) && CapLaw(arena, N, Zeros(|arena.owner|), 0)
      modifies this
      ensures Tidy() && live == old(live)
      ensures arena.free == Supply(old(arena.free))
      ensures n > 0 ==> arena.owner == old(arena.owner) && arena.childs == old(arena.childs)
      ensures Reserved(n, id)
      ensures Sum(old(arena.size[n])) > 0 ==>
                && FirstFrom(N, old(hints[n]), old(arena.size[n]), id) && hints == old(hints)[n := id]
                && arena == SetSize(old(arena), n, id, old(arena.size[n])[id] - 1)
    {
      hide Orderly, ReservedAt, SizeLaw, CapLaw, FoundIn;
      OrderlyFacts(N, arena, hints, live, n);
      if n == 0 { OwesNothing(arena, N, n, 1); } else { ReservedHasSlot(arena, N, n); }
      RootSum(arena, N, n);
      var found;
      found, id := GetFreeSlot(n);
      while !found
        invariant Tidy() && live == old(live)
        invariant !found ==> n == 0 && arena == old(arena) && Settled(arena, N) && Sum(arena.size[n]) == 0
        invariant found ==> arena.free == Supply(old(arena.free))
        invariant found && n > 0 ==> arena.owner == old(arena.owner) && arena.childs == old(arena.childs)
        invariant found ==> Reserved(n, id)
        invariant !found ==> Sum(old(arena.size[n])) == 0
        invariant found && Sum(old(arena.size[n])) > 0 ==>
                    && FirstFrom(N, old(hints[n]), old(arena.size[n]), id) && hints == old(hints)[n := id]
                    && arena == SetSize(old(arena), n, id, old(arena.size[n])[id] - 1)
        decreases !found
      {
        CreateNode(n);
        TotalFreeAppend(old(arena.free), AllSlots());
        OwesNothing(arena, N, n, 1);
        OrderlyFacts(N, arena, hints, live, n);
        RootSum(arena, N, n);
        found, id := GetFreeSlot(n);
      }
    }

    /** The segment's acquire at the node that holds the reservation. */
    method TakeBit(n: nat) returns (h: Handle)
      requires Tidy() && n < |arena.owner| && arena.free[n] != {}
      requires Owes(arena, N, n, 1) && CapLaw(arena, N, Zeros(|arena.owner|), 0)
      modifies this`arena, this`live
      ensures Valid() && old(TotalFree(arena.free)) > 0
      ensures h.node == n && h !in old(live) && live == old(live) + {h}
      ensures IsLeast(h.slot, old(arena.free[n]))
      ensures arena == old(arena).(free := Without(old(arena.free), h))
    {
      var k := Least(arena.free[n]);
      TakeKeepsLedger(arena.free, live, n, k);
      TakeSettles(arena, N, n, k);
      SumAtLeast(Sizes(arena.free), n);
      h := Handle(n, k);
      arena := SetFree(arena, n, arena.free[n] - {k});
      live := live + {h};
    }

    /** acquire_ at a node where a slot is reserved for it; `visited` counts the nodes it walks through. */
    method AcquireAt(n: nat) returns (h: Handle, ghost visited: nat)
      requires Tidy() && n < |arena.owner|
      requires Owes(arena, N, n, 1) && CapLaw(arena, N, Zeros(|arena.owner|), 0)
      modifies this
      ensures Valid()
      ensures HandsOut(old(arena.free), old(live), arena.free, live, h)
      ensures n > 0 ==> arena.owner == old(arena.owner) && arena.childs == old(arena.childs)
      ensures old(arena.free[n]) != {} ==> h.node == n
      ensures h.node < |arena.owner| && visited + Depth(arena, N, n) == Depth(arena, N, h.node) + 1
      ensures old(TotalFree(arena.free)) > 0 ==> Walks(old(arena), N, old(hints), n, h.node)
      decreases n == 0, |arena.owner| - n
    {
      hide Orderly, ReservedAt, SizeLaw, CapLaw, FirstFrom, Linked, Walks;
      OrderlyFacts(N, arena, hints, live, n);
      if arena.free[n] != {} {
        assert Supply(arena.free) == arena.free by { SumAtLeast(Sizes(arena.free), n); }
        WalkHere(arena, N, hints, n);
        h := TakeBit(n);
        OrderlyFacts(N, arena, hints, live, n);
        visited := 1;
      } else {
        RootSum(arena, N, n);
        var id := FindChildId(n);
        ReservedFacts(arena, N, n, id);
        var child := GetOrCreateNode(n, id);
        ghost var b, hints' := arena, hints;
        h, visited := AcquireAt(child);
        OrderlyFacts(N, arena, hints, live, n);
        if old(TotalFree(arena.free)) > 0 { WalkStep(old(arena), N, old(hints), n, id, b, h.node); }
        assert IsEdge(arena, Edge(n, id), child);
        visited := visited + 1;
      }
    }

    /** acquire at the root, which needs no reservation. */
    method Acquire() returns (h: Handle, ghost visited: nat)
      requires Valid()
      modifies this
      ensures Valid()
      ensures HandsOut(old(arena.free), old(live), arena.free, live, h)
      ensures old(arena.free[0]) != {} ==> h.node == 0
      ensures old(TotalFree(arena.free)) > 0 ==> Walks(old(arena), N, old(hints), 0, h.node)
      ensures forall height: nat :: |arena.owner| <= FullTree(N, height) ==> visited <= height + 1
    {
      OwesNothing(arena, N, 0, 1);
      h, visited := AcquireAt(0);
      forall height: nat | |arena.owner| <= FullTree(N, height) ensures visited <= height + 1 {
        LogarithmicDepth(arena, N, height, h.node);
      }
    }

    /** release, called once for each live handle. */
    method Release(h: Handle)
      requires Valid() && h in live
      modifies this`arena, this`live
      ensures Valid() && TakesBack(old(arena.free), old(live), arena.free, live, h)
      ensures arena.owner == old(arena.owner) && arena.childs == old(arena.childs)
          && arena.capacity == old(arena.capacity)
    {
      hide Ledger, Balanced, SizeLaw, CapLaw, Linked;
      FreeKeepsLedger(arena.free, live, h);
      LedgerBound(arena.free, live, h);
      LawFacts(arena, N, Zeros(|arena.owner|), 0);
      GiveOwes(arena, N, h.node, h.slot);
      arena := SetFree(arena, h.node, arena.free[h.node] + {h.slot});
      live := live - {h};
      OwesNothing(arena, N, 0, 0);
      LawFacts(arena, N, Off(|arena.owner|, h.node, 1), Below(h.node, 1));
      IncSize(h.node, 1);
      LawFacts(arena, N, Zeros(|arena.owner|), 0);
      OwesNothing(arena, N, 0, 0);
      BalanceFrame(old(arena), arena);
    }
  }

  lemma Pow2Positive(n: nat)
    requires IsPow2(n)
    ensures n > 0
  {
  }
}
