/** The tree pool's machine with a single thread: when it adds nodes, where it adds them, and that its calls end. */
module TreeSolo {
  import opened Options
  import opened Words
  import opened Sums
  import opened Slots
  import opened TreeArena
  import opened TreeShape
  import opened TreePools
  import opened TreeSteps
  import opened TreeRuns
  import opened TreeTheorems

  // ---- what the only thread knows ----

  /** The first `i` rounds of the scan see nothing announced. */
  ghost predicate NothingScanned(N: nat, row: seq<nat>, index: nat, i: nat)
    requires N > 0 && |row| == N
  {
    forall j: nat :: j < i ==> row[ScanId(N, index, j)] == 0
  }

  /** `best` is the first least counter among the first `i`. */
  ghost predicate FirstLeast(row: seq<nat>, i: nat, best: Option<Best>) {
    if i == 0 then best.None? else
      && best.Some? && best.value.id < i <= |row| && row[best.value.id] == best.value.cap
      && forall j :: 0 <= j < i ==> best.value.cap <= row[j] && (j < best.value.id ==> best.value.cap < row[j])
  }

  ghost predicate ZeroBefore(row: seq<nat>, i: nat) {
    forall j :: 0 <= j < i && j < |row| ==> row[j] == 0
  }

  /** Nothing is free anywhere, and `m` lies where the next node is due. */
  ghost predicate Growing(N: nat, a: Arena, n: nat, m: nat)
    requires Linked(a, N) && m < |a.owner|
  {
    n == 0 && TotalFree(a.free) == 0 && LeastPath(a, N, m) && Sum(a.size[m]) == 0
  }

  /** The call is inside create_node_ of `m`; without a power of two also after a scan that missed a child. */
  ghost predicate Creating(N: nat, a: Arena, n: nat, m: nat)
    requires Linked(a, N) && n < |a.owner| && m < |a.owner|
  {
    a.free[n] == {} && (Growing(N, a, n, m) || (m == n && !IsPow2(N)))
  }

  /** The new node `child` has slots for the acquire that waits at the root. */
  ghost predicate Grown(a: Arena, n: nat, child: nat)
    requires |a.free| == |a.owner| > child
  {
    n == 0 && child > 0 && a.free[0] == {} && a.free[child] != {}
  }

  ghost predicate Knows(N: nat, a: Arena, th: Thread)
    requires N > 0 && Linked(a, N) && InBounds(N, a, th)
  {
    match th
    case SegCas(n, flag) => a.free[n] == flag
    case HintLoad(n) => a.free[n] == {}
    case ScanLoad(n, index, i) => a.free[n] == {} && NothingScanned(N, a.size[n], index, i)
    case ScanCas(n, index, i, was) =>
      a.free[n] == {} && NothingScanned(N, a.size[n], index, i) && a.size[n][ScanId(N, index, i)] == was
    case CreFlag(n, m) => Creating(N, a, n, m) || Grown(a, n, m)
    case CreCap(n, m, i, best) =>
      Creating(N, a, n, m) && ZeroBefore(a.size[m], i) && FirstLeast(a.capacity[m], i, best)
    case CreSize(n, m, i, min) =>
      Creating(N, a, n, m) && ZeroBefore(a.size[m], i) && FirstLeast(a.capacity[m], i + 1, Some(min))
    case CreChild(n, m, id) =>
      Growing(N, a, n, m) && FirstLeast(a.capacity[m], N, Some(Best(a.capacity[m][id], id)))
    case CreCas(n, m, id) =>
      && Growing(N, a, n, m) && FirstLeast(a.capacity[m], N, Some(Best(a.capacity[m][id], id)))
      && a.childs[m][id] == None
    case AddSize(c, v, after) =>
      after.Retry? ==> v == W && Grown(a, after.n, after.child) && LeastPath(a, N, after.child)
    case AddCap(c, v, after) => v == W && Grown(a, after.n, after.child) && LeastPath(a, N, c)
    case RelCas(h, flag) => a.free[h.node] == flag
    case _ => true
  }

  /** No node above `n` has a free slot of its own. */
  ghost predicate EmptyAbove(owner: seq<Option<Edge>>, free: seq<set<nat>>, n: nat)
    decreases n
  {
    n > 0 ==>
      && n < |owner| == |free| && owner[n].Some? && owner[n].value.node < n
      && free[owner[n].value.node] == {} && EmptyAbove(owner, free, owner[n].value.node)
  }

  ghost predicate Above(a: Arena, th: Thread) {
    At(th).Some? ==> EmptyAbove(a.owner, a.free, At(th).value)
  }

  /** What the only thread knows is true. */
  ghost predicate Informed(N: nat, s: State) {
    && CanStep(N, s) && |s.threads| == 1 && InBounds(N, s.arena, s.threads[0])
    && Knows(N, s.arena, s.threads[0]) && Balanced(s.arena)
  }

  ghost predicate Solo(N: nat, s: State) {
    Inv(N, s) && Informed(N, s) && Above(s.arena, s.threads[0])
  }

  // ---- what the laws say about a single thread ----

  /** The laws of one thread's pool. */
  ghost predicate Accounts(N: nat, a: Arena, th: Thread)
    requires Linked(a, N)
  {
    && (forall c :: 0 < c < |a.owner| ==>
          SizeAt(a, N, c) + Weight(th, Reserved, c) + Weight(th, Credit, c) == SizeOf(a, c))
    && SizeOf(a, 0) + WeightBelow(th, Reserved) + WeightBelow(th, Credit) == TotalFree(a.free)
    && (forall c :: 0 < c < |a.owner| ==> Weight(th, Looker, c) <= Sum(a.size[c]))
  }

  lemma TallyOfOne(ts: seq<Thread>, r: Role, c: nat)
    requires |ts| == 1
    ensures Tally(ts, r, c) == Weight(ts[0], r, c) && TallyBelow(ts, r) == WeightBelow(ts[0], r)
  {
    var w, b := Weights(ts, r, c), WeightsBelow(ts, r);
    assert Sum(w) == w[0] + Sum(w[1..]) && Sum(b) == b[0] + Sum(b[1..]);
  }

  lemma InvFacts(N: nat, s: State)
    requires Inv(N, s) && |s.threads| == 1
    ensures CanStep(N, s) && N > 0 && Shape(s.arena, N) && Linked(s.arena, N) && Sized(s.arena, N)
    ensures InBounds(N, s.arena, s.threads[0])
    ensures Accounts(N, s.arena, s.threads[0])
  {
    var a, ts := s.arena, s.threads;
    assert InBounds(N, a, ts[0]);
    forall r, c: nat
      ensures Tally(ts, r, c) == Weight(ts[0], r, c) && TallyBelow(ts, r) == WeightBelow(ts[0], r)
    {
      TallyOfOne(ts, r, c);
    }
    TallyOfOne(ts, Reserved, 0);
    TallyOfOne(ts, Credit, 0);
    forall c | 0 < c < |a.owner|
      ensures SizeAt(a, N, c) + Weight(ts[0], Reserved, c) + Weight(ts[0], Credit, c) == SizeOf(a, c)
    {
      assert SizeAt(a, N, c) + SizeOff(ts, |a.owner|)[c] == SizeOf(a, c);
    }
  }

  /** A thread that looks for a child where nothing is announced is at the root, and the pool is full. */
  lemma LookingInVain(N: nat, a: Arena, th: Thread, n: nat)
    requires Linked(a, N) && n < |a.owner| && Accounts(N, a, th) && At(th) == Some(n) && Looking(th, n)
    requires !th.AddSize? && a.free[n] == {} && ZeroBefore(a.size[n], N)
    ensures n == 0 && TotalFree(a.free) == 0 && Sum(a.size[0]) == 0
  {
    SumZero(a.size[n]);
  }

  lemma ScannedAll(N: nat, row: seq<nat>, index: nat)
    requires IsPow2(N) && N > 0 && |row| == N && NothingScanned(N, row, index, N)
    ensures ZeroBefore(row, N)
  {
    forall j | 0 <= j < N ensures row[j] == 0 {
      var i := ScanReaches(N, index, j);
    }
  }

  // ---- every step keeps what it knows ----

  lemma SegmentKeepsKnows(N: nat, s: State, ch: Choice)
    requires Informed(N, s) && CanStep(N, Do(N, s, 0, ch))
    requires var th := s.threads[0]; th.Idle? || th.SegLoad? || th.SegCas? || th.RelLoad? || th.RelCas? || th.Descend?
    ensures Informed(N, Do(N, s, 0, ch))
  {
  }

  lemma ScanKeepsKnows(N: nat, s: State, ch: Choice)
    requires Informed(N, s) && CanStep(N, Do(N, s, 0, ch)) && Accounts(N, s.arena, s.threads[0])
    requires var th := s.threads[0]; th.HintLoad? || th.ScanLoad? || th.ScanCas?
    requires Local(N, s.arena, s.threads[0], ch).Some?
    ensures Informed(N, Do(N, s, 0, ch))
  {
    hide IsPow2, Balanced, Accounts;
    var a, th, s' := s.arena, s.threads[0], Do(N, s, 0, ch);
    if s'.threads[0].CreFlag? && IsPow2(N) {
      assert NothingScanned(N, a.size[th.n], th.index, N);
      ScannedAll(N, a.size[th.n], th.index);
      LookingInVain(N, a, th, th.n);
    }
  }

  lemma ReserveKeepsKnows(N: nat, s: State, ch: Choice)
    requires Informed(N, s) && CanStep(N, Do(N, s, 0, ch)) && s.threads[0].ScanCas?
    requires Local(N, s.arena, s.threads[0], ch).None?
    ensures Informed(N, Do(N, s, 0, ch))
  {
    hide IsPow2, NothingScanned;
  }

  lemma CreateKeepsKnows(N: nat, s: State, ch: Choice)
    requires Informed(N, s) && CanStep(N, Do(N, s, 0, ch))
    requires s.threads[0].CreFlag? || s.threads[0].CreCap?
    ensures Informed(N, Do(N, s, 0, ch))
  {
    hide Balanced, LeastPath;
  }

  lemma CreateSizeKeepsKnows(N: nat, s: State, ch: Choice)
    requires Informed(N, s) && CanStep(N, Do(N, s, 0, ch)) && Accounts(N, s.arena, s.threads[0])
    requires s.threads[0].CreSize?
    ensures Informed(N, Do(N, s, 0, ch))
  {
    hide Balanced, Accounts;
    var a, th, s' := s.arena, s.threads[0], Do(N, s, 0, ch);
    if s'.threads[0].CreChild? && th.m == th.n {
      LookingInVain(N, a, th, th.n);
    }
  }

  lemma ChildLoadKeepsKnows(N: nat, s: State, ch: Choice)
    requires Informed(N, s) && CanStep(N, Do(N, s, 0, ch)) && Accounts(N, s.arena, s.threads[0])
    requires s.threads[0].CreChild?
    ensures Informed(N, Do(N, s, 0, ch))
  {
    hide Balanced, FirstLeast;
    var a, th := s.arena, s.threads[0];
    NothingFree(a.free);
    SumZero(a.size[th.m]);
    if a.childs[th.m][th.id].Some? {
      var c := a.childs[th.m][th.id].value;
      assert IsEdge(a, Edge(th.m, th.id), c);
      assert SizeAt(a, N, c) == 0;
      assert LeastOf(a.capacity[th.m], th.id) by { FirstLeastIsLeast(a.capacity[th.m], th.id); }
    }
  }

  lemma FirstLeastIsLeast(row: seq<nat>, id: nat)
    requires id < |row| && FirstLeast(row, |row|, Some(Best(row[id], id)))
    ensures LeastOf(row, id)
  {
  }

  lemma ChildCasKeepsKnows(N: nat, s: State, ch: Choice)
    requires Informed(N, s) && CanStep(N, Do(N, s, 0, ch)) && s.threads[0].CreCas?
    ensures Informed(N, Do(N, s, 0, ch))
  {
    hide FirstLeast, Balanced;
    var a, th := s.arena, s.threads[0];
    NothingFree(a.free);
    if !ch.spurious {
      FirstLeastIsLeast(a.capacity[th.m], th.id);
      PublishKeepsShape(a, N, th.m, th.id, Do(N, s, 0, ch).arena);
    }
  }

  lemma CreditKeepsKnows(N: nat, s: State, ch: Choice)
    requires Informed(N, s) && CanStep(N, Do(N, s, 0, ch))
    requires var th := s.threads[0]; th.AddSize? || th.AddCap?
    ensures Informed(N, Do(N, s, 0, ch))
  {
    var a, th, s' := s.arena, s.threads[0], Do(N, s, 0, ch);
    var e := a.owner[th.c].value;
    assert IsEdge(a, e, th.c);
    if th.AddCap? {
      CapCreditKeepsBalance(a, N, th.c, e);
    } else if th.after.Retry? {
      LeastPathFrame(a, s'.arena, N, th.after.child);
    }
  }

  lemma KeepsThread(N: nat, s: State, ch: Choice)
    requires CanStep(N, s) && |s.threads| == 1
    ensures InBounds(N, s.arena, s.threads[0]) && |Do(N, s, 0, ch).threads| == 1
    ensures !s.threads[0].Orphan?
  {
  }

  lemma ReserveKeepsAbove(N: nat, s: State, ch: Choice)
    requires Informed(N, s) && Above(s.arena, s.threads[0])
    requires s.threads[0].ScanCas? && Local(N, s.arena, s.threads[0], ch).None?
    ensures |Do(N, s, 0, ch).threads| == 1 && Above(Do(N, s, 0, ch).arena, Do(N, s, 0, ch).threads[0])
  {
    hide Balanced, LeastPath;
    var a, th := s.arena, s.threads[0];
    var id := ScanId(N, th.index, th.i);
    assert IsEdge(a, Edge(th.n, id), a.childs[th.n][id].value);
  }

  lemma StepKeepsAbove(N: nat, s: State, ch: Choice)
    requires Informed(N, s) && Above(s.arena, s.threads[0])
    ensures |Do(N, s, 0, ch).threads| == 1 && Above(Do(N, s, 0, ch).arena, Do(N, s, 0, ch).threads[0])
  {
    hide Balanced, LeastPath, TotalFree, IsEdge, FirstLeast, NothingScanned, ZeroBefore, Local;
    var a, th := s.arena, s.threads[0];
    if Local(N, a, th, ch).Some? {
      LocalKeepsAt(N, a, th, ch);
    } else if th.ScanCas? {
      ReserveKeepsAbove(N, s, ch);
    }
  }

  lemma StepKeepsSolo(N: nat, s: State, ch: Choice)
    requires Solo(N, s)
    ensures CanStep(N, s) && Solo(N, Do(N, s, 0, ch))
  {
    hide Inv, Knows, Accounts, Above, Balanced, InBounds, Do, Shape;
    InvFacts(N, s);
    StepKeepsInv(N, s, 0, ch);
    KeepsThread(N, s, ch);
    InvFacts(N, Do(N, s, 0, ch));
    StepKeepsAbove(N, s, ch);
    match s.threads[0]
    case HintLoad(_) => ScanKeepsKnows(N, s, ch);
    case ScanLoad(_, _, _) => ScanKeepsKnows(N, s, ch);
    case ScanCas(_, _, _, _) =>
      if Local(N, s.arena, s.threads[0], ch).Some? { ScanKeepsKnows(N, s, ch); } else { ReserveKeepsKnows(N, s, ch); }
    case CreFlag(_, _) => CreateKeepsKnows(N, s, ch);
    case CreCap(_, _, _, _) => CreateKeepsKnows(N, s, ch);
    case CreSize(_, _, _, _) => CreateSizeKeepsKnows(N, s, ch);
    case CreChild(_, _, _) => ChildLoadKeepsKnows(N, s, ch);
    case CreCas(_, _, _) => ChildCasKeepsKnows(N, s, ch);
    case AddSize(_, _, _) => CreditKeepsKnows(N, s, ch);
    case AddCap(_, _, _) => CreditKeepsKnows(N, s, ch);
    case _ => SegmentKeepsKnows(N, s, ch);
  }

  lemma InitSolo(N: nat, s: State)
    requires N > 0 && Init(N, s) && |s.threads| == 1
    ensures Solo(N, s)
  {
    InitKeepsInv(N, s);
  }

  lemma {:induction false} RunIsSolo(N: nat, run: seq<State>, k: nat)
    requires N > 0 && IsRun(N, run) && k < |run| && |run[0].threads| == 1
    ensures Solo(N, run[k])
  {
    hide Inv, Init, Knows, Do, Above, Balanced, InBounds, Shape;
    if k == 0 {
      InitSolo(N, run[0]);
    } else {
      RunIsSolo(N, run, k - 1);
      assert Next(N, run[k - 1], run[k - 1 + 1]);
      var t: nat, ch :| t < |run[k - 1].threads| && run[k] == Do(N, run[k - 1], t, ch);
      StepKeepsSolo(N, run[k - 1], ch);
    }
  }

  /** The step of the only thread that leads to the next state. */
  lemma SoloNext(N: nat, run: seq<State>, k: nat) returns (ch: Choice)
    requires N > 0 && IsRun(N, run) && k + 1 < |run| && |run[0].threads| == 1
    ensures Solo(N, run[k]) && CanStep(N, run[k]) && |run[k].threads| == 1
    ensures InBounds(N, run[k].arena, run[k].threads[0])
    ensures run[k + 1] == Do(N, run[k], 0, ch) && Solo(N, run[k + 1])
  {
    hide Inv, Init, Knows, Do, Above, Balanced, InBounds, Shape;
    RunIsSolo(N, run, k);
    RunIsSolo(N, run, k + 1);
    assert Next(N, run[k], run[k + 1]);
    var t: nat, c :| t < |run[k].threads| && run[k + 1] == Do(N, run[k], t, c);
    ch := c;
  }

  /** The new node hangs at the end of the path of least capacities, at the first least place there. */
  ghost predicate GrownAtLeast(N: nat, a: Arena, b: Arena)
    requires Linked(a, N)
  {
    exists e: Edge ::
      && b.owner == a.owner + [Some(e)] && e.node < |a.owner| && e.id < N && a.childs[e.node][e.id].None?
      && LeastPath(a, N, e.node) && FirstLeast(a.capacity[e.node], N, Some(Best(a.capacity[e.node][e.id], e.id)))
  }

  lemma StepGrowsWhenFull(N: nat, s: State, ch: Choice)
    requires Solo(N, s) && CanStep(N, s) && Do(N, s, 0, ch).arena.owner != s.arena.owner
    ensures Acquiring(s.threads[0]) && TotalFree(s.arena.free) == 0 && GrownAtLeast(N, s.arena, Do(N, s, 0, ch).arena)
  {
    hide Inv, Above, Balanced;
    var a, th := s.arena, s.threads[0];
    assert th.CreCas? && Local(N, a, th, ch).None?;
    assert Do(N, s, 0, ch).arena.owner == a.owner + [Some(Edge(th.m, th.id))];
  }

  lemma AllSlotsLive(N: nat, s: State)
    requires Solo(N, s) && Acquiring(s.threads[0]) && TotalFree(s.arena.free) == 0
    ensures |s.live| == W * |s.arena.owner|
  {
    hide Knows, Above, Balanced, LeastPath;
    assert ReturningSet(s.threads) == {};
    assert s.live + {} == s.live;
  }

  /**
   * A node is added only when every slot of the pool is live, below the node and at the place that lie where the
   * capacities are least.
   */
  lemma GrowsOnlyWhenFull(N: nat, run: seq<State>, k: nat)
    requires N > 0 && IsRun(N, run) && k + 1 < |run| && |run[0].threads| == 1
    requires run[k + 1].arena.owner != run[k].arena.owner
    ensures TotalFree(run[k].arena.free) == 0 && |run[k].live| == W * |run[k].arena.owner|
    ensures Linked(run[k].arena, N) && GrownAtLeast(N, run[k].arena, run[k + 1].arena)
  {
    hide Inv, Init, Knows, Do, Above, Balanced, InBounds, GrownAtLeast, At;
    var ch := SoloNext(N, run, k);
    StepGrowsWhenFull(N, run[k], ch);
    AllSlotsLive(N, run[k]);
  }

  /** Whenever no call is in progress, every counter is exact and the tree is balanced. */
  lemma IdleIsBalanced(N: nat, run: seq<State>, k: nat)
    requires N > 0 && IsRun(N, run) && k < |run| && |run[0].threads| == 1
    requires |run[k].threads| == 1 && run[k].threads[0] == Idle
    ensures Settled(run[k].arena, N) && Balanced(run[k].arena)
  {
    hide Knows, Above, Balanced, InBounds, Settled;
    RunIsSolo(N, run, k);
    IdleIsSettled(N, run[k].arena, run[k].threads);
  }
}
