/**
 * Whether a call of the tree pool's machine ends when nobody else moves, wherever the other threads have stopped.
 * The number of children is a power of two where the scan of get_free_slot_ matters.
 */
module TreeProgress {
  import opened Options
  import opened Words
  import opened Sums
  import opened Slots
  import opened TreeArena
  import opened TreeShape
  import opened TreePools
  import opened TreeSteps
  import opened TreeRuns
  import opened TreeTheorems
  import opened TreeSolo

  // ---- when an acquire has to wait ----

  /** create_node_ of `m`, going down along the first least capacities, meets slots and returns without a new node. */
  ghost predicate ComesBack(a: Arena, N: nat, m: nat)
    requires Linked(a, N) && m < |a.owner|
    decreases |a.owner| - m, 1
  {
    (m > 0 && a.free[m] != {}) || Sum(a.size[m]) > 0 || exists id: nat :: ComesBackFrom(a, N, m, id)
  }

  ghost predicate ComesBackFrom(a: Arena, N: nat, m: nat, id: nat)
    requires Linked(a, N) && m < |a.owner|
    decreases |a.owner| - m, 0
  {
    && id < N && FirstLeast(a.capacity[m], N, Some(Best(a.capacity[m][id], id)))
    && a.childs[m][id].Some? && IsEdge(a, Edge(m, id), a.childs[m][id].value)
    && ComesBack(a, N, a.childs[m][id].value)
  }

  /** The root has no slot and announces none, and yet create_node_ would not make a node. */
  ghost predicate Waits(a: Arena, N: nat)
    requires Linked(a, N)
  {
    a.free[0] == {} && Sum(a.size[0]) == 0 && ComesBack(a, N, 0)
  }

  // ---- what a thread that does not have to wait can count on ----

  ghost predicate Seeks(N: nat, a: Arena, n: nat)
    requires Linked(a, N) && n < |a.owner|
  {
    a.free[n] == {} && (n == 0 ==> Sum(a.size[0]) > 0 || !ComesBack(a, N, 0))
  }

  /** Nothing is announced at the root, and create_node_ of `m` will make a node. */
  ghost predicate WillGrow(N: nat, a: Arena, n: nat, m: nat)
    requires Linked(a, N) && m < |a.owner|
  {
    n == 0 && a.free[0] == {} && Sum(a.size[0]) == 0 && !ComesBack(a, N, m)
  }

  /** The node `child` has slots, and so has what the root announces. */
  ghost predicate HasGrown(N: nat, a: Arena, n: nat, child: nat)
    requires Linked(a, N) && child < |a.owner|
  {
    n == 0 && a.free[0] == {} && child > 0 && a.free[child] != {} && Sum(a.size[0]) > 0
  }

  ghost predicate Expects(N: nat, a: Arena, th: Thread)
    requires N > 0 && Linked(a, N) && InBounds(N, a, th)
  {
    match th
    case SegLoad(n) => n == 0 ==> !Waits(a, N)
    case SegCas(n, flag) => a.free[n] == flag
    case HintLoad(n) => Seeks(N, a, n)
    case ScanLoad(n, index, i) => Seeks(N, a, n) && NothingScanned(N, a.size[n], index, i)
    case ScanCas(n, index, i, was) =>
      Seeks(N, a, n) && NothingScanned(N, a.size[n], index, i) && a.size[n][ScanId(N, index, i)] == was
    case CreFlag(n, m) => WillGrow(N, a, n, m) || HasGrown(N, a, n, m)
    case CreCap(n, m, i, best) => WillGrow(N, a, n, m) && FirstLeast(a.capacity[m], i, best)
    case CreSize(n, m, i, min) => WillGrow(N, a, n, m) && FirstLeast(a.capacity[m], i + 1, Some(min))
    case CreChild(n, m, id) =>
      WillGrow(N, a, n, m) && FirstLeast(a.capacity[m], N, Some(Best(a.capacity[m][id], id)))
    case CreCas(n, m, id) =>
      && WillGrow(N, a, n, m) && FirstLeast(a.capacity[m], N, Some(Best(a.capacity[m][id], id)))
      && a.childs[m][id] == None
    case AddSize(c, v, after) =>
      after.Retry? ==> after.n == 0 && v > 0 && a.free[0] == {} && a.free[after.child] != {}
    case AddCap(c, v, after) => HasGrown(N, a, after.n, after.child)
    case RelCas(h, flag) => a.free[h.node] == flag
    case _ => true
  }

  /** Thread `t` is inside the pool and can count on what it expects. */
  ghost predicate Able(N: nat, s: State, t: nat) {
    && CanStep(N, s) && t < |s.threads| && InBounds(N, s.arena, s.threads[t]) && Expects(N, s.arena, s.threads[t])
  }

  /** A node whose slot is reserved and not yet taken has one, of its own or announced by a child. */
  ghost predicate Promised(a: Arena, th: Thread)
    requires |a.free| == |a.size|
  {
    At(th).Some? && 0 < At(th).value < |a.free| ==> SizeOf(a, At(th).value) > 0
  }

  lemma ReservationsHold(N: nat, s: State, t: nat)
    requires Inv(N, s) && t < |s.threads|
    ensures CanStep(N, s) && Promised(s.arena, s.threads[t])
  {
    var a, th := s.arena, s.threads[t];
    if At(th).Some? && 0 < At(th).value < |a.free| {
      var n := At(th).value;
      TallyPut(s.threads, t, th, Reserved, n);
      assert SizeAt(a, N, n) + SizeOff(s.threads, |a.owner|)[n] == SizeOf(a, n);
    }
  }

  lemma ScanIsOver(N: nat, a: Arena, th: Thread, n: nat, index: nat)
    requires IsPow2(N) && N > 0 && Linked(a, N) && n < |a.owner| && At(th) == Some(n) && Promised(a, th)
    requires Seeks(N, a, n) && NothingScanned(N, a.size[n], index, N)
    ensures n == 0 && WillGrow(N, a, 0, 0)
  {
    hide ComesBack;
    ScannedAll(N, a.size[n], index);
    SumZero(a.size[n]);
  }

  lemma NoSizes(N: nat, a: Arena, m: nat)
    requires Linked(a, N) && m < |a.owner| && !ComesBack(a, N, m)
    ensures (m > 0 ==> a.free[m] == {}) && forall i :: 0 <= i < N ==> a.size[m][i] == 0
  {
    SumZero(a.size[m]);
  }

  lemma NextLevel(N: nat, a: Arena, m: nat, id: nat)
    requires Linked(a, N) && m < |a.owner| && !ComesBack(a, N, m) && id < N && a.childs[m][id].Some?
    requires FirstLeast(a.capacity[m], N, Some(Best(a.capacity[m][id], id)))
    ensures IsEdge(a, Edge(m, id), a.childs[m][id].value) && !ComesBack(a, N, a.childs[m][id].value)
  {
    assert IsEdge(a, Edge(m, id), a.childs[m][id].value);
    assert !ComesBackFrom(a, N, m, id);
  }

  // ---- every step keeps it able ----

  lemma SegmentKeepsAble(N: nat, s: State, t: nat, ch: Choice)
    requires Able(N, s, t) && CanStep(N, Do(N, s, t, ch))
    requires var th := s.threads[t]; th.SegLoad? || th.SegCas? || th.RelLoad? || th.RelCas? || th.Descend?
    ensures Able(N, Do(N, s, t, ch), t)
  {
    hide ComesBack;
  }

  lemma ScanKeepsAble(N: nat, s: State, t: nat, ch: Choice)
    requires Able(N, s, t) && CanStep(N, Do(N, s, t, ch)) && Promised(s.arena, s.threads[t]) && IsPow2(N)
    requires var th := s.threads[t]; th.HintLoad? || th.ScanLoad? || th.ScanCas?
    requires Local(N, s.arena, s.threads[t], ch).Some?
    ensures Able(N, Do(N, s, t, ch), t)
  {
    hide ComesBack, IsPow2, Sum;
    var th, s' := s.threads[t], Do(N, s, t, ch);
    if s'.threads[t].CreFlag? {
      ScanIsOver(N, s.arena, th, th.n, th.index);
    }
  }

  lemma ReserveKeepsAble(N: nat, s: State, t: nat, ch: Choice)
    requires Able(N, s, t) && CanStep(N, Do(N, s, t, ch)) && s.threads[t].ScanCas?
    requires Local(N, s.arena, s.threads[t], ch).None?
    ensures Able(N, Do(N, s, t, ch), t)
  {
    hide ComesBack, NothingScanned, Sum;
  }

  lemma CreateKeepsAble(N: nat, s: State, t: nat, ch: Choice)
    requires Able(N, s, t) && CanStep(N, Do(N, s, t, ch))
    requires var th := s.threads[t]; th.CreFlag? || th.CreCap? || th.CreSize?
    ensures Able(N, Do(N, s, t, ch), t)
  {
    hide ComesBack;
    if !ComesBack(s.arena, N, s.threads[t].m) {
      NoSizes(N, s.arena, s.threads[t].m);
    }
  }

  lemma ChildKeepsAble(N: nat, s: State, t: nat, ch: Choice)
    requires Able(N, s, t) && CanStep(N, Do(N, s, t, ch))
    requires var th := s.threads[t]; th.CreChild? || th.CreCas?
    ensures Able(N, Do(N, s, t, ch), t)
  {
    hide ComesBack, FirstLeast;
    var a, th := s.arena, s.threads[t];
    if th.CreChild? && a.childs[th.m][th.id].Some? {
      NextLevel(N, a, th.m, th.id);
    }
  }

  lemma CreditKeepsAble(N: nat, s: State, t: nat, ch: Choice)
    requires Able(N, s, t) && CanStep(N, Do(N, s, t, ch))
    requires var th := s.threads[t]; th.AddSize? || th.AddCap?
    ensures Able(N, Do(N, s, t, ch), t)
  {
    hide ComesBack;
    var a, th := s.arena, s.threads[t];
    var e := a.owner[th.c].value;
    assert IsEdge(a, e, th.c);
    if th.AddSize? && th.v > 0 {
      var row: seq<nat> := a.size[e.node][e.id := a.size[e.node][e.id] + th.v];
      SumAtLeast(row, e.id);
    }
  }

  lemma StepKeepsAble(N: nat, s: State, t: nat, ch: Choice)
    requires Inv(N, s) && Able(N, s, t) && s.threads[t] != Idle && (IsPow2(N) || !Acquiring(s.threads[t]))
    ensures Inv(N, Do(N, s, t, ch)) && Able(N, Do(N, s, t, ch), t)
    ensures |Do(N, s, t, ch).threads| == |s.threads|
    ensures !Acquiring(s.threads[t]) ==> !Acquiring(Do(N, s, t, ch).threads[t])
  {
    hide Do, Expects, InBounds, Laws, Covered, Handles, Shape, Promised, IsPow2;
    StepKeepsInv(N, s, t, ch);
    ReservationsHold(N, s, t);
    NoOrphan(N, s, t);
    StaysOut(N, s, t, ch);
    match s.threads[t]
    case HintLoad(_) => ScanKeepsAble(N, s, t, ch);
    case ScanLoad(_, _, _) => ScanKeepsAble(N, s, t, ch);
    case ScanCas(_, _, _, _) =>
      if Local(N, s.arena, s.threads[t], ch).Some? {
        ScanKeepsAble(N, s, t, ch);
      } else {
        ReserveKeepsAble(N, s, t, ch);
      }
    case CreFlag(_, _) => CreateKeepsAble(N, s, t, ch);
    case CreCap(_, _, _, _) => CreateKeepsAble(N, s, t, ch);
    case CreSize(_, _, _, _) => CreateKeepsAble(N, s, t, ch);
    case CreChild(_, _, _) => ChildKeepsAble(N, s, t, ch);
    case CreCas(_, _, _) => ChildKeepsAble(N, s, t, ch);
    case AddSize(_, _, _) => CreditKeepsAble(N, s, t, ch);
    case AddCap(_, _, _) => CreditKeepsAble(N, s, t, ch);
    case _ => SegmentKeepsAble(N, s, t, ch);
  }

  lemma StaysOut(N: nat, s: State, t: nat, ch: Choice)
    requires CanStep(N, s) && t < |s.threads| && s.threads[t] != Idle
    ensures |Do(N, s, t, ch).threads| == |s.threads|
    ensures !Acquiring(s.threads[t]) ==> !Acquiring(Do(N, s, t, ch).threads[t])
  {
    assert InBounds(N, s.arena, s.threads[t]);
  }

  lemma NoOrphan(N: nat, s: State, t: nat)
    requires CanStep(N, s) && t < |s.threads|
    ensures !s.threads[t].Orphan?
  {
    assert InBounds(N, s.arena, s.threads[t]);
  }

  // ---- and is a step towards the end of the call ----

  /** Enough steps for one visit to each of `k` nodes. */
  function Visits(N: nat, k: nat): nat {
    k * (2 * N + 10)
  }

  lemma {:induction false} VisitsGrow(N: nat, j: nat, k: nat)
    requires j < k
    ensures Visits(N, j) + 2 * N + 10 <= Visits(N, k)
    decreases k
  {
    OneMoreVisit(N, k - 1);
    if j < k - 1 { VisitsGrow(N, j, k - 1); }
  }

  lemma OneMoreVisit(N: nat, k: nat)
    ensures Visits(N, k + 1) == Visits(N, k) + 2 * N + 10
  {
    var b := 2 * N + 10;
    assert (k + 1) * b == k * b + b;
  }

  /** Enough steps for a new node, its credits, and the walk to it, in a pool of `len` nodes. */
  function AfterGrowing(N: nat, len: nat): nat {
    Visits(N, len + 1) + 2 * N + 2 * len + 7
  }

  /** Enough steps before that, for an acquire at node `n`. */
  function BeforeGrowing(N: nat, a: Arena, n: nat): nat
    requires |a.size| > 0
  {
    if n == 0 && Sum(a.size[0]) == 0 then AfterGrowing(N, |a.owner|) + Visits(N, |a.owner|) + 2 * N + 7 else 0
  }

  /** How many more steps the call takes at most. */
  ghost function StepsLeft(N: nat, a: Arena, th: Thread): nat
    requires Linked(a, N) && InBounds(N, a, th)
  {
    var len := |a.owner|;
    match th
    case Idle => 0
    case SegLoad(n) => BeforeGrowing(N, a, n) + Visits(N, len - n) + 2 * N + 4
    case SegCas(_, _) => 1
    case HintLoad(n) => BeforeGrowing(N, a, n) + Visits(N, len - n) + 2 * N + 3
    case ScanLoad(n, _, i) => BeforeGrowing(N, a, n) + Visits(N, len - n) + 2 * (N - i) + 2
    case ScanCas(n, _, i, _) => BeforeGrowing(N, a, n) + Visits(N, len - n) + 2 * (N - i) + 1
    case Descend(n, _, _) => Visits(N, len - n) + 1
    case CreFlag(_, m) =>
      if Sum(a.size[0]) == 0 then AfterGrowing(N, len) + Visits(N, len - m) + 2 * N + 5
      else Visits(N, len) + 2 * N + 5
    case CreCap(_, m, i, _) => AfterGrowing(N, len) + Visits(N, len - m) + 2 * (N - i) + 4
    case CreSize(_, m, i, _) => AfterGrowing(N, len) + Visits(N, len - m) + 2 * (N - i) + 3
    case CreChild(_, m, _) => AfterGrowing(N, len) + Visits(N, len - m) + 2
    case CreCas(_, _, _) => AfterGrowing(N, len) + 1
    case AddSize(c, _, after) => if after.Retry? then Visits(N, len) + 2 * N + 5 + len + c else c
    case AddCap(c, _, _) => Visits(N, len) + 2 * N + 5 + c
    case RelLoad(_) => len + 2
    case RelCas(_, _) => len + 1
  }

  /** The next state is fewer steps from the end of the call. */
  ghost predicate CountsDown(N: nat, s: State, t: nat, s': State) {
    && CanStep(N, s) && CanStep(N, s') && t < |s.threads| == |s'.threads|
    && InBounds(N, s.arena, s.threads[t]) && InBounds(N, s'.arena, s'.threads[t])
    && StepsLeft(N, s'.arena, s'.threads[t]) < StepsLeft(N, s.arena, s.threads[t])
  }

  lemma SegmentCountsDown(N: nat, s: State, t: nat, ch: Choice)
    requires Able(N, s, t) && Able(N, Do(N, s, t, ch), t) && !ch.spurious
    requires var th := s.threads[t]; th.SegLoad? || th.SegCas? || th.RelLoad? || th.RelCas?
    ensures CountsDown(N, s, t, Do(N, s, t, ch))
  {
    hide ComesBack, Visits;
  }

  lemma ScanCountsDown(N: nat, s: State, t: nat, ch: Choice)
    requires Able(N, s, t) && Able(N, Do(N, s, t, ch), t) && !ch.spurious
    requires var th := s.threads[t]; th.HintLoad? || th.ScanLoad? || th.ScanCas?
    ensures CountsDown(N, s, t, Do(N, s, t, ch))
  {
    hide ComesBack, Visits;
    var th := s.threads[t];
    if th.ScanCas? { SumAtLeast(s.arena.size[th.n], ScanId(N, th.index, th.i)); }
  }

  lemma DescendCountsDown(N: nat, s: State, t: nat, ch: Choice)
    requires Able(N, s, t) && Able(N, Do(N, s, t, ch), t) && s.threads[t].Descend?
    ensures CountsDown(N, s, t, Do(N, s, t, ch))
  {
    hide ComesBack, Visits;
    var a, th := s.arena, s.threads[t];
    var c := th.child.value;
    assert IsEdge(a, Edge(th.n, th.id), c);
    VisitsGrow(N, |a.owner| - c, |a.owner| - th.n);
  }

  lemma CreateCountsDown(N: nat, s: State, t: nat, ch: Choice)
    requires Able(N, s, t) && Able(N, Do(N, s, t, ch), t)
    requires var th := s.threads[t]; th.CreCap? || th.CreSize?
    ensures CountsDown(N, s, t, Do(N, s, t, ch))
  {
    hide ComesBack, Visits, FirstLeast, AfterGrowing, Sum;
    NoSizes(N, s.arena, s.threads[t].m);
  }

  lemma LookCountsDown(N: nat, s: State, t: nat, ch: Choice)
    requires Able(N, s, t) && Able(N, Do(N, s, t, ch), t) && s.threads[t].CreFlag?
    ensures CountsDown(N, s, t, Do(N, s, t, ch))
  {
    hide ComesBack, Visits, AfterGrowing, Sum;
    if !ComesBack(s.arena, N, s.threads[t].m) {
      NoSizes(N, s.arena, s.threads[t].m);
    }
  }

  lemma ChildCountsDown(N: nat, s: State, t: nat, ch: Choice)
    requires Able(N, s, t) && Able(N, Do(N, s, t, ch), t) && s.threads[t].CreChild?
    ensures CountsDown(N, s, t, Do(N, s, t, ch))
  {
    hide ComesBack, Visits, FirstLeast;
    var a, th := s.arena, s.threads[t];
    if a.childs[th.m][th.id].Some? {
      var c := a.childs[th.m][th.id].value;
      assert IsEdge(a, Edge(th.m, th.id), c);
      VisitsGrow(N, |a.owner| - c, |a.owner| - th.m);
    }
  }

  lemma PublishCountsDown(N: nat, s: State, t: nat, ch: Choice)
    requires Able(N, s, t) && Able(N, Do(N, s, t, ch), t) && !ch.spurious && s.threads[t].CreCas?
    ensures CountsDown(N, s, t, Do(N, s, t, ch))
  {
    hide ComesBack, Visits, FirstLeast, Sum;
  }

  lemma CreditCountsDown(N: nat, s: State, t: nat, ch: Choice)
    requires Able(N, s, t) && Able(N, Do(N, s, t, ch), t)
    requires var th := s.threads[t]; th.AddSize? || th.AddCap?
    ensures CountsDown(N, s, t, Do(N, s, t, ch))
  {
    hide ComesBack, Visits, FirstLeast;
    assert IsEdge(s.arena, s.arena.owner[s.threads[t].c].value, s.threads[t].c);
  }

  lemma StepCountsDown(N: nat, s: State, t: nat, ch: Choice)
    requires Inv(N, s) && Able(N, s, t) && s.threads[t] != Idle && !ch.spurious
    requires IsPow2(N) || !Acquiring(s.threads[t])
    ensures Inv(N, Do(N, s, t, ch)) && Able(N, Do(N, s, t, ch), t) && CountsDown(N, s, t, Do(N, s, t, ch))
    ensures !Acquiring(s.threads[t]) ==> !Acquiring(Do(N, s, t, ch).threads[t])
  {
    hide Do, Expects, InBounds, Laws, Covered, Handles, Shape, CountsDown, IsPow2;
    StepKeepsAble(N, s, t, ch);
    NoOrphan(N, s, t);
    match s.threads[t]
    case SegLoad(_) => SegmentCountsDown(N, s, t, ch);
    case SegCas(_, _) => SegmentCountsDown(N, s, t, ch);
    case RelLoad(_) => SegmentCountsDown(N, s, t, ch);
    case RelCas(_, _) => SegmentCountsDown(N, s, t, ch);
    case HintLoad(_) => ScanCountsDown(N, s, t, ch);
    case ScanLoad(_, _, _) => ScanCountsDown(N, s, t, ch);
    case ScanCas(_, _, _, _) => ScanCountsDown(N, s, t, ch);
    case Descend(_, _, _) => DescendCountsDown(N, s, t, ch);
    case CreFlag(_, _) => LookCountsDown(N, s, t, ch);
    case CreCap(_, _, _, _) => CreateCountsDown(N, s, t, ch);
    case CreSize(_, _, _, _) => CreateCountsDown(N, s, t, ch);
    case CreChild(_, _, _) => ChildCountsDown(N, s, t, ch);
    case CreCas(_, _, _) => PublishCountsDown(N, s, t, ch);
    case AddSize(_, _, _) => CreditCountsDown(N, s, t, ch);
    case AddCap(_, _, _) => CreditCountsDown(N, s, t, ch);
  }

  // ---- bounds ----

  /** Enough steps for any call in a pool of `len` nodes. */
  function CallBound(N: nat, len: nat): nat {
    4 * (len + 1) * (2 * N + 10)
  }

  lemma BoundIs(N: nat, len: nat)
    ensures CallBound(N, len) == 4 * Visits(N, len + 1)
  {
  }

  lemma NodesFit(N: nat, len: nat)
    ensures 10 * len <= Visits(N, len)
  {
  }

  lemma StepsBound(N: nat, a: Arena, th: Thread)
    requires Linked(a, N) && InBounds(N, a, th)
    ensures StepsLeft(N, a, th) <= CallBound(N, |a.owner|)
  {
    hide Visits, CallBound, Sum, IsEdge;
    var len := |a.owner|;
    forall k: nat | k <= len ensures Visits(N, k) <= Visits(N, len) {
      if k < len { VisitsGrow(N, k, len); }
    }
    OneMoreVisit(N, len);
    NodesFit(N, len);
    BoundIs(N, len);
  }

  // ---- a thread that is not disturbed ----

  ghost predicate MovesTo(N: nat, s: State, t: nat, s': State) {
    && CanStep(N, s) && t < |s.threads| && s.threads[t] != Idle
    && exists ch: Choice :: !ch.spurious && s' == Do(N, s, t, ch)
  }

  /** Only thread `t` moves, inside one call, and no exchange fails without a reason. */
  ghost predicate AloneInCall(N: nat, path: seq<State>, t: nat) {
    && |path| > 0 && Inv(N, path[0]) && t < |path[0].threads|
    && forall k :: 0 <= k < |path| - 1 ==> MovesTo(N, path[k], t, path[k + 1])
  }

  lemma RestIsAlone(N: nat, path: seq<State>, t: nat)
    requires |path| > 1 && AloneInCall(N, path, t) && Inv(N, path[1]) && t < |path[1].threads|
    ensures AloneInCall(N, path[1..], t)
  {
    hide Inv, MovesTo;
    forall k | 0 <= k < |path[1..]| - 1 ensures MovesTo(N, path[1..][k], t, path[1..][k + 1]) {
      assert MovesTo(N, path[k + 1], t, path[k + 1 + 1]);
    }
  }

  lemma {:induction false} AbleCountsDown(N: nat, path: seq<State>, t: nat)
    requires AloneInCall(N, path, t) && Able(N, path[0], t) && (IsPow2(N) || !Acquiring(path[0].threads[t]))
    ensures |path| - 1 <= StepsLeft(N, path[0].arena, path[0].threads[t])
    decreases |path|
  {
    hide Do, Expects, InBounds, Laws, Covered, Handles, Shape, StepsLeft, IsPow2;
    if |path| > 1 {
      assert MovesTo(N, path[0], t, path[0 + 1]);
      var ch: Choice :| !ch.spurious && path[1] == Do(N, path[0], t, ch);
      StepCountsDown(N, path[0], t, ch);
      RestIsAlone(N, path, t);
      AbleCountsDown(N, path[1..], t);
    }
  }

  /** A thread that can count on what it expects finishes its call. */
  lemma AbleFinishes(N: nat, path: seq<State>, t: nat)
    requires AloneInCall(N, path, t) && Able(N, path[0], t) && (IsPow2(N) || !Acquiring(path[0].threads[t]))
    ensures |path| - 1 <= 4 * (|path[0].arena.owner| + 1) * (2 * N + 10)
  {
    hide Do, Expects, InBounds, Inv, StepsLeft, IsPow2;
    AbleCountsDown(N, path, t);
    StepsBound(N, path[0].arena, path[0].threads[t]);
  }

  /** A release that nobody disturbs ends, whatever the other threads have under way, for any number of children. */
  lemma ReleaseFinishes(N: nat, path: seq<State>, t: nat)
    requires AloneInCall(N, path, t) && path[0].threads[t].RelLoad?
    ensures |path| - 1 <= 4 * (|path[0].arena.owner| + 1) * (2 * N + 10)
  {
    hide Do, IsPow2;
    assert InBounds(N, path[0].arena, path[0].threads[t]);
    AbleFinishes(N, path, t);
  }
}
