/** Whole calls of the tree pool's machine with a single thread: what they do, and what the pool then is. */
module TreeCalls {
  import opened Options
  import opened Words
  import opened Sums
  import opened Slots
  import opened Demand
  import opened TreeArena
  import opened TreeShape
  import opened TreeSteps
  import opened TreeRuns
  import opened TreeTheorems
  import opened TreeSolo

  // ---- what a call does, from its first step to its last ----

  /** The run is inside one call from state `j + 1` to state `k`, where it has ended. */
  ghost predicate OneCall(N: nat, run: seq<State>, j: nat, k: nat) {
    && N > 0 && IsRun(N, run) && j + 1 < k < |run| && |run[0].threads| == 1
    && (forall i :: j <= i <= k ==> |run[i].threads| == 1)
    && run[j].threads[0] == Idle && run[k].threads[0] == Idle
    && forall i :: j < i < k ==> run[i].threads[0] != Idle
  }

  /** An acquire that began with `free` and `live` is under way. */
  ghost predicate Since(free: seq<set<nat>>, live: set<Handle>, s: State) {
    && s.live == live
    && (s.arena.free == free || (s.arena.free == Supply(free) && TotalFree(free) == 0))
  }

  /**
   * What an acquire has done: it took the least slot of a node such that no node above it had a free slot, in the
   * pool as it was, or with one new node if nothing was free.
   */
  ghost predicate TopFit(owner: seq<Option<Edge>>, free: seq<set<nat>>, live: set<Handle>, free': seq<set<nat>>,
      live': set<Handle>) {
    exists h :: HandsOut(free, live, free', live', h) && EmptyAbove(owner, Supply(free), h.node)
  }

  lemma SoloFacts(N: nat, s: State)
    requires Solo(N, s)
    ensures Inv(N, s) && CanStep(N, s) && N > 0 && Shape(s.arena, N) && |s.threads| == 1
    ensures InBounds(N, s.arena, s.threads[0]) && |s.arena.free| == |s.arena.owner| > 0
    ensures Knows(N, s.arena, s.threads[0]) && Above(s.arena, s.threads[0])
  {
  }

  lemma AcquireGrows(N: nat, s: State, ch: Choice)
    requires Solo(N, s) && CanStep(N, s) && Acquiring(s.threads[0]) && Acquiring(Do(N, s, 0, ch).threads[0])
    ensures var s' := Do(N, s, 0, ch);
            || s'.arena.free == s.arena.free
            || (s'.arena.free == s.arena.free + [AllSlots()] && s'.arena.owner != s.arena.owner)
  {
    hide Inv, Above, Balanced, Knows;
  }

  lemma AcquireGoesOn(N: nat, s: State, ch: Choice, free: seq<set<nat>>, live: set<Handle>)
    requires Solo(N, s) && CanStep(N, s) && Since(free, live, s) && Acquiring(s.threads[0])
    requires Acquiring(Do(N, s, 0, ch).threads[0]) && Do(N, s, 0, ch).live == s.live
    ensures Since(free, live, Do(N, s, 0, ch))
  {
    hide Solo, Acquiring, Do, GrownAtLeast, Inv, Knows, Above, InBounds, Shape;
    SoloFacts(N, s);
    var s' := Do(N, s, 0, ch);
    AcquireGrows(N, s, ch);
    if s'.arena.free != s.arena.free {
      StepGrowsWhenFull(N, s, ch);
      TotalFreeAppend(free, AllSlots());
    }
  }

  lemma AcquireEnds(N: nat, s: State, free: seq<set<nat>>, live: set<Handle>, h: Handle, s': State)
    requires Solo(N, s) && Since(free, live, s) && s.threads[0].SegCas? && s.threads[0].flag != {}
    requires h == Taken(s.threads[0]) && h !in s.live && s'.live == s.live + {h} && h.node < |s.arena.free|
    requires h.slot in s.arena.free[h.node] && s.threads[0].flag == s.arena.free[h.node]
    requires s'.arena.free == Without(s.arena.free, h) && s'.arena.owner == s.arena.owner
    ensures TopFit(s'.arena.owner, free, live, s'.arena.free, s'.live)
  {
    hide Inv, Informed;
    NothingFree(s.arena.free);
    assert s.arena.free == Supply(free);
    assert HandsOut(free, live, s'.arena.free, s'.live, h);
  }

  lemma TakingKeepsOwner(N: nat, s: State, ch: Choice)
    requires Solo(N, s) && CanStep(N, s) && s.threads[0].SegCas?
    ensures Do(N, s, 0, ch).arena.owner == s.arena.owner
  {
    hide Inv, Knows, Above, Balanced;
  }

  /** A step of an acquire leaves it under way, or ends it having done what an acquire does. */
  lemma AcquireAdvances(N: nat, s: State, ch: Choice, free: seq<set<nat>>, live: set<Handle>)
    requires Solo(N, s) && CanStep(N, s) && Since(free, live, s) && Acquiring(s.threads[0])
    ensures |Do(N, s, 0, ch).threads| == 1
    ensures var s' := Do(N, s, 0, ch);
            || (Acquiring(s'.threads[0]) && Since(free, live, s'))
            || (s'.threads[0] == Idle && TopFit(s'.arena.owner, free, live, s'.arena.free, s'.live))
  {
    hide Solo, Acquiring, Do, TopFit, Since, Inv, Knows, Above, InBounds, Shape;
    SoloFacts(N, s);
    AcquireStep(N, s, 0, ch);
    var s' := Do(N, s, 0, ch);
    if Acquiring(s'.threads[0]) && s'.live == s.live {
      AcquireGoesOn(N, s, ch, free, live);
    } else {
      TakingKeepsOwner(N, s, ch);
      AcquireEnds(N, s, free, live, Taken(s.threads[0]), s');
    }
  }

  lemma Begins(N: nat, s: State, ch: Choice)
    requires Solo(N, s) && CanStep(N, s) && s.threads[0] == Idle
    ensures var s' := Do(N, s, 0, ch);
            && |s'.threads| == 1 && s'.arena == s.arena
            && (s'.threads[0].SegLoad? ==> Acquiring(s'.threads[0]) && Since(s.arena.free, s.live, s'))
            && (s'.threads[0].RelLoad? ==>
                  s'.threads[0].h in s.live && s'.live == s.live - {s'.threads[0].h})
  {
    hide Inv, Knows, Above, Balanced, Shape;
  }

  lemma {:induction false} AcquireUnderWay(N: nat, run: seq<State>, j: nat, k: nat, i: nat)
    requires OneCall(N, run, j, k) && j < i < k && run[j + 1].threads[0].SegLoad?
    ensures Acquiring(run[i].threads[0]) && Since(run[j].arena.free, run[j].live, run[i])
  {
    hide Do, Solo, Since, IsRun, TopFit, CanStep, Acquiring;
    var ch := SoloNext(N, run, i - 1);
    if i == j + 1 {
      Begins(N, run[j], ch);
    } else {
      AcquireUnderWay(N, run, j, k, i - 1);
      AcquireAdvances(N, run[i - 1], ch, run[j].arena.free, run[j].live);
    }
  }

  /** An acquire by one thread does what the pool of one thread does. */
  lemma AcquireAlone(N: nat, run: seq<State>, j: nat, k: nat)
    requires OneCall(N, run, j, k) && run[j + 1].threads[0].SegLoad?
    ensures TopFit(run[k].arena.owner, run[j].arena.free, run[j].live, run[k].arena.free, run[k].live)
  {
    hide Do, Solo, Since, IsRun, TopFit, CanStep;
    AcquireUnderWay(N, run, j, k, k - 1);
    var ch := SoloNext(N, run, k - 1);
    AcquireAdvances(N, run[k - 1], ch, run[j].arena.free, run[j].live);
  }

  // ---- releases ----

  /** The release of `h` that began with `free` and `live` has not given the slot back yet, or has. */
  ghost predicate ReleaseSince(free: seq<set<nat>>, live: set<Handle>, h: Handle, s: State) {
    && |s.threads| == 1 && h in live && s.live == live - {h}
    && ((Returning(s.threads[0]) == Some(h) && s.arena.free == free)
        || (!Acquiring(s.threads[0]) && Returning(s.threads[0]).None?
            && TakesBack(free, live, s.arena.free, s.live, h)))
  }

  lemma CreditReturns(N: nat, s: State, ch: Choice)
    requires Solo(N, s) && CanStep(N, s) && s.threads[0].AddSize? && s.threads[0].after.Return?
    ensures var s' := Do(N, s, 0, ch);
            && |s'.threads| == 1 && s'.live == s.live && s'.arena.free == s.arena.free
            && (s'.threads[0].Idle? || (s'.threads[0].AddSize? && s'.threads[0].after.Return?))
  {
    hide Inv, Knows, Above, Balanced;
  }

  lemma ReleaseAdvances(N: nat, s: State, ch: Choice, free: seq<set<nat>>, live: set<Handle>, h: Handle)
    requires Solo(N, s) && CanStep(N, s) && s.threads[0] != Idle && ReleaseSince(free, live, h, s)
    ensures ReleaseSince(free, live, h, Do(N, s, 0, ch))
  {
    hide Solo, Do, Inv, Knows, Above, InBounds, Shape;
    SoloFacts(N, s);
    if Returning(s.threads[0]).Some? {
      ReleaseStep(N, s, 0, ch, h);
    } else {
      CreditReturns(N, s, ch);
    }
  }

  lemma {:induction false} ReleaseUnderWay(N: nat, run: seq<State>, j: nat, k: nat, i: nat, h: Handle)
    requires OneCall(N, run, j, k) && j < i <= k && run[j + 1].threads[0] == RelLoad(h)
    ensures ReleaseSince(run[j].arena.free, run[j].live, h, run[i])
  {
    hide Do, Solo, IsRun, CanStep, TakesBack, Acquiring;
    var ch := SoloNext(N, run, i - 1);
    if i == j + 1 {
      Begins(N, run[j], ch);
    } else {
      ReleaseUnderWay(N, run, j, k, i - 1, h);
      ReleaseAdvances(N, run[i - 1], ch, run[j].arena.free, run[j].live, h);
    }
  }

  /** A release by one thread gives exactly its slot back. */
  lemma ReleaseAlone(N: nat, run: seq<State>, j: nat, k: nat, h: Handle)
    requires OneCall(N, run, j, k) && run[j + 1].threads[0] == RelLoad(h)
    ensures TakesBack(run[j].arena.free, run[j].live, run[k].arena.free, run[k].live, h)
  {
    hide Do, Solo, IsRun, CanStep, TakesBack, Acquiring;
    ReleaseUnderWay(N, run, j, k, k, h);
  }

  // ---- how many nodes there are ----

  function MomentOf(s: State): Moment
    requires |s.threads| == 1
  {
    Moment(|s.live|, |s.arena.owner|, Acquiring(s.threads[0]))
  }

  lemma SubsetSize(x: set<Handle>, y: set<Handle>)
    requires x <= y
    ensures |x| <= |y|
  {
    assert y == x + (y - x);
  }

  lemma LiveBound(N: nat, s: State)
    requires Inv(N, s)
    ensures |s.live| <= W * |s.arena.owner|
  {
    hide Laws, Covered;
    SubsetSize(s.live, s.live + ReturningSet(s.threads));
  }

  lemma StepOnDemand(N: nat, s: State, ch: Choice)
    requires Solo(N, s) && CanStep(N, s) && Solo(N, Do(N, s, 0, ch))
    ensures |s.threads| == 1 == |Do(N, s, 0, ch).threads| && OnDemand(MomentOf(s), MomentOf(Do(N, s, 0, ch)))
  {
    hide Solo, Do, LeastPath, Inv, Knows, Above, InBounds, Shape;
    SoloFacts(N, s);
    var s' := Do(N, s, 0, ch);
    SoloFacts(N, s');
    LiveBound(N, s');
    if s'.arena.owner != s.arena.owner {
      StepGrowsWhenFull(N, s, ch);
      AllSlotsLive(N, s);
    }
    if Acquiring(s.threads[0]) {
      AcquireStep(N, s, 0, ch);
    }
  }

  function LiveCounts(run: seq<State>): (s: seq<nat>)
    ensures |s| == |run| && forall i :: 0 <= i < |s| ==> s[i] == |run[i].live|
  {
    seq(|run|, i requires 0 <= i < |run| => |run[i].live|)
  }

  lemma FirstMoment(N: nat, s: State)
    requires N > 0 && Init(N, s) && |s.threads| == 1
    ensures MomentOf(s) == Moment(0, 1, false)
  {
  }

  /**
   * Whenever no call is in progress, the pool has max(1, ceil(peak / 64)) nodes, for the largest number of handles
   * that have ever been live.
   */
  lemma IdleHasLeastNodes(N: nat, run: seq<State>, k: nat)
    requires N > 0 && IsRun(N, run) && k < |run| && |run[0].threads| == 1
    requires |run[k].threads| == 1 && run[k].threads[0] == Idle
    ensures JustEnough(|run[k].arena.owner|, LiveCounts(run[..k + 1]))
  {
    hide Do, Solo, CanStep, Inv, Init;
    forall i: nat | i < |run| ensures |run[i].threads| == 1 {
      RunIsSolo(N, run, i);
      SoloFacts(N, run[i]);
    }
    var past := seq(k + 1, i requires 0 <= i <= k => MomentOf(run[i]));
    FirstMoment(N, run[0]);
    forall i | 0 <= i < |past| - 1 ensures OnDemand(past[i], past[i + 1]) {
      var ch := SoloNext(N, run, i);
      StepOnDemand(N, run[i], ch);
    }
    IdleHasJustEnough(past);
    assert Lives(past) == LiveCounts(run[..k + 1]);
  }
}
