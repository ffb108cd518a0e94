/** The linear pool's machine with a single thread: every call does what the pool of one thread does. */
module LinearSolo {
  import opened Options
  import opened Slots
  import opened Demand
  import opened LinearSteps

  /** What the only thread knows, as nobody else moves. */
  ghost predicate Knows(free: seq<set<nat>>, next: seq<Option<nat>>, th: Thread) {
    match th
    case SegLoad(k) => EmptyBefore(free, k)
    case SegCas(k, flag) => EmptyBefore(free, k) && k < |free| && free[k] == flag
    case NextLoad(k) => EmptyBefore(free, k + 1)
    case NextCas(k) => EmptyBefore(free, k + 1) && k < |next| && next[k] == None
    case RelCas(h, flag) => h.node < |free| && free[h.node] == flag
    case _ => true
  }

  ghost predicate EmptyBefore(free: seq<set<nat>>, k: nat) {
    forall j :: 0 <= j < k && j < |free| ==> free[j] == {}
  }

  ghost predicate Solo(s: State) {
    Inv(s) && |s.threads| == 1 && Knows(s.free, s.next, s.threads[0])
  }

  lemma StepKeepsKnows(s: State, ch: Choice)
    requires CanStep(s) && Chained(s.next) && |s.threads| == 1 && InBounds(|s.free|, s.threads[0])
    requires Knows(s.free, s.next, s.threads[0])
    ensures var s' := Do(s, 0, ch);
            |s'.threads| == 1 && Knows(s'.free, s'.next, s'.threads[0])
  {
  }

  lemma SoloFacts(s: State)
    requires Solo(s)
    ensures Inv(s) && CanStep(s) && Chained(s.next) && HoldersOf(s) && |s.threads| == 1
    ensures InBounds(|s.free|, s.threads[0]) && Knows(s.free, s.next, s.threads[0])
  {
    assert InBounds(|s.free|, s.threads[0]);
  }

  lemma StepKeepsSolo(s: State, ch: Choice)
    requires Solo(s)
    ensures CanStep(s) && Solo(Do(s, 0, ch))
  {
    hide Inv, CanStep, Chained, HoldersOf, Knows, Do;
    SoloFacts(s);
    StepKeepsInv(s, 0, ch);
    StepKeepsKnows(s, ch);
  }

  lemma InitSolo(s: State)
    requires Init(s) && |s.threads| == 1
    ensures Solo(s)
  {
    InitInv(s);
  }

  lemma {:induction false} RunIsSolo(run: seq<State>, k: nat)
    requires IsRun(run) && k < |run| && |run[0].threads| == 1
    ensures Solo(run[k]) && |run[k].threads| == 1
  {
    hide Inv, Init, Knows, Do, CanStep;
    if k == 0 {
      InitSolo(run[0]);
    } else {
      RunIsSolo(run, k - 1);
      SoloFacts(run[k - 1]);
      assert Next(run[k - 1], run[k - 1 + 1]);
      var t: nat, ch :| t < |run[k - 1].threads| && run[k] == Do(run[k - 1], t, ch);
      StepKeepsSolo(run[k - 1], ch);
    }
  }

  // ---- what a call does, from its first step to its last ----

  /** An acquire that began with `free` and `live` is under way. */
  ghost predicate Since(free: seq<set<nat>>, live: set<Handle>, s: State) {
    && s.live == live
    && (s.free == free || (s.free == Supply(free) && TotalFree(free) == 0))
  }

  /** What an acquire by one thread has done: the first node that has a free slot gives its least one. */
  ghost predicate FirstFit(free: seq<set<nat>>, live: set<Handle>, free': seq<set<nat>>, live': set<Handle>) {
    exists h :: HandsOut(free, live, free', live', h) && EmptyBefore(Supply(free), h.node)
  }

  lemma AcquireTakes(s: State, ch: Choice, free: seq<set<nat>>, live: set<Handle>)
    requires Solo(s) && s.threads[0].SegCas? && !ch.spurious && Since(free, live, s)
    ensures CanStep(s) && InBounds(|s.free|, s.threads[0])
    ensures Do(s, 0, ch).threads[0] == Idle && FirstFit(free, live, Do(s, 0, ch).free, Do(s, 0, ch).live)
  {
    hide Inv, Holders;
    SoloFacts(s);
    var th, s' := s.threads[0], Do(s, 0, ch);
    NothingFree(s.free);
    var h := Handle(th.k, Least(th.flag));
    TakeKeepsHolders(s.free, Returnings(s.threads), s.live, th.k, h.slot);
    assert s.free == Supply(free);
    assert HandsOut(free, live, s'.free, s'.live, h) && EmptyBefore(Supply(free), h.node);
  }

  lemma AcquireGoesOn(s: State, ch: Choice, free: seq<set<nat>>, live: set<Handle>)
    requires Solo(s) && Acquiring(s.threads[0]) && Since(free, live, s) && (s.threads[0].SegCas? ==> ch.spurious)
    ensures CanStep(s) && InBounds(|s.free|, s.threads[0])
    ensures Acquiring(Do(s, 0, ch).threads[0]) && Since(free, live, Do(s, 0, ch))
  {
    hide Inv, Holders;
    SoloFacts(s);
    NothingFree(s.free);
    if Do(s, 0, ch).free != s.free {
      assert Do(s, 0, ch).free == s.free + [AllSlots()];
      TotalFreeAppend(free, AllSlots());
    }
  }

  lemma AcquireStep(s: State, ch: Choice, free: seq<set<nat>>, live: set<Handle>)
    requires Solo(s) && Acquiring(s.threads[0]) && Since(free, live, s)
    ensures CanStep(s) && InBounds(|s.free|, s.threads[0]) && |Do(s, 0, ch).threads| == 1
    ensures var s' := Do(s, 0, ch);
            || (Acquiring(s'.threads[0]) && Since(free, live, s'))
            || (s'.threads[0] == Idle && FirstFit(free, live, s'.free, s'.live))
  {
    hide Inv, Since, FirstFit, Knows;
    if s.threads[0].SegCas? && !ch.spurious {
      AcquireTakes(s, ch, free, live);
    } else {
      AcquireGoesOn(s, ch, free, live);
    }
  }

  /** The run is inside one call from state `j + 1` to state `k`, where it has ended. */
  ghost predicate OneCall(run: seq<State>, j: nat, k: nat) {
    && IsRun(run) && j + 1 < k < |run| && |run[0].threads| == 1
    && (forall i :: j <= i <= k ==> |run[i].threads| == 1)
    && run[j].threads[0] == Idle && run[k].threads[0] == Idle
    && forall i :: j < i < k ==> run[i].threads[0] != Idle
  }

  lemma SoloNext(run: seq<State>, k: nat) returns (ch: Choice)
    requires IsRun(run) && k + 1 < |run| && |run[0].threads| == 1
    ensures Solo(run[k]) && CanStep(run[k]) && |run[k].threads| == 1 && InBounds(|run[k].free|, run[k].threads[0])
    ensures run[k + 1] == Do(run[k], 0, ch)
  {
    hide Do, Inv, Knows, Init;
    RunIsSolo(run, k);
    SoloFacts(run[k]);
    assert Next(run[k], run[k + 1]);
    var t: nat, c :| t < |run[k].threads| && run[k + 1] == Do(run[k], t, c);
    ch := c;
  }

  lemma StepGrowsWhenFull(s: State, ch: Choice)
    requires Solo(s) && CanStep(s) && InBounds(|s.free|, s.threads[0]) && |Do(s, 0, ch).free| != |s.free|
    ensures Acquiring(s.threads[0]) && TotalFree(s.free) == 0 && |s.live| == W * |s.free|
    ensures |Do(s, 0, ch).free| == |s.free| + 1
  {
    NothingFree(s.free);
    assert InReturn(Returnings(s.threads)) == {};
    assert s.live + {} == s.live;
  }

  /** A node is added only when every slot of the pool is live. */
  lemma GrowsOnlyWhenFull(run: seq<State>, k: nat)
    requires IsRun(run) && k + 1 < |run| && |run[0].threads| == 1 && |run[k + 1].free| != |run[k].free|
    ensures TotalFree(run[k].free) == 0 && |run[k].live| == W * |run[k].free| && |run[k + 1].free| == |run[k].free| + 1
  {
    hide Do, Inv, Knows, Init;
    var ch := SoloNext(run, k);
    StepGrowsWhenFull(run[k], ch);
  }

  lemma Begins(s: State, ch: Choice)
    requires Solo(s) && CanStep(s) && |s.threads| == 1 && s.threads[0] == Idle
    ensures var s' := Do(s, 0, ch);
            && |s'.threads| == 1
            && (s'.threads[0].SegLoad? ==> Since(s.free, s.live, s'))
            && (s'.threads[0].RelLoad? ==>
                  s'.free == s.free && s'.threads[0].h in s.live && s'.live == s.live - {s'.threads[0].h})
  {
  }

  lemma {:induction false} AcquireUnderWay(run: seq<State>, j: nat, k: nat, i: nat)
    requires OneCall(run, j, k) && j < i < k && run[j + 1].threads[0].SegLoad?
    ensures Acquiring(run[i].threads[0]) && Since(run[j].free, run[j].live, run[i])
  {
    hide Do, Solo, Since, IsRun, FirstFit, CanStep;
    var ch := SoloNext(run, i - 1);
    if i == j + 1 {
      Begins(run[j], ch);
    } else {
      AcquireUnderWay(run, j, k, i - 1);
      AcquireStep(run[i - 1], ch, run[j].free, run[j].live);
    }
  }

  /** An acquire by one thread does what the pool of one thread does: first fit, and growth of a full pool only. */
  lemma AcquireAlone(run: seq<State>, j: nat, k: nat)
    requires OneCall(run, j, k) && run[j + 1].threads[0].SegLoad?
    ensures FirstFit(run[j].free, run[j].live, run[k].free, run[k].live)
  {
    hide Do, Solo, Since, IsRun, FirstFit, CanStep;
    AcquireUnderWay(run, j, k, k - 1);
    var ch := SoloNext(run, k - 1);
    AcquireStep(run[k - 1], ch, run[j].free, run[j].live);
  }

  lemma ReleaseStep(s: State, ch: Choice, h: Handle)
    requires Solo(s) && |s.threads| == 1 && Returning(s.threads[0]) == Some(h)
    ensures CanStep(s) && InBounds(|s.free|, s.threads[0])
    ensures var s' := Do(s, 0, ch);
            && |s'.threads| == 1 && s'.live == s.live
            && ((Returning(s'.threads[0]) == Some(h) && s'.free == s.free)
                || (s'.threads[0] == Idle && h.node < |s.free| && h.slot !in s.free[h.node]
                    && s'.free == s.free[h.node := s.free[h.node] + {h.slot}]))
  {
    hide Inv, Holders;
    SoloFacts(s);
    FreeKeepsHolders(s.free, Returnings(s.threads), s.live, 0, h);
  }

  lemma {:induction false} ReleaseUnderWay(run: seq<State>, j: nat, k: nat, i: nat, h: Handle)
    requires OneCall(run, j, k) && j < i < k && run[j + 1].threads[0] == RelLoad(h)
    ensures Returning(run[i].threads[0]) == Some(h)
    ensures run[i].free == run[j].free && h in run[j].live && run[i].live == run[j].live - {h}
  {
    hide Do, Solo, IsRun, CanStep;
    var ch := SoloNext(run, i - 1);
    if i == j + 1 {
      Begins(run[j], ch);
    } else {
      ReleaseUnderWay(run, j, k, i - 1, h);
      ReleaseStep(run[i - 1], ch, h);
    }
  }

  /** A release by one thread gives exactly its slot back. */
  lemma ReleaseAlone(run: seq<State>, j: nat, k: nat, h: Handle)
    requires OneCall(run, j, k) && run[j + 1].threads[0] == RelLoad(h)
    ensures TakesBack(run[j].free, run[j].live, run[k].free, run[k].live, h)
  {
    hide Do, Solo, IsRun, CanStep;
    ReleaseUnderWay(run, j, k, k - 1, h);
    var ch := SoloNext(run, k - 1);
    ReleaseStep(run[k - 1], ch, h);
  }

  // ---- how many nodes there are ----

  function MomentOf(s: State): Moment
    requires |s.threads| == 1
  {
    Moment(|s.live|, |s.free|, Acquiring(s.threads[0]))
  }

  lemma LiveBound(s: State)
    requires Inv(s)
    ensures |s.live| <= W * |s.free|
  {
    var held := s.live + InReturn(Returnings(s.threads));
    assert held == s.live + (held - s.live);
  }

  lemma StepOnDemand(s: State, ch: Choice)
    requires Solo(s) && CanStep(s) && InBounds(|s.free|, s.threads[0]) && Solo(Do(s, 0, ch))
    ensures |s.threads| == 1 == |Do(s, 0, ch).threads| && OnDemand(MomentOf(s), MomentOf(Do(s, 0, ch)))
  {
    hide Inv, Knows, Do;
    SoloFacts(s);
    var s' := Do(s, 0, ch);
    LiveBound(s');
    if |s'.free| != |s.free| { StepGrowsWhenFull(s, ch); }
    if Acquiring(s.threads[0]) { AcquireCounts(s, ch); }
  }

  lemma AcquireCounts(s: State, ch: Choice)
    requires Solo(s) && CanStep(s) && InBounds(|s.free|, s.threads[0]) && Acquiring(s.threads[0])
    ensures var s' := Do(s, 0, ch);
            |s'.threads| == 1 && |s'.live| == |s.live| + if Acquiring(s'.threads[0]) then 0 else 1
  {
    hide FirstFit;
    AcquireStep(s, ch, s.free, s.live);
    if !Acquiring(Do(s, 0, ch).threads[0]) { OneMore(s.free, s.live, Do(s, 0, ch).free, Do(s, 0, ch).live); }
  }

  lemma OneMore(free: seq<set<nat>>, live: set<Handle>, free': seq<set<nat>>, live': set<Handle>)
    requires FirstFit(free, live, free', live')
    ensures |live'| == |live| + 1
  {
  }

  function LiveCounts(run: seq<State>): (s: seq<nat>)
    ensures |s| == |run| && forall i :: 0 <= i < |s| ==> s[i] == |run[i].live|
  {
    seq(|run|, i requires 0 <= i < |run| => |run[i].live|)
  }

  /**
   * Whenever no call is in progress, the pool has max(1, ceil(peak / 64)) nodes, for the largest number of handles
   * that have ever been live.
   */
  lemma IdleHasLeastNodes(run: seq<State>, k: nat)
    requires IsRun(run) && k < |run| && |run[0].threads| == 1
    requires |run[k].threads| == 1 && run[k].threads[0] == Idle
    ensures JustEnough(|run[k].free|, LiveCounts(run[..k + 1]))
  {
    hide Do, Knows, CanStep, Inv;
    forall i: nat | i < |run| ensures |run[i].threads| == 1 { RunIsSolo(run, i); }
    var past := seq(k + 1, i requires 0 <= i <= k => MomentOf(run[i]));
    forall i | 0 <= i < |past| - 1 ensures OnDemand(past[i], past[i + 1]) {
      var ch := SoloNext(run, i);
      RunIsSolo(run, i + 1);
      StepOnDemand(run[i], ch);
    }
    IdleHasJustEnough(past);
    assert Lives(past) == LiveCounts(run[..k + 1]);
  }
}
