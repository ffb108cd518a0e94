/** The tree pool under any interleaving: what its users may rely on. */
module TreeTheorems {
  import opened Options
  import opened Sums
  import opened Slots
  import opened TreeArena
  import opened TreeSteps
  import opened TreeRuns

  /**
   * Conservation, in every reachable state: a child's counter at its owner, the reservations that
   * left it and are not used yet, and the credits on their way to it add up to the child's free
   * slots; likewise for capacity.
   */
  lemma ConservationLaw(N: nat, run: seq<State>, k: nat, c: nat)
    requires N > 0 && IsRun(N, run) && k < |run| && 0 < c < |run[k].arena.owner|
    ensures var a, ts := run[k].arena, run[k].threads;
            && a.owner[c].Some? && Shape(a, N)
            && var e := a.owner[c].value;
               && a.size[e.node][e.id] + Tally(ts, Reserved, c) + Tally(ts, Credit, c) == |a.free[c]| + Sum(a.size[c])
               && a.capacity[e.node][e.id] + Tally(ts, CapCredit, c) == W + Sum(a.capacity[c])
  {
    RunKeepsInv(N, run, k);
    var a, ts := run[k].arena, run[k].threads;
    assert SizeAt(a, N, c) + SizeOff(ts, |a.owner|)[c] == SizeOf(a, c);
    assert CapAt(a, N, c) + CapOff(ts, |a.owner|)[c] == CapOf(a, c);
  }

  /** The same, summed over the whole pool: the root sees all free slots but those under way. */
  lemma RootConservation(N: nat, run: seq<State>, k: nat)
    requires N > 0 && IsRun(N, run) && k < |run|
    ensures var a, ts := run[k].arena, run[k].threads;
            && |a.free| == |a.size| == |a.capacity| > 0
            && SizeOf(a, 0) + TallyBelow(ts, Reserved) + TallyBelow(ts, Credit) == TotalFree(a.free)
            && CapOf(a, 0) + TallyBelow(ts, CapCredit) == W * |a.owner|
  {
    RunKeepsInv(N, run, k);
  }

  /** Away from the root, nobody looks for a child in vain: each looker has a slot announced for it. */
  lemma ReservationsCovered(N: nat, run: seq<State>, k: nat, c: nat)
    requires N > 0 && IsRun(N, run) && k < |run| && 0 < c < |run[k].arena.owner|
    ensures c < |run[k].arena.size| && Tally(run[k].threads, Looker, c) <= Sum(run[k].arena.size[c])
  {
    RunKeepsInv(N, run, k);
  }

  /** A reserved place always has its node, so using a reservation never creates one. */
  lemma ReservedPlaceHasNode(N: nat, run: seq<State>, k: nat, t: nat)
    requires N > 0 && IsRun(N, run) && k < |run| && t < |run[k].threads|
    ensures !run[k].threads[t].Orphan?
    ensures run[k].threads[t].Descend? ==>
              var th, a := run[k].threads[t], run[k].arena;
              th.n < |a.childs| && th.id < |a.childs[th.n]| && a.childs[th.n][th.id].Some?
  {
    RunKeepsInv(N, run, k);
    assert InBounds(N, run[k].arena, run[k].threads[t]);
  }

  /** Every slot is free, or held by one user, or by one call that is giving it back. */
  lemma EverySlotHasOneHolder(N: nat, run: seq<State>, k: nat, h: Handle)
    requires N > 0 && IsRun(N, run) && k < |run|
    requires h.node < |run[k].arena.free| && h.slot < W
    ensures var free := h.slot in run[k].arena.free[h.node];
            var live := h in run[k].live;
            var returning := h in ReturningSet(run[k].threads);
            && (free || live || returning)
            && !(free && live) && !(free && returning) && !(live && returning)
    ensures forall t, u :: 0 <= t < u < |run[k].threads| && Returning(run[k].threads[t]) == Some(h) ==>
              Returning(run[k].threads[u]) != Some(h)
  {
    RunKeepsInv(N, run, k);
    var rs := Returnings(run[k].threads);
    assert h in run[k].live + ReturningSet(run[k].threads) <==> h.slot !in run[k].arena.free[h.node];
  }

  /** Only the exchange that takes a bit hands out a handle. */
  lemma HandedOutBy(N: nat, s: State, t: nat, ch: Choice, h: Handle)
    requires CanStep(N, s) && t < |s.threads|
    requires h !in s.live && h in Do(N, s, t, ch).live
    ensures s.threads[t].SegCas? && !ch.spurious && h.node < |s.arena.free| && s.threads[t].flag == s.arena.free[h.node]
    ensures s.threads[t].flag != {} && h == Handle(s.threads[t].n, Least(s.threads[t].flag))
  {
    assert InBounds(N, s.arena, s.threads[t]);
  }

  /**
   * Whenever the exchange of a segment's acquire succeeds, the handle it hands out is held by nobody, neither a
   * user nor a call that is giving it back, and is the segment's lowest free slot.
   */
  lemma HandedOutFresh(N: nat, run: seq<State>, k: nat, t: nat, ch: Choice)
    requires N > 0 && IsRun(N, run) && k + 1 < |run| && t < |run[k].threads|
    requires CanStep(N, run[k]) && run[k + 1] == Do(N, run[k], t, ch)
    requires run[k].threads[t].SegCas? && !ch.spurious && run[k].threads[t].n < |run[k].arena.free|
    requires run[k].arena.free[run[k].threads[t].n] == run[k].threads[t].flag
    ensures var n, flag := run[k].threads[t].n, run[k].threads[t].flag;
            && flag != {}
            && var h := Handle(n, Least(flag));
               && h !in run[k].live && h !in ReturningSet(run[k].threads)
               && h.slot in run[k].arena.free[n] && h.slot !in run[k + 1].arena.free[n]
               && run[k + 1].live == run[k].live + {h}
  {
    RunKeepsInv(N, run, k);
    assert InBounds(N, run[k].arena, run[k].threads[t]);
    TakeStepKeepsInv(N, run[k], t, ch, run[k].threads[t].n, run[k].threads[t].flag);
  }

  predicate Acquiring(th: Thread) {
    At(th).Some?
  }

  /**
   * A step of a thread inside acquire leaves it there and hands out nothing, or ends the call with exactly one
   * more live handle, a slot that was free.
   */
  lemma AcquireOutcome(N: nat, run: seq<State>, k: nat, t: nat, ch: Choice)
    requires N > 0 && IsRun(N, run) && k + 1 < |run| && t < |run[k].threads|
    requires CanStep(N, run[k]) && run[k + 1] == Do(N, run[k], t, ch) && Acquiring(run[k].threads[t])
    ensures |run[k + 1].threads| == |run[k].threads|
    ensures var s, s' := run[k], run[k + 1];
            || (Acquiring(s'.threads[t]) && s'.live == s.live)
            || (s'.threads[t] == Idle
                && exists h :: h !in s.live && s'.live == s.live + {h} && h.node < |s.arena.free|
                               && IsLeast(h.slot, s.arena.free[h.node]) && s'.arena.free == Without(s.arena.free, h))
  {
    hide Inv;
    RunKeepsInv(N, run, k);
    AcquireStep(N, run[k], t, ch);
  }

  /** The handle that a successful exchange of thread `t` hands out. */
  function Taken(th: Thread): Handle
    requires th.SegCas? && th.flag != {}
  {
    Handle(th.n, Least(th.flag))
  }

  lemma AcquireStep(N: nat, s: State, t: nat, ch: Choice)
    requires Inv(N, s) && t < |s.threads| && CanStep(N, s) && Acquiring(s.threads[t])
    ensures |Do(N, s, t, ch).threads| == |s.threads|
    ensures var th, s' := s.threads[t], Do(N, s, t, ch);
            || (Acquiring(s'.threads[t]) && s'.live == s.live)
            || (s'.threads[t] == Idle && th.SegCas? && !ch.spurious && th.flag != {}
                && var h := Taken(th);
                   && h !in s.live && s'.live == s.live + {h} && h.node < |s.arena.free|
                   && th.flag == s.arena.free[h.node] && s'.arena.free == Without(s.arena.free, h))
  {
    hide Laws, Covered, Handles, NextSize, NextCap;
    var th := s.threads[t];
    assert InBounds(N, s.arena, th);
    if Local(N, s.arena, th, ch).Some? {
      LocalKeepsAt(N, s.arena, th, ch);
    } else if th.SegCas? {
      TakeStepKeepsInv(N, s, t, ch, th.n, th.flag);
    } else if th.AddSize? || th.AddCap? {
      CreditStays(N, s, t, ch);
    }
  }

  lemma CreditStays(N: nat, s: State, t: nat, ch: Choice)
    requires CanStep(N, s) && t < |s.threads| && (s.threads[t].AddSize? || s.threads[t].AddCap?)
    ensures At(Do(N, s, t, ch).threads[t]) == At(s.threads[t]) && Do(N, s, t, ch).live == s.live
    ensures Do(N, s, t, ch).arena.free == s.arena.free
  {
    assert InBounds(N, s.arena, s.threads[t]);
  }

  /** A local step keeps the node at which the thread's acquire waits. */
  lemma LocalKeepsAt(N: nat, a: Arena, th: Thread, ch: Choice)
    requires N > 0 && Shape(a, N) && InBounds(N, a, th) && Local(N, a, th, ch).Some?
    ensures At(Local(N, a, th, ch).value) == At(th)
  {
    hide Shape;
  }

  /**
   * A step of a thread inside release leaves the slot returning, or sets it free; a slot of a node below the root
   * is then owed to the counters above.
   */
  lemma ReleaseOutcome(N: nat, run: seq<State>, k: nat, t: nat, ch: Choice, h: Handle)
    requires N > 0 && IsRun(N, run) && k + 1 < |run| && t < |run[k].threads|
    requires CanStep(N, run[k]) && run[k + 1] == Do(N, run[k], t, ch) && Returning(run[k].threads[t]) == Some(h)
    ensures |run[k + 1].threads| == |run[k].threads| && run[k + 1].live == run[k].live
    ensures var s, s' := run[k], run[k + 1];
            || (Returning(s'.threads[t]) == Some(h) && s'.arena.free == s.arena.free)
            || (s'.threads[t] == (if h.node == 0 then Idle else AddSize(h.node, 1, Return))
                && h.node < |s.arena.free| && h.slot !in s.arena.free[h.node]
                && s'.arena.free == s.arena.free[h.node := s.arena.free[h.node] + {h.slot}])
  {
    hide Inv;
    RunKeepsInv(N, run, k);
    ReleaseStep(N, run[k], t, ch, h);
  }

  lemma ReleaseStep(N: nat, s: State, t: nat, ch: Choice, h: Handle)
    requires Inv(N, s) && t < |s.threads| && CanStep(N, s) && Returning(s.threads[t]) == Some(h)
    ensures |Do(N, s, t, ch).threads| == |s.threads| && Do(N, s, t, ch).live == s.live
    ensures var s' := Do(N, s, t, ch);
            || (Returning(s'.threads[t]) == Some(h) && s'.arena.free == s.arena.free)
            || (s'.threads[t] == (if h.node == 0 then Idle else AddSize(h.node, 1, Return))
                && h.node < |s.arena.free| && h.slot !in s.arena.free[h.node]
                && s'.arena.free == s.arena.free[h.node := s.arena.free[h.node] + {h.slot}])
  {
    hide Laws, Covered, Handles;
    assert InBounds(N, s.arena, s.threads[t]);
    ReturningSlot(N, s, t, h);
  }

  lemma ReturningSlot(N: nat, s: State, t: nat, h: Handle)
    requires Inv(N, s) && t < |s.threads| && Returning(s.threads[t]) == Some(h)
    ensures h.node < |s.arena.free| && h.slot !in s.arena.free[h.node]
  {
    hide Laws, Covered, CanStep;
    FreeKeepsHandles(s.arena.free, s.threads, s.live, t, Idle, h);
  }

  /**
   * What a thread goes on with is what it sees at that very moment, also after an exchange that failed; and what
   * it passes by is empty at that moment. It leaves a segment for the children, a child for the next one, and a
   * level of create_node_ for the level below only when there is nothing to take; it adds a node only at an empty
   * place, and looks at the node it has added.
   */
  ghost predicate SeesPresent(N: nat, a: Arena, th: Thread, th': Thread)
    requires N > 0 && Linked(a, N) && InBounds(N, a, th)
  {
    match th
    case SegLoad(n) => th' == SegCas(n, a.free[n]) || a.free[n] == {}
    case SegCas(n, _) => th' == SegCas(n, a.free[n]) || th'.Idle? || a.free[n] == {}
    case ScanLoad(n, index, i) =>
      var now := a.size[n][ScanId(N, index, i)];
      th' == ScanCas(n, index, i, now) || (now == 0 && ScansOn(N, n, index, i, th'))
    case ScanCas(n, index, i, _) =>
      var now := a.size[n][ScanId(N, index, i)];
      th' == ScanCas(n, index, i, now) || th'.Descend? || (now == 0 && ScansOn(N, n, index, i, th'))
    case CreFlag(n, m) => th' == HintLoad(n) || m == 0 || a.free[m] == {}
    case CreSize(n, m, i, _) => th' == HintLoad(n) || a.size[m][i] == 0
    case CreChild(n, m, id) => th' == GoesDown(a, n, m, id)
    case CreCas(n, m, id) => (th'.AddSize? && a.childs[m][id].None?) || th' == GoesDown(a, n, m, id)
    case AddCap(_, _, after) => th'.AddCap? || th' == CreFlag(after.n, after.child)
    case RelLoad(h) => th' == RelCas(h, a.free[h.node])
    case RelCas(h, _) => th' == RelCas(h, a.free[h.node]) || th'.Idle? || th'.AddSize?
    case _ => true
  }

  /** The next round of the scan, or create_node_ when there is none. */
  predicate ScansOn(N: nat, n: nat, index: nat, i: nat, th: Thread) {
    if i + 1 < N then th == ScanLoad(n, index, i + 1) else th == CreFlag(n, n)
  }

  /** create_node_ of the child there is, or another try to make it. */
  function GoesDown(a: Arena, n: nat, m: nat, id: nat): Thread
    requires m < |a.childs| && id < |a.childs[m]|
  {
    if a.childs[m][id].Some? then CreFlag(n, a.childs[m][id].value) else CreCas(n, m, id)
  }

  lemma NothingPassedBy(N: nat, run: seq<State>, k: nat, t: nat, ch: Choice)
    requires N > 0 && IsRun(N, run) && k + 1 < |run| && t < |run[k].threads|
    requires CanStep(N, run[k]) && run[k + 1] == Do(N, run[k], t, ch)
    ensures Linked(run[k].arena, N) && InBounds(N, run[k].arena, run[k].threads[t])
    ensures |run[k + 1].threads| == |run[k].threads|
    ensures SeesPresent(N, run[k].arena, run[k].threads[t], run[k + 1].threads[t])
  {
    assert InBounds(N, run[k].arena, run[k].threads[t]);
  }

  /** No link is ever changed or removed, and at most one node is added. */
  ghost predicate Grows(a: Arena, b: Arena) {
    && |a.owner| == |a.childs| <= |b.owner| == |b.childs|
    && (forall c :: 0 <= c < |a.owner| ==> b.owner[c] == a.owner[c])
    && (forall n :: 0 <= n < |a.childs| ==> |b.childs[n]| == |a.childs[n]|)
    && (forall n, i :: 0 <= n < |a.childs| && 0 <= i < |a.childs[n]| && a.childs[n][i].Some? ==>
          b.childs[n][i] == a.childs[n][i])
  }

  lemma StepGrows(N: nat, s: State, t: nat, ch: Choice)
    requires CanStep(N, s) && t < |s.threads|
    ensures Grows(s.arena, Do(N, s, t, ch).arena)
    ensures |Do(N, s, t, ch).arena.owner| <= |s.arena.owner| + 1
  {
    var th := s.threads[t];
    assert InBounds(N, s.arena, th);
    if th.CreCas? && Local(N, s.arena, th, ch).None? {
      assert Do(N, s, t, ch).arena == Publish(s.arena, th.m, th.id, AllSlots());
    } else if Local(N, s.arena, th, ch).None? {
      LinksUntouched(N, s, t, ch);
    }
  }

  lemma LinksUntouched(N: nat, s: State, t: nat, ch: Choice)
    requires CanStep(N, s) && t < |s.threads| && InBounds(N, s.arena, s.threads[t])
    requires Local(N, s.arena, s.threads[t], ch).None? && !s.threads[t].CreCas?
    ensures Do(N, s, t, ch).arena.owner == s.arena.owner && Do(N, s, t, ch).arena.childs == s.arena.childs
  {
  }

  lemma GrowsTransitive(a: Arena, b: Arena, c: Arena)
    requires Grows(a, b) && Grows(b, c)
    ensures Grows(a, c)
  {
  }

  lemma StateStays(N: nat, run: seq<State>, k: nat)
    requires N > 0 && IsRun(N, run) && k < |run|
    ensures Grows(run[k].arena, run[k].arena)
  {
    RunKeepsInv(N, run, k);
  }

  lemma {:induction false} ArenasGrow(arenas: seq<Arena>, j: nat, k: nat)
    requires j <= k < |arenas| && Grows(arenas[j], arenas[j])
    requires forall i :: 0 <= i < |arenas| - 1 ==> Grows(arenas[i], arenas[i + 1])
    ensures Grows(arenas[j], arenas[k])
    decreases k
  {
    if j < k {
      ArenasGrow(arenas, j, k - 1);
      assert Grows(arenas[k - 1], arenas[k - 1 + 1]);
      GrowsTransitive(arenas[j], arenas[k - 1], arenas[k]);
    }
  }

  lemma NextGrows(N: nat, run: seq<State>, k: nat)
    requires N > 0 && IsRun(N, run) && k + 1 < |run|
    ensures Grows(run[k].arena, run[k + 1].arena)
  {
    assert Next(N, run[k], run[k + 1]);
    var t: nat, ch :| t < |run[k].threads| && run[k + 1] == Do(N, run[k], t, ch);
    StepGrows(N, run[k], t, ch);
  }

  /** `childs_[id]`, `owner_` and `id_child_` are written once and then never again. */
  lemma GraphOnlyGrows(N: nat, run: seq<State>, j: nat, k: nat)
    requires N > 0 && IsRun(N, run) && j <= k < |run|
    ensures Grows(run[j].arena, run[k].arena)
  {
    var arenas := seq(|run|, i requires 0 <= i < |run| => run[i].arena);
    StateStays(N, run, j);
    forall i | 0 <= i < |arenas| - 1 ensures Grows(arenas[i], arenas[i + 1]) { NextGrows(N, run, i); }
    ArenasGrow(arenas, j, k);
  }

  /** No call is in progress. */
  ghost predicate AllIdle(s: State) {
    forall t :: 0 <= t < |s.threads| ==> s.threads[t] == Idle
  }

  lemma IdleIsSettled(N: nat, a: Arena, ts: seq<Thread>)
    requires Laws(N, a, ts) && forall t :: 0 <= t < |ts| ==> ts[t] == Idle
    ensures Settled(a, N)
  {
    forall r, c: nat ensures Tally(ts, r, c) == 0 { SumZero(Weights(ts, r, c)); }
    forall r ensures TallyBelow(ts, r) == 0 { SumZero(WeightsBelow(ts, r)); }
    assert SizeOff(ts, |a.owner|) == Zeros(|a.owner|);
    assert CapOff(ts, |a.owner|) == Zeros(|a.owner|);
  }

  /**
   * Whenever no call is in progress, whatever happened before: every counter is the exact total of
   * its subtree, and free slots and live handles together are all slots there are.
   */
  lemma QuietPoolIsExact(N: nat, run: seq<State>, k: nat)
    requires N > 0 && IsRun(N, run) && k < |run| && AllIdle(run[k])
    ensures var s := run[k];
            && Settled(s.arena, N)
            && (forall n :: 0 <= n < |s.arena.owner| ==>
                  && SizeOf(s.arena, n) == Under(s.arena, N, Sizes(s.arena.free), n)
                  && CapOf(s.arena, n) == Under(s.arena, N, Widths(|s.arena.owner|), n))
            && SizeOf(s.arena, 0) + |s.live| == CapOf(s.arena, 0) == W * |s.arena.owner|
  {
    RunKeepsInv(N, run, k);
    var a, ts := run[k].arena, run[k].threads;
    IdleIsSettled(N, a, ts);
    forall n | 0 <= n < |a.owner|
      ensures SizeOf(a, n) == Under(a, N, Sizes(a.free), n)
      ensures CapOf(a, n) == Under(a, N, Widths(|a.owner|), n)
    {
      SettledReports(a, N, n);
    }
    assert ReturningSet(ts) == {};
    assert run[k].live + {} == run[k].live;
  }

  /** Any state of a run can be continued by any thread with any choice of the environment. */
  lemma RunsGoOn(N: nat, run: seq<State>, t: nat, ch: Choice)
    requires N > 0 && IsRun(N, run) && t < |run[|run| - 1].threads|
    ensures CanStep(N, run[|run| - 1])
    ensures IsRun(N, run + [Do(N, run[|run| - 1], t, ch)])
  {
    RunKeepsInv(N, run, |run| - 1);
    var last, run' := run[|run| - 1], run + [Do(N, run[|run| - 1], t, ch)];
    forall k | 0 <= k < |run'| - 1 ensures Next(N, run'[k], run'[k + 1]) {
      if k < |run| - 1 { assert Next(N, run[k], run[k + 1]); }
    }
  }
}
