/** The linear pool as a machine of threads: every atomic load and exchange is one step. */
module LinearSteps {
  import opened Options
  import opened Slots

  datatype Thread =
    | Idle
    | SegLoad(k: nat)                    // segment of node k: load flag_
    | SegCas(k: nat, flag: set<nat>)     // segment of node k: exchange flag_
    | NextLoad(k: nat)                   // get_or_create_node_: load next_
    | NextCas(k: nat)                    // get_or_create_node_: exchange next_
    | RelLoad(h: Handle)                 // release: load flag_
    | RelCas(h: Handle, flag: set<nat>)  // release: exchange flag_

  datatype Call = Acquire | Release(h: Handle)

  datatype Choice = Choice(call: Call, spurious: bool)

  /** Nodes are numbered in the order they are published; node 0 is the pool's own. */
  datatype State = State(free: seq<set<nat>>, next: seq<Option<nat>>, threads: seq<Thread>, live: set<Handle>)

  function Put(s: State, t: nat, th: Thread): State
    requires t < |s.threads|
  {
    s.(threads := s.threads[t := th])
  }

  predicate InBounds(len: nat, th: Thread) {
    match th
    case Idle => true
    case SegLoad(k) => k < len
    case SegCas(k, flag) => k < len && flag != {}
    case NextLoad(k) => k < len
    case NextCas(k) => k < len
    case RelLoad(h) => h.node < len
    case RelCas(h, _) => h.node < len
  }

  function AfterLoad(k: nat, flag: set<nat>): Thread {
    if flag == {} then NextLoad(k) else SegCas(k, flag)
  }

  ghost function Do(s: State, t: nat, ch: Choice): State
    requires |s.free| == |s.next| && t < |s.threads| && InBounds(|s.free|, s.threads[t])
  {
    match s.threads[t]
    case Idle => (
      match ch.call
      case Acquire => if |s.free| > 0 then Put(s, t, SegLoad(0)) else s
      case Release(h) => if h in s.live then Put(s, t, RelLoad(h)).(live := s.live - {h}) else s)
    case SegLoad(k) => Put(s, t, AfterLoad(k, s.free[k]))
    case SegCas(k, flag) =>
      if !ch.spurious && s.free[k] == flag then
        Put(s, t, Idle).(free := s.free[k := flag - {Least(flag)}], live := s.live + {Handle(k, Least(flag))})
      else
        Put(s, t, AfterLoad(k, s.free[k]))
    case NextLoad(k) => Put(s, t, if s.next[k].Some? then SegLoad(s.next[k].value) else NextCas(k))
    case NextCas(k) =>
      if s.next[k].Some? then Put(s, t, SegLoad(s.next[k].value))
      else if ch.spurious then s
      else Put(s, t, SegLoad(|s.free|)).(free := s.free + [AllSlots()], next := s.next[k := Some(|s.free|)] + [None])
    case RelLoad(h) => Put(s, t, RelCas(h, s.free[h.node]))
    case RelCas(h, flag) =>
      if !ch.spurious && s.free[h.node] == flag then
        Put(s, t, Idle).(free := s.free[h.node := flag + {h.slot}])
      else
        Put(s, t, RelCas(h, s.free[h.node]))
  }

  function Returning(th: Thread): Option<Handle> {
    match th
    case RelLoad(h) => Some(h)
    case RelCas(h, _) => Some(h)
    case _ => None
  }

  function Returnings(ts: seq<Thread>): (s: seq<Option<Handle>>)
    ensures |s| == |ts| && forall i :: 0 <= i < |s| ==> s[i] == Returning(ts[i])
  {
    seq(|ts|, i requires 0 <= i < |ts| => Returning(ts[i]))
  }

  ghost predicate CanStep(s: State) {
    && |s.free| == |s.next| > 0
    && forall t :: 0 <= t < |s.threads| ==> InBounds(|s.free|, s.threads[t])
  }

  ghost predicate Init(s: State) {
    s.free == [AllSlots()] && s.next == [None] && s.live == {}
        && forall t :: 0 <= t < |s.threads| ==> s.threads[t] == Idle
  }

  ghost predicate Next(s: State, s': State) {
    CanStep(s) && exists t: nat, ch :: t < |s.threads| && s' == Do(s, t, ch)
  }

  ghost predicate IsRun(run: seq<State>) {
    |run| > 0 && Init(run[0]) && forall k :: 0 <= k < |run| - 1 ==> Next(run[k], run[k + 1])
  }

  /** One chain through all nodes. */
  ghost predicate Chained(next: seq<Option<nat>>) {
    forall k :: 0 <= k < |next| ==> next[k] == if k + 1 < |next| then Some(k + 1) else None
  }

  /** One chain, and every slot with exactly one holder. */
  ghost predicate Inv(s: State) {
    CanStep(s) && Chained(s.next) && HoldersOf(s)
  }

  lemma ReturningsPut(ts: seq<Thread>, t: nat, th: Thread)
    requires t < |ts|
    ensures Returnings(ts[t := th]) == Returnings(ts)[t := Returning(th)]
    ensures Returning(ts[t]) == Returning(th) ==> Returnings(ts[t := th]) == Returnings(ts)
  {
  }

  ghost predicate HoldersOf(s: State) {
    Holders(s.free, Returnings(s.threads), s.live)
  }

  lemma TakeStepKeepsHolders(s: State, t: nat, ch: Choice, k: nat, flag: set<nat>)
    requires CanStep(s) && t < |s.threads| && s.threads[t] == SegCas(k, flag) && k < |s.free| && flag != {}
    requires HoldersOf(s)
    ensures HoldersOf(Do(s, t, ch))
  {
    ReturningsPut(s.threads, t, Do(s, t, ch).threads[t]);
    if !ch.spurious && s.free[k] == flag {
      TakeKeepsHolders(s.free, Returnings(s.threads), s.live, k, Least(flag));
    }
  }

  lemma FreeStepKeepsHolders(s: State, t: nat, ch: Choice, h: Handle, flag: set<nat>)
    requires CanStep(s) && t < |s.threads| && s.threads[t] == RelCas(h, flag) && h.node < |s.free|
    requires HoldersOf(s)
    ensures HoldersOf(Do(s, t, ch))
  {
    ReturningsPut(s.threads, t, Do(s, t, ch).threads[t]);
    if !ch.spurious && s.free[h.node] == flag {
      FreeKeepsHolders(s.free, Returnings(s.threads), s.live, t, h);
    }
  }

  lemma GrowStepKeepsHolders(s: State, t: nat, ch: Choice, k: nat)
    requires CanStep(s) && t < |s.threads| && s.threads[t] == NextCas(k) && k < |s.free|
    requires HoldersOf(s)
    ensures HoldersOf(Do(s, t, ch))
  {
    ReturningsPut(s.threads, t, Do(s, t, ch).threads[t]);
    GrowKeepsHolders(s.free, Returnings(s.threads), s.live);
  }

  lemma StepKeepsHolders(s: State, t: nat, ch: Choice)
    requires CanStep(s) && t < |s.threads| && InBounds(|s.free|, s.threads[t])
    requires HoldersOf(s)
    ensures HoldersOf(Do(s, t, ch))
  {
    if s.threads[t].SegCas? {
      TakeStepKeepsHolders(s, t, ch, s.threads[t].k, s.threads[t].flag);
    } else if s.threads[t].NextCas? {
      GrowStepKeepsHolders(s, t, ch, s.threads[t].k);
    } else if s.threads[t].RelCas? {
      FreeStepKeepsHolders(s, t, ch, s.threads[t].h, s.threads[t].flag);
    } else {
      ReturningsPut(s.threads, t, Do(s, t, ch).threads[t]);
      if s.threads[t].Idle? && ch.call.Release? && ch.call.h in s.live {
        ReturnKeepsHolders(s.free, Returnings(s.threads), s.live, t, ch.call.h);
      }
    }
  }

  lemma StepKeepsBounds(s: State, t: nat, ch: Choice)
    requires CanStep(s) && Chained(s.next) && t < |s.threads| && InBounds(|s.free|, s.threads[t])
    requires Ledger(s.free, s.live + InReturn(Returnings(s.threads)))
    ensures CanStep(Do(s, t, ch))
  {
    var s' := Do(s, t, ch);
    if s.threads[t].Idle? && ch.call.Release? && ch.call.h in s.live {
      assert ch.call.h in s.live + InReturn(Returnings(s.threads));
    }
    assert InBounds(|s'.free|, s'.threads[t]);
    forall u | 0 <= u < |s'.threads| ensures InBounds(|s'.free|, s'.threads[u]) {
      if u != t { assert InBounds(|s.free|, s.threads[u]); }
    }
  }

  /** A step leaves the links alone, or appends one node after the last. */
  lemma StepGrows(s: State, t: nat, ch: Choice)
    requires CanStep(s) && Chained(s.next) && t < |s.threads| && InBounds(|s.free|, s.threads[t])
    ensures Chained(Do(s, t, ch).next)
    ensures |s.next| <= |Do(s, t, ch).next| <= |s.next| + 1
    ensures forall n :: 0 <= n < |s.next| && s.next[n].Some? ==> Do(s, t, ch).next[n] == s.next[n]
  {
  }

  lemma StepKeepsInv(s: State, t: nat, ch: Choice)
    requires Inv(s) && t < |s.threads|
    ensures Inv(Do(s, t, ch))
  {
    assert InBounds(|s.free|, s.threads[t]);
    StepKeepsHolders(s, t, ch);
    StepKeepsBounds(s, t, ch);
    StepGrows(s, t, ch);
  }

  lemma InitInv(s: State)
    requires Init(s)
    ensures Inv(s)
  {
    FirstHolders(Returnings(s.threads));
  }

  lemma {:induction false} RunKeepsInv(run: seq<State>, k: nat)
    requires IsRun(run) && k < |run|
    ensures Inv(run[k])
  {
    hide Do, Init, Chained, HoldersOf;
    if k == 0 {
      InitInv(run[0]);
    } else {
      RunKeepsInv(run, k - 1);
      assert Next(run[k - 1], run[k - 1 + 1]);
      var t: nat, ch :| t < |run[k - 1].threads| && run[k] == Do(run[k - 1], t, ch);
      StepKeepsInv(run[k - 1], t, ch);
    }
  }

  /** Every slot is free, or held by one user, or by one call that is giving it back. */
  lemma EverySlotHasOneHolder(run: seq<State>, k: nat, h: Handle)
    requires IsRun(run) && k < |run|
    requires h.node < |run[k].free| && h.slot < W
    ensures var free := h.slot in run[k].free[h.node];
            var live := h in run[k].live;
            var returning := h in InReturn(Returnings(run[k].threads));
            (free || live || returning) && !(free && live) && !(free && returning) && !(live && returning)
    ensures forall t, u :: 0 <= t < u < |run[k].threads| && Returning(run[k].threads[t]) == Some(h) ==>
              Returning(run[k].threads[u]) != Some(h)
  {
    RunKeepsInv(run, k);
    var rs := Returnings(run[k].threads);
    assert h in run[k].live + InReturn(rs) <==> h.slot !in run[k].free[h.node];
  }

  /** `next_` is written once: a link that is set stays, and the chain only gets longer. */
  lemma {:induction false} ChainOnlyGrows(run: seq<State>, j: nat, k: nat)
    requires IsRun(run) && j <= k < |run|
    ensures |run[j].next| <= |run[k].next|
    ensures forall n :: 0 <= n < |run[j].next| && run[j].next[n].Some? ==> run[k].next[n] == run[j].next[n]
    decreases k
  {
    if j < k {
      ChainOnlyGrows(run, j, k - 1);
      NextGrows(run, k - 1);
    }
  }

  lemma NextGrows(run: seq<State>, k: nat)
    requires IsRun(run) && k + 1 < |run|
    ensures |run[k].next| <= |run[k + 1].next| <= |run[k].next| + 1
    ensures forall n :: 0 <= n < |run[k].next| && run[k].next[n].Some? ==> run[k + 1].next[n] == run[k].next[n]
  {
    RunKeepsInv(run, k);
    assert Next(run[k], run[k + 1]);
    var t: nat, ch :| t < |run[k].threads| && run[k + 1] == Do(run[k], t, ch);
    assert InBounds(|run[k].free|, run[k].threads[t]);
    StepGrows(run[k], t, ch);
  }

  /** Whenever no call is in progress, free slots and live handles together are all slots there are. */
  lemma QuietPoolIsExact(run: seq<State>, k: nat)
    requires IsRun(run) && k < |run| && forall t :: 0 <= t < |run[k].threads| ==> run[k].threads[t] == Idle
    ensures TotalFree(run[k].free) + |run[k].live| == W * |run[k].free|
  {
    RunKeepsInv(run, k);
    assert InReturn(Returnings(run[k].threads)) == {};
    assert run[k].live + {} == run[k].live;
  }

  predicate Acquiring(th: Thread) {
    th.SegLoad? || th.SegCas? || th.NextLoad? || th.NextCas?
  }

  /**
   * A step of a thread inside acquire leaves it there and hands out nothing, or ends the call with exactly one
   * more live handle, a slot that was free.
   */
  lemma AcquireOutcome(run: seq<State>, k: nat, t: nat, ch: Choice)
    requires IsRun(run) && k + 1 < |run| && t < |run[k].threads| && Acquiring(run[k].threads[t])
    requires CanStep(run[k]) && InBounds(|run[k].free|, run[k].threads[t]) && run[k + 1] == Do(run[k], t, ch)
    ensures |run[k + 1].threads| == |run[k].threads|
    ensures var s, s' := run[k], run[k + 1];
            || (Acquiring(s'.threads[t]) && s'.live == s.live)
            || (s'.threads[t] == Idle
                && exists h :: h !in s.live && s'.live == s.live + {h} && h.node < |s.free|
                               && IsLeast(h.slot, s.free[h.node]) && s'.free == Without(s.free, h))
  {
    hide Holders;
    RunKeepsInv(run, k);
    var s, th := run[k], run[k].threads[t];
    if th.SegCas? && !ch.spurious && th.flag == s.free[th.k] {
      TakeKeepsHolders(s.free, Returnings(s.threads), s.live, th.k, Least(th.flag));
      assert run[k + 1].free == Without(s.free, Handle(th.k, Least(th.flag)));
    }
  }

  /** A step of a thread inside release leaves the slot returning, or ends the call with the slot free. */
  lemma ReleaseOutcome(run: seq<State>, k: nat, t: nat, ch: Choice, h: Handle)
    requires IsRun(run) && k + 1 < |run| && t < |run[k].threads| && Returning(run[k].threads[t]) == Some(h)
    requires CanStep(run[k]) && InBounds(|run[k].free|, run[k].threads[t]) && run[k + 1] == Do(run[k], t, ch)
    ensures |run[k + 1].threads| == |run[k].threads| && run[k + 1].live == run[k].live
    ensures var s, s' := run[k], run[k + 1];
            || (Returning(s'.threads[t]) == Some(h) && s'.free == s.free)
            || (s'.threads[t] == Idle && h.node < |s.free| && h.slot !in s.free[h.node]
                && s'.free == s.free[h.node := s.free[h.node] + {h.slot}])
  {
    hide Holders;
    RunKeepsInv(run, k);
    FreeKeepsHolders(run[k].free, Returnings(run[k].threads), run[k].live, t, h);
  }

  /**
   * What a thread goes on with is what it sees at that very moment, also after an exchange that failed. An acquire
   * leaves a segment for the next node only when the segment is empty at that moment, and adds a node only behind
   * the last one.
   */
  ghost predicate SeesPresent(s: State, th: Thread, th': Thread)
    requires |s.free| == |s.next| && InBounds(|s.free|, th)
  {
    match th
    case SegLoad(k) => th' == SegCas(k, s.free[k]) || (th' == NextLoad(k) && s.free[k] == {})
    case SegCas(k, _) => th' == SegCas(k, s.free[k]) || th'.Idle? || (th' == NextLoad(k) && s.free[k] == {})
    case NextLoad(k) => th' == (if k + 1 < |s.free| then SegLoad(k + 1) else NextCas(k))
    case NextCas(k) => th' == SegLoad(k + 1) || (th' == th && k + 1 == |s.free|)
    case RelLoad(h) => th' == RelCas(h, s.free[h.node])
    case RelCas(h, _) => th' == RelCas(h, s.free[h.node]) || th'.Idle?
    case _ => true
  }

  lemma NothingPassedBy(run: seq<State>, k: nat, t: nat, ch: Choice)
    requires IsRun(run) && k + 1 < |run| && t < |run[k].threads|
    requires CanStep(run[k]) && InBounds(|run[k].free|, run[k].threads[t]) && run[k + 1] == Do(run[k], t, ch)
    ensures |run[k + 1].threads| == |run[k].threads|
    ensures SeesPresent(run[k], run[k].threads[t], run[k + 1].threads[t])
    ensures |run[k + 1].free| == |run[k].free|
         || (run[k].threads[t] == NextCas(|run[k].free| - 1) && run[k + 1].free == run[k].free + [AllSlots()])
  {
    hide HoldersOf;
    RunKeepsInv(run, k);
  }

  // ---- a thread that is not disturbed ----

  /** How many more steps the call of a thread takes at most when nobody else moves. */
  ghost function StepsLeft(s: State, th: Thread): nat
    requires InBounds(|s.free|, th)
  {
    var n := |s.free|;
    match th
    case Idle => 0
    case SegLoad(k) => if s.free[k] != {} then 2 else 4 * (n - k) + 5
    case SegCas(k, flag) => if s.free[k] == flag then 1 else if s.free[k] != {} then 2 else 4 * (n - k) + 5
    case NextLoad(k) => 4 * (n - k) + 4
    case NextCas(k) => 4 * (n - k) + 3
    case RelLoad(_) => 2
    case RelCas(h, flag) => if s.free[h.node] == flag then 1 else 2
  }

  lemma StepCountsDown(s: State, t: nat, ch: Choice)
    requires Inv(s) && t < |s.threads| && InBounds(|s.free|, s.threads[t])
    requires s.threads[t] != Idle && !ch.spurious
    ensures Inv(Do(s, t, ch)) && |Do(s, t, ch).threads| == |s.threads|
    ensures InBounds(|Do(s, t, ch).free|, Do(s, t, ch).threads[t])
    ensures StepsLeft(Do(s, t, ch), Do(s, t, ch).threads[t]) < StepsLeft(s, s.threads[t])
  {
    hide Do, Chained, HoldersOf, StepsLeft;
    StepKeepsInv(s, t, ch);
    StepGoesOn(s, t, ch);
  }

  lemma StepGoesOn(s: State, t: nat, ch: Choice)
    requires CanStep(s) && Chained(s.next) && t < |s.threads| && InBounds(|s.free|, s.threads[t])
    requires s.threads[t] != Idle && !ch.spurious
    ensures |Do(s, t, ch).threads| == |s.threads| && InBounds(|Do(s, t, ch).free|, Do(s, t, ch).threads[t])
    ensures StepsLeft(Do(s, t, ch), Do(s, t, ch).threads[t]) < StepsLeft(s, s.threads[t])
  {
  }

  ghost predicate MovesTo(s: State, t: nat, s': State) {
    && Inv(s) && t < |s.threads| && s.threads[t] != Idle
    && exists ch: Choice :: !ch.spurious && s' == Do(s, t, ch)
  }

  /** Only thread `t` moves, inside one call, and no exchange fails without a reason. */
  ghost predicate AloneInCall(path: seq<State>, t: nat) {
    && |path| > 0 && Inv(path[0]) && t < |path[0].threads|
    && forall k :: 0 <= k < |path| - 1 ==> MovesTo(path[k], t, path[k + 1])
  }

  /** A thread that nobody disturbs finishes its call within four steps for each node and five more. */
  lemma {:induction false} AloneFinishes(path: seq<State>, t: nat)
    requires AloneInCall(path, t)
    ensures InBounds(|path[0].free|, path[0].threads[t])
    ensures |path| - 1 <= StepsLeft(path[0], path[0].threads[t]) <= 4 * |path[0].free| + 5
    decreases |path|
  {
    hide Do, Chained, HoldersOf;
    assert InBounds(|path[0].free|, path[0].threads[t]);
    if |path| > 1 {
      assert MovesTo(path[0], t, path[0 + 1]);
      var ch: Choice :| !ch.spurious && path[1] == Do(path[0], t, ch);
      StepCountsDown(path[0], t, ch);
      forall k | 0 <= k < |path[1..]| - 1 ensures MovesTo(path[1..][k], t, path[1..][k + 1]) {
        assert MovesTo(path[k + 1], t, path[k + 1 + 1]);
      }
      AloneFinishes(path[1..], t);
    }
  }
}
