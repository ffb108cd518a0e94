/**
 * The tree pool's acquire among threads that have stopped: it ends exactly when it does not have to wait for them.
 */
module TreeWaiting {
  import opened Options
  import opened Words
  import opened Sums
  import opened Slots
  import opened TreeArena
  import opened TreeShape
  import opened TreePools
  import opened TreeSteps
  import opened TreeRuns
  import opened TreeTheorems
  import opened TreeSolo
  import opened TreeProgress

  /** The thread is in the loop of find_child_id_ at the root, and create_node_ will return without a new node. */
  ghost predicate Spinning(N: nat, a: Arena, th: Thread)
    requires N > 0 && Linked(a, N) && InBounds(N, a, th)
  {
    match th
    case SegLoad(n) => n == 0
    case HintLoad(n) => n == 0
    case ScanLoad(n, _, _) => n == 0
    case CreFlag(n, m) => n == 0 && ComesBack(a, N, m)
    case CreCap(n, m, i, best) =>
      && n == 0 && ComesBack(a, N, m) && (m == 0 || a.free[m] == {})
      && ZeroBefore(a.size[m], i) && FirstLeast(a.capacity[m], i, best)
    case CreSize(n, m, i, min) =>
      && n == 0 && ComesBack(a, N, m) && (m == 0 || a.free[m] == {})
      && ZeroBefore(a.size[m], i) && FirstLeast(a.capacity[m], i + 1, Some(min))
    case CreChild(n, m, id) => n == 0 && ComesBackFrom(a, N, m, id)
    case _ => false
  }

  /** With all children announcing nothing, it is the first least one that makes create_node_ come back. */
  lemma OnlyBelow(N: nat, a: Arena, m: nat, min: Best)
    requires N > 0 && Linked(a, N) && m < |a.owner| && ComesBack(a, N, m) && (m == 0 || a.free[m] == {})
    requires ZeroBefore(a.size[m], N) && FirstLeast(a.capacity[m], N, Some(min))
    ensures ComesBackFrom(a, N, m, min.id)
  {
    SumZero(a.size[m]);
    var id: nat :| ComesBackFrom(a, N, m, id);
    assert id == min.id;
  }

  lemma LevelBelow(N: nat, a: Arena, m: nat, id: nat)
    requires Linked(a, N) && m < |a.owner| && ComesBackFrom(a, N, m, id)
    ensures id < N && a.childs[m][id].Some? && IsEdge(a, Edge(m, id), a.childs[m][id].value)
    ensures ComesBack(a, N, a.childs[m][id].value)
  {
  }

  /** The step changes nothing, and the thread spins on. */
  ghost predicate SpinsOn(N: nat, s: State, t: nat, s': State) {
    && CanStep(N, s) && t < |s.threads| == |s'.threads| && s'.arena == s.arena && s'.live == s.live
    && InBounds(N, s'.arena, s'.threads[t]) && Spinning(N, s'.arena, s'.threads[t])
  }

  /** The thread waits and spins. */
  ghost predicate Caught(N: nat, s: State, t: nat) {
    && CanStep(N, s) && t < |s.threads| && InBounds(N, s.arena, s.threads[t])
    && Waits(s.arena, N) && Spinning(N, s.arena, s.threads[t])
  }

  lemma ScanSpins(N: nat, s: State, t: nat, ch: Choice)
    requires Caught(N, s, t)
    requires var th := s.threads[t]; th.SegLoad? || th.HintLoad? || th.ScanLoad? || th.CreFlag? || th.CreCap?
    ensures SpinsOn(N, s, t, Do(N, s, t, ch))
  {
    hide ComesBack;
    SumZero(s.arena.size[0]);
  }

  lemma CreateSpins(N: nat, s: State, t: nat, ch: Choice)
    requires Caught(N, s, t)
    requires var th := s.threads[t]; th.CreSize? || th.CreChild?
    ensures SpinsOn(N, s, t, Do(N, s, t, ch))
  {
    hide ComesBack, ComesBackFrom;
    var a, th := s.arena, s.threads[t];
    if th.CreChild? {
      LevelBelow(N, a, th.m, th.id);
    } else if a.size[th.m][th.i] == 0 && th.i + 1 == N {
      OnlyBelow(N, a, th.m, th.min);
    }
  }

  lemma StepSpins(N: nat, s: State, t: nat, ch: Choice)
    requires Caught(N, s, t)
    ensures SpinsOn(N, s, t, Do(N, s, t, ch)) && s.threads[t] != Idle
  {
    hide ComesBack, ComesBackFrom, Do, Waits, SpinsOn;
    if s.threads[t].CreSize? || s.threads[t].CreChild? {
      CreateSpins(N, s, t, ch);
    } else {
      ScanSpins(N, s, t, ch);
    }
  }

  /** An acquire that has to wait spins for any number of steps, and nothing changes. */
  lemma {:induction false} SpinFor(N: nat, s: State, t: nat, n: nat) returns (path: seq<State>)
    requires Inv(N, s) && Caught(N, s, t)
    ensures AloneInCall(N, path, t) && path[0] == s && |path| == n + 1
    ensures Inv(N, path[n]) && Caught(N, path[n], t) && path[n].arena == s.arena && path[n].live == s.live
  {
    hide Inv, Waits, Spinning, InBounds, Do;
    if n == 0 {
      path := [s];
    } else {
      var most := SpinFor(N, s, t, n - 1);
      var last, ch := most[n - 1], Choice(Acquire, 0, false);
      path := most + [Do(N, last, t, ch)];
      StepSpins(N, last, t, ch);
      StepKeepsInv(N, last, t, ch);
      InvCanStep(N, path[n]);
      forall k | 0 <= k < |path| - 1 ensures MovesTo(N, path[k], t, path[k + 1]) {
        if k < n - 1 { assert MovesTo(N, most[k], t, most[k + 1]); }
      }
    }
  }

  lemma InvCanStep(N: nat, s: State)
    requires Inv(N, s)
    ensures CanStep(N, s)
  {
  }

  /** Every path on which only thread `t` moves, inside its call, has at most `b` steps. */
  ghost predicate EndsWithin(N: nat, s: State, t: nat, b: nat) {
    forall path :: AloneInCall(N, path, t) && path[0] == s ==> |path| <= b + 1
  }

  /**
   * An acquire that begins when all other threads have stopped ends, within a bound, if and only if it does not
   * have to wait.
   */
  lemma AcquireEndsIffNoWait(N: nat, run: seq<State>, k: nat, t: nat)
    requires IsPow2(N) && N > 0 && IsRun(N, run) && k < |run| && t < |run[k].threads|
    requires run[k].threads[t] == SegLoad(0)
    ensures CanStep(N, run[k])
    ensures (exists b: nat :: EndsWithin(N, run[k], t, b)) <==> !Waits(run[k].arena, N)
  {
    hide Waits, IsRun, IsPow2, Do;
    RunKeepsInv(N, run, k);
    var s := run[k];
    assert InBounds(N, s.arena, s.threads[t]);
    if Waits(s.arena, N) {
      forall b: nat ensures !EndsWithin(N, s, t, b) {
        var path := SpinFor(N, s, t, b + 1);
        assert |path| == b + 2;
      }
    } else {
      var b: nat := CallBound(N, |s.arena.owner|);
      forall path | AloneInCall(N, path, t) && path[0] == s ensures |path| <= b + 1 {
        AbleFinishes(N, path, t);
      }
      assert EndsWithin(N, s, t, b);
    }
  }

  // ---- whom it waits for ----

  /** The thread holds a reservation below the root that it has not used, or slots that it has not announced. */
  predicate Pending(th: Thread) {
    th.AddSize? || (At(th).Some? && At(th).value != 0)
  }

  /** Everything free is announced, all the way up to the root. */
  ghost predicate Announced(N: nat, a: Arena) {
    && Linked(a, N)
    && (forall c :: 0 < c < |a.owner| ==> SizeAt(a, N, c) == SizeOf(a, c))
    && SizeOf(a, 0) == TotalFree(a.free)
  }

  lemma NonePending(N: nat, s: State)
    requires Inv(N, s) && forall u :: 0 <= u < |s.threads| ==> !Pending(s.threads[u])
    ensures Announced(N, s.arena)
  {
    var a, ts := s.arena, s.threads;
    SumZero(WeightsBelow(ts, Reserved));
    SumZero(WeightsBelow(ts, Credit));
    forall c | 0 < c < |a.owner| ensures SizeAt(a, N, c) == SizeOf(a, c) {
      SumZero(Weights(ts, Reserved, c));
      SumZero(Weights(ts, Credit, c));
      assert SizeAt(a, N, c) + SizeOff(ts, |a.owner|)[c] == SizeOf(a, c);
    }
  }

  lemma {:induction false} NothingAnnounced(N: nat, a: Arena, m: nat)
    requires Announced(N, a) && TotalFree(a.free) == 0 && m < |a.owner|
    ensures a.free[m] == {} && Sum(a.size[m]) == 0
    decreases m
  {
    if m > 0 {
      var e := a.owner[m].value;
      assert IsEdge(a, e, m);
      NothingAnnounced(N, a, e.node);
      SumAtLeast(a.size[e.node], e.id);
      assert SizeAt(a, N, m) == 0;
    }
  }

  lemma {:induction false} NothingComesBack(N: nat, a: Arena, m: nat)
    requires Announced(N, a) && TotalFree(a.free) == 0 && m < |a.owner|
    ensures !ComesBack(a, N, m)
    decreases |a.owner| - m
  {
    NothingAnnounced(N, a, m);
    if id: nat :| ComesBackFrom(a, N, m, id) {
      NothingComesBack(N, a, a.childs[m][id].value);
    }
  }

  lemma AnnouncedServes(N: nat, a: Arena)
    requires Announced(N, a) && a.free[0] == {}
    ensures Sum(a.size[0]) == TotalFree(a.free) && (TotalFree(a.free) == 0 ==> !ComesBack(a, N, 0))
  {
    if TotalFree(a.free) == 0 { NothingComesBack(N, a, 0); }
  }

  /** An acquire only ever waits for a thread that stopped before using its reservation or announcing its slots. */
  lemma WaitsOnlyForOthers(N: nat, run: seq<State>, k: nat)
    requires N > 0 && IsRun(N, run) && k < |run|
    ensures CanStep(N, run[k])
    ensures Waits(run[k].arena, N) ==> exists u :: 0 <= u < |run[k].threads| && Pending(run[k].threads[u])
  {
    hide IsRun, Pending;
    RunKeepsInv(N, run, k);
    if Waits(run[k].arena, N) && forall u :: 0 <= u < |run[k].threads| ==> !Pending(run[k].threads[u]) {
      NonePending(N, run[k]);
      AnnouncedServes(N, run[k].arena);
    }
  }

  // ---- a single thread never waits ----

  lemma KnowsExpects(N: nat, s: State)
    requires Solo(N, s) && IsPow2(N) && s.threads[0] != Idle
    ensures Able(N, s, 0)
  {
    hide Inv, ComesBack, Balanced, LeastPath, IsPow2;
    var a, th := s.arena, s.threads[0];
    if !Pending(th) && a.free[0] == {} {
      NonePending(N, s);
      AnnouncedServes(N, a);
      NothingFree(a.free);
      if th.CreFlag? || th.CreCap? || th.CreSize? || th.CreChild? || th.CreCas? {
        if TotalFree(a.free) == 0 { NothingComesBack(N, a, th.m); }
      }
    }
  }

  /** The steps from `j` to `k` are inside a call of the only thread, and no exchange fails without a reason. */
  ghost predicate InCall(N: nat, run: seq<State>, j: nat, k: nat) {
    && IsPow2(N) && N > 0 && IsRun(N, run) && j < k < |run| && |run[0].threads| == 1
    && forall i :: j <= i < k ==> MovesTo(N, run[i], 0, run[i + 1])
  }

  /**
   * A call by one thread ends: with a power of two of children it takes at most 4 (len + 1) (2 N + 10) steps in a
   * pool of `len` nodes.
   */
  lemma CallEnds(N: nat, run: seq<State>, j: nat, k: nat)
    requires InCall(N, run, j, k)
    ensures k - j <= 4 * (|run[j].arena.owner| + 1) * (2 * N + 10)
  {
    hide Do, Able, IsRun, Solo, IsPow2, Inv, MovesTo;
    RunIsSolo(N, run, j);
    var path := run[j..k + 1];
    assert MovesTo(N, run[j], 0, run[j + 1]);
    SoloMoves(N, run[j], run[j + 1]);
    forall i | 0 <= i < |path| - 1 ensures MovesTo(N, path[i], 0, path[i + 1]) {
      assert MovesTo(N, run[j + i], 0, run[j + i + 1]);
    }
    KnowsExpects(N, run[j]);
    AbleFinishes(N, path, 0);
  }

  lemma SoloMoves(N: nat, s: State, s': State)
    requires Solo(N, s) && MovesTo(N, s, 0, s')
    ensures Inv(N, s) && |s.threads| == 1 && s.threads[0] != Idle
  {
  }
}
