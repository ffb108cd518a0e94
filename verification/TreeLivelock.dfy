/**
 * What happens to the tree pool when the number of children is not a power of two: the scan of
 * get_free_slot_ misses a child, and an acquire for which only that child has slots never returns.
 */
module TreeLivelock {
  import opened Options
  import opened TreeArena
  import opened TreeSteps
  import opened TreePools

  /** Of all children of the root only the one at `j` announces slots, and the scan never looks at it. */
  ghost predicate OnlyMissed(N: nat, a: Arena, j: nat)
    requires N > 0 && Shape(a, N)
  {
    && j < N && a.size[0][j] > 0
    && (forall i :: 0 <= i < N && i != j ==> a.size[0][i] == 0)
    && forall index: nat :: !ScanFinds(N, index, j)
  }

  /** The thread is between find_child_id_ and create_node_ of the root. */
  predicate Spinning(th: Thread, j: nat) {
    match th
    case HintLoad(n) => n == 0
    case ScanLoad(n, _, _) => n == 0
    case CreFlag(n, m) => n == m == 0
    case CreCap(n, m, i, _) => n == m == 0 && i <= j
    case CreSize(n, m, i, _) => n == m == 0 && i <= j
    case _ => false
  }

  /** Whatever hint it reads, its next step keeps it there and changes nothing. */
  lemma StepSpins(N: nat, s: State, t: nat, ch: Choice, j: nat)
    requires CanStep(N, s) && t < |s.threads| && OnlyMissed(N, s.arena, j) && Spinning(s.threads[t], j)
    ensures InBounds(N, s.arena, s.threads[t])
    ensures Do(N, s, t, ch) == Put(s, t, Do(N, s, t, ch).threads[t]) && Spinning(Do(N, s, t, ch).threads[t], j)
  {
    var th := s.threads[t];
    assert InBounds(N, s.arena, th);
    if th.ScanLoad? {
      assert !ScanFinds(N, th.index, j);
      assert ScanId(N, th.index, th.i) != j;
    }
  }

  ghost predicate MovesTo(N: nat, s: State, t: nat, s': State) {
    CanStep(N, s) && t < |s.threads| && exists ch :: s' == Do(N, s, t, ch)
  }

  /** Only thread `t` moves. */
  ghost predicate Alone(N: nat, path: seq<State>, t: nat) {
    && |path| > 0 && t < |path[0].threads|
    && (forall k :: 0 <= k < |path| ==> CanStep(N, path[k]) && |path[k].threads| == |path[0].threads|)
    && forall k :: 0 <= k < |path| - 1 ==> MovesTo(N, path[k], t, path[k + 1])
  }

  /** An acquire by one thread that only the missed child could serve spins for ever. */
  lemma {:induction false} AcquireNeverReturns(N: nat, path: seq<State>, t: nat, j: nat, k: nat)
    requires Alone(N, path, t) && N > 0 && k < |path|
    requires OnlyMissed(N, path[0].arena, j) && path[0].threads[t] == HintLoad(0)
    ensures path[k].arena == path[0].arena && path[k].live == path[0].live && Spinning(path[k].threads[t], j)
  {
    hide Do, OnlyMissed, Shape, InBounds;
    if k > 0 {
      AcquireNeverReturns(N, path, t, j, k - 1);
      assert MovesTo(N, path[k - 1], t, path[k - 1 + 1]);
      var ch :| path[k] == Do(N, path[k - 1], t, ch);
      StepSpins(N, path[k - 1], t, ch, j);
    }
  }
}
