/**
 * Which sizes the ring queue works with. The source accepts every multiple of 8; the queue keeps its
 * promises exactly when the size is a power of two.
 */
module QueueSizes {
  import opened Words
  import opened QueueLanes
  import opened QueueSteps
  import opened QueueIntegrity
  import opened QueuePaths

  // ---- the promises, for every run of a queue of integers without a stale claim ----

  /** Every pop delivers the value of the push with the same ticket. */
  ghost predicate InOrder(s: State<int>) {
    forall i: nat :: i in s.popped ==> i < |s.pushed| && s.popped[i] == s.pushed[i]
  }

  /** No two threads are at the same cell. */
  ghost predicate Exclusive(S: nat, s: State<int>)
    requires S > 0
  {
    forall t: nat, u: nat :: t < u < |s.threads| && s.threads[t].Access? && s.threads[u].Access? ==>
      Cell(s.threads[t].idx, S) != Cell(s.threads[u].idx, S)
  }

  /** The oldest ticket of the lane has its flag raised, and no thread is in its publish loop at it. */
  ghost predicate Stranded<T>(S: nat, s: State<T>, push: bool) {
    var lane := if push then s.tail else s.head;
    && lane.pub < lane.alloc && Raised(lane, S, lane.pub)
    && forall t :: 0 <= t < |s.threads| ==> RoleIn(s.threads[t], push) != Watching(lane.pub)
  }

  /** With no call in progress, everything is published, and what was not popped lies in its cells. */
  ghost predicate Waiting(S: nat, s: State<int>)
    requires S > 0
  {
    (forall t :: 0 <= t < |s.threads| ==> s.threads[t] == Idle) ==>
      && s.tail.pub == s.tail.alloc == |s.pushed| && s.head.pub == s.head.alloc
      && forall i: nat :: s.head.alloc <= i < s.tail.alloc ==>
           Cell(i, S) < |s.data| && s.data[Cell(i, S)] == s.pushed[i]
  }

  ghost predicate Fifo(S: nat) {
    forall run: seq<State<int>>, k: nat :: IsFreshRun(S, run) && k < |run| ==> InOrder(run[k])
  }

  /** The same for a queue used by one thread. */
  ghost predicate FifoAlone(S: nat) {
    forall run: seq<State<int>>, k: nat :: IsFreshRun(S, run) && k < |run| && |run[0].threads| == 1 ==> InOrder(run[k])
  }

  ghost predicate CellsExclusive(S: nat)
    requires S > 0
  {
    forall run: seq<State<int>>, k: nat :: IsFreshRun(S, run) && k < |run| ==> Exclusive(S, run[k])
  }

  ghost predicate NoneStranded(S: nat) {
    forall run: seq<State<int>>, k: nat, push: bool :: IsFreshRun(S, run) && k < |run| ==> !Stranded(S, run[k], push)
  }

  ghost predicate ValuesWait(S: nat)
    requires S > 0
  {
    forall run: seq<State<int>>, k: nat :: IsFreshRun(S, run) && k < |run| ==> Waiting(S, run[k])
  }

  // ---- for powers of two ----

  lemma KeptForPow2(S: nat)
    requires S > 0 && IsPow2(S)
    ensures Fifo(S) && FifoAlone(S) && CellsExclusive(S) && NoneStranded(S) && ValuesWait(S)
  {
    forall run: seq<State<int>>, k: nat | IsFreshRun(S, run) && k < |run|
      ensures InOrder(run[k]) && Exclusive(S, run[k]) && Waiting(S, run[k])
    {
      InOrderFor(S, run, k);
      ExclusiveFor(S, run, k);
      WaitingFor(S, run, k);
    }
    forall run: seq<State<int>>, k: nat, push: bool | IsFreshRun(S, run) && k < |run|
      ensures !Stranded(S, run[k], push)
    {
      NotStrandedFor(S, run, k, push);
    }
  }

  lemma InOrderFor(S: nat, run: seq<State<int>>, k: nat)
    requires IsPow2(S) && IsFreshRun(S, run) && k < |run|
    ensures InOrder(run[k])
  {
    forall i: nat | i in run[k].popped ensures i < |run[k].pushed| && run[k].popped[i] == run[k].pushed[i] {
      FirstInFirstOut(S, run, k, i);
    }
  }

  lemma ExclusiveFor(S: nat, run: seq<State<int>>, k: nat)
    requires S > 0 && IsPow2(S) && IsFreshRun(S, run) && k < |run|
    ensures Exclusive(S, run[k])
  {
    forall t: nat, u: nat | t < u < |run[k].threads| && run[k].threads[t].Access? && run[k].threads[u].Access?
      ensures Cell(run[k].threads[t].idx, S) != Cell(run[k].threads[u].idx, S)
    {
      CellsAreExclusive(S, run, k, t, u);
    }
  }

  lemma WaitingFor(S: nat, run: seq<State<int>>, k: nat)
    requires S > 0 && IsPow2(S) && IsFreshRun(S, run) && k < |run|
    ensures Waiting(S, run[k])
  {
    if forall t :: 0 <= t < |run[k].threads| ==> run[k].threads[t] == Idle { QuietQueue(S, run, k); }
  }

  lemma NotStrandedFor<T(!new)>(S: nat, run: seq<State<T>>, k: nat, push: bool)
    requires IsPow2(S) && IsFreshRun(S, run) && k < |run|
    ensures !Stranded(S, run[k], push)
  {
    var lane := if push then run[k].tail else run[k].head;
    if lane.pub < lane.alloc && Raised(lane, S, lane.pub) { NoTicketStranded(S, run, k, push); }
  }

  // ---- for all other sizes ----

  /** A ticket below S that shares its cell with ticket 0. */
  lemma SharedCell(S: nat) returns (m: nat)
    requires S > 0 && !IsPow2(S)
    ensures 0 < m < S && Cell(m, S) == Cell(0, S)
  {
    var b := MaskHole(S - 1);
    m := Pow2(b);
  }

  function Start(S: nat, threads: nat): State<int> {
    State(Lane(0, 0, Lowered(S)), Lane(0, 0, Lowered(S)), seq(S, j => 0), seq(threads, t => Idle), [], map[], [], [])
  }

  /** One thread pushes the values 0, 1, ..., n - 1. */
  lemma {:induction false} PushAlone(S: nat, n: nat) returns (run: seq<State<int>>)
    requires S > 0 && n <= S
    ensures IsFreshRun(S, run) && |run[0].threads| == 1
    ensures var s := Last(run);
            && Sized(S, s) && s.threads == [Idle] && s.popped == map[]
            && s.tail == Lane(n, n, Lowered(S)) && s.head == Lane(0, 0, Lowered(S))
            && |s.pushed| == n && (n > 0 ==> s.pushed[0] == 0 && s.data[Cell(n - 1, S)] == n - 1)
  {
    if n == 0 {
      run := [Start(S, 1)];
      assert Start(S, 1).threads == [Idle];
    } else {
      var most := PushAlone(S, n - 1);
      run := CallAlone(S, most, 0, Push(n - 1));
      assert run[0] == most[0];
    }
  }

  lemma OverwrittenBeforeRead(S: nat) returns (run: seq<State<int>>, more: seq<State<int>>)
    requires S > 0 && !IsPow2(S)
    ensures IsFreshRun(S, run) && !Waiting(S, Last(run))
    ensures IsFreshRun(S, more) && |more[0].threads| == 1 && !InOrder(Last(more))
  {
    var m := SharedCell(S);
    run := PushAlone(S, m + 1);
    var s := Last(run);
    assert s.data[Cell(0, S)] == m != s.pushed[0];
    more := CallAlone(S, run, 0, Pop);
    assert more[0] == run[0];
    assert 0 in Last(more).popped && Last(more).popped[0] == m;
  }

  /** Thread 0 holds ticket 0 while thread 1 pushes the tickets up to n. */
  lemma {:induction false} PushBehind(S: nat, n: nat) returns (run: seq<State<int>>)
    requires S > 0 && 0 < n <= S
    ensures IsFreshRun(S, run)
    ensures var s := Last(run);
            && Sized(S, s) && s.threads == [Access(Push(0), 0), Idle]
            && s.tail.alloc == n && s.tail.pub == 0 && s.head.pub == 0
  {
    if n == 1 {
      assert Start(S, 2).threads == [Idle, Idle];
      run := TakeTicket(S, [Start(S, 2)], 0, Push(0));
      assert run[0] == Start(S, 2);
    } else {
      var most := PushBehind(S, n - 1);
      run := TakeTicket(S, most, 1, Push(n - 1));
      run := FinishTicket(S, run, 1, Push(n - 1), n - 1);
      run := LeaveAtOnce(S, run, 1, Push(n - 1), n - 1);
      assert run[0] == most[0];
    }
  }

  lemma SharedWhileWritten(S: nat) returns (run: seq<State<int>>, more: seq<State<int>>)
    requires S > 0 && !IsPow2(S)
    ensures IsFreshRun(S, run) && !Exclusive(S, Last(run))
    ensures IsFreshRun(S, more) && Stranded(S, Last(more), true)
  {
    hide Do, NextFresh;
    var m := SharedCell(S);
    var most := PushBehind(S, m);
    run := TakeTicket(S, most, 1, Push(m));
    assert run[0] == most[0];
    var s := Last(run);
    assert s.threads[0] == Access(Push(0), 0) && s.threads[1] == Access(Push(m), m);
    more := FinishTicket(S, run, 1, Push(m), m);
    assert more[0] == most[0];
    assert Last(more).threads == [Access(Push(0), 0), Test(Push(m), m)];
  }

  lemma BrokenForOthers(S: nat)
    requires S > 0 && !IsPow2(S)
    ensures !Fifo(S) && !FifoAlone(S) && !CellsExclusive(S) && !NoneStranded(S) && !ValuesWait(S)
  {
    var quiet, read := OverwrittenBeforeRead(S);
    assert !InOrder(read[|read| - 1]) && !Waiting(S, quiet[|quiet| - 1]);
    var written, raised := SharedWhileWritten(S);
    assert !Exclusive(S, written[|written| - 1]) && Stranded(S, raised[|raised| - 1], true);
  }

  // ---- exactly ----

  /** The queue is first in, first out if and only if its size is a power of two; one thread is enough to tell. */
  lemma FifoIffPow2(S: nat)
    requires S > 0
    ensures Fifo(S) <==> IsPow2(S)
    ensures FifoAlone(S) <==> IsPow2(S)
  {
    if IsPow2(S) { KeptForPow2(S); } else { BrokenForOthers(S); }
  }

  lemma ExclusiveIffPow2(S: nat)
    requires S > 0
    ensures CellsExclusive(S) <==> IsPow2(S)
  {
    if IsPow2(S) { KeptForPow2(S); } else { BrokenForOthers(S); }
  }

  lemma NoneStrandedIffPow2(S: nat)
    requires S > 0
    ensures NoneStranded(S) <==> IsPow2(S)
  {
    if IsPow2(S) { KeptForPow2(S); } else { BrokenForOthers(S); }
  }

  lemma ValuesWaitIffPow2(S: nat)
    requires S > 0
    ensures ValuesWait(S) <==> IsPow2(S)
  {
    if IsPow2(S) { KeptForPow2(S); } else { BrokenForOthers(S); }
  }

  /** A queue of 24 cells compiles, and breaks every one of these promises. */
  lemma TwentyFourIsAccepted()
    ensures 24 % 8 == 0
    ensures !Fifo(24) && !FifoAlone(24) && !CellsExclusive(24) && !NoneStranded(24) && !ValuesWait(24)
  {
    MultipleOfEightIsNotEnough();
    MaskSpreadsIffPow2(24);
    BrokenForOthers(24);
  }
}
