/**
 * A run of the ring queue of 8 cells that delivers a value twice and another one never, because one
 * thread stalls between the two halves of `idx == tail_read_ && data_is_ready_(...)` while the others
 * go once around the ring.
 */
module QueueStaleClaim {
  import opened Words
  import opened QueueLanes
  import opened QueueSteps
  import opened QueuePaths
  import opened QueueSizes
  import opened FixSizeQueues

  /** Step `k`, by thread `t`, is a stale claim, and no other step is one. */
  ghost predicate OnlyStaleClaim<T(!new)>(S: nat, run: seq<State<T>>, k: nat, t: nat, op: Op<T>) {
    && IsRun(S, run) && k + 1 < |run|
    && FreshPath(S, run[..k + 1]) && FreshPath(S, run[k + 1..])
    && Sized(S, run[k]) && t < |run[k].threads|
    && IsStaleClaim(S, run[k], t, Choice(op, false)) && run[k + 1] == Do(S, run[k], t, Choice(op, false))
  }

  /** A fresh run, a stale claim, and a fresh path after it. */
  lemma WithStaleClaim<T(!new)>(S: nat, run: seq<State<T>>, t: nat, op: Op<T>, path: seq<State<T>>)
    requires IsFreshRun(S, run) && Sized(S, Last(run)) && t < |Last(run).threads|
    requires IsStaleClaim(S, Last(run), t, Choice(op, false))
    requires FreshPath(S, path) && path[0] == Do(S, Last(run), t, Choice(op, false))
    ensures OnlyStaleClaim(S, run + path, |run| - 1, t, op)
  {
    var whole, k := run + path, |run| - 1;
    assert whole[..k + 1] == run && whole[k + 1..] == path;
    forall i | 0 <= i < |whole| - 1 ensures Next(S, whole[i], whole[i + 1]) {
      if i < k {
        assert NextFresh(S, run[i], run[i + 1]);
      } else if i > k {
        assert NextFresh(S, path[i - k - 1], path[i - k]);
      } else {
        assert whole[i + 1] == Do(S, whole[i], t, Choice(op, false));
      }
    }
  }

  lemma Cells()
    ensures forall i: nat :: Cell(i, 8) == i % 8
  {
    assert Pow2(3) == 8;
    forall i: nat ensures Cell(i, 8) == i % 8 { CellIsRemainder(i, 8); }
  }

  /** Thread 0 has seen ticket 1 to be the oldest and stalls; the queue is empty after `k` tickets. */
  ghost predicate Parked(s: State<int>, k: nat) {
    && Sized(8, s) && s.tail == s.head == Lane(k, k, Lowered(8))
    && s.threads == [Ready(Push(2), 1), Idle, Idle]
    && |s.pushed| == k >= 2 && s.pushed[0] == 1 && s.data[0] == 1
  }

  /** Threads 1 and 0 take the tickets 0 and 1. */
  lemma TakeBoth() returns (run: seq<State<int>>)
    ensures IsFreshRun(8, run)
    ensures var s := Last(run);
            && Sized(8, s) && s.tail == Lane(2, 0, Lowered(8)) && s.head == Lane(0, 0, Lowered(8))
            && s.threads == [Access(Push(2), 1), Access(Push(1), 0), Idle] && s.pushed == [1, 2]
  {
    assert Start(8, 3).threads == [Idle, Idle, Idle];
    run := TakeTicket(8, [Start(8, 3)], 1, Push(1));
    run := TakeTicket(8, run, 0, Push(2));
    assert run[0] == Start(8, 3);
  }

  /** Both write and raise their flags. */
  lemma RaiseBoth() returns (run: seq<State<int>>)
    ensures IsFreshRun(8, run)
    ensures var s := Last(run);
            && Sized(8, s) && s.tail == Lane(2, 0, Lowered(8)[1 := true][0 := true]) && s.head == Lane(0, 0, Lowered(8))
            && s.threads == [Test(Push(2), 1), Test(Push(1), 0), Idle] && s.pushed == [1, 2] && s.data[0] == 1
  {
    Cells();
    var most := TakeBoth();
    run := FinishTicket(8, most, 0, Push(2), 1);
    run := FinishTicket(8, run, 1, Push(1), 0);
    assert run[0] == most[0];
  }

  /** Thread 1 publishes both tickets, while thread 0 compares its own with the oldest one. */
  lemma PublishBoth() returns (run: seq<State<int>>)
    ensures IsFreshRun(8, run)
    ensures var s := Last(run);
            && Sized(8, s) && s.tail == Lane(2, 2, Lowered(8)) && s.head == Lane(0, 0, Lowered(8))
            && s.threads == [Ready(Push(2), 1), Idle, Idle] && s.pushed == [1, 2] && s.data[0] == 1
  {
    Cells();
    var most := RaiseBoth();
    run := PublishTicket(8, most, 1, Push(1), 0);
    assert Last(run).tail.flags == Lowered(8)[1 := true];
    run := Extend(8, run, 0, Push(2));
    assert Last(run).threads == [Ready(Push(2), 1), Test(Push(1), 1), Idle];
    run := PublishTicket(8, run, 1, Push(1), 1);
    RaiseAndLower(8, 1);
    run := LeaveAtNext(8, run, 1, Push(1), 2);
    assert run[0] == most[0];
  }

  /** Thread 1 pops both values, and then pushes and pops until the ring has come round to cell 0. */
  lemma {:induction false} GoRound(k: nat) returns (run: seq<State<int>>)
    requires 2 <= k <= 8
    ensures IsFreshRun(8, run) && Parked(Last(run), k)
  {
    Cells();
    if k == 2 {
      var most := PublishBoth();
      run := CallAlone(8, most, 1, Pop);
      run := CallAlone(8, run, 1, Pop);
      assert run[0] == most[0];
    } else {
      var most := GoRound(k - 1);
      run := CallAlone(8, most, 1, Push(0));
      run := CallAlone(8, run, 1, Pop);
      assert run[0] == most[0];
    }
  }

  /** Thread 2 takes ticket 8 and stalls before it writes; thread 1 raises the flag of ticket 9 and leaves. */
  lemma RaiseNextLap() returns (run: seq<State<int>>)
    ensures IsFreshRun(8, run)
    ensures var s := Last(run);
            && Sized(8, s) && s.tail == Lane(10, 8, Lowered(8)[1 := true]) && s.head == Lane(8, 8, Lowered(8))
            && s.threads == [Ready(Push(2), 1), Idle, Access(Push(7), 8)]
            && s.data[0] == 1 && |s.pushed| == 10 && s.pushed[0] == 1 && s.pushed[8] == 7
  {
    Cells();
    var most := GoRound(8);
    run := TakeTicket(8, most, 2, Push(7));
    run := TakeTicket(8, run, 1, Push(9));
    run := FinishTicket(8, run, 1, Push(9), 9);
    run := LeaveAtOnce(8, run, 1, Push(9), 9);
    assert run[0] == most[0];
  }

  /** Thread 0 goes on and is about to lower the flag of ticket 9 for its own ticket 1. */
  ghost predicate BeforeClaim(s: State<int>) {
    && Sized(8, s) && s.tail == Lane(10, 8, Lowered(8)[1 := true]) && s.head == Lane(8, 8, Lowered(8))
    && s.threads == [Claim(Push(2), 1), Idle, Access(Push(7), 8)]
    && s.data[0] == 1 && |s.pushed| == 10 && s.pushed[0] == 1 && s.pushed[8] == 7
  }

  lemma ReachClaim() returns (run: seq<State<int>>)
    ensures IsFreshRun(8, run) && BeforeClaim(Last(run)) && IsStaleClaim(8, Last(run), 0, Choice(Pop, false))
  {
    Cells();
    var most := RaiseNextLap();
    run := Extend(8, most, 0, Pop);
    assert run[0] == most[0];
    assert Last(run).threads == [Claim(Push(2), 1), Idle, Access(Push(7), 8)];
  }

  /** It publishes ticket 8 in place of its holder, and a pop takes that ticket. */
  lemma PopTooEarly(s: State<int>) returns (path: seq<State<int>>)
    requires BeforeClaim(s)
    ensures FreshPath(8, path) && path[0] == Do(8, s, 0, Choice(Pop, false))
    ensures Last(path)
         == Taken(s.(tail := Lane(10, 9, Lowered(8)), threads := s.threads[0 := Test(Push(2), 2)]), 1, Pop)
  {
    Cells();
    StepMoves(8, s, 0, Choice(Pop, false));
    RaiseAndLower(8, 1);
    path := [Do(8, s, 0, Choice(Pop, false))];
    assert path[0] == s.(tail := Lane(10, 8, Lowered(8)), threads := s.threads[0 := Bump(Push(2), 1)]);
    path := Extend(8, path, 0, Pop);
    path := TakeTicket(8, path, 1, Pop);
  }

  /** While the push of ticket 8 is still at cell 0, the pop of ticket 8 reads it. */
  lemma PopReadsOldValue(s: State<int>) returns (path: seq<State<int>>, j: nat)
    requires BeforeClaim(s)
    ensures FreshPath(8, path) && path[0] == Do(8, s, 0, Choice(Pop, false))
    ensures j < |path| && !Exclusive(8, path[j])
    ensures Last(path).popped == s.popped[8 := 1] && Last(path).pushed == s.pushed
  {
    Cells();
    path := PopTooEarly(s);
    j := |path| - 1;
    var ts := path[j].threads;
    assert ts == [Test(Push(2), 2), Access(Pop, 8), Access(Push(7), 8)];
    assert ts[1].Access? && ts[2].Access? && ts[1].idx == ts[2].idx;
    assert !Exclusive(8, path[j]);
    path := FinishTicket(8, path, 1, Pop, 8);
  }

  /**
   * One stale claim is enough: with no other one in the run, a pop stands at a cell together with the
   * push of its own ticket, and then delivers the value of ticket 0 for ticket 8, one lap too late.
   */
  lemma StaleClaimLosesData() returns (run: seq<State<int>>, k: nat, j: nat)
    ensures OnlyStaleClaim(8, run, k, 0, Pop)
    ensures k < j < |run| && !Exclusive(8, run[j])
    ensures var s := Last(run);
            8 in s.popped && 8 < |s.pushed| && s.popped[8] == s.pushed[0] != s.pushed[8] && !InOrder(s)
  {
    var before := ReachClaim();
    var path, both := PopReadsOldValue(Last(before));
    WithStaleClaim(8, before, 0, Pop, path);
    run, k, j := before + path, |before| - 1, |before| + both;
    assert run[j] == path[both] && Last(run) == Last(path);
  }
}
