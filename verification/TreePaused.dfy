/**
 * A run in which an acquire of the tree pool spins although 64 slots are free: another thread has stopped between
 * making its new node and announcing it.
 */
module TreePaused {
  import opened Options
  import opened Words
  import opened Sums
  import opened Slots
  import opened TreeArena
  import opened TreeShape
  import opened TreePools
  import opened TreeSteps
  import opened TreeRuns
  import opened TreeTheorems
  import opened TreeSolo
  import opened TreeProgress
  import opened TreeWaiting

  /** The root alone, with the free slots `f`. */
  ghost function RootOnly(N: nat, f: set<nat>): Arena {
    NewArena(N).(free := [f])
  }

  ghost predicate TwoIdle(N: nat, s: State, f: set<nat>) {
    s.arena == RootOnly(N, f) && s.threads == [Idle, Idle]
  }

  /** Thread `t` takes the next step of the run. */
  lemma Extend(N: nat, run: seq<State>, t: nat, call: Call) returns (longer: seq<State>)
    requires N > 0 && IsRun(N, run) && t < |run[|run| - 1].threads|
    ensures CanStep(N, run[|run| - 1]) && InBounds(N, run[|run| - 1].arena, run[|run| - 1].threads[t])
    ensures longer == run + [Do(N, run[|run| - 1], t, Choice(call, 0, false))] && IsRun(N, longer)
  {
    hide Do;
    RunsGoOn(N, run, t, Choice(call, 0, false));
    longer := run + [Do(N, run[|run| - 1], t, Choice(call, 0, false))];
  }

  /** Thread 0 has taken `n` slots of the root. */
  lemma {:induction false} TakeSlots(N: nat, n: nat) returns (run: seq<State>, f: set<nat>)
    requires N > 0 && n <= W
    ensures IsRun(N, run) && TwoIdle(N, run[|run| - 1], f) && |f| == W - n
  {
    hide IsRun;
    if n == 0 {
      run, f := FirstRun(N);
    } else {
      var g;
      run, g := TakeSlots(N, n - 1);
      run := Extend(N, run, 0, Acquire);
      run := Extend(N, run, 0, Acquire);
      run := Extend(N, run, 0, Acquire);
      f := g - {Least(g)};
      assert [g][0 := f] == [f];
      assert [Idle, Idle][0 := Idle] == [Idle, Idle];
    }
  }

  lemma FirstRun(N: nat) returns (run: seq<State>, f: set<nat>)
    requires N > 0
    ensures IsRun(N, run) && TwoIdle(N, run[|run| - 1], f) && |f| == W
  {
    f := AllSlots();
    run := [State(NewArena(N), [Idle, Idle], {})];
  }

  /** Thread 0 is inside its acquire of the full pool and has not made a node yet. */
  ghost predicate Creating65(N: nat, s: State) {
    && Able(N, s, 0) && s.arena == RootOnly(N, {}) && |s.threads| == 2 && s.threads[1] == Idle
    && Acquiring(s.threads[0])
  }

  /** Thread 0 has made its node and not announced it. */
  ghost predicate NotAnnounced(N: nat, s: State) {
    && N > 0 && s.arena == Publish(RootOnly(N, {}), 0, 0, AllSlots())
    && s.threads == [AddSize(1, W, Retry(0, 1)), Idle]
  }

  /** Until it makes the node, its steps change nothing in the full pool. */
  lemma CreatingGoesOn(N: nat, s: State, ch: Choice)
    requires N > 0 && Creating65(N, s) && !ch.spurious
    ensures s.threads[0].CreCas? ==> NotAnnounced(N, Do(N, s, 0, ch))
    ensures !s.threads[0].CreCas? ==>
              var s' := Do(N, s, 0, ch);
              s'.arena == s.arena && |s'.threads| == 2 && s'.threads[1] == Idle && Acquiring(s'.threads[0])
  {
    var a, th := s.arena, s.threads[0];
    if Local(N, a, th, ch).Some? { LocalKeepsAt(N, a, th, ch); }
  }

  lemma {:induction false} MakeNode(N: nat, run: seq<State>) returns (longer: seq<State>)
    requires IsPow2(N) && N > 0 && IsRun(N, run) && Creating65(N, run[|run| - 1])
    ensures IsRun(N, longer) && NotAnnounced(N, longer[|longer| - 1])
    decreases StepsLeft(N, run[|run| - 1].arena, run[|run| - 1].threads[0])
  {
    hide Do, Expects, InBounds, Inv, IsPow2, StepsLeft, NotAnnounced;
    var s, ch := run[|run| - 1], Choice(Acquire, 0, false);
    RunKeepsInv(N, run, |run| - 1);
    CreatingGoesOn(N, s, ch);
    StepCountsDown(N, s, 0, ch);
    longer := Extend(N, run, 0, Acquire);
    if !s.threads[0].CreCas? {
      longer := MakeNode(N, longer);
    }
  }

  lemma BeginsCreating(N: nat, s: State, s': State)
    requires N > 0 && TwoIdle(N, s, {}) && Inv(N, s) && CanStep(N, s) && s' == Do(N, s, 0, Choice(Acquire, 0, false))
    ensures CanStep(N, s') ==> Creating65(N, s')
  {
    hide Inv, ComesBack;
    NonePending(N, s);
    AnnouncedServes(N, s.arena);
    SumZero(s.arena.size[0]);
    NothingFree(s.arena.free);
  }

  lemma NodeMakesItWait(N: nat, s: State)
    requires N > 0 && NotAnnounced(N, s) && CanStep(N, s)
    ensures Waits(s.arena, N) && TotalFree(s.arena.free) == W
  {
    var a := s.arena;
    SumZero(a.size[0]);
    TotalFreeAppend([{}], AllSlots());
    NothingFree([{}]);
    assert IsEdge(a, Edge(0, 0), 1);
    assert ComesBackFrom(a, N, 0, 0);
  }

  /**
   * Thread 0 has made a node for its 65th handle and stopped. The 64 slots of the node are free, and the acquire
   * that thread 1 begins does not end as long as thread 0 does not go on.
   */
  lemma PausedPublisherBlocks(N: nat) returns (run: seq<State>)
    requires IsPow2(N) && N > 0
    ensures IsRun(N, run)
    ensures var s := run[|run| - 1];
            && s.threads == [AddSize(1, W, Retry(0, 1)), SegLoad(0)]
            && TotalFree(s.arena.free) == W
            && forall b: nat :: !EndsWithin(N, s, 1, b)
  {
    hide Do, IsPow2, Inv, Waits, EndsWithin;
    var f;
    run, f := TakeSlots(N, W);
    RunKeepsInv(N, run, |run| - 1);
    InvCanStep(N, run[|run| - 1]);
    var begun := Extend(N, run, 0, Acquire);
    RunKeepsInv(N, begun, |begun| - 1);
    InvCanStep(N, begun[|begun| - 1]);
    BeginsCreating(N, run[|run| - 1], begun[|begun| - 1]);
    run := MakeNode(N, begun);
    var made := run[|run| - 1];
    run := Extend(N, run, 1, Acquire);
    SecondBegins(N, made, run[|run| - 1]);
    NodeMakesItWait(N, made);
    AcquireEndsIffNoWait(N, run, |run| - 1, 1);
  }

  lemma SecondBegins(N: nat, s: State, s': State)
    requires N > 0 && NotAnnounced(N, s) && CanStep(N, s) && s' == Do(N, s, 1, Choice(Acquire, 0, false))
    ensures s'.arena == s.arena && s'.threads == [AddSize(1, W, Retry(0, 1)), SegLoad(0)]
  {
  }
}
