/** What the calls on the ring queue return, in every run, for any size, with stale claims or without. */
module QueueResults {
  import opened Words
  import opened Sums
  import opened QueueLanes
  import opened QueueSteps
  import opened QueuePaths
  import opened QueueSizes

  // ---- every call returns once, as the call it was ----

  function MadeBy<T>(t: nat, h: seq<Made<T>>): seq<Op<T>> {
    if h == [] then []
    else MadeBy(t, h[..|h| - 1]) + if h[|h| - 1].thread == t then [h[|h| - 1].op] else []
  }

  function EndedBy<T>(t: nat, h: seq<Outcome<T>>): seq<Op<T>> {
    if h == [] then []
    else EndedBy(t, h[..|h| - 1]) + if h[|h| - 1].thread == t then [h[|h| - 1].op] else []
  }

  /** The call in progress. */
  function Open<T>(th: Thread<T>): seq<Op<T>> {
    if th.Idle? then [] else [th.op]
  }

  ghost predicate CallsMatch<T>(s: State<T>, t: nat)
    requires t < |s.threads|
  {
    MadeBy(t, s.begun) == EndedBy(t, s.ended) + Open(s.threads[t])
  }

  ghost predicate AllMatch<T>(s: State<T>) {
    forall t: nat :: t < |s.threads| ==> CallsMatch(s, t)
  }

  /** What a step adds to the histories of calls. */
  ghost predicate Adds<T>(s: State<T>, t: nat, s': State<T>)
    requires t < |s.threads|
  {
    && |s'.threads| == |s.threads| && s'.threads == s.threads[t := s'.threads[t]]
    && var th, th' := s.threads[t], s'.threads[t];
       || (s'.begun == s.begun && s'.ended == s.ended && Open(th') == Open(th))
       || (th.Idle? && !th'.Idle? && s'.begun == s.begun + [Made(t, th'.op)] && s'.ended == s.ended)
       || (!th.Idle? && th'.Idle? && s'.begun == s.begun && s'.ended == s.ended + [Outcome(t, th.op, !th.Check?)])
  }

  lemma StepAdds<T>(S: nat, s: State<T>, t: nat, ch: Choice<T>)
    requires Sized(S, s) && t < |s.threads|
    ensures Adds(s, t, Do(S, s, t, ch)) && Sized(S, Do(S, s, t, ch))
  {
    StepMoves(S, s, t, ch);
  }

  lemma MadeMore<T>(t: nat, h: seq<Made<T>>, m: Made<T>)
    ensures MadeBy(t, h + [m]) == MadeBy(t, h) + if m.thread == t then [m.op] else []
  {
    assert (h + [m])[..|h + [m]| - 1] == h;
  }

  lemma EndedMore<T>(t: nat, h: seq<Outcome<T>>, o: Outcome<T>)
    ensures EndedBy(t, h + [o]) == EndedBy(t, h) + if o.thread == t then [o.op] else []
  {
    assert (h + [o])[..|h + [o]| - 1] == h;
  }

  lemma StepKeepsMatch<T>(s: State<T>, t: nat, s': State<T>, u: nat)
    requires t < |s.threads| && Adds(s, t, s') && u < |s.threads| && CallsMatch(s, u)
    ensures CallsMatch(s', u)
  {
    hide MadeBy, EndedBy;
    if |s'.begun| > |s.begun| { MadeMore(u, s.begun, s'.begun[|s.begun|]); }
    if |s'.ended| > |s.ended| { EndedMore(u, s.ended, s'.ended[|s.ended|]); }
  }

  lemma {:induction false} RunKeepsMatch<T(!new)>(S: nat, run: seq<State<T>>, k: nat)
    requires IsRun(S, run) && k < |run|
    ensures Sized(S, run[k]) && AllMatch(run[k])
  {
    if k > 0 {
      RunKeepsMatch(S, run, k - 1);
      assert Next(S, run[k - 1], run[k - 1 + 1]);
      var t: nat, ch :| t < |run[k - 1].threads| && run[k] == Do(S, run[k - 1], t, ch);
      StepAdds(S, run[k - 1], t, ch);
      forall u: nat | u < |run[k].threads| ensures CallsMatch(run[k], u) {
        StepKeepsMatch(run[k - 1], t, run[k], u);
      }
    }
  }

  /** The calls a thread has made are those that have returned, in order, and the one in progress if there is one. */
  lemma EveryCallReturnsOnce<T(!new)>(S: nat, run: seq<State<T>>, k: nat, t: nat)
    requires IsRun(S, run) && k < |run| && t < |run[k].threads|
    ensures MadeBy(t, run[k].begun) == EndedBy(t, run[k].ended) + Open(run[k].threads[t])
  {
    RunKeepsMatch(S, run, k);
    assert CallsMatch(run[k], t);
  }

  // ---- true means that the value went in, or came out ----

  /** The values of the pushes that returned true. */
  ghost function Won<T>(h: seq<Outcome<T>>): multiset<T> {
    if h == [] then multiset{}
    else
      var o := h[|h| - 1];
      Won(h[..|h| - 1]) + if o.op.Push? && o.ok then multiset{o.op.v} else multiset{}
  }

  /** The number of pops that returned true. */
  function Taken<T>(h: seq<Outcome<T>>): nat {
    if h == [] then 0
    else Taken(h[..|h| - 1]) + if h[|h| - 1].op.Pop? && h[|h| - 1].ok then 1 else 0
  }

  /** The thread holds a ticket, or has published it. */
  predicate HasTicket<T>(th: Thread<T>) {
    th.Access? || th.Raise? || th.Test? || th.Ready? || th.Claim? || th.Bump?
  }

  ghost function Carried<T>(th: Thread<T>): multiset<T> {
    if HasTicket(th) && th.op.Push? then multiset{th.op.v} else multiset{}
  }

  /** The values of the pushes in progress that have a ticket. */
  ghost function Flying<T>(threads: seq<Thread<T>>): multiset<T> {
    if threads == [] then multiset{} else Carried(threads[0]) + Flying(threads[1..])
  }

  function PopShare<T>(th: Thread<T>): nat {
    if HasTicket(th) && th.op.Pop? then 1 else 0
  }

  function Popping<T>(threads: seq<Thread<T>>): (s: seq<nat>)
    ensures |s| == |threads| && forall t :: 0 <= t < |s| ==> s[t] == PopShare(threads[t])
  {
    seq(|threads|, t requires 0 <= t < |threads| => PopShare(threads[t]))
  }

  /** Adding the same to both sides. */
  lemma AddBoth<T>(a: multiset<T>, f': multiset<T>, c: multiset<T>, f: multiset<T>, d: multiset<T>)
    requires f' + c == f + d
    ensures (a + f') + c == (a + f) + d
  {
    forall x: T ensures ((a + f') + c)[x] == ((a + f) + d)[x] {
      assert (f' + c)[x] == (f + d)[x];
    }
  }

  /** What moves from the threads to the pushed values, or from the threads to the returns, keeps the balance. */
  lemma KeepsBalance<T>(p: multiset<T>, w: multiset<T>, f: multiset<T>, c: multiset<T>, d: multiset<T>,
      p': multiset<T>, w': multiset<T>, f': multiset<T>)
    requires p == w + f && f' + c == f + d
    requires (p' == p && w' == w && c == d) || (p' == p + d && w' == w && c == multiset{})
          || (p' == p && w' == w + c && d == multiset{})
    ensures p' == w' + f'
  {
    forall x: T ensures p'[x] == (w' + f')[x] {
      assert p[x] == (w + f)[x] && (f' + c)[x] == (f + d)[x];
    }
  }

  lemma {:induction false} FlyingPut<T>(threads: seq<Thread<T>>, t: nat, th: Thread<T>)
    requires t < |threads|
    ensures Flying(threads[t := th]) + Carried(threads[t]) == Flying(threads) + Carried(th)
  {
    var threads' := threads[t := th];
    if t == 0 {
      assert threads'[1..] == threads[1..];
      AddBoth(Flying(threads[1..]), Carried(th), Carried(threads[0]), Carried(threads[0]), Carried(th));
    } else {
      assert threads'[1..] == threads[1..][t - 1 := th];
      FlyingPut(threads[1..], t - 1, th);
      AddBoth(Carried(threads[0]), Flying(threads'[1..]), Carried(threads[t]), Flying(threads[1..]), Carried(th));
    }
  }

  lemma PoppingPut<T>(threads: seq<Thread<T>>, t: nat, th: Thread<T>)
    requires t < |threads|
    ensures Sum(Popping(threads[t := th])) + PopShare(threads[t]) == Sum(Popping(threads)) + PopShare(th)
  {
    SumUpdate(Popping(threads), t, PopShare(th));
    assert Popping(threads[t := th]) == Popping(threads)[t := PopShare(th)];
  }

  ghost predicate Accounted<T>(s: State<T>) {
    && multiset(s.pushed) == Won(s.ended) + Flying(s.threads)
    && |s.pushed| == s.tail.alloc
    && s.head.alloc == Taken(s.ended) + Sum(Popping(s.threads))
  }

  /** How a step changes the tickets, the thread and the history of returns. */
  ghost predicate Settles<T>(s: State<T>, t: nat, s': State<T>)
    requires t < |s.threads|
  {
    && |s'.threads| == |s.threads| && s'.threads == s.threads[t := s'.threads[t]]
    && var th, th' := s.threads[t], s'.threads[t];
       || (s'.ended == s.ended && s'.pushed == s.pushed
           && s'.tail.alloc == s.tail.alloc && s'.head.alloc == s.head.alloc
           && Carried(th') == Carried(th) && PopShare(th') == PopShare(th))
       || (s'.ended == s.ended && !HasTicket(th) && HasTicket(th') && th'.op.Push?
           && s'.pushed == s.pushed + [th'.op.v] && s'.tail.alloc == s.tail.alloc + 1 && s'.head.alloc == s.head.alloc)
       || (s'.ended == s.ended && !HasTicket(th) && HasTicket(th') && th'.op.Pop?
           && s'.pushed == s.pushed && s'.tail.alloc == s.tail.alloc && s'.head.alloc == s.head.alloc + 1)
       || (!th.Idle? && th'.Idle? && s'.ended == s.ended + [Outcome(t, th.op, HasTicket(th))]
           && s'.pushed == s.pushed && s'.tail.alloc == s.tail.alloc && s'.head.alloc == s.head.alloc)
  }

  /** The step of a thread inside a call, seen from its lane. */
  lemma AdvanceSettles<T>(S: nat, lane: Lane, room: bool, th: Thread<T>, spurious: bool)
    requires S == |lane.flags| > 0 && !th.Idle?
    ensures var p := Advance(S, lane, room, th, spurious);
            || (p.lane.alloc == lane.alloc && !p.th.Idle? && HasTicket(p.th) == HasTicket(th) && p.th.op == th.op)
            || (p.lane.alloc == lane.alloc + 1 && th.Cas? && !spurious && lane.alloc == th.idx
                && HasTicket(p.th) && p.th.op == th.op)
            || (p.lane.alloc == lane.alloc && p.th.Idle? && !th.Cas? && HasTicket(th) == !th.Check?)
  {
  }

  lemma StepSettles<T>(S: nat, s: State<T>, t: nat, ch: Choice<T>)
    requires Sized(S, s) && t < |s.threads|
    ensures Settles(s, t, Do(S, s, t, ch)) && Sized(S, Do(S, s, t, ch))
  {
    StepMoves(S, s, t, ch);
    hide Advance, Sized, Cell;
    var th, s' := s.threads[t], Do(S, s, t, ch);
    if !th.Idle? {
      LaneSized(S, s, th.op);
      AdvanceSettles(S, LaneOf(s, th.op), Room(S, s, th), th, ch.spurious);
      AdvanceTicket(S, LaneOf(s, th.op), Room(S, s, th), th, ch.spurious);
    }
  }

  lemma LaneSized<T>(S: nat, s: State<T>, op: Op<T>)
    requires Sized(S, s)
    ensures S == |LaneOf(s, op).flags| > 0
  {
  }

  lemma AdvanceTicket<T>(S: nat, lane: Lane, room: bool, th: Thread<T>, spurious: bool)
    requires S == |lane.flags| > 0 && !th.Idle?
    ensures th.Cas? && !spurious && lane.alloc == th.idx ==>
              Advance(S, lane, room, th, spurious).lane.alloc == lane.alloc + 1
  {
  }

  lemma WonMore<T>(h: seq<Outcome<T>>, o: Outcome<T>)
    ensures Won(h + [o]) == Won(h) + if o.op.Push? && o.ok then multiset{o.op.v} else multiset{}
    ensures Taken(h + [o]) == Taken(h) + if o.op.Pop? && o.ok then 1 else 0
  {
    assert (h + [o])[..|h + [o]| - 1] == h;
  }

  lemma StepKeepsTaken<T>(s: State<T>, t: nat, s': State<T>)
    requires t < |s.threads| && Settles(s, t, s') && Accounted(s)
    ensures |s'.pushed| == s'.tail.alloc && s'.head.alloc == Taken(s'.ended) + Sum(Popping(s'.threads))
  {
    hide Won, Taken, Flying, Sum;
    PoppingPut(s.threads, t, s'.threads[t]);
    if |s'.ended| > |s.ended| { WonMore(s.ended, s'.ended[|s.ended|]); }
  }

  lemma StepKeepsWon<T>(s: State<T>, t: nat, s': State<T>)
    requires t < |s.threads| && Settles(s, t, s') && Accounted(s)
    ensures multiset(s'.pushed) == Won(s'.ended) + Flying(s'.threads)
  {
    hide Won, Taken, Flying, Sum;
    var th, th' := s.threads[t], s'.threads[t];
    FlyingPut(s.threads, t, th');
    if |s'.ended| > |s.ended| { WonMore(s.ended, s'.ended[|s.ended|]); }
    assert |s'.pushed| > |s.pushed| ==> multiset(s'.pushed) == multiset(s.pushed) + Carried(th');
    KeepsBalance(multiset(s.pushed), Won(s.ended), Flying(s.threads), Carried(th), Carried(th'),
                 multiset(s'.pushed), Won(s'.ended), Flying(s'.threads));
  }

  lemma {:induction false} RunKeepsAccounts<T(!new)>(S: nat, run: seq<State<T>>, k: nat)
    requires IsRun(S, run) && k < |run|
    ensures Sized(S, run[k]) && Accounted(run[k])
  {
    if k > 0 {
      RunKeepsAccounts(S, run, k - 1);
      assert Next(S, run[k - 1], run[k - 1 + 1]);
      var t: nat, ch :| t < |run[k - 1].threads| && run[k] == Do(S, run[k - 1], t, ch);
      StepSettles(S, run[k - 1], t, ch);
      StepKeepsTaken(run[k - 1], t, run[k]);
      StepKeepsWon(run[k - 1], t, run[k]);
    } else {
      NothingFlies(run[0].threads);
      SumZero(Popping(run[0].threads));
    }
  }

  lemma {:induction false} NothingFlies<T>(threads: seq<Thread<T>>)
    requires forall t :: 0 <= t < |threads| ==> threads[t].Idle?
    ensures Flying(threads) == multiset{}
  {
    if threads != [] { NothingFlies(threads[1..]); }
  }

  /**
   * The values that have push tickets are those of the pushes that returned true and of those in progress that
   * hold one: a push that returns true has put its value in, a push that returns false has not. The
   * pop tickets are those of the pops that returned true and of those in progress that hold one.
   */
  lemma TrueMeansTicket<T(!new)>(S: nat, run: seq<State<T>>, k: nat)
    requires IsRun(S, run) && k < |run|
    ensures multiset(run[k].pushed) == Won(run[k].ended) + Flying(run[k].threads)
    ensures |run[k].pushed| == run[k].tail.alloc
    ensures run[k].head.alloc == Taken(run[k].ended) + Sum(Popping(run[k].threads))
  {
    RunKeepsAccounts(S, run, k);
  }

  // ---- false means full, or empty, or a check that was too late ----

  /**
   * A call returns without a ticket only at its check. A pop does so exactly if it finds its index at tail_read_, and
   * the queue is then empty. A push does so exactly if its index is S ahead of head_write_, and the queue is
   * then full, or if its index is behind head_write_ and happens to be the number of head_write_'s cell.
   */
  lemma FalseExactly<T(!new)>(S: nat, run: seq<State<T>>, k: nat, t: nat, ch: Choice<T>)
    requires IsRun(S, run) && k + 1 < |run| && Sized(S, run[k]) && t < |run[k].threads|
    requires run[k + 1] == Do(S, run[k], t, ch) && !run[k].threads[t].Idle? && !HasTicket(run[k].threads[t])
    ensures var s, th := run[k], run[k].threads[t];
            && t < |run[k + 1].threads|
            && (run[k + 1].threads[t].Idle? <==>
                  th.Check? && if th.op.Pop? then th.idx == s.tail.pub
                               else th.idx == s.head.pub + S || (th.idx < s.head.pub && th.idx == Cell(s.head.pub, S)))
            && (run[k + 1].threads[t].Idle? && th.op.Pop? ==> s.head.alloc == s.tail.pub)
            && (run[k + 1].threads[t].Idle? && th.op.Push? && th.idx >= s.head.pub ==> s.tail.alloc == s.head.pub + S)
            && (!run[k + 1].threads[t].Idle? ==> run[k + 1].threads[t].op == th.op && run[k + 1].ended == s.ended)
  {
    RunKeepsChain(S, run, k);
    assert Planned(S, run[k], run[k].threads[t]);
    StepMoves(S, run[k], t, ch);
  }

  /** Thread 0 has loaded tail_write_ = 0 and is about to check; thread 1 has pushed and popped `n` values. */
  lemma {:induction false} LateCheck(S: nat, n: nat) returns (run: seq<State<int>>)
    requires S > 0
    ensures IsFreshRun(S, run)
    ensures var s := Last(run);
            && Sized(S, s) && s.threads == [Check(Push(7), 0), Idle]
            && s.tail == Lane(n, n, Lowered(S)) && s.head == Lane(n, n, Lowered(S))
  {
    if n == 0 {
      assert Start(S, 2).threads == [Idle, Idle];
      run := Extend(S, [Start(S, 2)], 0, Push(7));
      run := Extend(S, run, 0, Push(7));
      assert run[0] == Start(S, 2);
    } else {
      var most := LateCheck(S, n - 1);
      run := CallAlone(S, most, 1, Push(0));
      run := CallAlone(S, run, 1, Pop);
      assert run[0] == most[0];
    }
  }

  lemma CellOfSize(S: nat)
    requires S > 0 && IsPow2(S)
    ensures Cell(S, S) == 0
  {
    hide Pow2, And;
    var k: nat :| S == Pow2(k);
    MaskIsRemainder(S, k);
    DivisionUnique(S, 1, S, 0);
  }

  /** The third case does occur: a push returns false on a queue that is empty. */
  lemma PushFailsOnEmpty(S: nat) returns (run: seq<State<int>>)
    requires S > 0 && IsPow2(S)
    ensures IsFreshRun(S, run)
    ensures var s := Last(run);
            && s.tail == s.head && s.tail.alloc == s.tail.pub == S && s.threads == [Idle, Idle]
            && s.ended != [] && s.ended[|s.ended| - 1] == Outcome(0, Push(7), false)
  {
    hide NextFresh, Cell, IsPow2;
    var most := LateCheck(S, S);
    CellOfSize(S);
    run := Extend(S, most, 0, Push(7));
    assert run[0] == most[0];
    assert Last(run).threads == [Idle, Idle];
  }

  // ---- a thread that is not disturbed ----

  /** How many more steps the call of a thread takes at most when nobody else moves. */
  function StepsLeft<T>(s: State<T>, th: Thread<T>): nat {
    match th
    case Idle => 0
    case Load(op) => FlagSteps(s, op) + 12
    case Check(op, idx) => FlagSteps(s, op) + if idx == LaneOf(s, op).alloc then 11 else 13
    case Cas(op, idx) => FlagSteps(s, op) + if idx == LaneOf(s, op).alloc then 10 else 12
    case Access(op, _) => FlagSteps(s, op) + 9
    case Raise(op, _) => FlagSteps(s, op) + 8
    case Test(op, _) => FlagSteps(s, op) + 3
    case Ready(op, _) => FlagSteps(s, op) + 2
    case Claim(op, _) => FlagSteps(s, op) + 1
    case Bump(op, _) => FlagSteps(s, op) + 4
  }

  /** Every raised flag can take the thread once more round the publish loop. */
  function FlagSteps<T>(s: State<T>, op: Op<T>): nat {
    4 * Sum(Trues(LaneOf(s, op).flags))
  }

  lemma StepCountsDown<T>(S: nat, s: State<T>, t: nat, ch: Choice<T>)
    requires Sized(S, s) && t < |s.threads| && !s.threads[t].Idle? && !ch.spurious
    ensures var s' := Do(S, s, t, ch);
            Sized(S, s') && |s'.threads| == |s.threads| && StepsLeft(s', s'.threads[t]) < StepsLeft(s, s.threads[t])
  {
    var th := s.threads[t];
    StepMoves(S, s, t, ch);
    if th.Raise? { FlagPut(LaneOf(s, th.op).flags, Cell(th.idx, S), true); }
    if th.Claim? { FlagPut(LaneOf(s, th.op).flags, Cell(th.idx, S), false); }
  }

  lemma {:induction false} TruesBound(flags: seq<bool>)
    ensures Sum(Trues(flags)) <= |flags|
    decreases |flags|
  {
    if flags != [] {
      assert Trues(flags)[1..] == Trues(flags[1..]);
      TruesBound(flags[1..]);
    }
  }

  ghost predicate MovesTo<T(!new)>(S: nat, s: State<T>, t: nat, s': State<T>) {
    Sized(S, s) && t < |s.threads| && exists ch: Choice<T> :: !ch.spurious && s' == Do(S, s, t, ch)
  }

  /** Only thread `t` moves, inside one call, and no exchange fails without a reason. */
  ghost predicate AloneInCall<T(!new)>(S: nat, path: seq<State<T>>, t: nat) {
    && |path| > 0 && Sized(S, path[0]) && t < |path[0].threads|
    && forall k :: 0 <= k < |path| - 1 ==>
         t < |path[k].threads| && !path[k].threads[t].Idle? && MovesTo(S, path[k], t, path[k + 1])
  }

  /** A thread that nobody disturbs finishes its call within 4 * S + 13 steps, wherever it stands. */
  lemma {:induction false} AloneFinishes<T(!new)>(S: nat, path: seq<State<T>>, t: nat)
    requires AloneInCall(S, path, t)
    ensures |path| - 1 <= StepsLeft(path[0], path[0].threads[t]) <= 4 * S + 13
    decreases |path|
  {
    TruesBound(path[0].tail.flags);
    TruesBound(path[0].head.flags);
    if |path| > 1 {
      assert MovesTo(S, path[0], t, path[0 + 1]);
      var ch: Choice<T> :| !ch.spurious && path[1] == Do(S, path[0], t, ch);
      StepCountsDown(S, path[0], t, ch);
      var rest := path[1..];
      forall k | 0 <= k < |rest| - 1
        ensures t < |rest[k].threads| && !rest[k].threads[t].Idle? && MovesTo(S, rest[k], t, rest[k + 1])
      {
        assert MovesTo(S, path[k + 1], t, path[k + 1 + 1]);
      }
      AloneFinishes(S, rest, t);
    }
  }
}
