/** The ring queue as a machine of threads: every load, exchange, addition and cell access is one step. */
module QueueSteps {
  import opened Sums
  import opened QueueLanes

  datatype Op<T> = Push(v: T) | Pop

  /** Where a thread stands; `idx` is the local variable of push and pop. */
  datatype Thread<T> =
    | Idle
    | Load(op: Op<T>)                // load tail_write_ or head_read_
    | Check(op: Op<T>, idx: nat)     // load head_write_ or tail_read_ and test for full or empty
    | Cas(op: Op<T>, idx: nat)       // exchange tail_write_ or head_read_
    | Access(op: Op<T>, idx: nat)    // write or read the cell
    | Raise(op: Op<T>, idx: nat)     // set the cell's flag
    | Test(op: Op<T>, idx: nat)      // load tail_read_ or head_write_ and compare with idx
    | Ready(op: Op<T>, idx: nat)     // data_is_ready_: load the flag
    | Claim(op: Op<T>, idx: nat)     // data_is_ready_: exchange the flag
    | Bump(op: Op<T>, idx: nat)      // add one to tail_read_ or head_write_

  /** `tail` is (tail_write_, tail_read_, check_write_), `head` is (head_read_, head_write_, check_read_). */
  datatype State<T> = State(
    tail: Lane,
    head: Lane,
    data: seq<T>,
    threads: seq<Thread<T>>,
    pushed: seq<T>,              // history: the value of each push ticket
    popped: map<nat, T>,         // history: the value read with each pop ticket
    begun: seq<Made<T>>,         // history: the calls, in the order they were made
    ended: seq<Outcome<T>>)      // history: the calls that have returned, with what they returned

  datatype Made<T> = Made(thread: nat, op: Op<T>)

  datatype Outcome<T> = Outcome(thread: nat, op: Op<T>, ok: bool)

  datatype Choice<T> = Choice(call: Op<T>, spurious: bool)

  function LaneOf<T>(s: State<T>, op: Op<T>): Lane {
    if op.Push? then s.tail else s.head
  }

  /** `size_` on the values of two counters, not necessarily read at the same time. */
  function QueueSize(h: nat, t: nat, S: nat): nat
    requires S > 0
  {
    if t >= h then t - h else t + S - Cell(h, S)
  }

  /** The loop test of push and pop. */
  predicate HasRoom<T>(S: nat, s: State<T>, op: Op<T>, idx: nat)
    requires S > 0
  {
    if op.Push? then QueueSize(s.head.pub, idx, S) != S else idx != s.tail.pub
  }

  ghost predicate Sized<T>(S: nat, s: State<T>) {
    S > 0 && |s.tail.flags| == |s.head.flags| == |s.data| == S
  }

  datatype Progress<T> = Progress(th: Thread<T>, lane: Lane)

  /** What a step inside push or pop does to the thread and to its lane; `room` is the loop test. */
  function Advance<T>(S: nat, lane: Lane, room: bool, th: Thread<T>, spurious: bool): Progress<T>
    requires S == |lane.flags| > 0
  {
    match th
    case Idle => Progress(th, lane)
    case Load(op) => Progress(Check(op, lane.alloc), lane)
    case Check(op, idx) => Progress(if room then Cas(op, idx) else Idle, lane)
    case Cas(op, idx) =>
      if !spurious && lane.alloc == idx then Progress(Access(op, idx), lane.(alloc := lane.alloc + 1))
      else Progress(Check(op, lane.alloc), lane)
    case Access(op, idx) => Progress(Raise(op, idx), lane)
    case Raise(op, idx) => Progress(Test(op, idx), lane.(flags := lane.flags[Cell(idx, S) := true]))
    case Test(op, idx) => Progress(if idx == lane.pub then Ready(op, idx) else Idle, lane)
    case Ready(op, idx) => Progress(if lane.flags[Cell(idx, S)] then Claim(op, idx) else Idle, lane)
    case Claim(op, idx) =>
      if !lane.flags[Cell(idx, S)] then Progress(Idle, lane)
      else if spurious then Progress(th, lane)
      else Progress(Bump(op, idx), lane.(flags := lane.flags[Cell(idx, S) := false]))
    case Bump(op, idx) => Progress(Test(op, idx + 1), lane.(pub := lane.pub + 1))
  }

  function Room<T>(S: nat, s: State<T>, th: Thread<T>): bool
    requires S > 0
  {
    th.Check? && HasRoom(S, s, th.op, th.idx)
  }

  /** The next stand of a thread that is inside push or pop. */
  function Move<T>(S: nat, s: State<T>, th: Thread<T>, spurious: bool): Progress<T>
    requires Sized(S, s) && !th.Idle?
  {
    Advance(S, LaneOf(s, th.op), Room(S, s, th), th, spurious)
  }

  predicate TakesPushTicket<T>(s: State<T>, th: Thread<T>, spurious: bool) {
    th.Cas? && th.op.Push? && !spurious && s.tail.alloc == th.idx
  }

  /** One step of thread `t`. A call that leaves the loop of its check returns false, any other true. */
  function Do<T>(S: nat, s: State<T>, t: nat, ch: Choice<T>): State<T>
    requires Sized(S, s) && t < |s.threads|
  {
    var th := s.threads[t];
    if th.Idle? then s.(threads := s.threads[t := Load(ch.call)], begun := s.begun + [Made(t, ch.call)]) else
      var p := Move(S, s, th, ch.spurious);
      State(if th.op.Push? then p.lane else s.tail,
            if th.op.Push? then s.head else p.lane,
            if th.Access? && th.op.Push? then s.data[Cell(th.idx, S) := th.op.v] else s.data,
            s.threads[t := p.th],
            if TakesPushTicket(s, th, ch.spurious) then s.pushed + [th.op.v] else s.pushed,
            if th.Access? && th.op.Pop? then s.popped[th.idx := s.data[Cell(th.idx, S)]] else s.popped,
            s.begun,
            if p.th.Idle? then s.ended + [Outcome(t, th.op, !th.Check?)] else s.ended)
  }

  ghost predicate Init<T>(S: nat, s: State<T>) {
    && Sized(S, s)
    && s.tail == s.head
    && s.tail.alloc == s.tail.pub == 0
    && (forall j :: 0 <= j < S ==> !s.tail.flags[j])
    && (forall t :: 0 <= t < |s.threads| ==> s.threads[t] == Idle)
    && s.pushed == [] && s.popped == map[] && s.begun == [] && s.ended == []
  }

  ghost predicate Next<T(!new)>(S: nat, s: State<T>, s': State<T>) {
    Sized(S, s) && exists t: nat, ch :: t < |s.threads| && s' == Do(S, s, t, ch)
  }

  /** A run of any number of producers and consumers. */
  ghost predicate IsRun<T(!new)>(S: nat, run: seq<State<T>>) {
    && |run| > 0 && Init(S, run[0])
    && forall k :: 0 <= k < |run| - 1 ==> Next(S, run[k], run[k + 1])
  }

  /** The step lowers the flag of a cell for a ticket that is not the oldest one any more. */
  predicate IsStaleClaim<T>(S: nat, s: State<T>, t: nat, ch: Choice<T>)
    requires Sized(S, s) && t < |s.threads|
  {
    && s.threads[t].Claim? && !ch.spurious
    && LaneOf(s, s.threads[t].op).flags[Cell(s.threads[t].idx, S)]
    && s.threads[t].idx != LaneOf(s, s.threads[t].op).pub
  }

  ghost predicate NextFresh<T(!new)>(S: nat, s: State<T>, s': State<T>) {
    Sized(S, s) && exists t: nat, ch :: t < |s.threads| && s' == Do(S, s, t, ch) && !IsStaleClaim(S, s, t, ch)
  }

  /**
   * A run in which no thread stalls between the two halves of `idx == tail_read_ && data_is_ready_`
   * for so long that its flag belongs to a later ticket.
   */
  ghost predicate IsFreshRun<T(!new)>(S: nat, run: seq<State<T>>) {
    && |run| > 0 && Init(S, run[0])
    && forall k :: 0 <= k < |run| - 1 ==> NextFresh(S, run[k], run[k + 1])
  }

  /** What a thread does in the lane of pushes, or in that of pops. */
  function RoleIn<T>(th: Thread<T>, push: bool): Role {
    match th
    case Access(op, i) => if op.Push? == push then Holding(i) else Out
    case Raise(op, i) => if op.Push? == push then Holding(i) else Out
    case Test(op, i) => if op.Push? == push then Watching(i) else Out
    case Ready(op, i) => if op.Push? == push then Watching(i) else Out
    case Claim(op, i) => if op.Push? == push then Watching(i) else Out
    case Bump(op, i) => if op.Push? == push then Bumping(i) else Out
    case _ => Out
  }

  function Roles<T>(ts: seq<Thread<T>>, push: bool): (rs: seq<Role>)
    ensures |rs| == |ts| && forall t :: 0 <= t < |rs| ==> rs[t] == RoleIn(ts[t], push)
  {
    seq(|ts|, t requires 0 <= t < |ts| => RoleIn(ts[t], push))
  }

  lemma RolesPut<T>(ts: seq<Thread<T>>, t: nat, th: Thread<T>, push: bool)
    requires t < |ts|
    ensures Roles(ts[t := th], push) == Roles(ts, push)[t := RoleIn(th, push)]
    ensures RoleIn(th, push) == RoleIn(ts[t], push) ==> Roles(ts[t := th], push) == Roles(ts, push)
  {
  }

  // ---- the counter chain, for every run ----

  /** A ticket that a thread is about to take is old enough to lose, or there is room for it. */
  ghost predicate Planned<T>(S: nat, s: State<T>, th: Thread<T>) {
    match th
    case Check(op, idx) => idx <= LaneOf(s, op).alloc
    case Cas(op, idx) =>
      && idx <= LaneOf(s, op).alloc
      && (idx == LaneOf(s, op).alloc ==> if op.Push? then idx < s.head.pub + S else idx < s.tail.pub)
    case _ => true
  }

  ghost predicate ChainInv<T>(S: nat, s: State<T>) {
    && Sized(S, s)
    && s.head.alloc <= s.tail.pub && s.tail.alloc <= s.head.pub + S
    && Counted(s.tail, Roles(s.threads, true))
    && Counted(s.head, Roles(s.threads, false))
    && (forall t :: 0 <= t < |s.threads| ==> Planned(S, s, s.threads[t]))
  }

  /** The counters only grow, and nothing else matters to what other threads have planned. */
  lemma OthersStayPlanned<T>(S: nat, s: State<T>, s': State<T>, t: nat)
    requires ChainInv(S, s) && t < |s.threads| == |s'.threads|
    requires s.tail.alloc <= s'.tail.alloc && s.head.alloc <= s'.head.alloc
    requires s.head.pub <= s'.head.pub && s.tail.pub <= s'.tail.pub
    requires forall u :: 0 <= u < |s.threads| && u != t ==> s'.threads[u] == s.threads[u]
    requires Planned(S, s', s'.threads[t])
    ensures forall u :: 0 <= u < |s'.threads| ==> Planned(S, s', s'.threads[u])
  {
    forall u | 0 <= u < |s'.threads| ensures Planned(S, s', s'.threads[u]) {
      if u != t { assert Planned(S, s, s.threads[u]); }
    }
  }

  lemma AdvanceMoves<T>(S: nat, lane: Lane, room: bool, th: Thread<T>, spurious: bool, push: bool)
    requires S == |lane.flags| > 0 && !th.Idle? && th.op.Push? == push
    ensures var p := Advance(S, lane, room, th, spurious);
            && Moves(S, lane, RoleIn(th, push), p.lane, RoleIn(p.th, push))
            && RoleIn(th, !push) == RoleIn(p.th, !push) == Out
            && |p.lane.flags| == S && lane.alloc <= p.lane.alloc && lane.pub <= p.lane.pub
  {
  }

  /** What a step does to the two lanes and to the thread's roles in them. */
  lemma StepMoves<T>(S: nat, s: State<T>, t: nat, ch: Choice<T>)
    requires Sized(S, s) && t < |s.threads|
    ensures var s' := Do(S, s, t, ch);
            && Sized(S, s') && s'.threads == s.threads[t := s'.threads[t]]
            && Moves(S, s.tail, RoleIn(s.threads[t], true), s'.tail, RoleIn(s'.threads[t], true))
            && Moves(S, s.head, RoleIn(s.threads[t], false), s'.head, RoleIn(s'.threads[t], false))
            && s.tail.alloc <= s'.tail.alloc && s.head.alloc <= s'.head.alloc
            && s.head.pub <= s'.head.pub && s.tail.pub <= s'.tail.pub
  {
    var th := s.threads[t];
    if !th.Idle? {
      AdvanceMoves(S, LaneOf(s, th.op), Room(S, s, th), th, ch.spurious, th.op.Push?);
    }
  }

  lemma StepKeepsCounted<T>(S: nat, s: State<T>, t: nat, ch: Choice<T>)
    requires Sized(S, s) && t < |s.threads|
    requires Counted(s.tail, Roles(s.threads, true)) && Counted(s.head, Roles(s.threads, false))
    ensures var s' := Do(S, s, t, ch);
            Counted(s'.tail, Roles(s'.threads, true)) && Counted(s'.head, Roles(s'.threads, false))
  {
    var s' := Do(S, s, t, ch);
    StepMoves(S, s, t, ch);
    RolesPut(s.threads, t, s'.threads[t], true);
    RolesPut(s.threads, t, s'.threads[t], false);
    MoveKeepsCounted(S, s.tail, Roles(s.threads, true), t, s'.tail, RoleIn(s'.threads[t], true));
    MoveKeepsCounted(S, s.head, Roles(s.threads, false), t, s'.head, RoleIn(s'.threads[t], false));
  }

  /** A ticket is taken only when there is room for it, and a passed check is remembered. */
  lemma StepKeepsRoom<T>(S: nat, s: State<T>, t: nat, ch: Choice<T>)
    requires ChainInv(S, s) && t < |s.threads| && Planned(S, s, s.threads[t])
    ensures var s' := Do(S, s, t, ch);
            && s'.head.alloc <= s'.tail.pub && s'.tail.alloc <= s'.head.pub + S
            && Planned(S, s', s'.threads[t])
  {
    StepMoves(S, s, t, ch);
  }

  lemma StepKeepsChain<T>(S: nat, s: State<T>, t: nat, ch: Choice<T>)
    requires ChainInv(S, s) && t < |s.threads|
    ensures ChainInv(S, Do(S, s, t, ch))
  {
    StepKeepsCounted(S, s, t, ch);
    StepMoves(S, s, t, ch);
    assert Planned(S, s, s.threads[t]);
    StepKeepsRoom(S, s, t, ch);
    OthersStayPlanned(S, s, Do(S, s, t, ch), t);
  }

  lemma {:induction false} RunKeepsChain<T(!new)>(S: nat, run: seq<State<T>>, k: nat)
    requires IsRun(S, run) && k < |run|
    ensures ChainInv(S, run[k])
  {
    if k == 0 {
      InitChain(S, run[0]);
    } else {
      RunKeepsChain(S, run, k - 1);
      assert Next(S, run[k - 1], run[k - 1 + 1]);
      var t: nat, ch :| t < |run[k - 1].threads| && run[k] == Do(S, run[k - 1], t, ch);
      StepKeepsChain(S, run[k - 1], t, ch);
    }
  }

  lemma InitChain<T>(S: nat, s: State<T>)
    requires Init(S, s)
    ensures ChainInv(S, s)
  {
    SumZero(Trues(s.tail.flags));
    SumZero(Busies(Roles(s.threads, true)));
    SumZero(Busies(Roles(s.threads, false)));
  }

  /**
   * head_write_ <= head_read_ <= tail_read_ <= tail_write_ <= head_write_ + S in every state of
   * every interleaving, for any S.
   */
  lemma CounterChain<T(!new)>(S: nat, run: seq<State<T>>, k: nat)
    requires IsRun(S, run) && k < |run|
    ensures var s := run[k];
            s.head.pub <= s.head.alloc <= s.tail.pub <= s.tail.alloc <= s.head.pub + S
  {
    RunKeepsChain(S, run, k);
  }

  // ---- tickets, for every run ----

  predicate AboutToRead<T>(th: Thread<T>, i: nat) {
    th.Access? && th.op.Pop? && th.idx == i
  }

  /** A pop about to read has a ticket of its own that nobody has read. */
  ghost predicate UnreadTickets<T>(alloc: nat, popped: map<nat, T>, threads: seq<Thread<T>>) {
    && (forall i :: i in popped ==> i < alloc)
    && (forall t, i: nat {:trigger AboutToRead(threads[t], i)} :: 0 <= t < |threads| && AboutToRead(threads[t], i) ==>
          i < alloc && i !in popped)
    && (forall t, u, i: nat {:trigger AboutToRead(threads[t], i), AboutToRead(threads[u], i)} ::
          0 <= t < u < |threads| && AboutToRead(threads[t], i) ==> !AboutToRead(threads[u], i))
  }

  /** Only the exchange of head_read_ gives a thread a ticket to read. */
  lemma StepReads<T>(S: nat, s: State<T>, t: nat, ch: Choice<T>)
    requires Sized(S, s) && t < |s.threads|
    ensures var s' := Do(S, s, t, ch);
            && Sized(S, s') && s.head.alloc <= s'.head.alloc && s'.threads == s.threads[t := s'.threads[t]]
            && (s'.popped == s.popped
                || (AboutToRead(s.threads[t], s.threads[t].idx)
                    && s'.popped.Keys == s.popped.Keys + {s.threads[t].idx}))
            && forall i: nat :: AboutToRead(s'.threads[t], i) ==>
                 i == s.head.alloc && s'.head.alloc == s.head.alloc + 1 && s'.popped == s.popped
  {
    StepMoves(S, s, t, ch);
  }

  lemma StepKeepsUnread<T>(S: nat, s: State<T>, t: nat, ch: Choice<T>, s': State<T>)
    requires Sized(S, s) && t < |s.threads| && UnreadTickets(s.head.alloc, s.popped, s.threads) && s' == Do(S, s, t, ch)
    ensures Sized(S, s') && UnreadTickets(s'.head.alloc, s'.popped, s'.threads)
  {
    StepReads(S, s, t, ch);
    forall u, i: nat | 0 <= u < |s'.threads| && AboutToRead(s'.threads[u], i)
      ensures i < s'.head.alloc && i !in s'.popped
    {
      if u != t {
        assert AboutToRead(s.threads[u], i);
        assert AboutToRead(s.threads[if u < t then u else t], i) ==> !AboutToRead(s.threads[if u < t then t else u], i);
      }
    }
    forall u, v, i: nat | 0 <= u < v < |s'.threads| && AboutToRead(s'.threads[u], i)
      ensures !AboutToRead(s'.threads[v], i)
    {
      if u != t { assert AboutToRead(s.threads[u], i); }
      if v != t { assert AboutToRead(s.threads[v], i) ==> i < s.head.alloc; }
    }
  }

  lemma {:induction false} RunKeepsUnread<T(!new)>(S: nat, run: seq<State<T>>, k: nat)
    requires IsRun(S, run) && k < |run|
    ensures Sized(S, run[k]) && UnreadTickets(run[k].head.alloc, run[k].popped, run[k].threads)
  {
    if k > 0 {
      RunKeepsUnread(S, run, k - 1);
      assert Next(S, run[k - 1], run[k - 1 + 1]);
      var t: nat, ch :| t < |run[k - 1].threads| && run[k] == Do(S, run[k - 1], t, ch);
      StepKeepsUnread(S, run[k - 1], t, ch, run[k]);
    }
  }

  /** No ticket is delivered twice, in any run and for any S: nobody has read it, and nobody else has it. */
  lemma DeliveredAtMostOnce<T(!new)>(S: nat, run: seq<State<T>>, k: nat, t: nat)
    requires IsRun(S, run) && k < |run| && t < |run[k].threads|
    requires run[k].threads[t].Access? && run[k].threads[t].op.Pop?
    ensures run[k].threads[t].idx !in run[k].popped
    ensures forall u ::
              0 <= u < |run[k].threads| && u != t && run[k].threads[u].Access? && run[k].threads[u].op.Pop? ==>
                run[k].threads[u].idx != run[k].threads[t].idx
  {
    RunKeepsUnread(S, run, k);
    var i := run[k].threads[t].idx;
    assert AboutToRead(run[k].threads[t], i);
    forall u | 0 <= u < |run[k].threads| && u != t && run[k].threads[u].Access? && run[k].threads[u].op.Pop?
      ensures run[k].threads[u].idx != i
    {
      assert AboutToRead(run[k].threads[if u < t then u else t], i) ==>
               !AboutToRead(run[k].threads[if u < t then t else u], i);
    }
  }
}
