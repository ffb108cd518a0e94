/** The ring queue delivers what was pushed, in every run without a stale claim. */
module QueueIntegrity {
  import opened Words
  import opened QueueLanes
  import opened QueueSteps

  /** The cell of ticket `i` holds the value pushed with it. */
  ghost predicate Filled<T>(S: nat, s: State<T>, i: nat) {
    Sized(S, s) && i < |s.pushed| && s.data[Cell(i, S)] == s.pushed[i]
  }

  /** The value of ticket `i` has been delivered, and was the right one. */
  ghost predicate Delivered<T>(s: State<T>, i: nat) {
    i in s.popped && i < |s.pushed| && s.popped[i] == s.pushed[i]
  }

  /** What a thread knows about the data of its ticket. */
  ghost predicate Knows<T>(S: nat, s: State<T>, th: Thread<T>) {
    match th
    case Access(op, i) =>
      if op.Push? then i < |s.pushed| && s.pushed[i] == op.v else Filled(S, s, i) && i !in s.popped
    case Raise(op, i) => if op.Push? then Filled(S, s, i) else Delivered(s, i)
    case Bump(op, i) => if op.Push? then Filled(S, s, i) else Delivered(s, i)
    case _ => true
  }

  ghost predicate DataOk<T>(S: nat, s: State<T>) {
    && |s.pushed| == s.tail.alloc
    && (forall t :: 0 <= t < |s.threads| ==> Knows(S, s, s.threads[t]))
    && (forall i: nat :: s.head.alloc <= i < s.tail.pub ==> Filled(S, s, i))
    && (forall i: nat :: s.tail.pub <= i < s.tail.alloc && Raised(s.tail, S, i) ==> Filled(S, s, i))
    && (forall i: nat :: i < s.head.pub ==> Delivered(s, i))
    && (forall i: nat :: s.head.pub <= i < s.head.alloc && Raised(s.head, S, i) ==> Delivered(s, i))
    && (forall i: nat :: i in s.popped ==> i < s.head.alloc && Delivered(s, i))
  }

  ghost predicate Inv<T>(S: nat, s: State<T>) {
    && ChainInv(S, s)
    && LaneOk(s.tail, S, Roles(s.threads, true))
    && LaneOk(s.head, S, Roles(s.threads, false))
    && DataOk(S, s)
  }

  lemma AdvanceIsFresh<T>(S: nat, lane: Lane, room: bool, th: Thread<T>, spurious: bool, push: bool)
    requires S == |lane.flags| > 0 && !th.Idle? && th.op.Push? == push
    requires th.Cas? && th.idx == lane.alloc ==> lane.alloc < lane.pub + S
    requires th.Claim? && !spurious && lane.flags[Cell(th.idx, S)] ==> th.idx == lane.pub
    ensures var p := Advance(S, lane, room, th, spurious);
            FreshMoves(S, lane, RoleIn(th, push), p.lane, RoleIn(p.th, push))
  {
  }

  lemma StepIsFresh<T>(S: nat, s: State<T>, t: nat, ch: Choice<T>)
    requires ChainInv(S, s) && t < |s.threads| && !IsStaleClaim(S, s, t, ch)
    ensures var s' := Do(S, s, t, ch);
            && FreshMoves(S, s.tail, RoleIn(s.threads[t], true), s'.tail, RoleIn(s'.threads[t], true))
            && FreshMoves(S, s.head, RoleIn(s.threads[t], false), s'.head, RoleIn(s'.threads[t], false))
  {
    var th := s.threads[t];
    assert Planned(S, s, th);
    StepMoves(S, s, t, ch);
    if !th.Idle? {
      AdvanceIsFresh(S, LaneOf(s, th.op), Room(S, s, th), th, ch.spurious, th.op.Push?);
      AdvanceMoves(S, LaneOf(s, th.op), Room(S, s, th), th, ch.spurious, th.op.Push?);
    }
  }

  lemma StepKeepsLanes<T>(S: nat, s: State<T>, t: nat, ch: Choice<T>)
    requires ChainInv(S, s) && t < |s.threads| && !IsStaleClaim(S, s, t, ch)
    requires LaneOk(s.tail, S, Roles(s.threads, true)) && LaneOk(s.head, S, Roles(s.threads, false))
    ensures var s' := Do(S, s, t, ch);
            LaneOk(s'.tail, S, Roles(s'.threads, true)) && LaneOk(s'.head, S, Roles(s'.threads, false))
  {
    var s' := Do(S, s, t, ch);
    StepMoves(S, s, t, ch);
    StepIsFresh(S, s, t, ch);
    RolesPut(s.threads, t, s'.threads[t], true);
    RolesPut(s.threads, t, s'.threads[t], false);
    MoveKeepsLane(S, s.tail, Roles(s.threads, true), t, s'.tail, RoleIn(s'.threads[t], true));
    MoveKeepsLane(S, s.head, Roles(s.threads, false), t, s'.head, RoleIn(s'.threads[t], false));
  }

  /** Tickets in the window of the unread and unpublished ones have cells of their own. */
  lemma OwnCell<T>(S: nat, s: State<T>, i: nat, j: nat)
    requires Inv(S, s) && s.head.pub <= i < s.tail.alloc && s.head.pub <= j < s.tail.alloc && i != j
    ensures Cell(i, S) != Cell(j, S)
  {
    CellsDiffer(S, i, j);
  }

  /** The ticket a thread holds lies in its lane. */
  lemma TicketInLane<T>(S: nat, s: State<T>, t: nat)
    requires Inv(S, s) && t < |s.threads|
    requires s.threads[t].Access? || s.threads[t].Raise? || s.threads[t].Bump?
    ensures var lane := LaneOf(s, s.threads[t].op);
            lane.pub <= s.threads[t].idx < lane.alloc && !Raised(lane, S, s.threads[t].idx)
    ensures s.threads[t].Bump? ==> s.threads[t].idx == LaneOf(s, s.threads[t].op).pub
    ensures s.head.pub <= s.threads[t].idx < s.tail.alloc
  {
    var push := s.threads[t].op.Push?;
    assert WorksOn(Roles(s.threads, push)[t], s.threads[t].idx);
  }

  /** No two threads hold the same ticket of a lane. */
  lemma OneHolder<T>(S: nat, s: State<T>, t: nat, u: nat)
    requires Inv(S, s) && t < |s.threads| && u < |s.threads| && t != u
    requires s.threads[t].Access? || s.threads[t].Raise? || s.threads[t].Bump?
    requires s.threads[u].Access? || s.threads[u].Raise? || s.threads[u].Bump?
    requires s.threads[t].op.Push? == s.threads[u].op.Push?
    ensures s.threads[t].idx != s.threads[u].idx
  {
    var roles := Roles(s.threads, s.threads[t].op.Push?);
    assert WorksOn(roles[t], s.threads[t].idx) && WorksOn(roles[u], s.threads[u].idx);
  }

  /** A raised flag at the oldest place belongs to the oldest ticket. */
  lemma ClaimedTicket<T>(S: nat, s: State<T>, t: nat)
    requires Inv(S, s) && t < |s.threads| && s.threads[t].Claim?
    requires var lane := LaneOf(s, s.threads[t].op);
             s.threads[t].idx == lane.pub && Raised(lane, S, lane.pub)
    ensures LaneOf(s, s.threads[t].op).pub < LaneOf(s, s.threads[t].op).alloc
  {
    var lane := LaneOf(s, s.threads[t].op);
    var i: nat :| lane.pub <= i < lane.alloc && Cell(i, S) == Cell(lane.pub, S);
    if i != lane.pub { CellsDiffer(S, i, lane.pub); }
  }

  ghost predicate SameData<T>(s: State<T>, s': State<T>) {
    s'.data == s.data && s'.pushed == s.pushed && s'.popped == s.popped
  }

  /** With cells and histories the same, everybody knows what he knew. */
  lemma OthersKnow<T>(S: nat, s: State<T>, s': State<T>, t: nat, th: Thread<T>)
    requires Sized(S, s) && Sized(S, s') && SameData(s, s') && t < |s.threads|
    requires forall u :: 0 <= u < |s.threads| ==> Knows(S, s, s.threads[u])
    requires s'.threads == s.threads[t := th] && Knows(S, s, th)
    ensures forall u :: 0 <= u < |s'.threads| ==> Knows(S, s', s'.threads[u])
    ensures forall i: nat :: Filled(S, s', i) == Filled(S, s, i) && Delivered(s', i) == Delivered(s, i)
  {
    forall i: nat ensures Filled(S, s', i) == Filled(S, s, i) && Delivered(s', i) == Delivered(s, i) {}
    forall u | 0 <= u < |s'.threads| ensures Knows(S, s', s'.threads[u]) {
      assert Knows(S, s, if u == t then th else s.threads[u]);
    }
  }

  /** Steps that change neither lanes nor cells. */
  lemma QuietKeepsData<T>(S: nat, s: State<T>, t: nat, th: Thread<T>, s': State<T>)
    requires DataOk(S, s) && Sized(S, s) && t < |s.threads| && Sized(S, s') && SameData(s, s')
    requires s'.threads == s.threads[t := th] && Knows(S, s, th)
    requires s'.tail == s.tail && s'.head == s.head
    ensures DataOk(S, s')
  {
    OthersKnow(S, s, s', t, th);
  }

  lemma RaiseKeepsData<T>(S: nat, s: State<T>, t: nat, s': State<T>)
    requires Inv(S, s) && t < |s.threads| && s.threads[t].Raise? && Sized(S, s') && SameData(s, s')
    requires s'.threads == s.threads[t := Test(s.threads[t].op, s.threads[t].idx)]
    requires var op, c := s.threads[t].op, Cell(s.threads[t].idx, S);
             && s'.tail == (if op.Push? then s.tail.(flags := s.tail.flags[c := true]) else s.tail)
             && s'.head == (if op.Push? then s.head else s.head.(flags := s.head.flags[c := true]))
    ensures DataOk(S, s')
  {
    var idx := s.threads[t].idx;
    TicketInLane(S, s, t);
    assert Knows(S, s, s.threads[t]);
    OthersKnow(S, s, s', t, Test(s.threads[t].op, idx));
    forall i: nat | s.head.pub <= i < s.tail.alloc && i != idx
      ensures Raised(s'.tail, S, i) == Raised(s.tail, S, i) && Raised(s'.head, S, i) == Raised(s.head, S, i)
    {
      OwnCell(S, s, i, idx);
    }
  }

  lemma ClaimKeepsData<T>(S: nat, s: State<T>, t: nat, s': State<T>)
    requires Inv(S, s) && t < |s.threads| && s.threads[t].Claim? && Sized(S, s') && SameData(s, s')
    requires s'.threads == s.threads[t := Bump(s.threads[t].op, s.threads[t].idx)]
    requires var op, c := s.threads[t].op, Cell(s.threads[t].idx, S);
             && s.threads[t].idx == LaneOf(s, op).pub && Raised(LaneOf(s, op), S, s.threads[t].idx)
             && s'.tail == (if op.Push? then s.tail.(flags := s.tail.flags[c := false]) else s.tail)
             && s'.head == (if op.Push? then s.head else s.head.(flags := s.head.flags[c := false]))
    ensures DataOk(S, s')
  {
    ClaimedTicket(S, s, t);
    OthersKnow(S, s, s', t, Bump(s.threads[t].op, s.threads[t].idx));
    forall i: nat
      ensures Raised(s'.tail, S, i) ==> Raised(s.tail, S, i)
      ensures Raised(s'.head, S, i) ==> Raised(s.head, S, i)
    {
    }
  }

  lemma BumpKeepsData<T>(S: nat, s: State<T>, t: nat, s': State<T>)
    requires DataOk(S, s) && Sized(S, s) && t < |s.threads| && s.threads[t].Bump? && Sized(S, s') && SameData(s, s')
    requires s.threads[t].idx == LaneOf(s, s.threads[t].op).pub
    requires s'.threads == s.threads[t := Test(s.threads[t].op, s.threads[t].idx + 1)]
    requires var op := s.threads[t].op;
             && s'.tail == (if op.Push? then s.tail.(pub := s.tail.pub + 1) else s.tail)
             && s'.head == (if op.Push? then s.head else s.head.(pub := s.head.pub + 1))
    ensures DataOk(S, s')
  {
    assert Knows(S, s, s.threads[t]);
    OthersKnow(S, s, s', t, Test(s.threads[t].op, s.threads[t].idx + 1));
    forall i: nat
      ensures Raised(s'.tail, S, i) == Raised(s.tail, S, i) && Raised(s'.head, S, i) == Raised(s.head, S, i)
    {
    }
  }

  /** A push takes ticket `idx`. */
  lemma TakePushKeepsData<T>(S: nat, s: State<T>, t: nat, v: T, idx: nat, s': State<T>)
    requires Inv(S, s) && t < |s.threads| && s.threads[t] == Cas(Push(v), idx) && idx == s.tail.alloc
    requires s'.data == s.data && s'.popped == s.popped && s'.pushed == s.pushed + [v] && s'.head == s.head
    requires s'.tail == s.tail.(alloc := idx + 1) && s'.threads == s.threads[t := Access(Push(v), idx)]
    ensures DataOk(S, s')
  {
    assert Planned(S, s, s.threads[t]);
    forall i: nat ensures Filled(S, s, i) ==> Filled(S, s', i) {}
    forall i: nat ensures Delivered(s, i) ==> Delivered(s', i) {}
    forall u | 0 <= u < |s'.threads| ensures Knows(S, s', s'.threads[u]) {
      if u != t { assert Knows(S, s, s.threads[u]); }
    }
    NewTicketNotRaised(S, s.tail, Roles(s.threads, true));
    forall i: nat ensures Raised(s'.tail, S, i) == Raised(s.tail, S, i) {}
  }

  lemma NewTicketNotRaised(S: nat, lane: Lane, roles: seq<Role>)
    requires LaneOk(lane, S, roles)
    ensures lane.alloc < lane.pub + S ==> !Raised(lane, S, lane.alloc)
  {
    forall i: nat | lane.pub <= i < lane.alloc && lane.alloc < lane.pub + S
      ensures Cell(i, S) != Cell(lane.alloc, S)
    {
      CellsDiffer(S, i, lane.alloc);
    }
  }

  /** A pop takes ticket `idx`: its cell is filled, and nobody has read it. */
  lemma TakePopKeepsData<T>(S: nat, s: State<T>, t: nat, idx: nat, s': State<T>)
    requires Inv(S, s) && t < |s.threads| && s.threads[t] == Cas(Pop, idx) && idx == s.head.alloc
    requires SameData(s, s') && s'.tail == s.tail
    requires s'.head == s.head.(alloc := idx + 1) && s'.threads == s.threads[t := Access(Pop, idx)]
    ensures DataOk(S, s')
  {
    assert Planned(S, s, s.threads[t]);
    OthersKnow(S, s, s', t, Access(Pop, idx));
    NewTicketNotRaised(S, s.head, Roles(s.threads, false));
    forall i: nat ensures Raised(s'.head, S, i) == Raised(s.head, S, i) {}
  }

  /** A push writes the cell of its ticket; no other ticket that matters has that cell. */
  lemma WriteKeepsData<T>(S: nat, s: State<T>, t: nat, v: T, idx: nat, s': State<T>)
    requires Inv(S, s) && t < |s.threads| && s.threads[t] == Access(Push(v), idx)
    requires s'.data == s.data[Cell(idx, S) := v] && s'.popped == s.popped && s'.pushed == s.pushed
    requires s'.head == s.head && s'.tail == s.tail && s'.threads == s.threads[t := Raise(Push(v), idx)]
    ensures DataOk(S, s')
  {
    TicketInLane(S, s, t);
    assert Knows(S, s, s.threads[t]);
    forall i: nat | s.head.pub <= i < s.tail.alloc ensures Filled(S, s, i) ==> Filled(S, s', i) {
      if i != idx { OwnCell(S, s, i, idx); }
    }
    forall i: nat ensures Delivered(s', i) == Delivered(s, i) {}
    forall u | 0 <= u < |s'.threads| ensures Knows(S, s', s'.threads[u]) {
      if u != t {
        var th := s.threads[u];
        assert Knows(S, s, th);
        if th.Access? || th.Raise? || th.Bump? { TicketInLane(S, s, u); }
      }
    }
  }

  /** A pop reads the cell of its ticket and delivers the value. */
  lemma ReadKeepsData<T>(S: nat, s: State<T>, t: nat, idx: nat, s': State<T>)
    requires Inv(S, s) && t < |s.threads| && s.threads[t] == Access(Pop, idx)
    requires s'.data == s.data && s'.pushed == s.pushed && s'.popped == s.popped[idx := s.data[Cell(idx, S)]]
    requires s'.head == s.head && s'.tail == s.tail && s'.threads == s.threads[t := Raise(Pop, idx)]
    ensures idx !in s.popped && idx < |s.pushed| && s'.popped[idx] == s.pushed[idx]
    ensures DataOk(S, s')
  {
    TicketInLane(S, s, t);
    assert Knows(S, s, s.threads[t]);
    forall i: nat ensures Filled(S, s', i) == Filled(S, s, i) {}
    forall i: nat ensures Delivered(s, i) ==> Delivered(s', i) {}
    assert Delivered(s', idx);
    forall u | 0 <= u < |s'.threads| ensures Knows(S, s', s'.threads[u]) {
      if u != t {
        var th := s.threads[u];
        assert Knows(S, s, th);
        if th.Access? && th.op.Pop? { OneHolder(S, s, t, u); }
      }
    }
  }

  lemma AccessStepKeepsData<T>(S: nat, s: State<T>, t: nat, ch: Choice<T>)
    requires Inv(S, s) && t < |s.threads| && s.threads[t].Access?
    ensures DataOk(S, Do(S, s, t, ch))
  {
    var th := s.threads[t];
    if th.op.Push? {
      WriteKeepsData(S, s, t, th.op.v, th.idx, Do(S, s, t, ch));
    } else {
      ReadKeepsData(S, s, t, th.idx, Do(S, s, t, ch));
    }
  }

  lemma TicketStepKeepsData<T>(S: nat, s: State<T>, t: nat, ch: Choice<T>)
    requires Inv(S, s) && t < |s.threads| && s.threads[t].Cas?
    requires !ch.spurious && s.threads[t].idx == LaneOf(s, s.threads[t].op).alloc
    ensures DataOk(S, Do(S, s, t, ch))
  {
    var th := s.threads[t];
    if th.op.Push? {
      TakePushKeepsData(S, s, t, th.op.v, th.idx, Do(S, s, t, ch));
    } else {
      TakePopKeepsData(S, s, t, th.idx, Do(S, s, t, ch));
    }
  }

  lemma FlagStepKeepsData<T>(S: nat, s: State<T>, t: nat, ch: Choice<T>)
    requires Inv(S, s) && t < |s.threads| && (s.threads[t].Raise? || s.threads[t].Bump?)
    ensures DataOk(S, Do(S, s, t, ch))
  {
    if s.threads[t].Raise? {
      RaiseKeepsData(S, s, t, Do(S, s, t, ch));
    } else {
      TicketInLane(S, s, t);
      BumpKeepsData(S, s, t, Do(S, s, t, ch));
    }
  }

  lemma ClaimStepKeepsData<T>(S: nat, s: State<T>, t: nat, ch: Choice<T>)
    requires Inv(S, s) && t < |s.threads| && s.threads[t].Claim?
    requires !ch.spurious && s.threads[t].idx == LaneOf(s, s.threads[t].op).pub
    requires Raised(LaneOf(s, s.threads[t].op), S, s.threads[t].idx)
    ensures DataOk(S, Do(S, s, t, ch))
  {
    ClaimKeepsData(S, s, t, Do(S, s, t, ch));
  }

  /** The remaining steps are loads, failed exchanges and returns. */
  predicate IsQuiet<T>(S: nat, s: State<T>, th: Thread<T>, spurious: bool)
    requires Sized(S, s)
  {
    match th
    case Access(_, _) => false
    case Raise(_, _) => false
    case Bump(_, _) => false
    case Cas(op, idx) => spurious || idx != LaneOf(s, op).alloc
    case Claim(op, idx) => spurious || !LaneOf(s, op).flags[Cell(idx, S)]
    case _ => true
  }

  lemma QuietStepKeepsData<T>(S: nat, s: State<T>, t: nat, ch: Choice<T>)
    requires Inv(S, s) && t < |s.threads| && IsQuiet(S, s, s.threads[t], ch.spurious)
    ensures DataOk(S, Do(S, s, t, ch))
  {
    var th := if s.threads[t].Idle? then Load(ch.call) else Move(S, s, s.threads[t], ch.spurious).th;
    QuietKeepsData(S, s, t, th, Do(S, s, t, ch));
  }

  lemma StepKeepsData<T>(S: nat, s: State<T>, t: nat, ch: Choice<T>)
    requires Inv(S, s) && t < |s.threads| && !IsStaleClaim(S, s, t, ch)
    ensures DataOk(S, Do(S, s, t, ch))
  {
    var th := s.threads[t];
    if th.Access? {
      AccessStepKeepsData(S, s, t, ch);
    } else if th.Raise? || th.Bump? {
      FlagStepKeepsData(S, s, t, ch);
    } else if IsQuiet(S, s, th, ch.spurious) {
      QuietStepKeepsData(S, s, t, ch);
    } else if th.Cas? {
      TicketStepKeepsData(S, s, t, ch);
    } else {
      ClaimStepKeepsData(S, s, t, ch);
    }
  }

  lemma StepKeepsInv<T>(S: nat, s: State<T>, t: nat, ch: Choice<T>)
    requires Inv(S, s) && t < |s.threads| && !IsStaleClaim(S, s, t, ch)
    ensures Inv(S, Do(S, s, t, ch))
  {
    StepKeepsChain(S, s, t, ch);
    StepKeepsLanes(S, s, t, ch);
    StepKeepsData(S, s, t, ch);
  }

  /** A stale claim always breaks it: a thread is then about to publish a ticket that is not the oldest. */
  lemma ExactlyFreshStepsKeepInv<T>(S: nat, s: State<T>, t: nat, ch: Choice<T>)
    requires Inv(S, s) && t < |s.threads|
    ensures Inv(S, Do(S, s, t, ch)) <==> !IsStaleClaim(S, s, t, ch)
  {
    if IsStaleClaim(S, s, t, ch) {
      var th, s' := s.threads[t], Do(S, s, t, ch);
      assert s'.threads[t] == Bump(th.op, th.idx) && LaneOf(s', th.op).pub == LaneOf(s, th.op).pub;
      assert Roles(s'.threads, th.op.Push?)[t] == Bumping(th.idx);
    } else {
      StepKeepsInv(S, s, t, ch);
    }
  }

  lemma InitInv<T>(S: nat, s: State<T>)
    requires Init(S, s) && IsPow2(S)
    ensures Inv(S, s)
  {
    InitChain(S, s);
    MaskSpreadsIffPow2(S);
  }

  lemma {:induction false} RunKeepsInv<T(!new)>(S: nat, run: seq<State<T>>, k: nat)
    requires IsPow2(S) && IsFreshRun(S, run) && k < |run|
    ensures Inv(S, run[k])
  {
    if k == 0 {
      InitInv(S, run[0]);
    } else {
      RunKeepsInv(S, run, k - 1);
      assert NextFresh(S, run[k - 1], run[k - 1 + 1]);
      var t: nat, ch :| t < |run[k - 1].threads| && run[k] == Do(S, run[k - 1], t, ch)
                        && !IsStaleClaim(S, run[k - 1], t, ch);
      StepKeepsInv(S, run[k - 1], t, ch);
    }
  }

  // ---- what users may rely on ----

  /** The pop with ticket i delivers exactly the value pushed with ticket i. */
  lemma FirstInFirstOut<T(!new)>(S: nat, run: seq<State<T>>, k: nat, i: nat)
    requires IsPow2(S) && IsFreshRun(S, run) && k < |run| && i in run[k].popped
    ensures i < |run[k].pushed| && run[k].popped[i] == run[k].pushed[i]
  {
    RunKeepsInv(S, run, k);
    assert Delivered(run[k], i);
  }

  /** No two threads touch the same cell at the same time. */
  lemma CellsAreExclusive<T(!new)>(S: nat, run: seq<State<T>>, k: nat, t: nat, u: nat)
    requires IsPow2(S) && IsFreshRun(S, run) && k < |run| && t < |run[k].threads| && u < |run[k].threads| && t != u
    requires run[k].threads[t].Access? && run[k].threads[u].Access?
    ensures S > 0 && Cell(run[k].threads[t].idx, S) != Cell(run[k].threads[u].idx, S)
  {
    RunKeepsInv(S, run, k);
    var s := run[k];
    TicketInLane(S, s, t);
    TicketInLane(S, s, u);
    if s.threads[t].op.Push? == s.threads[u].op.Push? { OneHolder(S, s, t, u); }
    OwnCell(S, s, s.threads[t].idx, s.threads[u].idx);
  }

  /** A raised flag at the oldest unpublished ticket is always being watched by some thread. */
  lemma NoTicketStranded<T(!new)>(S: nat, run: seq<State<T>>, k: nat, push: bool)
    requires IsPow2(S) && IsFreshRun(S, run) && k < |run|
    requires var lane := if push then run[k].tail else run[k].head;
             lane.pub < lane.alloc && Raised(lane, S, lane.pub)
    ensures var lane := if push then run[k].tail else run[k].head;
            exists t :: 0 <= t < |run[k].threads| && RoleIn(run[k].threads[t], push) == Watching(lane.pub)
  {
    RunKeepsInv(S, run, k);
    var lane := if push then run[k].tail else run[k].head;
    assert SomeoneWatches(Roles(run[k].threads, push), lane.pub);
    var t :| 0 <= t < |run[k].threads| && Roles(run[k].threads, push)[t] == Watching(lane.pub);
    assert RoleIn(run[k].threads[t], push) == Watching(lane.pub);
  }

  /**
   * Whenever no call is in progress: everything taken is published, the values popped so far are
   * the first values pushed, in order, and the rest are waiting in their cells.
   */
  lemma QuietQueue<T(!new)>(S: nat, run: seq<State<T>>, k: nat)
    requires IsPow2(S) && IsFreshRun(S, run) && k < |run|
    requires forall t :: 0 <= t < |run[k].threads| ==> run[k].threads[t] == Idle
    ensures var s := run[k];
            && Sized(S, s)
            && s.tail.pub == s.tail.alloc == |s.pushed|
            && s.head.pub == s.head.alloc <= s.tail.alloc <= s.head.alloc + S
            && (forall i: nat :: i in s.popped <==> i < s.head.alloc)
            && (forall i: nat :: i < s.head.alloc ==> s.popped[i] == s.pushed[i])
            && (forall i: nat :: s.head.alloc <= i < s.tail.alloc ==> s.data[Cell(i, S)] == s.pushed[i])
  {
    RunKeepsInv(S, run, k);
    var s := run[k];
    QuietLane(s.tail, S, Roles(s.threads, true));
    QuietLane(s.head, S, Roles(s.threads, false));
    forall i: nat | i < s.head.alloc ensures i in s.popped && s.popped[i] == s.pushed[i] { assert Delivered(s, i); }
    forall i: nat | s.head.alloc <= i < s.tail.alloc
      ensures s.data[Cell(i, S)] == s.pushed[i] { assert Filled(S, s, i); }
  }
}
