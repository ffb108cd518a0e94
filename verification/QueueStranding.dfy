/**
 * After any stale claim the ring queue can strand a ticket, without another one. The claiming thread has
 * lowered the flag of a later ticket `j`; as long as it stalls, it stands for the holder of `j`, and the
 * other threads can publish everything up to `j`, raise the flag of `j + 1` and leave. When the thread
 * then goes on, it publishes `j` and nobody looks at `j + 1` any more.
 */
module QueueStranding {
  import opened Words
  import opened QueueLanes
  import opened QueueSteps
  import opened QueueIntegrity
  import opened QueuePaths
  import opened QueueSizes

  // ---- who has seen a ticket to be the oldest ----

  predicate Seen<T>(s: State<T>, th: Thread<T>) {
    th.Ready? || th.Claim? ==> th.idx <= LaneOf(s, th.op).pub
  }

  ghost predicate AllSeen<T>(s: State<T>) {
    forall u :: 0 <= u < |s.threads| ==> Seen(s, s.threads[u])
  }

  lemma StepKeepsSeen<T>(S: nat, s: State<T>, t: nat, ch: Choice<T>)
    requires Sized(S, s) && AllSeen(s) && t < |s.threads|
    ensures AllSeen(Do(S, s, t, ch))
  {
    StepMoves(S, s, t, ch);
    var s' := Do(S, s, t, ch);
    forall u | 0 <= u < |s'.threads| ensures Seen(s', s'.threads[u]) {
      assert Seen(s, s.threads[u]);
    }
  }

  lemma {:induction false} RunKeepsSeen<T(!new)>(S: nat, run: seq<State<T>>, k: nat)
    requires IsPow2(S) && IsFreshRun(S, run) && k < |run|
    ensures Inv(S, run[k]) && AllSeen(run[k])
  {
    RunKeepsInv(S, run, k);
    if k > 0 {
      RunKeepsSeen(S, run, k - 1);
      assert NextFresh(S, run[k - 1], run[k - 1 + 1]);
      var t: nat, ch :| t < |run[k - 1].threads| && run[k] == Do(S, run[k - 1], t, ch);
      StepKeepsSeen(S, run[k - 1], t, ch);
    }
  }

  // ---- the stale claim ----

  function LaneAt<T>(s: State<T>, push: bool): Lane {
    if push then s.tail else s.head
  }

  /** The roles in a lane, with thread `t` standing for the holder of ticket `j` in the lane of its call. */
  function RolesWith<T>(s: State<T>, push: bool, t: nat, j: nat): seq<Role>
    requires t < |s.threads| && !s.threads[t].Idle?
  {
    if s.threads[t].op.Push? == push then Roles(s.threads, push)[t := Holding(j)] else Roles(s.threads, push)
  }

  /** The lane of the stalled thread. */
  function Own<T>(s: State<T>, t: nat): Lane
    requires t < |s.threads| && !s.threads[t].Idle?
  {
    LaneOf(s, s.threads[t].op)
  }

  lemma RoleWithAt<T>(s: State<T>, push: bool, t: nat, j: nat, u: nat)
    requires t < |s.threads| && !s.threads[t].Idle? && u < |s.threads|
    ensures RolesWith(s, push, t, j)[u]
         == if u == t && s.threads[t].op.Push? == push then Holding(j) else RoleIn(s.threads[u], push)
    ensures s.threads[t].op.Push? != push ==> RoleIn(s.threads[t], push) == Out
  {
  }

  /** Thread `t` has lowered the flag of ticket `j`, which is later than its own, and stalls. */
  ghost predicate Stalled<T>(S: nat, s: State<T>, t: nat, j: nat) {
    && ChainInv(S, s) && AllSeen(s)
    && t < |s.threads| && s.threads[t].Bump? && s.threads[t].idx < j
    && LaneOk(s.tail, S, RolesWith(s, true, t, j))
    && LaneOk(s.head, S, RolesWith(s, false, t, j))
  }

  /** Lowering the flag of a ticket is, for the lane, the same as beginning to work on it again. */
  lemma BorrowKeepsLane(lane: Lane, S: nat, roles: seq<Role>, t: nat, j: nat, lane': Lane, roles': seq<Role>)
    requires LaneOk(lane, S, roles) && t < |roles| && roles[t].Watching? && roles[t].i != lane.pub
    requires lane.pub <= j < lane.alloc && Raised(lane, S, j)
    requires lane' == lane.(flags := lane.flags[Cell(j, S) := false]) && roles' == roles[t := Holding(j)]
    ensures LaneOk(lane', S, roles')
  {
    forall i: nat | lane.pub <= i < lane.alloc && i != j ensures Raised(lane', S, i) == Raised(lane, S, i) {
      CellsDiffer(S, i, j);
    }
    forall u, i: nat | 0 <= u < |roles'| && WorksOn(roles'[u], i)
      ensures (u == t && i == j) || (u != t && WorksOn(roles[u], i) && i != j)
    {
      if u != t { assert WorksOn(roles[u], i); }
    }
    assert WorksOn(roles'[t], j);
    forall i: nat | lane.pub <= i < lane.alloc && !Raised(lane', S, i) ensures SomeoneWorksOn(roles', i) {
      if i != j { WorksStay(roles, t, Holding(j), i); }
    }
    forall c | 0 <= c < S && lane'.flags[c] ensures exists i: nat :: lane.pub <= i < lane.alloc && Cell(i, S) == c {
      assert lane.flags[c];
    }
    if lane.pub != j && Raised(lane', S, lane.pub) { WatchesStay(roles, t, Holding(j), lane.pub); }
  }

  /** Some other thread is in the publish loop at the oldest ticket, in the lane of thread `t`. */
  ghost predicate AnotherWatches<T>(s: State<T>, t: nat, u: nat)
    requires t < |s.threads| && !s.threads[t].Idle?
  {
    && u < |s.threads| && u != t
    && RoleIn(s.threads[u], s.threads[t].op.Push?) == Watching(LaneOf(s, s.threads[t].op).pub)
  }

  /** The flag that a stale claim lowers belongs to a later ticket. */
  lemma LaterTicket<T>(S: nat, s: State<T>, t: nat, ch: Choice<T>) returns (j: nat, u: nat)
    requires Inv(S, s) && AllSeen(s) && t < |s.threads| && IsStaleClaim(S, s, t, ch)
    ensures var lane := LaneOf(s, s.threads[t].op);
            && s.threads[t].idx < lane.pub <= j < lane.alloc && Cell(j, S) == Cell(s.threads[t].idx, S)
            && (j == lane.pub ==> AnotherWatches(s, t, u))
  {
    var th := s.threads[t];
    var lane := LaneOf(s, th.op);
    assert Seen(s, th);
    j :| lane.pub <= j < lane.alloc && Cell(j, S) == Cell(th.idx, S);
    u := 0;
    if j == lane.pub {
      var roles := Roles(s.threads, th.op.Push?);
      var w :| 0 <= w < |roles| && roles[w] == Watching(lane.pub);
      u := w;
    }
  }

  lemma ClaimStallsLanes<T>(S: nat, s: State<T>, t: nat, ch: Choice<T>, j: nat)
    requires Sized(S, s) && t < |s.threads| && IsStaleClaim(S, s, t, ch)
    requires LaneOk(s.tail, S, Roles(s.threads, true)) && LaneOk(s.head, S, Roles(s.threads, false))
    requires var lane := LaneOf(s, s.threads[t].op);
             lane.pub <= j < lane.alloc && Cell(j, S) == Cell(s.threads[t].idx, S)
    ensures var s' := Do(S, s, t, ch);
            LaneOk(s'.tail, S, RolesWith(s', true, t, j)) && LaneOk(s'.head, S, RolesWith(s', false, t, j))
  {
    hide LaneOk;
    var th, s' := s.threads[t], Do(S, s, t, ch);
    var push, roles := th.op.Push?, Roles(s.threads, th.op.Push?);
    assert s'.threads == s.threads[t := Bump(th.op, th.idx)];
    BorrowKeepsLane(LaneOf(s, th.op), S, roles, t, j, LaneOf(s', th.op), roles[t := Holding(j)]);
    RolesPut(s.threads, t, s'.threads[t], true);
    RolesPut(s.threads, t, s'.threads[t], false);
    assert RolesWith(s', push, t, j) == roles[t := Holding(j)];
    assert RolesWith(s', !push, t, j) == Roles(s.threads, !push);
  }

  lemma ClaimStalls<T>(S: nat, s: State<T>, t: nat, ch: Choice<T>) returns (j: nat, u: nat)
    requires Inv(S, s) && AllSeen(s) && t < |s.threads| && IsStaleClaim(S, s, t, ch)
    ensures var s' := Do(S, s, t, ch);
            && Stalled(S, s', t, j) && s'.threads[t].op == s.threads[t].op
            && Own(s', t).pub <= j && (Own(s', t).pub == j ==> AnotherWatches(s', t, u))
  {
    hide LaneOk;
    j, u := LaterTicket(S, s, t, ch);
    StepKeepsChain(S, s, t, ch);
    StepKeepsSeen(S, s, t, ch);
    ClaimStallsLanes(S, s, t, ch, j);
  }

  lemma StalledFacts<T>(S: nat, s: State<T>, t: nat, j: nat)
    requires Stalled(S, s, t, j)
    ensures Sized(S, s) && t < |s.threads| && s.threads[t].Bump? && s.threads[t].idx < j
    ensures Own(s, t).pub <= j < Own(s, t).alloc && !Raised(Own(s, t), S, j)
    ensures s.head.pub <= s.head.alloc <= s.tail.pub <= s.tail.alloc <= s.head.pub + S
    ensures forall push: bool ::
              LaneAt(s, push).pub == LaneAt(s, push).alloc ==> !Raised(LaneAt(s, push), S, LaneAt(s, push).pub)
  {
    assert WorksOn(RolesWith(s, s.threads[t].op.Push?, t, j)[t], j);
  }

  // ---- the others go on ----

  lemma StepKeepsLaneWith<T>(S: nat, s: State<T>, u: nat, ch: Choice<T>, t: nat, j: nat, push: bool)
    requires ChainInv(S, s) && u < |s.threads| && !IsStaleClaim(S, s, u, ch)
    requires t < |s.threads| && !s.threads[t].Idle? && u != t
    requires LaneOk(LaneAt(s, push), S, RolesWith(s, push, t, j))
    ensures var s' := Do(S, s, u, ch);
            s'.threads[t] == s.threads[t] && LaneOk(LaneAt(s', push), S, RolesWith(s', push, t, j))
  {
    hide LaneOk;
    var s' := Do(S, s, u, ch);
    StepMoves(S, s, u, ch);
    StepIsFresh(S, s, u, ch);
    RolesPut(s.threads, u, s'.threads[u], push);
    assert RolesWith(s', push, t, j) == RolesWith(s, push, t, j)[u := RoleIn(s'.threads[u], push)];
    MoveKeepsLane(S, LaneAt(s, push), RolesWith(s, push, t, j), u, LaneAt(s', push), RoleIn(s'.threads[u], push));
  }

  lemma StepKeepsStalled<T>(S: nat, s: State<T>, u: nat, ch: Choice<T>, t: nat, j: nat)
    requires Stalled(S, s, t, j) && u < |s.threads| && u != t && !IsStaleClaim(S, s, u, ch)
    ensures Stalled(S, Do(S, s, u, ch), t, j) && Do(S, s, u, ch).threads[t] == s.threads[t]
  {
    hide LaneOk;
    StepKeepsChain(S, s, u, ch);
    StepKeepsSeen(S, s, u, ch);
    StepKeepsLaneWith(S, s, u, ch, t, j, true);
    StepKeepsLaneWith(S, s, u, ch, t, j, false);
  }

  /** A path along which thread `t` stalls. */
  ghost predicate StalledPath<T(!new)>(S: nat, path: seq<State<T>>, t: nat, j: nat) {
    FreshPath(S, path) && Stalled(S, Last(path), t, j)
  }

  lemma ExtendStalled<T(!new)>(S: nat, path: seq<State<T>>, t: nat, j: nat, u: nat, op: Op<T>)
    returns (longer: seq<State<T>>)
    requires StalledPath(S, path, t, j) && u < |Last(path).threads| && u != t
    requires !IsStaleClaim(S, Last(path), u, Choice(op, false))
    ensures StalledPath(S, longer, t, j) && path <= longer
    ensures Last(longer) == Do(S, Last(path), u, Choice(op, false))
    ensures Last(longer).threads[t] == Last(path).threads[t] && |Last(longer).threads| == |Last(path).threads|
  {
    StepKeepsStalled(S, Last(path), u, Choice(op, false), t, j);
    StepMoves(S, Last(path), u, Choice(op, false));
    longer := Extend(S, path, u, op);
  }

  /** Thread `u` works on the oldest ticket of the lane, or is about to publish it. */
  ghost predicate Attends<T>(S: nat, s: State<T>, u: nat, push: bool) {
    && u < |s.threads|
    && var th, lane := s.threads[u], LaneAt(s, push);
       && (th.Access? || th.Raise? || th.Test? || th.Ready? || th.Claim? || th.Bump?)
       && th.op.Push? == push && th.idx == lane.pub
       && (th.Test? || th.Ready? || th.Claim? ==> Raised(lane, S, lane.pub))
  }

  lemma AttendantRole(lane: Lane, S: nat, roles: seq<Role>) returns (u: nat)
    requires LaneOk(lane, S, roles) && lane.pub < lane.alloc
    ensures u < |roles|
    ensures if Raised(lane, S, lane.pub) then roles[u] == Watching(lane.pub) else WorksOn(roles[u], lane.pub)
  {
    if Raised(lane, S, lane.pub) {
      var w :| 0 <= w < |roles| && roles[w] == Watching(lane.pub);
      u := w;
    } else {
      assert SomeoneWorksOn(roles, lane.pub);
      var w :| 0 <= w < |roles| && WorksOn(roles[w], lane.pub);
      u := w;
    }
  }

  lemma FindAttendant<T>(S: nat, s: State<T>, t: nat, j: nat, push: bool) returns (u: nat)
    requires Stalled(S, s, t, j) && LaneAt(s, push).pub < LaneAt(s, push).alloc
    requires s.threads[t].op.Push? == push ==> LaneAt(s, push).pub != j
    ensures Attends(S, s, u, push) && u != t
  {
    hide LaneOk, Planned;
    u := AttendantRole(LaneAt(s, push), S, RolesWith(s, push, t, j));
    RoleWithAt(s, push, t, j, u);
  }

  function StepsLeft<T>(th: Thread<T>): nat {
    match th
    case Access(_, _) => 6
    case Raise(_, _) => 5
    case Test(_, _) => 4
    case Ready(_, _) => 3
    case Claim(_, _) => 2
    case _ => 1
  }

  /** Nothing but thread `u` and the lane of its call has changed, and no ticket was taken. */
  ghost predicate OnlyLane<T>(s: State<T>, s': State<T>, u: nat, push: bool) {
    && u < |s.threads| == |s'.threads|
    && LaneAt(s', !push) == LaneAt(s, !push) && LaneAt(s', push).alloc == LaneAt(s, push).alloc
    && forall v :: 0 <= v < |s.threads| && v != u ==> s'.threads[v] == s.threads[v]
  }

  /** The attendant of the oldest ticket publishes it. */
  lemma {:induction false} PublishOldest<T(!new)>(S: nat, path: seq<State<T>>, t: nat, j: nat, u: nat, push: bool)
    returns (longer: seq<State<T>>)
    requires StalledPath(S, path, t, j) && Attends(S, Last(path), u, push) && u != t
    ensures StalledPath(S, longer, t, j) && path <= longer && OnlyLane(Last(path), Last(longer), u, push)
    ensures LaneAt(Last(longer), push).pub == LaneAt(Last(path), push).pub + 1
    ensures Last(longer).threads[u] == Test(Last(path).threads[u].op, LaneAt(Last(longer), push).pub)
    decreases StepsLeft(Last(path).threads[u])
  {
    hide Stalled;
    var s := Last(path);
    StalledFacts(S, s, t, j);
    var next := ExtendStalled(S, path, t, j, u, s.threads[u].op);
    if s.threads[u].Bump? {
      longer := next;
    } else {
      longer := PublishOldest(S, next, t, j, u, push);
    }
  }

  /** A thread in the publish loop at the oldest ticket leaves when its flag is down. */
  lemma {:induction false} LeaveLoop<T(!new)>(S: nat, path: seq<State<T>>, t: nat, j: nat, u: nat, push: bool)
    returns (longer: seq<State<T>>)
    requires StalledPath(S, path, t, j) && u < |Last(path).threads| && u != t
    requires RoleIn(Last(path).threads[u], push) == Watching(LaneAt(Last(path), push).pub)
    requires !Raised(LaneAt(Last(path), push), S, LaneAt(Last(path), push).pub)
    ensures StalledPath(S, longer, t, j) && path <= longer && OnlyLane(Last(path), Last(longer), u, push)
    ensures LaneAt(Last(longer), push) == LaneAt(Last(path), push) && Last(longer).threads[u] == Idle
    decreases StepsLeft(Last(path).threads[u])
  {
    hide Stalled;
    var s := Last(path);
    StalledFacts(S, s, t, j);
    var next := ExtendStalled(S, path, t, j, u, s.threads[u].op);
    if s.threads[u].Test? {
      longer := LeaveLoop(S, next, t, j, u, push);
    } else {
      longer := next;
    }
  }

  /** Everything before ticket `j` gets published, and some other thread is free after that. */
  lemma {:induction false} PublishUpTo<T(!new)>(S: nat, path: seq<State<T>>, t: nat, j: nat, u0: nat)
    returns (longer: seq<State<T>>, u: nat)
    requires StalledPath(S, path, t, j) && Own(Last(path), t).pub <= j
    requires Own(Last(path), t).pub == j ==> AnotherWatches(Last(path), t, u0)
    ensures StalledPath(S, longer, t, j) && path <= longer && Last(longer).threads[t] == Last(path).threads[t]
    ensures Own(Last(longer), t).pub == j && u < |Last(longer).threads| && u != t && Last(longer).threads[u] == Idle
    decreases j - Own(Last(path), t).pub
  {
    hide Stalled;
    var s := Last(path);
    StalledFacts(S, s, t, j);
    var push := s.threads[t].op.Push?;
    if Own(s, t).pub == j {
      longer := LeaveLoop(S, path, t, j, u0, push);
      u := u0;
    } else {
      u := FindAttendant(S, s, t, j, push);
      longer := PublishOldest(S, path, t, j, u, push);
      longer, u := PublishUpTo(S, longer, t, j, u);
    }
  }

  /** A free thread takes a ticket for which there is room. */
  lemma TakeStalled<T(!new)>(S: nat, path: seq<State<T>>, t: nat, j: nat, u: nat, op: Op<T>)
    returns (longer: seq<State<T>>)
    requires StalledPath(S, path, t, j) && u < |Last(path).threads| && u != t && Last(path).threads[u] == Idle
    requires HasRoom(S, Last(path), op, LaneOf(Last(path), op).alloc)
    ensures StalledPath(S, longer, t, j) && path <= longer && Last(longer) == Taken(Last(path), u, op)
  {
    hide Stalled;
    var s := Last(path);
    StalledFacts(S, s, t, j);
    var idx := LaneOf(s, op).alloc;
    longer := ExtendStalled(S, path, t, j, u, op);
    assert Last(longer) == s.(threads := s.threads[u := Load(op)], begun := s.begun + [Made(u, op)]);
    longer := ExtendStalled(S, longer, t, j, u, op);
    assert Last(longer) == s.(threads := s.threads[u := Check(op, idx)], begun := s.begun + [Made(u, op)]);
    longer := ExtendStalled(S, longer, t, j, u, op);
    assert Last(longer) == s.(threads := s.threads[u := Cas(op, idx)], begun := s.begun + [Made(u, op)]);
    longer := ExtendStalled(S, longer, t, j, u, op);
  }

  /** The other lane publishes one more ticket: an old one, or one that the free thread takes. */
  lemma PublishOther<T(!new)>(S: nat, path: seq<State<T>>, t: nat, j: nat, u: nat, op: Op<T>)
    returns (longer: seq<State<T>>)
    requires StalledPath(S, path, t, j) && u < |Last(path).threads| && u != t && Last(path).threads[u] == Idle
    requires op.Push? != Last(path).threads[t].op.Push?
    requires LaneOf(Last(path), op).pub == LaneOf(Last(path), op).alloc ==>
               HasRoom(S, Last(path), op, LaneOf(Last(path), op).alloc)
    ensures StalledPath(S, longer, t, j) && path <= longer
    ensures var s, s' := Last(path), Last(longer);
            && LaneOf(s', op).pub == LaneOf(s, op).pub + 1 && |s'.threads| == |s.threads|
            && s'.threads[t] == s.threads[t] && s'.threads[u] == Idle && Own(s', t) == Own(s, t)
  {
    hide Stalled;
    var s, push := Last(path), op.Push?;
    StalledFacts(S, s, t, j);
    if LaneOf(s, op).pub < LaneOf(s, op).alloc {
      var v := FindAttendant(S, s, t, j, push);
      longer := PublishOldest(S, path, t, j, v, push);
    } else {
      longer := TakeStalled(S, path, t, j, u, op);
      longer := PublishOldest(S, longer, t, j, u, push);
      StalledFacts(S, Last(longer), t, j);
      longer := LeaveLoop(S, longer, t, j, u, push);
    }
  }

  /** With `j` the last ticket of its lane and everything before it published, there will be room for another. */
  lemma MakeRoom<T(!new)>(S: nat, path: seq<State<T>>, t: nat, j: nat, u: nat) returns (longer: seq<State<T>>)
    requires S > 1 && StalledPath(S, path, t, j) && u < |Last(path).threads| && u != t && Last(path).threads[u] == Idle
    requires Own(Last(path), t).pub == j && Own(Last(path), t).alloc == j + 1
    ensures StalledPath(S, longer, t, j) && path <= longer && |Last(longer).threads| == |Last(path).threads|
    ensures var s, s' := Last(path), Last(longer);
            && s'.threads[t] == s.threads[t] && s'.threads[u] == Idle && Own(s', t) == Own(s, t)
            && HasRoom(S, s', s.threads[t].op, j + 1)
  {
    hide Stalled;
    var s := Last(path);
    StalledFacts(S, s, t, j);
    if HasRoom(S, s, s.threads[t].op, j + 1) {
      longer := path;
    } else if s.threads[t].op.Push? {
      longer := PublishOther(S, path, t, j, u, Pop);
    } else {
      longer := PublishOther(S, path, t, j, u, Push(s.data[0]));
    }
  }

  /** Some thread has taken ticket `j + 1`. */
  lemma TakeBehind<T(!new)>(S: nat, path: seq<State<T>>, t: nat, j: nat, u: nat) returns (longer: seq<State<T>>)
    requires S > 1 && StalledPath(S, path, t, j) && u < |Last(path).threads| && u != t && Last(path).threads[u] == Idle
    requires Own(Last(path), t).pub == j
    ensures StalledPath(S, longer, t, j) && path <= longer && Last(longer).threads[t] == Last(path).threads[t]
    ensures Own(Last(longer), t).pub == j && Own(Last(longer), t).alloc > j + 1
  {
    hide Stalled;
    StalledFacts(S, Last(path), t, j);
    longer := path;
    if Own(Last(path), t).alloc == j + 1 {
      longer := MakeRoom(S, path, t, j, u);
      longer := TakeStalled(S, longer, t, j, u, Last(path).threads[t].op);
    }
  }

  lemma HolderRole(lane: Lane, S: nat, roles: seq<Role>, i: nat) returns (u: nat)
    requires LaneOk(lane, S, roles) && lane.pub < i < lane.alloc && !Raised(lane, S, i)
    ensures u < |roles| && roles[u] == Holding(i)
  {
    assert SomeoneWorksOn(roles, i);
    var w :| 0 <= w < |roles| && WorksOn(roles[w], i);
    u := w;
  }

  /** Thread `u` holds ticket `i` of the lane. */
  lemma FindHolder<T>(S: nat, s: State<T>, t: nat, j: nat, i: nat) returns (u: nat)
    requires Stalled(S, s, t, j) && Own(s, t).pub == j < i < Own(s, t).alloc && !Raised(Own(s, t), S, i)
    ensures u < |s.threads| && u != t && (s.threads[u].Access? || s.threads[u].Raise?)
    ensures s.threads[u].op.Push? == s.threads[t].op.Push? && s.threads[u].idx == i
  {
    hide LaneOk;
    var push := s.threads[t].op.Push?;
    u := HolderRole(Own(s, t), S, RolesWith(s, push, t, j), i);
    RoleWithAt(s, push, t, j, u);
  }

  /** The holder of ticket `j + 1` raises its flag. */
  lemma RaiseBehind<T(!new)>(S: nat, path: seq<State<T>>, t: nat, j: nat) returns (longer: seq<State<T>>)
    requires StalledPath(S, path, t, j) && Own(Last(path), t).pub == j && Own(Last(path), t).alloc > j + 1
    ensures StalledPath(S, longer, t, j) && path <= longer && Last(longer).threads[t] == Last(path).threads[t]
    ensures Own(Last(longer), t).pub == j && Own(Last(longer), t).alloc > j + 1
    ensures Raised(Own(Last(longer), t), S, j + 1)
  {
    hide Stalled;
    var s := Last(path);
    StalledFacts(S, s, t, j);
    longer := path;
    if !Raised(Own(s, t), S, j + 1) {
      var w := FindHolder(S, s, t, j, j + 1);
      if s.threads[w].Access? { longer := ExtendStalled(S, longer, t, j, w, s.threads[w].op); }
      longer := ExtendStalled(S, longer, t, j, w, s.threads[w].op);
    }
  }

  /** Nobody can have seen ticket `j + 1` to be the oldest. */
  lemma StillTesting<T>(S: nat, s: State<T>, t: nat, j: nat, u: nat)
    requires Stalled(S, s, t, j) && Own(s, t).pub == j && u < |s.threads|
    requires RoleIn(s.threads[u], s.threads[t].op.Push?) == Watching(j + 1)
    ensures s.threads[u].Test? && u != t
  {
    assert Seen(s, s.threads[u]);
  }

  /** The first `n` threads are not in the publish loop at ticket `j + 1`, or leave it. */
  lemma {:induction false} LeaveBehind<T(!new)>(S: nat, path: seq<State<T>>, t: nat, j: nat, n: nat)
    returns (longer: seq<State<T>>)
    requires StalledPath(S, path, t, j) && Own(Last(path), t).pub == j && n <= |Last(path).threads|
    ensures StalledPath(S, longer, t, j) && path <= longer && Last(longer).threads[t] == Last(path).threads[t]
    ensures Own(Last(longer), t) == Own(Last(path), t) && |Last(longer).threads| == |Last(path).threads|
    ensures forall w :: 0 <= w < n ==>
              RoleIn(Last(longer).threads[w], Last(path).threads[t].op.Push?) != Watching(j + 1)
  {
    hide Stalled;
    StalledFacts(S, Last(path), t, j);
    if n == 0 {
      longer := path;
    } else {
      longer := LeaveBehind(S, path, t, j, n - 1);
      var s, push := Last(longer), Last(path).threads[t].op.Push?;
      if RoleIn(s.threads[n - 1], push) == Watching(j + 1) {
        StillTesting(S, s, t, j, n - 1);
        longer := ExtendStalled(S, longer, t, j, n - 1, s.threads[n - 1].op);
      }
    }
  }

  /** The stalled thread goes on: it publishes `j`, and nobody is left to publish `j + 1`. */
  lemma PublishAndStrand<T(!new)>(S: nat, path: seq<State<T>>, t: nat, j: nat) returns (longer: seq<State<T>>)
    requires StalledPath(S, path, t, j) && Own(Last(path), t).pub == j && Own(Last(path), t).alloc > j + 1
    requires Raised(Own(Last(path), t), S, j + 1)
    requires forall w :: 0 <= w < |Last(path).threads| ==>
               RoleIn(Last(path).threads[w], Last(path).threads[t].op.Push?) != Watching(j + 1)
    ensures FreshPath(S, longer) && path <= longer && Stranded(S, Last(longer), Last(path).threads[t].op.Push?)
  {
    hide Stalled;
    var s := Last(path);
    StalledFacts(S, s, t, j);
    longer := Extend(S, path, t, s.threads[t].op);
    assert Last(longer).threads == s.threads[t := Test(s.threads[t].op, s.threads[t].idx + 1)];
  }

  /** From every state of every fresh run, an enabled stale claim can be followed by a stranded ticket. */
  lemma StaleClaimStrands<T(!new)>(S: nat, run: seq<State<T>>, t: nat, ch: Choice<T>) returns (path: seq<State<T>>)
    requires IsPow2(S) && S > 1 && IsFreshRun(S, run) && Sized(S, Last(run)) && t < |Last(run).threads|
    requires IsStaleClaim(S, Last(run), t, ch)
    ensures FreshPath(S, path) && path[0] == Do(S, Last(run), t, ch)
    ensures Stranded(S, Last(path), Last(run).threads[t].op.Push?)
  {
    hide Stalled;
    RunKeepsSeen(S, run, |run| - 1);
    var j, u := ClaimStalls(S, Last(run), t, ch);
    var first := [Do(S, Last(run), t, ch)];
    path, u := PublishUpTo(S, first, t, j, u);
    path := TakeBehind(S, path, t, j, u);
    path := RaiseBehind(S, path, t, j);
    path := LeaveBehind(S, path, t, j, |Last(path).threads|);
    path := PublishAndStrand(S, path, t, j);
    assert path[0] == first[0];
  }

  ghost predicate LeadsTo<T(!new)>(S: nat, path: seq<State<T>>, s: State<T>, s': State<T>) {
    FreshPath(S, path) && path[0] == s && Last(path) == s'
  }

  /** Without a stale claim, no ticket is ever stranded from here on. */
  ghost predicate StaysSafe<T(!new)>(S: nat, s: State<T>) {
    forall path, s', push: bool :: LeadsTo(S, path, s, s') ==> !Stranded(S, s', push)
  }

  /**
   * At any point of any fresh run, a step leaves the queue safe from stranded tickets if and only if it
   * is not a stale claim. (The static assertion admits no ring of one cell.)
   */
  lemma ExactlyFreshStepsAreSafe<T(!new)>(S: nat, run: seq<State<T>>, t: nat, ch: Choice<T>)
    requires IsPow2(S) && S > 1 && IsFreshRun(S, run) && Sized(S, Last(run)) && t < |Last(run).threads|
    ensures StaysSafe(S, Do(S, Last(run), t, ch)) <==> !IsStaleClaim(S, Last(run), t, ch)
  {
    var s := Do(S, Last(run), t, ch);
    if IsStaleClaim(S, Last(run), t, ch) {
      var path := StaleClaimStrands(S, run, t, ch);
      assert LeadsTo(S, path, s, Last(path)) && Stranded(S, Last(path), Last(run).threads[t].op.Push?);
    } else {
      forall path, s', push: bool | LeadsTo(S, path, s, s') ensures !Stranded(S, s', push) {
        var whole := Joined(S, run, t, ch, path);
        NotStrandedFor(S, whole, |whole| - 1, push);
      }
    }
  }

  /** A fresh run, a fresh step and a fresh path after it are a fresh run. */
  lemma Joined<T(!new)>(S: nat, run: seq<State<T>>, t: nat, ch: Choice<T>, path: seq<State<T>>)
    returns (whole: seq<State<T>>)
    requires IsFreshRun(S, run) && Sized(S, Last(run)) && t < |Last(run).threads|
    requires !IsStaleClaim(S, Last(run), t, ch) && FreshPath(S, path) && path[0] == Do(S, Last(run), t, ch)
    ensures IsFreshRun(S, whole) && Last(whole) == Last(path)
  {
    whole := run + path;
    forall k | 0 <= k < |whole| - 1 ensures NextFresh(S, whole[k], whole[k + 1]) {
      if k < |run| - 1 {
        assert NextFresh(S, run[k], run[k + 1]);
      } else if k == |run| - 1 {
        assert whole[k + 1] == Do(S, whole[k], t, ch);
      } else {
        assert NextFresh(S, path[k - |run|], path[k - |run| + 1]);
      }
    }
  }
}
