/**
 * One end of the ring queue: tickets are taken from `alloc`, their holders raise a flag when they
 * are done, and whoever watches the oldest ticket publishes it by lowering the flag and adding one
 * to `pub`. For a push these are tail_write_, check_write_ and tail_read_; for a pop head_read_,
 * check_read_ and head_write_.
 */
module QueueLanes {
  import opened Words
  import opened Sums

  datatype Lane = Lane(alloc: nat, pub: nat, flags: seq<bool>)

  /** What a thread does in a lane. */
  datatype Role =
    | Out
    | Holding(i: nat)   // owns ticket i and has not raised its flag yet
    | Watching(i: nat)  // in the publish loop at ticket i
    | Bumping(i: nat)   // lowered the flag of the cell of i, about to add one to pub

  /** The cell of a ticket. */
  function Cell(i: nat, S: nat): (c: nat)
    requires S > 0
    ensures c < S
  {
    AndBound(i, S - 1);
    Masked(i, S)
  }

  lemma CellsDiffer(S: nat, i: nat, j: nat)
    requires S > 0 && MaskSpreads(S) && i != j && i < j + S && j < i + S
    ensures Cell(i, S) != Cell(j, S)
  {
    if i < j { assert Masked(i, S) != Masked(j, S); } else { assert Masked(j, S) != Masked(i, S); }
  }

  // ---- counting: flags lowered can never exceed flags raised ----

  function Trues(flags: seq<bool>): (s: seq<nat>)
    ensures |s| == |flags| && forall j :: 0 <= j < |s| ==> s[j] == if flags[j] then 1 else 0
  {
    seq(|flags|, j requires 0 <= j < |flags| => if flags[j] then 1 else 0)
  }

  function Busies(roles: seq<Role>): (s: seq<nat>)
    ensures |s| == |roles|
    ensures forall t :: 0 <= t < |s| ==> s[t] == if roles[t].Holding? || roles[t].Bumping? then 1 else 0
  {
    seq(|roles|, t requires 0 <= t < |roles| => if roles[t].Holding? || roles[t].Bumping? then 1 else 0)
  }

  /** Published tickets, raised flags and tickets still being worked on are all tickets that were taken. */
  ghost predicate Counted(lane: Lane, roles: seq<Role>) {
    lane.pub + Sum(Trues(lane.flags)) + Sum(Busies(roles)) <= lane.alloc
  }

  lemma RolePut(roles: seq<Role>, t: nat, r: Role)
    requires t < |roles|
    ensures Sum(Busies(roles[t := r])) + Busies(roles)[t] == Sum(Busies(roles)) + Busies([r])[0]
    ensures Busies(roles)[t] <= Sum(Busies(roles))
  {
    SumUpdate(Busies(roles), t, Busies([r])[0]);
    SumAtLeast(Busies(roles), t);
    assert Busies(roles[t := r]) == Busies(roles)[t := Busies([r])[0]];
  }

  lemma FlagPut(flags: seq<bool>, j: nat, b: bool)
    requires j < |flags|
    ensures Sum(Trues(flags[j := b])) + (if flags[j] then 1 else 0) == Sum(Trues(flags)) + (if b then 1 else 0)
  {
    SumUpdate(Trues(flags), j, if b then 1 else 0);
    assert Trues(flags[j := b]) == Trues(flags)[j := if b then 1 else 0];
  }

  /** The ways a step of a thread can change a lane together with the thread's role in it. */
  ghost predicate Moves(S: nat, lane: Lane, r: Role, lane': Lane, r': Role) {
    || (lane' == lane && Busies([r'])[0] == Busies([r])[0])
    || (r.Out? && r' == Holding(lane.alloc) && lane' == lane.(alloc := lane.alloc + 1))
    || (S == |lane.flags| > 0 && r.Holding? && r' == Watching(r.i)
        && lane' == lane.(flags := lane.flags[Cell(r.i, S) := true]))
    || (S == |lane.flags| > 0 && r.Watching? && r' == Bumping(r.i) && lane.flags[Cell(r.i, S)]
        && lane' == lane.(flags := lane.flags[Cell(r.i, S) := false]))
    || (r.Bumping? && r' == Watching(r.i + 1) && lane' == lane.(pub := lane.pub + 1))
  }

  lemma MoveKeepsCounted(S: nat, lane: Lane, roles: seq<Role>, t: nat, lane': Lane, r': Role)
    requires t < |roles| && Counted(lane, roles) && Moves(S, lane, roles[t], lane', r')
    ensures Counted(lane', roles[t := r'])
  {
    RolePut(roles, t, r');
    if S == |lane.flags| > 0 && (roles[t].Holding? || roles[t].Watching?) {
      FlagPut(lane.flags, Cell(roles[t].i, S), true);
      FlagPut(lane.flags, Cell(roles[t].i, S), false);
    }
  }

  // ---- who is responsible for each ticket ----

  predicate WorksOn(r: Role, i: nat) {
    r == Holding(i) || r == Bumping(i)
  }

  ghost predicate SomeoneWorksOn(roles: seq<Role>, i: nat) {
    exists t :: 0 <= t < |roles| && WorksOn(roles[t], i)
  }

  ghost predicate SomeoneWatches(roles: seq<Role>, i: nat) {
    exists t :: 0 <= t < |roles| && roles[t] == Watching(i)
  }

  ghost predicate Raised(lane: Lane, S: nat, i: nat) {
    S == |lane.flags| > 0 && lane.flags[Cell(i, S)]
  }

  /** Whoever works on a ticket works on an unpublished one whose flag is down; only the oldest is being published. */
  ghost predicate WorkersFit(lane: Lane, S: nat, roles: seq<Role>) {
    && (forall t, i: nat {:trigger WorksOn(roles[t], i)} :: 0 <= t < |roles| && WorksOn(roles[t], i) ==>
          lane.pub <= i < lane.alloc && !Raised(lane, S, i))
    && (forall t :: 0 <= t < |roles| && roles[t].Bumping? ==> roles[t].i == lane.pub)
  }

  ghost predicate WorkersDiffer(roles: seq<Role>) {
    forall t, u, i: nat :: 0 <= t < u < |roles| && WorksOn(roles[t], i) ==> !WorksOn(roles[u], i)
  }

  ghost predicate UnraisedWorkedOn(lane: Lane, S: nat, roles: seq<Role>) {
    forall i: nat :: lane.pub <= i < lane.alloc && !Raised(lane, S, i) ==> SomeoneWorksOn(roles, i)
  }

  ghost predicate FlagsOwned(lane: Lane, S: nat)
    requires S == |lane.flags| > 0
  {
    forall j :: 0 <= j < S && lane.flags[j] ==> exists i: nat :: lane.pub <= i < lane.alloc && Cell(i, S) == j
  }

  ghost predicate OldestWatched(lane: Lane, S: nat, roles: seq<Role>) {
    lane.pub < lane.alloc && Raised(lane, S, lane.pub) ==> SomeoneWatches(roles, lane.pub)
  }

  /**
   * Every unpublished ticket is worked on by exactly one thread, or has its flag raised; and when
   * the oldest one's flag is raised, some thread is watching it.
   */
  ghost predicate LaneOk(lane: Lane, S: nat, roles: seq<Role>) {
    && S == |lane.flags| > 0 && MaskSpreads(S)
    && lane.pub <= lane.alloc <= lane.pub + S
    && WorkersFit(lane, S, roles) && WorkersDiffer(roles)
    && UnraisedWorkedOn(lane, S, roles)
    && FlagsOwned(lane, S)
    && OldestWatched(lane, S, roles)
  }

  lemma WorksStay(roles: seq<Role>, t: nat, r: Role, i: nat)
    requires t < |roles| && !WorksOn(roles[t], i)
    ensures SomeoneWorksOn(roles[t := r], i) <==> SomeoneWorksOn(roles, i) || WorksOn(r, i)
  {
    if SomeoneWorksOn(roles, i) {
      var u :| 0 <= u < |roles| && WorksOn(roles[u], i);
      assert WorksOn(roles[t := r][u], i);
    }
    if WorksOn(r, i) { assert WorksOn(roles[t := r][t], i); }
    if SomeoneWorksOn(roles[t := r], i) {
      var u :| 0 <= u < |roles| && WorksOn(roles[t := r][u], i);
      if u != t { assert WorksOn(roles[u], i); }
    }
  }

  lemma WatchesStay(roles: seq<Role>, t: nat, r: Role, i: nat)
    requires t < |roles| && SomeoneWatches(roles, i) && roles[t] != Watching(i)
    ensures SomeoneWatches(roles[t := r], i)
  {
    var u :| 0 <= u < |roles| && roles[u] == Watching(i);
    assert roles[t := r][u] == Watching(i);
  }

  /** A thread takes the next ticket. */
  lemma AllocKeepsLane(lane: Lane, S: nat, roles: seq<Role>, t: nat, lane': Lane, roles': seq<Role>)
    requires LaneOk(lane, S, roles) && t < |roles| && roles[t] == Out && lane.alloc < lane.pub + S
    requires lane' == lane.(alloc := lane.alloc + 1) && roles' == roles[t := Holding(lane.alloc)]
    ensures LaneOk(lane', S, roles')
  {
    var i0 := lane.alloc;
    forall i: nat | lane.pub <= i < lane.alloc ensures Cell(i, S) != Cell(i0, S) { CellsDiffer(S, i, i0); }
    assert !Raised(lane, S, i0) && lane'.flags == lane.flags;
    assert WorksOn(roles'[t], i0);
    forall i: nat | lane.pub <= i < lane'.alloc && !Raised(lane', S, i) ensures SomeoneWorksOn(roles', i) {
      if i < lane.alloc { WorksStay(roles, t, Holding(i0), i); }
    }
    forall j | 0 <= j < S && lane.flags[j] ensures exists i: nat :: lane.pub <= i < lane'.alloc && Cell(i, S) == j {
      var i: nat :| lane.pub <= i < lane.alloc && Cell(i, S) == j;
      assert lane.pub <= i < lane'.alloc;
    }
    if lane.pub < lane.alloc && Raised(lane, S, lane.pub) { WatchesStay(roles, t, Holding(i0), lane.pub); }
  }

  /** Raising the flag of an unpublished ticket raises no other one's. */
  lemma RaiseOnlyOne(lane: Lane, S: nat, i0: nat, lane': Lane, i: nat)
    requires S == |lane.flags| > 0 && MaskSpreads(S) && lane.alloc <= lane.pub + S
    requires lane' == lane.(flags := lane.flags[Cell(i0, S) := true])
    requires lane.pub <= i0 < lane.alloc && lane.pub <= i < lane.alloc && i != i0
    ensures Raised(lane', S, i) == Raised(lane, S, i)
  {
    CellsDiffer(S, i, i0);
  }

  lemma RaiseKeepsWorkers(lane: Lane, S: nat, roles: seq<Role>, t: nat, i0: nat, lane': Lane, roles': seq<Role>)
    requires S == |lane.flags| > 0 && MaskSpreads(S) && lane.alloc <= lane.pub + S
    requires WorkersFit(lane, S, roles) && WorkersDiffer(roles) && t < |roles| && roles[t] == Holding(i0)
    requires lane' == lane.(flags := lane.flags[Cell(i0, S) := true]) && roles' == roles[t := Watching(i0)]
    ensures WorkersFit(lane', S, roles')
  {
    assert WorksOn(roles[t], i0);
    forall u, i: nat | 0 <= u < |roles'| && WorksOn(roles'[u], i)
      ensures lane.pub <= i < lane.alloc && !Raised(lane', S, i)
    {
      assert WorksOn(roles[u], i) && u != t;
      assert WorksOn(roles[if u < t then u else t], i) ==> !WorksOn(roles[if u < t then t else u], i);
      RaiseOnlyOne(lane, S, i0, lane', i);
    }
  }

  lemma RaiseKeepsUnraised(lane: Lane, S: nat, roles: seq<Role>, t: nat, i0: nat, lane': Lane, roles': seq<Role>)
    requires S == |lane.flags| > 0 && MaskSpreads(S) && lane.alloc <= lane.pub + S && lane.pub <= i0 < lane.alloc
    requires UnraisedWorkedOn(lane, S, roles) && t < |roles| && roles[t] == Holding(i0)
    requires lane' == lane.(flags := lane.flags[Cell(i0, S) := true]) && roles' == roles[t := Watching(i0)]
    ensures UnraisedWorkedOn(lane', S, roles')
  {
    forall i: nat | lane.pub <= i < lane.alloc && !Raised(lane', S, i) ensures SomeoneWorksOn(roles', i) {
      RaiseOnlyOne(lane, S, i0, lane', i);
      WorksStay(roles, t, Watching(i0), i);
    }
  }

  /** The holder of a ticket raises its flag and enters the publish loop. */
  lemma RaiseKeepsLane(lane: Lane, S: nat, roles: seq<Role>, t: nat, i0: nat, lane': Lane, roles': seq<Role>)
    requires LaneOk(lane, S, roles) && t < |roles| && roles[t] == Holding(i0)
    requires lane' == lane.(flags := lane.flags[Cell(i0, S) := true]) && roles' == roles[t := Watching(i0)]
    ensures LaneOk(lane', S, roles')
  {
    assert WorksOn(roles[t], i0);
    RaiseKeepsWorkers(lane, S, roles, t, i0, lane', roles');
    RaiseKeepsUnraised(lane, S, roles, t, i0, lane', roles');
    if lane.pub == i0 {
      assert roles'[t] == Watching(i0);
    } else if Raised(lane', S, lane.pub) {
      RaiseOnlyOne(lane, S, i0, lane', lane.pub);
      WatchesStay(roles, t, Watching(i0), lane.pub);
    }
  }

  /** A thread leaves the publish loop: its ticket is not the oldest, or that one's flag is not raised. */
  lemma LeaveKeepsLane(lane: Lane, S: nat, roles: seq<Role>, t: nat, i0: nat, roles': seq<Role>)
    requires LaneOk(lane, S, roles) && t < |roles| && roles[t] == Watching(i0)
    requires i0 != lane.pub || !Raised(lane, S, i0)
    requires roles' == roles[t := Out]
    ensures LaneOk(lane, S, roles')
  {
    forall i: nat | lane.pub <= i < lane.alloc && !Raised(lane, S, i) ensures SomeoneWorksOn(roles', i) {
      WorksStay(roles, t, Out, i);
    }
    forall u, i: nat | 0 <= u < |roles'| && WorksOn(roles'[u], i) ensures WorksOn(roles[u], i) {}
    if lane.pub < lane.alloc && Raised(lane, S, lane.pub) { WatchesStay(roles, t, Out, lane.pub); }
  }

  /** A thread at the oldest ticket lowers its flag. */
  lemma ClaimKeepsLane(lane: Lane, S: nat, roles: seq<Role>, t: nat, lane': Lane, roles': seq<Role>)
    requires LaneOk(lane, S, roles) && t < |roles| && roles[t] == Watching(lane.pub) && Raised(lane, S, lane.pub)
    requires lane' == lane.(flags := lane.flags[Cell(lane.pub, S) := false]) && roles' == roles[t := Bumping(lane.pub)]
    ensures lane.pub < lane.alloc
    ensures LaneOk(lane', S, roles')
  {
    var p := lane.pub;
    var i1: nat :| p <= i1 < lane.alloc && Cell(i1, S) == Cell(p, S);
    if i1 != p { CellsDiffer(S, i1, p); }
    forall i: nat | p <= i < lane.alloc && i != p
      ensures Raised(lane', S, i) == Raised(lane, S, i) { CellsDiffer(S, i, p); }
    forall u, i: nat | 0 <= u < |roles'| && WorksOn(roles'[u], i)
      ensures (u == t && i == p) || (WorksOn(roles[u], i) && i != p)
    {
      if u != t { assert WorksOn(roles[u], i); }
    }
    assert WorksOn(roles'[t], p);
    forall i: nat | p <= i < lane.alloc && !Raised(lane', S, i) ensures SomeoneWorksOn(roles', i) {
      if i != p { WorksStay(roles, t, Bumping(p), i); }
    }
    forall j | 0 <= j < S && lane'.flags[j] ensures exists i: nat :: p <= i < lane.alloc && Cell(i, S) == j {
      assert lane.flags[j];
    }
  }

  /** The thread that lowered the oldest flag publishes the ticket and goes on to the next one. */
  lemma BumpKeepsLane(lane: Lane, S: nat, roles: seq<Role>, t: nat, i0: nat, lane': Lane, roles': seq<Role>)
    requires LaneOk(lane, S, roles) && t < |roles| && roles[t] == Bumping(i0)
    requires lane' == lane.(pub := lane.pub + 1) && roles' == roles[t := Watching(i0 + 1)]
    ensures i0 == lane.pub < lane.alloc
    ensures LaneOk(lane', S, roles')
  {
    assert WorksOn(roles[t], i0);
    forall u, i: nat | 0 <= u < |roles'| && WorksOn(roles'[u], i) ensures WorksOn(roles[u], i) && i != i0 {
      assert u != t && WorksOn(roles[u], i);
    }
    forall i: nat | lane'.pub <= i < lane.alloc && !Raised(lane', S, i) ensures SomeoneWorksOn(roles', i) {
      assert !Raised(lane, S, i);
      WorksStay(roles, t, Watching(i0 + 1), i);
    }
    forall j | 0 <= j < S && lane.flags[j] ensures exists i: nat :: lane'.pub <= i < lane.alloc && Cell(i, S) == j {
      var i: nat :| lane.pub <= i < lane.alloc && Cell(i, S) == j;
      assert i != i0;
    }
    assert roles'[t] == Watching(lane'.pub);
  }

  /** The ways to change a lane that keep its tickets accounted for: room is there, no claim is stale. */
  ghost predicate FreshMoves(S: nat, lane: Lane, r: Role, lane': Lane, r': Role) {
    && S == |lane.flags| > 0
    && (|| (lane' == lane && r' == r)
        || (lane' == lane && r.Watching? && r' == Out && (r.i != lane.pub || !Raised(lane, S, r.i)))
        || (r.Out? && r' == Holding(lane.alloc) && lane.alloc < lane.pub + S && lane' == lane.(alloc := lane.alloc + 1))
        || (r.Holding? && r' == Watching(r.i) && lane' == lane.(flags := lane.flags[Cell(r.i, S) := true]))
        || (r == Watching(lane.pub) && r' == Bumping(lane.pub) && Raised(lane, S, lane.pub)
            && lane' == lane.(flags := lane.flags[Cell(lane.pub, S) := false]))
        || (r.Bumping? && r' == Watching(r.i + 1) && lane' == lane.(pub := lane.pub + 1)))
  }

  lemma MoveKeepsLane(S: nat, lane: Lane, roles: seq<Role>, t: nat, lane': Lane, r': Role)
    requires t < |roles| && LaneOk(lane, S, roles) && FreshMoves(S, lane, roles[t], lane', r')
    ensures LaneOk(lane', S, roles[t := r'])
  {
    var r, roles' := roles[t], roles[t := r'];
    if lane' == lane && r' == r {
      assert roles' == roles;
    } else if r.Out? {
      AllocKeepsLane(lane, S, roles, t, lane', roles');
    } else if r.Holding? {
      RaiseKeepsLane(lane, S, roles, t, r.i, lane', roles');
    } else if r.Bumping? {
      BumpKeepsLane(lane, S, roles, t, r.i, lane', roles');
    } else if r' == Out {
      LeaveKeepsLane(lane, S, roles, t, r.i, roles');
    } else {
      ClaimKeepsLane(lane, S, roles, t, lane', roles');
    }
  }

  /** With no thread in the lane, every ticket taken is published. */
  lemma QuietLane(lane: Lane, S: nat, roles: seq<Role>)
    requires LaneOk(lane, S, roles) && forall t :: 0 <= t < |roles| ==> roles[t] == Out
    ensures lane.pub == lane.alloc
  {
    assert !SomeoneWorksOn(roles, lane.pub) && !SomeoneWatches(roles, lane.pub);
  }
}
