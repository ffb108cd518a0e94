/** Paths of the ring queue's machine without stale claims, built one call at a time. */
module QueuePaths {
  import opened QueueLanes
  import opened QueueSteps

  ghost predicate FreshPath<T(!new)>(S: nat, path: seq<State<T>>) {
    |path| > 0 && forall k :: 0 <= k < |path| - 1 ==> NextFresh(S, path[k], path[k + 1])
  }

  function Last<T>(path: seq<State<T>>): State<T>
    requires path != []
  {
    path[|path| - 1]
  }

  function SetLane<T>(s: State<T>, op: Op<T>, lane: Lane): State<T> {
    if op.Push? then s.(tail := lane) else s.(head := lane)
  }

  lemma Extend<T(!new)>(S: nat, path: seq<State<T>>, t: nat, op: Op<T>) returns (longer: seq<State<T>>)
    requires FreshPath(S, path) && Sized(S, Last(path)) && t < |Last(path).threads|
    requires !IsStaleClaim(S, Last(path), t, Choice(op, false))
    ensures FreshPath(S, longer) && path <= longer
    ensures Last(longer) == Do(S, Last(path), t, Choice(op, false)) && Sized(S, Last(longer))
  {
    longer := path + [Do(S, Last(path), t, Choice(op, false))];
    StepMoves(S, Last(path), t, Choice(op, false));
    forall k | 0 <= k < |longer| - 1 ensures NextFresh(S, longer[k], longer[k + 1]) {
      if k < |path| - 1 {
        assert NextFresh(S, path[k], path[k + 1]);
      } else {
        assert longer[k + 1] == Do(S, longer[k], t, Choice(op, false));
      }
    }
  }

  lemma Join<T(!new)>(S: nat, path: seq<State<T>>, more: seq<State<T>>) returns (whole: seq<State<T>>)
    requires FreshPath(S, path) && FreshPath(S, more) && Last(path) == more[0]
    ensures FreshPath(S, whole) && path <= whole && Last(whole) == Last(more)
    ensures whole == path + more[1..]
  {
    whole := path + more[1..];
    forall k | 0 <= k < |whole| - 1 ensures NextFresh(S, whole[k], whole[k + 1]) {
      if k < |path| - 1 {
        assert NextFresh(S, path[k], path[k + 1]);
      } else {
        var m := k - (|path| - 1);
        assert NextFresh(S, more[m], more[m + 1]);
      }
    }
  }

  // ---- one call, while nobody else moves ----

  /** After the load, the check and the exchange: the thread holds the next ticket. */
  function Taken<T>(s: State<T>, t: nat, op: Op<T>): State<T>
    requires t < |s.threads|
  {
    var lane := LaneOf(s, op);
    SetLane(s, op, lane.(alloc := lane.alloc + 1)).(
      threads := s.threads[t := Access(op, lane.alloc)],
      pushed := if op.Push? then s.pushed + [op.v] else s.pushed,
      begun := s.begun + [Made(t, op)])
  }

  lemma TakeTicket<T(!new)>(S: nat, path: seq<State<T>>, t: nat, op: Op<T>) returns (longer: seq<State<T>>)
    requires FreshPath(S, path) && Sized(S, Last(path)) && t < |Last(path).threads| && Last(path).threads[t] == Idle
    requires HasRoom(S, Last(path), op, LaneOf(Last(path), op).alloc)
    ensures FreshPath(S, longer) && path <= longer && Last(longer) == Taken(Last(path), t, op)
  {
    var s := Last(path);
    var idx := LaneOf(s, op).alloc;
    longer := Extend(S, path, t, op);
    assert Last(longer) == s.(threads := s.threads[t := Load(op)], begun := s.begun + [Made(t, op)]);
    longer := Extend(S, longer, t, op);
    assert Last(longer) == s.(threads := s.threads[t := Check(op, idx)], begun := s.begun + [Made(t, op)]);
    longer := Extend(S, longer, t, op);
    assert Last(longer) == s.(threads := s.threads[t := Cas(op, idx)], begun := s.begun + [Made(t, op)]);
    longer := Extend(S, longer, t, op);
  }

  /** After the access to the cell and the raising of the flag. */
  function Finished<T>(S: nat, s: State<T>, t: nat, op: Op<T>, idx: nat): State<T>
    requires Sized(S, s) && t < |s.threads|
  {
    var lane, c := LaneOf(s, op), Cell(idx, S);
    SetLane(s, op, lane.(flags := lane.flags[c := true])).(
      threads := s.threads[t := Test(op, idx)],
      data := if op.Push? then s.data[c := op.v] else s.data,
      popped := if op.Push? then s.popped else s.popped[idx := s.data[c]])
  }

  lemma FinishTicket<T(!new)>(S: nat, path: seq<State<T>>, t: nat, op: Op<T>, idx: nat) returns (longer: seq<State<T>>)
    requires FreshPath(S, path) && Sized(S, Last(path)) && t < |Last(path).threads|
    requires Last(path).threads[t] == Access(op, idx)
    ensures FreshPath(S, longer) && path <= longer && Last(longer) == Finished(S, Last(path), t, op, idx)
  {
    longer := Extend(S, path, t, op);
    longer := Extend(S, longer, t, op);
  }

  /** After the oldest ticket, whose flag is raised, has been published. */
  function Published<T>(S: nat, s: State<T>, t: nat, op: Op<T>, idx: nat): State<T>
    requires Sized(S, s) && t < |s.threads|
  {
    var lane := LaneOf(s, op);
    SetLane(s, op, Lane(lane.alloc, idx + 1, lane.flags[Cell(idx, S) := false])).(
      threads := s.threads[t := Test(op, idx + 1)])
  }

  lemma PublishTicket<T(!new)>(S: nat, path: seq<State<T>>, t: nat, op: Op<T>, idx: nat) returns (longer: seq<State<T>>)
    requires FreshPath(S, path) && Sized(S, Last(path)) && t < |Last(path).threads|
    requires Last(path).threads[t] == Test(op, idx) && LaneOf(Last(path), op).pub == idx
    requires LaneOf(Last(path), op).flags[Cell(idx, S)]
    ensures FreshPath(S, longer) && path <= longer && Last(longer) == Published(S, Last(path), t, op, idx)
  {
    var s := Last(path);
    longer := Extend(S, path, t, op);
    assert Last(longer) == s.(threads := s.threads[t := Ready(op, idx)]);
    longer := Extend(S, longer, t, op);
    assert Last(longer) == s.(threads := s.threads[t := Claim(op, idx)]);
    longer := Extend(S, longer, t, op);
    longer := Extend(S, longer, t, op);
  }

  /** After the call has returned. */
  function Returned<T>(s: State<T>, t: nat, op: Op<T>, ok: bool): State<T>
    requires t < |s.threads|
  {
    s.(threads := s.threads[t := Idle], ended := s.ended + [Outcome(t, op, ok)])
  }

  /** A thread leaves the publish loop at a ticket that is not the oldest. */
  lemma LeaveAtOnce<T(!new)>(S: nat, path: seq<State<T>>, t: nat, op: Op<T>, idx: nat) returns (longer: seq<State<T>>)
    requires FreshPath(S, path) && Sized(S, Last(path)) && t < |Last(path).threads|
    requires Last(path).threads[t] == Test(op, idx) && LaneOf(Last(path), op).pub != idx
    ensures FreshPath(S, longer) && path <= longer
    ensures Last(longer) == Returned(Last(path), t, op, true)
  {
    longer := Extend(S, path, t, op);
  }

  /** A thread leaves the publish loop at a ticket whose flag is down. */
  lemma LeaveAtNext<T(!new)>(S: nat, path: seq<State<T>>, t: nat, op: Op<T>, idx: nat) returns (longer: seq<State<T>>)
    requires FreshPath(S, path) && Sized(S, Last(path)) && t < |Last(path).threads|
    requires Last(path).threads[t] == Test(op, idx) && LaneOf(Last(path), op).pub == idx
    requires !LaneOf(Last(path), op).flags[Cell(idx, S)]
    ensures FreshPath(S, longer) && path <= longer
    ensures Last(longer) == Returned(Last(path), t, op, true)
  {
    var s := Last(path);
    longer := Extend(S, path, t, op);
    assert Last(longer) == s.(threads := s.threads[t := Ready(op, idx)]);
    longer := Extend(S, longer, t, op);
  }

  function Lowered(S: nat): (fs: seq<bool>)
    ensures |fs| == S && forall j :: 0 <= j < S ==> !fs[j]
  {
    seq(S, j => false)
  }

  lemma RaiseAndLower(S: nat, c: nat)
    requires c < S
    ensures Lowered(S)[c := true][c := false] == Lowered(S)
  {
  }

  /** A whole push or pop, in a lane in which nothing is under way. */
  function Done<T>(S: nat, s: State<T>, t: nat, op: Op<T>): State<T>
    requires Sized(S, s)
  {
    var k := LaneOf(s, op).alloc;
    SetLane(s, op, Lane(k + 1, k + 1, Lowered(S))).(
      data := if op.Push? then s.data[Cell(k, S) := op.v] else s.data,
      pushed := if op.Push? then s.pushed + [op.v] else s.pushed,
      popped := if op.Push? then s.popped else s.popped[k := s.data[Cell(k, S)]],
      begun := s.begun + [Made(t, op)],
      ended := s.ended + [Outcome(t, op, true)])
  }

  lemma CallAlone<T(!new)>(S: nat, path: seq<State<T>>, t: nat, op: Op<T>) returns (longer: seq<State<T>>)
    requires FreshPath(S, path) && Sized(S, Last(path)) && t < |Last(path).threads| && Last(path).threads[t] == Idle
    requires var lane := LaneOf(Last(path), op); lane == Lane(lane.alloc, lane.alloc, Lowered(S))
    requires HasRoom(S, Last(path), op, LaneOf(Last(path), op).alloc)
    ensures FreshPath(S, longer) && path <= longer && Last(longer) == Done(S, Last(path), t, op)
  {
    var s := Last(path);
    var k := LaneOf(s, op).alloc;
    longer := TakeTicket(S, path, t, op);
    longer := FinishTicket(S, longer, t, op, k);
    longer := PublishTicket(S, longer, t, op, k);
    RaiseAndLower(S, Cell(k, S));
    assert LaneOf(Last(longer), op) == Lane(k + 1, k + 1, Lowered(S));
    longer := LeaveAtNext(S, longer, t, op, k + 1);
    assert Last(longer).threads == s.threads;
  }

  /** A call for which there is no room returns false and changes nothing. */
  lemma CallFailsAlone<T(!new)>(S: nat, path: seq<State<T>>, t: nat, op: Op<T>) returns (longer: seq<State<T>>)
    requires FreshPath(S, path) && Sized(S, Last(path)) && t < |Last(path).threads| && Last(path).threads[t] == Idle
    requires !HasRoom(S, Last(path), op, LaneOf(Last(path), op).alloc)
    ensures FreshPath(S, longer) && path <= longer
    ensures Last(longer)
         == Last(path).(begun := Last(path).begun + [Made(t, op)], ended := Last(path).ended + [Outcome(t, op, false)])
  {
    var s := Last(path);
    longer := Extend(S, path, t, op);
    assert Last(longer) == s.(threads := s.threads[t := Load(op)], begun := s.begun + [Made(t, op)]);
    longer := Extend(S, longer, t, op);
    longer := Extend(S, longer, t, op);
    assert Last(longer).threads == s.threads;
  }
}
