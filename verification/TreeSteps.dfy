/**
 * The tree pool as a machine of threads: every atomic load, exchange and addition of the
 * acquire and release paths is one step, and any thread may take the next one.
 */
module TreeSteps {
  import opened Options
  import opened Sums
  import opened Slots
  import opened TreeArena

  /** What a call does once its credits have reached the root. */
  datatype After =
    | Return
    | Retry(n: nat, child: nat)  // go on with create_node_ at `child`, for the acquire waiting at `n`

  datatype Best = Best(cap: nat, id: nat)

  /** Where a thread stands; each constructor names the access it makes next. */
  datatype Thread =
    | Idle
    | SegLoad(n: nat)                                  // segment: load flag_
    | SegCas(n: nat, flag: set<nat>)                   // segment: exchange flag_
    | HintLoad(n: nat)                                 // get_free_slot_: read childs_index_
    | ScanLoad(n: nat, index: nat, i: nat)             // get_free_slot_: load size_[id]
    | ScanCas(n: nat, index: nat, i: nat, was: nat)    // get_free_slot_: exchange size_[id]
    | Descend(n: nat, id: nat, child: Option<nat>)     // get_or_create_node_: load childs_[id]; `child` is history
    | Orphan(n: nat, id: nat)                          // the reserved place has no node
    | CreFlag(n: nat, m: nat)                          // create_node_ at m: load flag_
    | CreCap(n: nat, m: nat, i: nat, best: Option<Best>)   // create_node_: load capacity_[i]
    | CreSize(n: nat, m: nat, i: nat, min: Best)      // create_node_: load size_[i]
    | CreChild(n: nat, m: nat, id: nat)                // get_or_create_node_(id): load childs_[id]
    | CreCas(n: nat, m: nat, id: nat)                  // get_or_create_node_(id): exchange childs_[id]
    | AddSize(c: nat, v: nat, after: After)            // inc_size_: add to the owner's size_
    | AddCap(c: nat, v: nat, after: After)             // inc_cap_: add to the owner's capacity_
    | RelLoad(h: Handle)                               // release: load flag_
    | RelCas(h: Handle, flag: set<nat>)                // release: exchange flag_

  datatype Call = Acquire | Release(h: Handle)

  /** What the environment decides at a step: the call made, the stale hint read, a spurious failure. */
  datatype Choice = Choice(call: Call, hint: nat, spurious: bool)

  datatype State = State(arena: Arena, threads: seq<Thread>, live: set<Handle>)

  function Put(s: State, t: nat, th: Thread): State
    requires t < |s.threads|
  {
    s.(threads := s.threads[t := th])
  }

  /** The thread is inside the arena. */
  ghost predicate InBounds(N: nat, a: Arena, th: Thread)
    requires Linked(a, N)
  {
    var len := |a.owner|;
    match th
    case Idle => true
    case SegLoad(n) => n < len
    case SegCas(n, flag) => n < len && flag != {}
    case HintLoad(n) => n < len
    case ScanLoad(n, _, i) => n < len && i < N
    case ScanCas(n, _, i, was) => n < len && i < N && was > 0
    case Descend(n, id, child) => n < len && id < N && child.Some? && a.childs[n][id] == child
    case Orphan(_, _) => false
    case CreFlag(n, m) => n < len && m < len
    case CreCap(n, m, i, best) => n < len && m < len && i < N && (best.Some? ==> best.value.id < N)
    case CreSize(n, m, i, min) => n < len && m < len && i < N && min.id < N
    case CreChild(n, m, id) => n < len && m < len && id < N
    case CreCas(n, m, id) => n < len && m < len && id < N
    case AddSize(c, v, after) => 0 < c < len && (after.Retry? ==> after.n < len && 0 < after.child < len)
    case AddCap(c, v, after) => 0 < c < len && after.Retry? && after.n < len && 0 < after.child < len
    case RelLoad(h) => h.node < len
    case RelCas(h, _) => h.node < len
  }

  function AfterLoad(n: nat, flag: set<nat>): Thread {
    if flag == {} then HintLoad(n) else SegCas(n, flag)
  }

  function NextScan(N: nat, n: nat, index: nat, i: nat): Thread {
    if i + 1 < N then ScanLoad(n, index, i + 1) else CreFlag(n, n)
  }

  function AfterSize(N: nat, n: nat, index: nat, i: nat, was: nat): Thread {
    if was > 0 then ScanCas(n, index, i, was) else NextScan(N, n, index, i)
  }

  /** inc_size_ stops at the node without an owner. */
  function NextSize(a: Arena, n: nat, v: nat, after: After): Thread
    requires n < |a.owner|
  {
    if a.owner[n].Some? then AddSize(n, v, after)
    else if after.Retry? then AddCap(after.child, W, after)
    else Idle
  }

  function NextCap(a: Arena, n: nat, v: nat, after: After): Thread
    requires n < |a.owner| && after.Retry?
  {
    if a.owner[n].Some? then AddCap(n, v, after) else CreFlag(after.n, after.child)
  }

  /**
   * The steps that change nothing but where the thread stands: loads, and exchanges that fail and
   * so load the current value. None when the step is one of those that change the pool.
   */
  ghost function Local(N: nat, a: Arena, th: Thread, ch: Choice): Option<Thread>
    requires N > 0 && Shape(a, N) && InBounds(N, a, th)
  {
    match th
    case SegLoad(n) => Some(AfterLoad(n, a.free[n]))
    case SegCas(n, flag) => if !ch.spurious && a.free[n] == flag then None else Some(AfterLoad(n, a.free[n]))
    case HintLoad(n) => Some(ScanLoad(n, ch.hint, 0))
    case ScanLoad(n, index, i) => Some(AfterSize(N, n, index, i, a.size[n][ScanId(N, index, i)]))
    case ScanCas(n, index, i, was) =>
      var now := a.size[n][ScanId(N, index, i)];
      if !ch.spurious && now == was then None else Some(AfterSize(N, n, index, i, now))
    case Descend(n, id, _) => Some(if a.childs[n][id].Some? then SegLoad(a.childs[n][id].value) else Orphan(n, id))
    case Orphan(_, _) => Some(th)
    case CreFlag(n, m) => Some(if a.owner[m].Some? && a.free[m] != {} then HintLoad(n) else CreCap(n, m, 0, None))
    case CreCap(n, m, i, best) =>
      var cap := a.capacity[m][i];
      Some(CreSize(n, m, i, if best.None? || cap < best.value.cap then Best(cap, i) else best.value))
    case CreSize(n, m, i, min) =>
      Some(if a.size[m][i] > 0 then HintLoad(n)
           else if i + 1 < N then CreCap(n, m, i + 1, Some(min))
           else CreChild(n, m, min.id))
    case CreChild(n, m, id) =>
      Some(if a.childs[m][id].Some? then CreFlag(n, a.childs[m][id].value) else CreCas(n, m, id))
    case CreCas(n, m, id) =>
      if a.childs[m][id].Some? then Some(CreFlag(n, a.childs[m][id].value))
      else if ch.spurious then Some(th) else None
    case RelLoad(h) => Some(RelCas(h, a.free[h.node]))
    case RelCas(h, flag) => if !ch.spurious && a.free[h.node] == flag then None else Some(RelCas(h, a.free[h.node]))
    case _ => None
  }

  /** One step of thread `t`. */
  ghost function Do(N: nat, s: State, t: nat, ch: Choice): State
    requires N > 0 && Shape(s.arena, N)
    requires t < |s.threads| && InBounds(N, s.arena, s.threads[t])
  {
    var a := s.arena;
    var local := Local(N, a, s.threads[t], ch);
    if local.Some? then Put(s, t, local.value) else
      match s.threads[t]
      case Idle => (
        match ch.call
        case Acquire => Put(s, t, SegLoad(0))
        case Release(h) => if h in s.live then Put(s, t, RelLoad(h)).(live := s.live - {h}) else s)
      case SegCas(n, flag) =>
        Put(s, t, Idle).(arena := SetFree(a, n, flag - {Least(flag)}), live := s.live + {Handle(n, Least(flag))})
      case ScanCas(n, index, i, was) =>
        var id := ScanId(N, index, i);
        Put(s, t, Descend(n, id, a.childs[n][id])).(arena := SetSize(a, n, id, was - 1))
      case CreCas(n, m, id) =>
        Put(s, t, AddSize(|a.owner|, W, Retry(n, |a.owner|))).(arena := Publish(a, m, id, AllSlots()))
      case AddSize(c, v, after) =>
        var e := a.owner[c].value;
        Put(s, t, NextSize(a, e.node, v, after)).(arena := AddToSize(a, e, v))
      case AddCap(c, v, after) =>
        var e := a.owner[c].value;
        Put(s, t, NextCap(a, e.node, v, after)).(arena := AddToCap(a, e, v))
      case RelCas(h, flag) =>
        Put(s, t, NextSize(a, h.node, 1, Return)).(arena := SetFree(a, h.node, flag + {h.slot}))
      case _ => s
  }

  ghost predicate Init(N: nat, s: State) {
    s.arena == NewArena(N) && s.live == {} && forall t :: 0 <= t < |s.threads| ==> s.threads[t] == Idle
  }

  ghost predicate CanStep(N: nat, s: State) {
    && N > 0 && Shape(s.arena, N)
    && forall t :: 0 <= t < |s.threads| ==> InBounds(N, s.arena, s.threads[t])
  }

  ghost predicate Next(N: nat, s: State, s': State) {
    && CanStep(N, s)
    && exists t: nat, ch :: t < |s.threads| && s' == Do(N, s, t, ch)
  }

  /** A run of any number of threads, each making any number of calls. */
  ghost predicate IsRun(N: nat, run: seq<State>) {
    && |run| > 0 && Init(N, run[0])
    && forall k :: 0 <= k < |run| - 1 ==> Next(N, run[k], run[k + 1])
  }

  // ---- what a thread has under way ----

  /** The node at which the thread's acquire currently waits, its place there already reserved. */
  function At(th: Thread): Option<nat> {
    match th
    case SegLoad(n) => Some(n)
    case SegCas(n, _) => Some(n)
    case HintLoad(n) => Some(n)
    case ScanLoad(n, _, _) => Some(n)
    case ScanCas(n, _, _, _) => Some(n)
    case Descend(_, _, child) => child
    case CreFlag(n, _) => Some(n)
    case CreCap(n, _, _, _) => Some(n)
    case CreSize(n, _, _, _) => Some(n)
    case CreChild(n, _, _) => Some(n)
    case CreCas(n, _, _) => Some(n)
    case AddSize(_, _, after) => if after.Retry? then Some(after.n) else None
    case AddCap(_, _, after) => if after.Retry? then Some(after.n) else None
    case _ => None
  }

  /** The thread found the segment of node `c` empty and is looking for one of its children. */
  predicate Looking(th: Thread, c: nat) {
    At(th) == Some(c) && !th.SegLoad? && !th.SegCas? && !th.Descend?
  }

  function Returning(th: Thread): Option<Handle> {
    match th
    case RelLoad(h) => Some(h)
    case RelCas(h, _) => Some(h)
    case _ => None
  }

  datatype Role =
    | Reserved   // decremented the counter for c and not yet taken a bit or decremented a counter in c
    | Credit     // slots made free at c, not yet added at its owner
    | CapCredit  // slots created at c, not yet added at its owner
    | Looker     // looking for a child of c

  /** What thread `th` counts for at node `c`. */
  function Weight(th: Thread, r: Role, c: nat): nat {
    match r
    case Reserved => if At(th) == Some(c) then 1 else 0
    case Credit => if th.AddSize? && th.c == c then th.v else 0
    case CapCredit =>
      if th.AddSize? && th.after.Retry? && th.after.child == c then W
      else if th.AddCap? && th.c == c then th.v else 0
    case Looker => if Looking(th, c) then 1 else 0
  }

  /** What thread `th` counts for at all nodes but the root. */
  function WeightBelow(th: Thread, r: Role): nat {
    match r
    case Reserved => if At(th).Some? && At(th).value != 0 then 1 else 0
    case Credit => if th.AddSize? then th.v else 0
    case CapCredit => if th.AddSize? && th.after.Retry? then W else if th.AddCap? then th.v else 0
    case Looker => if At(th).Some? && At(th).value != 0 && Looking(th, At(th).value) then 1 else 0
  }

  function Weights(ts: seq<Thread>, r: Role, c: nat): (s: seq<nat>)
    ensures |s| == |ts| && forall i :: 0 <= i < |s| ==> s[i] == Weight(ts[i], r, c)
  {
    seq(|ts|, i requires 0 <= i < |ts| => Weight(ts[i], r, c))
  }

  function WeightsBelow(ts: seq<Thread>, r: Role): (s: seq<nat>)
    ensures |s| == |ts| && forall i :: 0 <= i < |s| ==> s[i] == WeightBelow(ts[i], r)
  {
    seq(|ts|, i requires 0 <= i < |ts| => WeightBelow(ts[i], r))
  }

  /** How much all threads together count for at node `c`. */
  function Tally(ts: seq<Thread>, r: Role, c: nat): nat {
    Sum(Weights(ts, r, c))
  }

  function TallyBelow(ts: seq<Thread>, r: Role): nat {
    Sum(WeightsBelow(ts, r))
  }

  function Returnings(ts: seq<Thread>): (s: seq<Option<Handle>>)
    ensures |s| == |ts| && forall i :: 0 <= i < |s| ==> s[i] == Returning(ts[i])
  {
    seq(|ts|, i requires 0 <= i < |ts| => Returning(ts[i]))
  }

  ghost function ReturningSet(ts: seq<Thread>): set<Handle> {
    InReturn(Returnings(ts))
  }
}
