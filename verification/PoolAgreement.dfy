/** What both pools report, on every sequence of acquires and releases. */
module PoolAgreement {
  import opened Words
  import opened Slots
  import opened TreePools
  import opened LinearPools

  /** All that the reports of a pool depend on. */
  datatype Count = Count(live: nat, segments: nat)

  datatype Report = Report(size: nat, capacity: nat, full: bool)

  /** Acquire, or release of the k-th live handle (nothing when there is none). */
  datatype Op = Acquire | Release(k: nat)

  function Step(c: Count, op: Op): Count {
    match op
    case Acquire => Count(c.live + 1, if c.live == W * c.segments then c.segments + 1 else c.segments)
    case Release(k) => if k < c.live then c.(live := c.live - 1) else c
  }

  function After(ops: seq<Op>): Count {
    if ops == [] then Count(0, 1) else Step(After(ops[..|ops| - 1]), ops[|ops| - 1])
  }

  /** The largest number of handles that were live at once. */
  function Peak(ops: seq<Op>): nat {
    if ops == [] then 0 else
      var before := Peak(ops[..|ops| - 1]);
      if After(ops).live > before then After(ops).live else before
  }

  function ReportOf(c: Count): Report
    requires c.live <= W * c.segments
  {
    Report(W * c.segments - c.live, W * c.segments, c.live == W * c.segments)
  }

  function CeilDiv(a: nat, b: nat): nat
    requires b > 0
  {
    (a + b - 1) / b
  }

  /** The pool never holds more segments than the peak demands: max(1, ceil(peak / W)). */
  lemma {:induction false} OptimalSpace(ops: seq<Op>)
    ensures After(ops).live <= Peak(ops) <= W * After(ops).segments
    ensures After(ops).segments == if Peak(ops) <= W then 1 else CeilDiv(Peak(ops), W)
  {
    if ops != [] { OptimalSpace(ops[..|ops| - 1]); }
  }

  /** A pool grows exactly when it is full, and then by one segment. */
  lemma {:induction false} GrowsWhenFull(ops: seq<Op>, op: Op)
    ensures var before, after := After(ops), After(ops + [op]);
            && before.live <= W * before.segments
            && after.segments == before.segments + (if op == Acquire && ReportOf(before).full then 1 else 0)
            && ReportOf(before).size + before.live == ReportOf(before).capacity
            && (ReportOf(before).full <==> ReportOf(before).size == 0)
  {
    OptimalSpace(ops);
    assert (ops + [op])[..|ops + [op]| - 1] == ops;
  }

  function ReportAfter(ops: seq<Op>): Report {
    OptimalSpace(ops);
    ReportOf(After(ops))
  }

  function Reports(ops: seq<Op>): (rs: seq<Report>)
    ensures |rs| == |ops|
  {
    if ops == [] then [] else Reports(ops[..|ops| - 1]) + [ReportAfter(ops)]
  }

  /** Handles live at the time of a report. */
  function LiveIn(r: Report): int {
    r.capacity - r.size
  }

  /**
   * What an operation changes in the reports. An acquire of a full pool adds a segment, and every acquire
   * takes a slot; a release of a live handle gives one back; full means that no slot is free.
   */
  predicate Follows(op: Op, before: Report, r: Report) {
    && r.capacity == before.capacity + (if op == Acquire && before.full then W else 0)
    && r.size == before.size + (match op
                                case Acquire => if before.full then W - 1 else -1
                                case Release(k) => if k < LiveIn(before) then 1 else 0)
    && (r.full <==> r.size == 0)
  }

  /** The largest number of handles that were live at the time of a report. */
  function PeakIn(rs: seq<Report>): int {
    if rs == [] then 0 else
      var before := PeakIn(rs[..|rs| - 1]);
      if LiveIn(rs[|rs| - 1]) > before then LiveIn(rs[|rs| - 1]) else before
  }

  /** Report `i - 1`, or that of a new pool. */
  function Before(rs: seq<Report>, i: nat): Report
    requires i <= |rs|
  {
    if i == 0 then Report(W, W, false) else rs[i - 1]
  }

  /** Every report is what the operation makes of the one before. */
  ghost predicate FollowAll(ops: seq<Op>, rs: seq<Report>) {
    |rs| == |ops| && forall i :: 0 <= i < |ops| ==> Follows(ops[i], Before(rs, i), rs[i])
  }

  /** The capacity `c` is the least, in whole segments, for `peak` live handles. */
  predicate LeastCapacity(c: nat, peak: int) {
    c == W * if peak <= W then 1 else CeilDiv(peak, W)
  }

  /** Every report gives the least capacity that its past allows. */
  ghost predicate Optimal(rs: seq<Report>) {
    forall i :: 0 <= i < |rs| ==> LeastCapacity(rs[i].capacity, PeakIn(rs[..i + 1]))
  }

  lemma ReportFollows(ops: seq<Op>, op: Op, last: seq<Op>, was: Report, now: Report)
    requires last == ops + [op] && was == ReportAfter(ops) && now == ReportAfter(last)
    ensures Follows(op, was, now)
  {
    GrowsWhenFull(ops, op);
    OptimalSpace(ops);
    assert last[..|last| - 1] == ops;
  }

  lemma {:induction false} ReportsAt(ops: seq<Op>, i: nat)
    requires i < |ops|
    ensures Reports(ops)[i] == ReportAfter(ops[..i + 1])
    ensures Reports(ops)[..i + 1] == Reports(ops[..i + 1])
  {
    var n := |ops| - 1;
    if i == n {
      assert ops[..i + 1] == ops;
    } else {
      ReportsAt(ops[..n], i);
      assert ops[..n][..i + 1] == ops[..i + 1];
    }
  }

  lemma BeforeIs(ops: seq<Op>, i: nat)
    requires i < |ops|
    ensures Before(Reports(ops), i) == ReportAfter(ops[..i])
  {
    if i > 0 { ReportsAt(ops, i - 1); }
  }

  lemma OneMore<A>(s: seq<A>, i: nat)
    requires i < |s|
    ensures s[..i + 1] == s[..i] + [s[i]]
  {
  }

  lemma FollowsAt(ops: seq<Op>, i: nat)
    requires i < |ops|
    ensures Follows(ops[i], Before(Reports(ops), i), Reports(ops)[i])
  {
    var now, was := Reports(ops)[i], Before(Reports(ops), i);
    assert Follows(ops[i], was, now) by {
      ReportsAt(ops, i);
      BeforeIs(ops, i);
      OneMore(ops, i);
      ReportFollows(ops[..i], ops[i], ops[..i + 1], was, now);
    }
  }

  lemma {:induction false} PeakIsInReports(ops: seq<Op>)
    ensures PeakIn(Reports(ops)) == Peak(ops)
  {
    if ops != [] {
      PeakIsInReports(ops[..|ops| - 1]);
      assert Reports(ops)[..|ops| - 1] == Reports(ops[..|ops| - 1]);
    }
  }

  lemma OptimalAt(ops: seq<Op>, i: nat)
    requires i < |ops|
    ensures LeastCapacity(Reports(ops)[i].capacity, PeakIn(Reports(ops)[..i + 1]))
  {
    ReportsAt(ops, i);
    PeakIsInReports(ops[..i + 1]);
    OptimalSpace(ops[..i + 1]);
  }

  /** The reference reports are optimal, and each follows from the one before. */
  lemma ReportsAreOptimal(ops: seq<Op>)
    ensures Optimal(Reports(ops)) && FollowAll(ops, Reports(ops))
  {
    forall i | 0 <= i < |ops|
      ensures LeastCapacity(Reports(ops)[i].capacity, PeakIn(Reports(ops)[..i + 1]))
      ensures Follows(ops[i], Before(Reports(ops), i), Reports(ops)[i])
    {
      OptimalAt(ops, i);
      FollowsAt(ops, i);
    }
  }

  lemma LedgerCount(free: seq<set<nat>>, live: set<Handle>)
    requires Ledger(free, live)
    ensures |live| <= W * |free|
    ensures TotalFree(free) == W * |free| - |live|
    ensures |Supply(free)| == if |live| == W * |free| then |free| + 1 else |free|
  {
  }

  ghost predicate Lists(hs: seq<Handle>, live: set<Handle>) {
    && |hs| == |live|
    && (forall h :: h in hs <==> h in live)
    && (forall i, j :: 0 <= i < j < |hs| ==> hs[i] != hs[j])
  }

  lemma ListsCount(hs: seq<Handle>, live: set<Handle>)
    requires Lists(hs, live)
    ensures |hs| == |live|
  {
  }

  lemma ListsWithout(hs: seq<Handle>, live: set<Handle>, k: nat)
    requires Lists(hs, live) && k < |hs|
    ensures hs[k] in live && Lists(hs[..k] + hs[k + 1..], live - {hs[k]})
  {
    var rest := hs[..k] + hs[k + 1..];
    forall h ensures h in rest <==> h in live - {hs[k]} {
      if h in live - {hs[k]} {
        var i :| 0 <= i < |hs| && hs[i] == h;
        assert rest[if i < k then i else i - 1] == h;
      }
      if h in rest {
        var i :| 0 <= i < |rest| && rest[i] == h;
        assert h == hs[if i < k then i else i + 1];
      }
    }
  }

  lemma ListsWith(hs: seq<Handle>, live: set<Handle>, h: Handle)
    requires Lists(hs, live) && h !in live
    ensures Lists(hs + [h], live + {h})
  {
  }

  /** What an operation does to the live handles, listed in the order they were handed out, and to the slots. */
  ghost predicate Serves(op: Op, hs: seq<Handle>, live: set<Handle>, free: seq<set<nat>>,
      hs': seq<Handle>, live': set<Handle>, free': seq<set<nat>>)
  {
    match op
    case Acquire =>
      |hs'| == |hs| + 1 && hs'[..|hs|] == hs && HandsOut(free, live, free', live', hs'[|hs|])
    case Release(k) =>
      if k < |hs| then hs' == hs[..k] + hs[k + 1..] && TakesBack(free, live, free', live', hs[k])
      else hs' == hs && live' == live && free' == free
  }

  method TreeReport(pool: TreePool) returns (r: Report)
    requires pool.Valid()
    ensures |pool.live| <= W * |pool.arena.free|
    ensures r == ReportOf(Count(|pool.live|, |pool.arena.free|))
  {
    LedgerCount(pool.arena.free, pool.live);
    var size := pool.Size(0);
    var capacity := pool.Capacity(0);
    var full := pool.Full(0);
    r := Report(size, capacity, full);
  }

  method LinearReport(pool: LinearPool) returns (r: Report)
    requires pool.Valid()
    ensures |pool.live| <= W * |pool.free|
    ensures r == ReportOf(Count(|pool.live|, |pool.free|))
  {
    LedgerCount(pool.free, pool.live);
    assert pool.free[0..] == pool.free;
    var size := pool.Size(0);
    var capacity := pool.Capacity(0);
    var full := pool.Full(0);
    r := Report(size, capacity, full);
  }

  /** One operation on the tree pool, whose live handles are `hs`. */
  method TreeStep(pool: TreePool, hs: seq<Handle>, op: Op) returns (hs': seq<Handle>)
    requires pool.Valid() && Lists(hs, pool.live)
    modifies pool
    ensures pool.Valid() && Lists(hs', pool.live)
    ensures Serves(op, hs, old(pool.live), old(pool.arena.free), hs', pool.live, pool.arena.free)
    ensures Count(|pool.live|, |pool.arena.free|) == Step(old(Count(|pool.live|, |pool.arena.free|)), op)
  {
    hide Lists, Ledger;
    hs' := hs;
    ListsCount(hs, pool.live);
    LedgerCount(pool.arena.free, pool.live);
    match op
    case Acquire =>
      ghost var live := pool.live;
      var h, visited := pool.Acquire();
      ListsWith(hs, live, h);
      hs' := hs + [h];
    case Release(k) =>
      if k < |hs| {
        ListsWithout(hs, pool.live, k);
        pool.Release(hs[k]);
        hs' := hs[..k] + hs[k + 1..];
      }
  }

  method LinearStep(pool: LinearPool, hs: seq<Handle>, op: Op) returns (hs': seq<Handle>)
    requires pool.Valid() && Lists(hs, pool.live)
    modifies pool
    ensures pool.Valid() && Lists(hs', pool.live)
    ensures Serves(op, hs, old(pool.live), old(pool.free), hs', pool.live, pool.free)
    ensures Count(|pool.live|, |pool.free|) == Step(old(Count(|pool.live|, |pool.free|)), op)
  {
    hide Lists, Ledger;
    hs' := hs;
    ListsCount(hs, pool.live);
    LedgerCount(pool.free, pool.live);
    match op
    case Acquire =>
      ghost var live := pool.live;
      var h := pool.Acquire();
      ListsWith(hs, live, h);
      hs' := hs + [h];
    case Release(k) =>
      if k < |hs| {
        ListsWithout(hs, pool.live, k);
        pool.Release(hs[k]);
        hs' := hs[..k] + hs[k + 1..];
      }
  }

  lemma AfterOneMore(ops: seq<Op>, i: nat)
    requires i < |ops|
    ensures After(ops[..i + 1]) == Step(After(ops[..i]), ops[i])
    ensures Reports(ops[..i + 1]) == Reports(ops[..i]) + [ReportAfter(ops[..i + 1])]
  {
    assert ops[..i + 1][..|ops[..i + 1]| - 1] == ops[..i];
  }

  /** The reports of a tree pool after every operation. */
  method TreeReports(N: nat, ops: seq<Op>) returns (reports: seq<Report>)
    requires IsPow2(N)
    ensures reports == Reports(ops)
  {
    var pool := new TreePool(N);
    var hs := [];
    reports := [];
    for i := 0 to |ops|
      invariant fresh(pool) && pool.Valid() && Lists(hs, pool.live)
      invariant Count(|pool.live|, |pool.arena.free|) == After(ops[..i])
      invariant reports == Reports(ops[..i])
    {
      AfterOneMore(ops, i);
      hs := TreeStep(pool, hs, ops[i]);
      var r := TreeReport(pool);
      reports := reports + [r];
    }
    assert ops[..|ops|] == ops;
  }

  /** The reports of a linear pool after every operation. */
  method LinearReports(ops: seq<Op>) returns (reports: seq<Report>)
    ensures reports == Reports(ops)
  {
    var pool := new LinearPool();
    var hs := [];
    reports := [];
    for i := 0 to |ops|
      invariant fresh(pool) && pool.Valid() && Lists(hs, pool.live)
      invariant Count(|pool.live|, |pool.free|) == After(ops[..i])
      invariant reports == Reports(ops[..i])
    {
      AfterOneMore(ops, i);
      hs := LinearStep(pool, hs, ops[i]);
      var r := LinearReport(pool);
      reports := reports + [r];
    }
    assert ops[..|ops|] == ops;
  }

  /** What the tree pool reports is optimal after every operation, and follows from the operations. */
  method RunTree(N: nat, ops: seq<Op>) returns (reports: seq<Report>)
    requires IsPow2(N)
    ensures reports == Reports(ops) && Optimal(reports) && FollowAll(ops, reports)
  {
    reports := TreeReports(N, ops);
    ReportsAreOptimal(ops);
  }

  method RunLinear(ops: seq<Op>) returns (reports: seq<Report>)
    ensures reports == Reports(ops) && Optimal(reports) && FollowAll(ops, reports)
  {
    reports := LinearReports(ops);
    ReportsAreOptimal(ops);
  }

  /** Both pools under the same operations: the reports after every step are the same. */
  method RunBoth(N: nat, ops: seq<Op>) returns (tree: seq<Report>, linear: seq<Report>)
    requires IsPow2(N)
    ensures tree == linear == Reports(ops) && Optimal(tree) && FollowAll(ops, tree)
  {
    tree := TreeReports(N, ops);
    linear := LinearReports(ops);
    ReportsAreOptimal(ops);
  }
}
