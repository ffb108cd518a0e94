/** Pools that add a segment only for an acquire that finds all slots live: how many segments they have. */
module Demand {
  import opened Slots

  /** A moment of a pool's history. */
  datatype Moment = Moment(live: nat, nodes: nat, acquiring: bool)

  ghost predicate OnDemand(m: Moment, m': Moment) {
    && m'.live <= W * m'.nodes
    && (m'.nodes == m.nodes || (m'.nodes == m.nodes + 1 && m.acquiring && m.live == W * m.nodes))
    && (m.acquiring ==> m'.live == m.live + if m'.acquiring then 0 else 1)
  }

  ghost predicate History(past: seq<Moment>) {
    && |past| > 0 && past[0] == Moment(0, 1, false)
    && forall i :: 0 <= i < |past| - 1 ==> OnDemand(past[i], past[i + 1])
  }

  function Lives(past: seq<Moment>): (s: seq<nat>)
    ensures |s| == |past| && forall i :: 0 <= i < |s| ==> s[i] == past[i].live
  {
    seq(|past|, i requires 0 <= i < |past| => past[i].live)
  }

  /** As many segments as the largest number of live handles asks for, or one more for the acquire under way. */
  lemma {:induction false} NodesOnDemand(past: seq<Moment>, k: nat)
    requires History(past) && k < |past|
    ensures past[k].nodes >= 1 && forall i :: 0 <= i <= k ==> past[i].live <= W * past[k].nodes
    ensures past[k].nodes == 1
         || (exists i :: 0 <= i <= k && past[i].live > W * (past[k].nodes - 1))
         || (past[k].acquiring && past[k].live == W * (past[k].nodes - 1))
  {
    if k > 0 {
      NodesOnDemand(past, k - 1);
      assert OnDemand(past[k - 1], past[k - 1 + 1]);
    }
  }

  /** Between acquires the pool has max(1, ceil(peak / 64)) segments. */
  lemma IdleHasJustEnough(past: seq<Moment>)
    requires History(past) && !past[|past| - 1].acquiring
    ensures JustEnough(past[|past| - 1].nodes, Lives(past))
  {
    NodesOnDemand(past, |past| - 1);
    if i: nat :| i < |past| && past[i].live > W * (past[|past| - 1].nodes - 1) {
      assert Lives(past)[i] > W * (past[|past| - 1].nodes - 1);
    }
  }
}
