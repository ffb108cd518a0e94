/** Who holds each slot of a pool: its segment, a live handle, or a call that is giving it back. */
module Slots {
  import opened Options
  import opened Words
  import opened Sums

  const W: nat := WIDTH

  datatype Handle = Handle(node: nat, slot: nat)

  predicate IsLeast(m: nat, s: set<nat>) {
    m in s && forall x :: x in s ==> m <= x
  }

  /** The slot a segment hands out first. */
  function Least(s: set<nat>): (m: nat)
    requires s != {}
    ensures IsLeast(m, s)
  {
    assert exists m :: IsLeast(m, s) by { var least := LeastExists(s); }
    var m :| m in s && IsLeast(m, s);
    m
  }

  lemma {:induction false} LeastExists(s: set<nat>) returns (m: nat)
    requires s != {}
    ensures IsLeast(m, s)
  {
    var first :| first in s;
    var rest := s - {first};
    if rest == {} {
      assert s == {first};
      m := first;
    } else {
      var m' := LeastExists(rest);
      m := if m' < first then m' else first;
      forall x | x in s ensures m <= x {
        if x != first { assert x in rest; }
      }
    }
  }

  ghost predicate AllFree(s: set<nat>) {
    |s| == W && forall k: nat :: k in s <==> k < W
  }

  /** The free slots of a new segment. */
  ghost function AllSlots(): (s: set<nat>)
    ensures AllFree(s)
  {
    assert AllFree(Upto(W));
    var s :| AllFree(s);
    s
  }

  method MakeSlots() returns (s: set<nat>)
    ensures s == AllSlots()
  {
    s := Upto(W);
  }

  function Sizes(free: seq<set<nat>>): (s: seq<nat>)
    ensures |s| == |free| && forall i :: 0 <= i < |s| ==> s[i] == |free[i]|
  {
    seq(|free|, i requires 0 <= i < |free| => |free[i]|)
  }

  /** Free slots over all segments. */
  function TotalFree(free: seq<set<nat>>): nat {
    Sum(Sizes(free))
  }

  lemma TotalFreeUpdate(free: seq<set<nat>>, n: nat, f: set<nat>)
    requires n < |free|
    ensures TotalFree(free[n := f]) + |free[n]| == TotalFree(free) + |f|
  {
    SumUpdate(Sizes(free), n, |f|);
    assert Sizes(free[n := f]) == Sizes(free)[n := |f|];
  }

  lemma TotalFreeAppend(free: seq<set<nat>>, f: set<nat>)
    ensures TotalFree(free + [f]) == TotalFree(free) + |f|
  {
    SumAppend(Sizes(free), |f|);
    assert Sizes(free + [f]) == Sizes(free) + [|f|];
  }

  /**
   * Every slot of every segment is either free or held, never both; `held` are the handles that
   * a user owns or that a call is giving back. The count says the same in numbers.
   */
  ghost predicate Ledger(free: seq<set<nat>>, held: set<Handle>) {
    && (forall n, k :: 0 <= n < |free| && k in free[n] ==> k < W)
    && (forall h :: h in held <==> h.node < |free| && h.slot < W && h.slot !in free[h.node])
    && TotalFree(free) + |held| == W * |free|
  }

  /** A segment hands out a free slot: it becomes a handle that nobody held. */
  lemma TakeKeepsLedger(free: seq<set<nat>>, held: set<Handle>, n: nat, k: nat)
    requires Ledger(free, held)
    requires n < |free| && k in free[n]
    ensures Handle(n, k) !in held
    ensures Ledger(free[n := free[n] - {k}], held + {Handle(n, k)})
  {
    TotalFreeUpdate(free, n, free[n] - {k});
  }

  /** A held slot is set free again. */
  lemma FreeKeepsLedger(free: seq<set<nat>>, held: set<Handle>, h: Handle)
    requires Ledger(free, held)
    requires h in held
    ensures h.node < |free| && h.slot !in free[h.node]
    ensures Ledger(free[h.node := free[h.node] + {h.slot}], held - {h})
  {
    TotalFreeUpdate(free, h.node, free[h.node] + {h.slot});
  }

  /** A new segment starts with all its slots free. */
  lemma GrowKeepsLedger(free: seq<set<nat>>, held: set<Handle>)
    requires Ledger(free, held)
    ensures Ledger(free + [AllSlots()], held)
  {
    TotalFreeAppend(free, AllSlots());
  }

  lemma FirstLedger()
    ensures Ledger([AllSlots()], {})
  {
    TotalFreeAppend([], AllSlots());
    assert [] + [AllSlots()] == [AllSlots()];
  }

  /** The segments an acquire may use: those there are, and one more when all of them are empty. */
  ghost function Supply(free: seq<set<nat>>): seq<set<nat>> {
    if TotalFree(free) == 0 then free + [AllSlots()] else free
  }

  function Without(free: seq<set<nat>>, h: Handle): seq<set<nat>>
    requires h.node < |free|
  {
    free[h.node := free[h.node] - {h.slot}]
  }

  /**
   * An acquire has handed out `h`: the least free slot of its segment, which nobody held. There is one more
   * segment than before if all were empty.
   */
  ghost predicate HandsOut(free: seq<set<nat>>, live: set<Handle>, free': seq<set<nat>>, live': set<Handle>,
      h: Handle)
  {
    && h !in live && live' == live + {h}
    && h.node < |Supply(free)| && IsLeast(h.slot, Supply(free)[h.node])
    && free' == Without(Supply(free), h)
  }

  /** A release has taken `h` back. */
  ghost predicate TakesBack(free: seq<set<nat>>, live: set<Handle>, free': seq<set<nat>>, live': set<Handle>,
      h: Handle)
  {
    && h in live && live' == live - {h}
    && h.node < |free| && h.slot !in free[h.node]
    && free' == free[h.node := free[h.node] + {h.slot}]
  }

  /** No more handles have been live than `nodes` segments hold, and more than one segment less would hold. */
  ghost predicate JustEnough(nodes: nat, live: seq<nat>) {
    && (forall i :: 0 <= i < |live| ==> live[i] <= W * nodes)
    && (nodes == 1 || exists i :: 0 <= i < |live| && live[i] > W * (nodes - 1))
  }

  /** No slot is free exactly when every segment is empty. */
  lemma NothingFree(free: seq<set<nat>>)
    ensures TotalFree(free) == 0 <==> forall n :: 0 <= n < |free| ==> free[n] == {}
  {
    SumZero(Sizes(free));
    forall n | 0 <= n < |free| ensures Sizes(free)[n] == 0 <==> free[n] == {} {}
  }

  // ---- handles in a pool used by several calls at once ----

  /** The handles that calls are giving back; `returning[t]` is that of call `t`. */
  ghost function InReturn(returning: seq<Option<Handle>>): set<Handle> {
    set t | 0 <= t < |returning| && returning[t].Some? :: returning[t].value
  }

  /** Every slot is free or held once: by a user, or by exactly one call that is giving it back. */
  ghost predicate Holders(free: seq<set<nat>>, returning: seq<Option<Handle>>, live: set<Handle>) {
    && Ledger(free, live + InReturn(returning))
    && live !! InReturn(returning)
    && forall t, u :: 0 <= t < u < |returning| && returning[t].Some? ==> returning[t] != returning[u]
  }

  lemma InReturnMember(returning: seq<Option<Handle>>, t: nat)
    requires t < |returning| && returning[t].Some?
    ensures returning[t].value in InReturn(returning)
  {
  }

  lemma InReturnUpdate(returning: seq<Option<Handle>>, t: nat, r: Option<Handle>)
    requires t < |returning|
    requires forall t, u :: 0 <= t < u < |returning| && returning[t].Some? ==> returning[t] != returning[u]
    ensures returning[t].None? && r.Some? ==> InReturn(returning[t := r]) == InReturn(returning) + {r.value}
    ensures returning[t].Some? && r.None? ==> InReturn(returning[t := r]) == InReturn(returning) - {returning[t].value}
  {
    forall u | 0 <= u < |returning| && returning[u].Some? && u != t
      ensures returning[u].value in InReturn(returning[t := r])
    {
      InReturnMember(returning[t := r], u);
    }
    if r.Some? { InReturnMember(returning[t := r], t); }
  }

  /** A release call takes over a live handle. */
  lemma ReturnKeepsHolders(free: seq<set<nat>>, returning: seq<Option<Handle>>, live: set<Handle>, t: nat, h: Handle)
    requires Holders(free, returning, live) && t < |returning| && returning[t].None? && h in live
    ensures Holders(free, returning[t := Some(h)], live - {h})
  {
    InReturnUpdate(returning, t, Some(h));
    assert live - {h} + InReturn(returning[t := Some(h)]) == live + InReturn(returning);
    forall u | 0 <= u < |returning| ensures returning[u] != Some(h) {
      if returning[u].Some? { InReturnMember(returning, u); }
    }
  }

  /** A free slot becomes a live handle, held by nobody before. */
  lemma TakeKeepsHolders(free: seq<set<nat>>, returning: seq<Option<Handle>>, live: set<Handle>, n: nat, k: nat)
    requires Holders(free, returning, live) && n < |free| && k in free[n]
    ensures Handle(n, k) !in live + InReturn(returning)
    ensures Holders(free[n := free[n] - {k}], returning, live + {Handle(n, k)})
  {
    TakeKeepsLedger(free, live + InReturn(returning), n, k);
    assert live + {Handle(n, k)} + InReturn(returning) == live + InReturn(returning) + {Handle(n, k)};
  }

  /** The call that was giving a slot back has set it free. */
  lemma FreeKeepsHolders(free: seq<set<nat>>, returning: seq<Option<Handle>>, live: set<Handle>, t: nat, h: Handle)
    requires Holders(free, returning, live) && t < |returning| && returning[t] == Some(h)
    ensures h.node < |free| && h.slot !in free[h.node]
    ensures Holders(free[h.node := free[h.node] + {h.slot}], returning[t := None], live)
  {
    InReturnUpdate(returning, t, None);
    InReturnMember(returning, t);
    FreeKeepsLedger(free, live + InReturn(returning), h);
    assert live + InReturn(returning[t := None]) == live + InReturn(returning) - {h};
  }

  lemma GrowKeepsHolders(free: seq<set<nat>>, returning: seq<Option<Handle>>, live: set<Handle>)
    requires Holders(free, returning, live)
    ensures Holders(free + [AllSlots()], returning, live)
  {
    GrowKeepsLedger(free, live + InReturn(returning));
  }

  lemma FirstHolders(returning: seq<Option<Handle>>)
    requires forall t :: 0 <= t < |returning| ==> returning[t].None?
    ensures InReturn(returning) == {} && Holders([AllSlots()], returning, {})
  {
    FirstLedger();
  }
}
