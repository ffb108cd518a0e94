/** The linear pool run by a single thread: a chain of segments, each reached through the one before. */
module LinearPools {
  import opened Slots

  class LinearPool {
    var free: seq<set<nat>>        // the segment of each node, in chain order; the next of node k is k + 1
    ghost var live: set<Handle>    // the handles that users hold

    ghost predicate Valid()
      reads this
    {
      |free| > 0 && Ledger(free, live)
    }

    constructor ()
      ensures Valid() && live == {} && |free| == 1
    {
      var slots := MakeSlots();
      free := [slots];
      live := {};
      new;
      FirstLedger();
    }

    /** size() from node `k` on; size() of the pool is that of node 0. */
    method Size(k: nat) returns (ret: nat)
      requires k < |free|
      ensures ret == TotalFree(free[k..])
      decreases |free| - k
    {
      ret := |free[k]|;
      assert Sizes(free[k..])[1..] == Sizes(free[k + 1..]);
      if k + 1 < |free| {
        var rest := Size(k + 1);
        ret := ret + rest;
      }
    }

    method Capacity(k: nat) returns (ret: nat)
      requires k < |free|
      ensures ret == W * (|free| - k)
      decreases |free| - k
    {
      ret := W;
      if k + 1 < |free| {
        var rest := Capacity(k + 1);
        ret := ret + rest;
      }
    }

    method Full(k: nat) returns (ret: bool)
      requires k < |free|
      ensures ret <==> TotalFree(free[k..]) == 0
      decreases |free| - k
    {
      ret := free[k] == {};
      assert Sizes(free[k..])[1..] == Sizes(free[k + 1..]);
      assert TotalFree(free[k..]) == |free[k]| + TotalFree(free[k + 1..]);
      if k + 1 < |free| {
        var rest := Full(k + 1);
        ret := ret && rest;
      }
    }

    /** get_or_create_node_: the node after `k`. */
    method GetOrCreateNode(k: nat) returns (next: nat)
      requires Valid() && k < |free|
      modifies this`free
      ensures Valid() && next == k + 1
      ensures free == if k + 1 < old(|free|) then old(free) else old(free) + [AllSlots()]
    {
      if k + 1 == |free| {
        GrowKeepsLedger(free, live);
        var slots := MakeSlots();
        free := free + [slots];
      }
      next := k + 1;
    }

    /** acquire_ at node `k`, reached because the segments before it are empty. */
    method AcquireAt(k: nat) returns (h: Handle)
      requires Valid() && k < |free|
      requires forall j :: 0 <= j < k ==> free[j] == {}
      modifies this
      ensures Valid()
      ensures HandsOut(old(free), old(live), free, live, h)
      ensures forall j :: 0 <= j < h.node ==> Supply(old(free))[j] == {}
      decreases if TotalFree(free) == 0 then 1 else 0, |free| - k
    {
      NothingFree(free);
      if free[k] != {} {
        var slot := Least(free[k]);
        TakeKeepsLedger(free, live, k, slot);
        h := Handle(k, slot);
        free := free[k := free[k] - {slot}];
        live := live + {h};
      } else {
        var next := GetOrCreateNode(k);
        TotalFreeAppend(old(free), AllSlots());
        h := AcquireAt(next);
      }
    }

    method Acquire() returns (h: Handle)
      requires Valid()
      modifies this
      ensures Valid()
      ensures HandsOut(old(free), old(live), free, live, h)
      ensures forall j :: 0 <= j < h.node ==> Supply(old(free))[j] == {}
    {
      h := AcquireAt(0);
    }

    /** release, called once for each live handle. */
    method Release(h: Handle)
      requires Valid() && h in live
      modifies this
      ensures Valid() && TakesBack(old(free), old(live), free, live, h)
    {
      FreeKeepsLedger(free, live, h);
      free := free[h.node := free[h.node] + {h.slot}];
      live := live - {h};
    }
  }
}
